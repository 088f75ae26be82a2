# The XP ledger, its history and its sessions

The service lets users log activities. A log moves the xp of several stats and of a global total,
floors every total at 0 and never lowers a level; a delete takes the recorded amounts back out.
Around that ledger stand a paginated history, a cached template list and rotating refresh tokens.
The project models these parts and proves what they keep over every run, not only over one call.

| files | what they hold |
|---|---|
| `Leveling.dfy` | thresholds as exact integer floors, the level search loop, the progress split |
| `Scores.dfy` | one score (xp, level) under requests: the reflection law and the high-water mark |
| `Ledger.dfy`, `Postings.dfy` | accounts, logs and templates; one log, one delete, one step, a run; what the two effect loops do |
| `LedgerInvariant.dfy`, `LedgerRuns.dfy` | the invariant and the sandwich; laws over whole runs; drift and the gap between global and stat xp |
| `LedgerPrivacy.dfy`, `LedgerOutcomes.dfy` | whose rows a call can touch, and what each call leaves behind |
| `LedgerUndo.dfy`, `LedgerExact.dfy`, `LedgerWitness.dfy` | what a delete takes back, undoing newest-first, when the ledgers stay exact, reachable counterexamples |
| `LevelReports.dfy` | the response of a log, its level-up part over runs, and what deletes leave unreported |
| `LedgerReachable.dfy` | the laws from the empty database on |
| `ActivityService.dfy` | log_activity and delete_log as methods that change tables in loops, each proved to be one ledger step |
| `RowLocks.dfy`, `CommitOrder.dfy`, `LockProgress.dfy` | log transactions interleaved at the grain select / insert / write / commit / abort, the one order that explains all rows, and what only a lock can hold up |
| `History.dfy`, `HistoryWalk.dfy`, `HistoryPage.dfy` | the filtered query, walks over pages, what one page says about the table |
| `HistoryComplete.dfy`, `HistoryMoving.dfy` | when a walk returns everything and how long it takes; walks while the ledger goes on |
| `TemplateCache.dfy`, `TemplateStaleness.dfy` | the cached id list and how stale a reader can find it |
| `Tokens.dfy`, `TokenLineage.dfy`, `TokenAcceptance.dfy` | refresh-token rotation over whole runs |
| `Sorting.dfy`, `Counting.dfy` | sorting by a key and sizes of sets, shared by the above |

How to read the model:

- Every service call is one step, except in `RowLocks.dfy` and `CommitOrder.dfy`, which show that
  for the stat rows interleaved logs come to the same as one step each. Template edits, new stats,
  clock ticks, key deletions and account suspensions are steps that may come anywhere between calls.
- The order of a template's effects is the order of its sequence, and a template names each stat
  once (the unique key at `app/models/activity.py:78`). Logs keep the amounts applied, so every law
  holds across template edits.
- Inputs from outside are parameters: the time of a log, whether a password matched. A refresh
  token's secret is its place in the token table, which makes fresh secrets fresh and unissued ones
  recognisable; e-mail addresses stand in the lower-case form in which they are stored.
- Each imperative method is proved equal to a function of the old state; the laws are lemmas about
  that function.

## Where the documents promise more than the code does

- `docs/TDD.md:457` defines global xp as the sum of all stat xp. Deletes break that:
  `LedgerWitness.GlobalFallsBehind` reaches a state with global 0 and stats 10 by three logs and a
  delete. What does hold is the sandwich in every reachable state (`LedgerReachable.ReachableSandwich`);
  equality for every user who has not deleted anything (`LedgerUndo.RunKeepsBalance`) and for every
  user none of whose live logs ever recorded a loss (`LedgerExact.GainsStayExact`), whatever templates
  and other users do; and two exact conditions. Over a whole run all three ledgers of a user stay equal
  if and only if no delete took more out of a stat row than it held (`LedgerExact.ExactIff`). A single
  delete keeps global xp equal to the stat sum if and only if every applied amount is still held by
  its row or the delete empties all rows (`LedgerRuns.DeleteKeepsBalance`).
- Requirement FR-HISTORY-4 has a delete reverse the xp of the log. However late the delete and
  whatever has happened since, this is what it does to every stat row, floored at 0; for the global
  total it is so if and only if logging did not hit the global floor (`LedgerUndo.DeleteTakesBack`).
  `LedgerWitness.UndoOvershoots` is a reachable state in which logging and deleting moves the global
  total from 0 to 10.
- Requirement FR-HISTORY-3 offers next_before as the way to the next page. A walk over the pages
  loses rows that share their time with the last row of a full page. It returns everything if and
  only if, in the filtered log table sorted by time and counted off in pages, no page end falls
  between two rows of one time; this can be read off the table before the walk and holds for every
  order in which the database may return ties (`HistoryComplete.WalkCompleteIff`).
  `HistoryWalk.TieIsLost` is the smallest case.

One more thing a reader of the code may not expect, though no document speaks of it: deleting a log
that took xp away can raise levels, and nothing reports it. `LedgerWitness.DeleteLevelsUp` reaches
such a state, `LevelReports.DeleteRaisesSilently` says when it happens, and `LevelReports.RunLevels`
counts these levels over whole runs.

## Model

| member | source | states |
|---|---|---|
| Leveling.ThresholdIsFloor | app/services/leveling.py:22-25 | a number is the threshold of level L exactly when its square is at most 10000·(L-1)³ and its successor's square is above |
| Leveling.GapAtLeast100 | app/services/leveling.py:22-25 | every level costs at least 100 xp more than the one before |
| Leveling.ThresholdStrict | app/services/leveling.py:22-25 | thresholds grow strictly, by at least 100 per level |
| Leveling.GapsAlmostGrow | app/services/leveling.py:22-25 | each gap is at least the previous gap minus 1: the curve is convex up to the floors |
| Leveling.LevelAdjoint | app/services/leveling.py:28-34 | L ≤ level of xp if and only if threshold of L ≤ xp |
| Leveling.LevelMonotone | app/services/leveling.py:28-34 | more xp never means a lower level, for negative xp too |
| Leveling.LevelBand | app/services/leveling.py:28-34 | a level is held exactly from its threshold up to below the next |
| Leveling.LevelOfThreshold | app/services/leveling.py:28-34 | the level search inverts the threshold exactly |
| Leveling.LevelIsLargestCube | app/services/leveling.py:28-34 | the level is the largest L with 10000·(L-1)³ < (xp+1)² |
| Leveling.FindLevel | app/services/leveling.py:28-34 | the loop ends with that level after level-1 turns, which are at most xp/100 and obey 10000·turns³ < (xp+1)² |
| Leveling.ProgressSplits | app/services/leveling.py:37-47 | threshold plus remainder is the (floored) xp, and the remainder is below the gap |
| Leveling.ProgressOnto | app/services/leveling.py:37-47 | every level and remainder below its gap belongs to exactly one xp |
| Leveling.ProgressKeepsOrder | app/services/leveling.py:37-47 | xp order is the lexicographic order of (level, remainder) |
| Scores.Reflection | app/services/activity_service.py:104-107 | flooring after every request leaves P_n - min(P_0..P_n), P being the running totals of the requests |
| Scores.LevelIsHighWater | app/services/activity_service.py:109-112 | the ratcheted level is the level of the highest xp ever held |
| Postings.PostTelescopes | app/services/activity_service.py:96-115 | recorded amounts equal the changes of the rows; total_applied is their sum and the change of the sum of all rows |
| Postings.PostPointwise | app/services/activity_service.py:96-112 | the loop over distinct stats is one simultaneous move of every stat it names and touches no other |
| Postings.PostShape | app/services/activity_service.py:96-115 | the loop creates exactly the missing rows of the stats it names and records one amount for each |
| Postings.UnpostPointwise | app/services/activity_service.py:220-226 | reverting takes each recorded amount out of its row, floored, and touches no other row |
| Postings.UnpostSum | app/services/activity_service.py:220-226 | reverting lowers the sum of the rows by the total less exactly what the floors gave back |
| LedgerInvariant.StepMovesStat | app/services/activity_service.py:96-226 | every step moves a stat row by its request, asked by log or delete, and by nothing else |
| LedgerInvariant.StepMovesGlobal | app/services/activity_service.py:132-229 | the same for the global total, with plus or minus the applied total |
| LedgerInvariant.StepKeepsInv | app/services/activity_service.py:68-232 | every log, delete, sign-up, new stat and template edit keeps: log totals are the sums of their effect rows, effect rows have stat rows, levels never trail xp, rows cover their live logs, and max(0, live totals) ≤ global xp ≤ sum of stat xp |
| LedgerInvariant.RunKeepsInv | app/services/activity_service.py:68-232 | all of that in every state of every run, the sandwich included |
| LedgerRuns.RunMovesStat | app/services/activity_service.py:96-226 | a row after a run is the floored, ratcheted fold of all the run asked of it |
| LedgerRuns.RunMovesGlobal | app/services/activity_service.py:132-229 | the same for the global total |
| LedgerRuns.StatReflection | app/services/activity_service.py:96-226 | over any run a new row's xp is P_n - min(P_0..P_n) of the requested deltas |
| LedgerRuns.GlobalReflection | app/services/activity_service.py:132-229 | the same for global xp, requests being plus or minus applied totals |
| LedgerRuns.StatHighWater | app/services/activity_service.py:109-226 | over any run a stat's level is the level of the highest xp the row has held |
| LedgerRuns.GlobalHighWater | app/services/activity_service.py:135-229 | the same for the global level |
| LedgerRuns.StepDrift | app/services/activity_service.py:220-226 | a row's xp above its live logs is never negative and grows only on a delete, by exactly the part of the amount the row no longer held |
| LedgerRuns.RunDrift | app/services/activity_service.py:96-226 | over any run drift grows by exactly the sum of what the row's floor gave back at the run's deletes, and never shrinks |
| LedgerRuns.LogMovesGap | app/services/activity_service.py:96-134 | a log leaves the gap between stat xp and global xp alone except by exactly what the global floor cut off |
| LedgerRuns.DeleteMovesGap | app/services/activity_service.py:220-228 | a delete moves the gap by exactly what the stat floors gave back less what the global floor did |
| LedgerRuns.RunMovesGap | app/services/activity_service.py:96-228 | over any run the gap between stat xp and global xp moves by exactly the sum of the stat floors' give-backs less the global floors' |
| LedgerRuns.DeleteKeepsBalance | app/services/activity_service.py:220-228 | from a balanced state a delete keeps global xp equal to the sum of stat xp if and only if no stat floor fires or all rows end at 0 |
| LedgerRuns.LogKeepsBalance | app/services/activity_service.py:96-134 | a log always keeps that equality, and then the global floor cannot fire |
| LedgerUndo.DeleteTakesBack | app/services/activity_service.py:215-232 | a delete at any later time takes from each stat row what its log put there, floored at 0, and from the global total likewise if and only if the log did not hit the global floor |
| LedgerUndo.LogThenDelete | app/services/activity_service.py:215-232 | deleted at once, the log table and every stat xp are back as they were, levels stay, and global xp is back if and only if the log did not hit the global floor |
| LedgerUndo.RunRaisesLevels | app/services/activity_service.py:109-229 | no stored level, stat or global, falls between any two moments of any run |
| LedgerUndo.RunKeepsBalance | app/services/activity_service.py:96-134 | as long as a user deletes nothing, the user's global xp stays the sum of stat xp, whatever others log and delete |
| LedgerUndo.UndoReplaysBackwards | app/services/activity_service.py:215-232 | a user who then deletes the own logs newest-first passes back through the own logs, every stat xp and the global xp of every earlier state, with levels at the final peak, while others log and delete in between |
| LedgerExact.StatsDecide | app/services/activity_service.py:96-137 | a user's three ledgers agree if and only if every stat row is what the live logs applied: the sandwich then leaves the global total no room |
| LedgerExact.ExactIff | app/services/activity_service.py:96-228 | over a run a user's three ledgers stay equal if and only if no delete took more out of a stat row than it held |
| LedgerExact.GainsStayExact | app/services/activity_service.py:96-228 | they stay equal as long as none of the user's live logs ever records a loss, under every delete order, any templates and any calls of others |
| LedgerExact.GainfulRunsStayExact | app/services/activity_service.py:96-228 | with a catalogue that never takes xp they stay equal for all users at once |
| LedgerPrivacy.RunIsPrivate | app/services/activity_service.py:68-232 | a run acting for other users leaves a user's account and logs exactly as they were |
| LedgerPrivacy.OnlyOwnerDeletes | app/repositories/activity_log_repo.py:91-98 | a log is found for deletion by its owner and by nobody else |
| LedgerPrivacy.RowsKeepIds | app/repositories/activity_log_repo.py:26-40 | no run changes a log row or brings a new row under an old id |
| LedgerWitness.GlobalFallsBehind | docs/TDD.md:457 | a reachable balanced state that one delete leaves with global xp 0 and stat xp 10 |
| LedgerWitness.UndoOvershoots | app/services/activity_service.py:228 | a reachable state in which logging and deleting at once moves global xp from 0 to 10 |
| LedgerWitness.DeleteLevelsUp | app/services/activity_service.py:224-229 | a reachable state at level 1 that deleting a loss takes to level 2, on the stat and globally |
| LedgerReachable.ReachableIsConsistent | app/services/activity_service.py:68-232 | every state reachable from the empty database satisfies the invariant and has no log row twice |
| LedgerReachable.ReachableSandwich | app/services/activity_service.py:96-229 | in every reachable state max(0, live totals) ≤ global xp ≤ sum of stat xp, and rows cover their live logs |
| LedgerReachable.ScoresFromEmpty | app/services/activity_service.py:96-229 | from the empty database on, xp is P_n - min(P_0..P_n) and levels are those of the peaks, stat and global |
| LedgerReachable.ExactFromEmpty | app/services/activity_service.py:96-228 | in every reachable state the three ledgers agree exactly for every user none of whose live logs ever recorded a loss |
| LedgerReachable.AllExactFromEmpty | app/services/activity_service.py:96-228 | if templates have only ever given xp, they agree exactly for all users in every reachable state |
| LedgerReachable.UndoFromEmpty | app/services/activity_service.py:96-232 | before a user's first delete the user's global xp is the sum of stat xp, and newest-first deletes lead back to every earlier xp, whatever others do |
| LedgerReachable.LevelsFromEmpty | app/services/activity_service.py:109-229 | in every reachable state a level is 1 plus the gains reported plus those deletes added in silence |
| LedgerReachable.ReachableWalks | app/services/activity_service.py:163-213 | over every reachable log table a walk misses nothing if and only if no page end falls between rows of one time |
| LedgerOutcomes.LogOutcome | app/services/activity_service.py:68-145 | a log is refused, changing nothing, exactly when the template is missing or disabled or the quantity out of range; otherwise it appends one log under a new id that accounts for every change of the user's rows |
| LedgerOutcomes.DeleteOutcome | app/services/activity_service.py:215-232 | a delete removes exactly the user's log of that id, keeps the rest in order, and repeating it changes nothing |
| LedgerOutcomes.LogRefusals | app/services/activity_service.py:73-86 | which error a log answers with, in which case, and the quantity an accepted one counts |
| LedgerOutcomes.CallsKeepCatalogue | app/services/activity_service.py:68-232 | logs and deletes leave stats, templates and other accounts alone, and give rows to the logged template's stats and no others |
| LedgerOutcomes.RegisterOutcome | app/services/user_service.py:28-33 | a sign-up gives the account exactly one row per stat, at xp 0 and level 1, and changes nothing else |
| LedgerOutcomes.CatalogueOutcome | app/models/activity.py:33-100 | template and stat edits do what they say and touch no account and no log; a template a log refers to cannot be dropped |
| LevelReports.ReportCountsThresholds | app/services/activity_service.py:109-129 | a level-up is reported if and only if the next threshold is reached; levels_gained counts the thresholds reached above the old level |
| LevelReports.ReportLevelAgainstProgress | app/services/activity_service.py:109-129 | the reported level is at least the progress level, and equal if and only if xp reaches the reported level's threshold |
| LevelReports.ReportsDescribeRows | app/services/activity_service.py:117-130 | the i-th report is about the i-th effect's stat and describes the move its row made |
| LevelReports.ReplyTellsTheStep | app/services/activity_service.py:117-161 | the response names the id and total of the row stored, which a delete finds again; its effects are the row's in order; every xp and level, stat and global, is the one stored, with the level before and the way to the next threshold |
| LevelReports.RunGainsTelescope | app/services/activity_service.py:109-129 | over delete-free runs a stat's reported gains add up to its final minus its initial level |
| LevelReports.RunGlobalGainsTelescope | app/services/activity_service.py:135-160 | the same for the reported global gains |
| LevelReports.RunLevels | app/services/activity_service.py:109-229 | over every run, deletes included, a stat or global level rises by the gains reported plus the levels deletes added in silence |
| LevelReports.DeleteRaisesSilently | app/services/activity_service.py:224-229 | a delete raises a stat's level, or the global level, exactly when the xp left reaches the next threshold |
| ActivityService.Service.ApplyEffect | app/services/activity_service.py:98-130 | one turn of the log loop locks or creates one row, moves it and reports the move |
| ActivityService.Service.ApplyEffects | app/services/activity_service.py:92-130 | the loop leaves the rows, the total, the recorded effects and the reports that the posting function gives |
| ActivityService.Service.LogActivity | app/services/activity_service.py:68-161 | the method is one step of the ledger, with the response that LevelReports.ReplyTellsTheStep is about, or the error of LedgerOutcomes.LogRefusals |
| ActivityService.Service.RevertEffects | app/services/activity_service.py:220-226 | the loop takes the recorded amounts out of the rows, skipping missing ones |
| ActivityService.Service.DeleteLog | app/services/activity_service.py:215-232 | the method is one step of the ledger and fails exactly when the user owns no such log |
| ActivityService.Service.Register | app/services/user_service.py:28-33 | sign-up adds one new row per stat and is one step of the ledger |
| RowLocks.NextKeeps | app/repositories/user_stat_repo.py:29-35 | each select, insert, write, commit and abort keeps lock ownership, pending values and committed rows in agreement |
| RowLocks.EveryInterleavingIsSerial | app/services/activity_service.py:98-107 | in any interleaving a committed row is the floored fold of its committed grants in that row's lock order, and its xp the sum of the recorded amounts |
| CommitOrder.RequestsAreBegun | app/services/activity_service.py:96-98 | every transaction carries exactly the requests it was begun with |
| CommitOrder.OneOrderForAllRows | app/services/activity_service.py:96-147 | in any interleaving all stat rows together are as if the committed transactions had done what they were begun with one after the other in the order of their commits |
| CommitOrder.LockOrderIsCommitOrder | app/repositories/user_stat_repo.py:29-35 | on every row the committed grants in lock order are what the committed transactions were begun with, in commit order |
| CommitOrder.CommitOfRun | app/services/activity_service.py:104-115 | a commit moves each row by what its transaction asked, and the amounts it recorded are those moves |
| CommitOrder.OrderIsCommitted | app/services/activity_service.py:147 | that order names every committed transaction once and no other |
| RowLocks.LocksAreExclusive | app/models/user_stat.py:14 | no two live transactions hold one row, rows created on the way included |
| LockProgress.AloneItCommits | app/services/activity_service.py:96-147 | from any state in which nobody holds its rows a new transaction can run to its commit, and moves exactly the rows it names by the deltas named |
| LockProgress.FreeRowIsGranted | app/repositories/user_stat_repo.py:29-35 | a select of a free committed row is granted, with the score the row has |
| LockProgress.MissingRowIsInserted | app/services/activity_service.py:98-102 | a missing row with a free key is inserted as a new score |
| LockProgress.TakenKeyAborts | app/models/user_stat.py:14 | an insert whose key is taken aborts the transaction |
| LockProgress.AbortReleases | app/repositories/user_stat_repo.py:29-35 | an abort gives up all locks and leaves committed rows alone |
| LockProgress.AbortIsFinal | app/services/activity_service.py:147 | an aborted transaction never commits |
| History.ListForUserIsListing | app/repositories/activity_log_repo.py:52-71 | the query returns wanted rows newest first, none twice, and leaves a wanted row out only for a full page of rows at least as new |
| History.SelectWanted | app/repositories/activity_log_repo.py:62-69 | the filter keeps exactly the rows that match user, template, time range and cursor, and repeats none the table does not repeat |
| HistoryPage.FiltersCombine | app/repositories/activity_log_repo.py:59-69 | user, template, both ends of the time range and the cursor are honoured together |
| HistoryPage.WindowsSplit | app/repositories/activity_log_repo.py:84-87 | windows that meet without gap or overlap share the count of their union: both ends belong to a window |
| HistoryPage.CountIsMatching | app/repositories/activity_log_repo.py:73-89 | the count is the number of matching rows, wherever the cursor stands |
| HistoryPage.PageIsRight | app/services/activity_service.py:173-213 | in any order of ties, a page lists wanted rows newest first up to the limit, counts all matching rows, and has next_before, the time of its last item, exactly when a wanted row is missing |
| HistoryPage.HistoryIsRight | app/services/activity_service.py:163-213 | get_history itself gives such a page |
| HistoryWalk.HasMoreIsExact | app/services/activity_service.py:173-182 | has_more is true if and only if a wanted row is missing from the page |
| HistoryWalk.WalkIsOrdered | app/services/activity_service.py:173-213 | following next_before never repeats a row and stays newest-first across pages |
| HistoryWalk.MissedAtTornPage | app/repositories/activity_log_repo.py:62-63 | every row a walk misses has the time of a cursor it used |
| HistoryWalk.TornPageMisses | app/repositories/activity_log_repo.py:62-63 | a page end between two rows of one time loses the second of them for good |
| HistoryWalk.CompleteIffUntorn | app/repositories/activity_log_repo.py:62-63 | a walk returns every wanted row if and only if no page it fetched is cut between rows of one time |
| HistoryComplete.WalkCompleteIff | app/services/activity_service.py:163-213 | a walk, in any order of ties, returns every wanted row if and only if no page end falls between rows of one time in the filtered, sorted table |
| HistoryComplete.FetchTimes | app/repositories/activity_log_repo.py:52-71 | whatever the order of ties, a fetch shows the times of the whole sorted answer place by place |
| HistoryComplete.WalksEnd | app/services/activity_service.py:173-213 | in any order of ties, a walk that has made n follow-ups had more than n·limit wanted rows, so every walk ends |
| HistoryWalk.WalkIsSortedHistory | app/services/activity_service.py:173-213 | with distinct times a walk returns exactly the filtered, sorted log list, and as many rows as total says |
| HistoryWalk.EarlierPagesFull | app/services/activity_service.py:181-182 | every page but the last holds limit rows |
| HistoryComplete.WalkIsWalk | app/services/activity_service.py:163-213 | following get_history's own next_before ends, and the pages are those of a walk |
| HistoryComplete.WalkShows | app/services/activity_service.py:163-213 | what those pages show is wanted, newest first, without repeats, and complete if and only if no page end falls between rows of one time |
| HistoryMoving.RunAgrees | app/repositories/activity_log_repo.py:62-71 | a ledger run that logs nothing for the user before the cursor and deletes none of the user's rows below it leaves every wanted row below it in place |
| HistoryMoving.MovingWalkIsWalk | app/services/activity_service.py:173-213 | whatever such runs happen between requests, the pages are those of a walk over the table the first request saw |
| HistoryMoving.DeliveredIsAbove | app/services/activity_service.py:207 | every row delivered so far lies at or above the current cursor |
| HistoryMoving.DeliveredMayBeDeleted | app/services/activity_service.py:207 | so deleting a delivered row, at any later time, is one of the steps that change no later page |
| HistoryWalk.TieIsLost | app/repositories/activity_log_repo.py:62-63 | two logs of one time read with limit 1: the second is never returned |
| TemplateCache.TemplateService.ListTemplates | app/services/activity_service.py:49-63 | the method returns what the cached ids or the query give and writes the key only when it queried |
| TemplateCache.TemplateService.InvalidateTemplatesCache | app/services/activity_service.py:65-66 | deletes the key and nothing else |
| TemplateStaleness.ListEnabledIsListing | app/repositories/activity_repo.py:16-23 | exactly the enabled rows, each once, by title |
| TemplateStaleness.ListByIdsIsListing | app/repositories/activity_repo.py:25-32 | exactly the rows with a wanted id, enabled or not, each once, by title |
| TemplateStaleness.LengthsTell | app/services/activity_service.py:51-54 | the length comparison succeeds if and only if every cached id still has a row |
| TemplateStaleness.ServedIsCurrent | app/services/activity_service.py:49-63 | whatever the key holds, only rows of the present table are shown, never a deleted template |
| TemplateStaleness.ServedIds | app/services/activity_service.py:49-63 | which ids a read shows and what it leaves in the key, hit or miss |
| TemplateStaleness.ServedMayServe | app/services/activity_service.py:49-63 | what the model's read returns is a right answer to the query it ran |
| TemplateStaleness.AgreesIff | app/services/activity_service.py:49-63 | whatever a read may show, in any order of equal titles, is a right answer to list_enabled if and only if the read misses the cache or the cached ids are still the enabled ones |
| TemplateStaleness.KeyHasAMoment | app/services/activity_service.py:57-62 | in any run the key holds the enabled ids of one earlier read and that moment's clock plus the lifetime, and has not been deleted since |
| TemplateStaleness.BoundedStaleness | app/services/activity_service.py:37-63 | after any run of edits, deletions, key deletions, ticks and reads, the ids shown were the enabled ones at a moment less than 300 seconds ago and after the last key deletion |
| TemplateStaleness.InvalidatedReadIsRight | app/services/activity_service.py:65-66 | after an invalidation and any edits, whatever the next read may show is a right answer to list_enabled of the table as it then is |
| TemplateStaleness.EditOutcome | app/admin/hooks.py:17-18 | edits, time and invalidation do what they say and nothing else: an invalidation removes the key |
| TemplateStaleness.QuietMeansExact | app/services/activity_service.py:37-63 | if the enabled ids were the same at every moment of the last 300 seconds since the key was last deleted, whatever a read may show is a right answer to list_enabled |
| TemplateStaleness.FrozenUntilInvalidated | app/admin/hooks.py:17-31 | from the read that wrote the key until the key is deleted, runs out or loses a row, a template is shown, as it is by then, if and only if it was enabled at that read |
| Tokens.AuthService.Register | app/services/auth_service.py:49-65 | the method is the register step, whose account and session TokenAcceptance.RegisterCreates describes |
| Tokens.AuthService.Login | app/services/auth_service.py:67-78 | the method is the login step |
| Tokens.AuthService.Refresh | app/services/auth_service.py:80-97 | the method is the refresh step |
| Tokens.AuthService.Logout | app/services/auth_service.py:99-107 | the method is the logout step |
| Tokens.AuthService.LogoutAll | app/services/auth_service.py:109-111 | the method is the step that revokes all tokens of a user |
| Tokens.AuthService.IssueTokens | app/services/auth_service.py:113-120 | appends one unrevoked token with the full lifetime under a new secret |
| TokenLineage.RunKeepsTable | app/services/auth_service.py:49-127 | in any run tokens belong to accounts, expire within the lifetime, and all but the newest of each chain are revoked |
| TokenLineage.ChainHasOneLiveToken | app/services/auth_service.py:93-94 | of two tokens of one chain the older is revoked and both are the same user's |
| TokenLineage.SpentAtMostOnce | app/repositories/refresh_token_repo.py:28-41 | no token is accepted twice over any run, and an accepted one stays revoked |
| TokenLineage.UnrevokedAreSessions | app/services/auth_service.py:56-111 | a user's unrevoked tokens are as many as sign-ins since the last logout everywhere less the logouts that found an active token |
| TokenLineage.LogoutAllEndsEverySession | app/services/auth_service.py:109-111 | after a logout everywhere every earlier token of the user is refused for ever |
| TokenLineage.ReplayIsRefused | app/services/auth_service.py:83-93 | a token that a refresh has spent is refused for ever after |
| TokenLineage.IdleSessionsEnd | app/core/config.py:29 | once seven days have passed with no request, every token is refused |
| TokenAcceptance.RegisterRefuses | app/services/auth_service.py:50-54 | registration refuses exactly the addresses and names in use |
| TokenAcceptance.RegisterCreates | app/services/auth_service.py:56-65 | a sign-up adds one active account under its address and name, leaves the others alone, and its token and reply are that account's, as is a later login with the address |
| TokenAcceptance.Refusals | app/services/auth_service.py:51-91 | which request is refused with which error, and a refused one changes nothing |
| TokenAcceptance.RequestsKeep | app/services/auth_service.py:49-127 | accounts change by sign-ups and suspensions only, the clock by time only, old tokens by revocation only; a new token is the replied user's with the full lifetime |
| TokenAcceptance.RunKeepsAccounts | app/services/auth_service.py:50-60 | no run makes two accounts share an address or a name |
| TokenAcceptance.LoginSucceedsIff | app/services/auth_service.py:67-75 | a login issues a token for an account if and only if the account has the address and is active and the password was right |
| TokenAcceptance.HandleEnds | app/services/auth_service.py:93-111 | a request revokes a token exactly if it rotates it, signs it out or logs its user out everywhere |
| TokenAcceptance.EveryTokenHasALife | app/services/auth_service.py:113-120 | every token was issued by one request to its user with its lifetime from then, and is revoked exactly if a request of the run ended it |
| TokenAcceptance.RefreshSucceedsIff | app/services/auth_service.py:80-97 | a refresh succeeds if and only if the token was issued less than seven days ago to an account active now and nothing has ended it |

## Left out

- Leveling.ThresholdIsFloor: states the documented exact floor; binary rounding of `** 1.5` for huge levels and the 32-bit width of the xp columns are not modelled.
- CommitOrder.OneOrderForAllRows: says nothing of `global_xp`, the log row or the token row, which are read without a lock, so overlapping requests can overwrite one another's global total; everything outside `RowLocks.dfy` and `CommitOrder.dfy` takes a service call as one step.
- RowLocks.NextKeeps: covers log transactions only; deletes take the same row locks but also change the unlocked log row.
- ActivityService.Service.LogActivity: rows and users are values in maps that the methods reassign; identity and aliasing of ORM objects are not captured.
- ActivityService.Service.Register: covers the stat rows of a sign-up; the account itself is modelled with the tokens.
- TemplateCache.TemplateService.ListTemplates: the query and the writing of the key are one step, so an invalidation that falls between them is not modelled.
- History.ListForUserIsListing: rows of one time come in one fixed order here; the walk theorems themselves hold for any order a database may choose.
- Tokens.AuthService.Register: addresses are taken in their stored form; lower-casing and stripping are not modelled.
- Password hashing, JWTs, CSRF tokens and cookies: foreign calls, present only as their outcome.
- SQLAlchemy, Postgres and Redis themselves, and the timing of the asynchronous invalidation hooks beyond "the key may vanish at any moment".
- Admin edits of stats, stat rows and users, and the cascades of their deletion: they bypass the ledger.
- Title, icon and description in history entries, the onboarding flag, routers, rate limits, configuration, logging, migrations and schemas: plain copying or one-branch facts.
