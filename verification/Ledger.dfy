/**
  The XP ledger as a state machine: the stat rows, the global totals and the activity logs of
  every user, the templates, and the steps that change them (app/services/activity_service.py).
 */
module Ledger {
  import opened Leveling
  import opened Scores

  // Database keys. Only equality between them matters.
  type UserId = nat
  type StatId = nat
  type TemplateId = nat
  type LogId = nat

  datatype Option<T> = None | Some(value: T)
  datatype Result<T> = Ok(value: T) | Err(error: Error)
  datatype Error = TemplateNotFound | TemplateDisabled | QuantityOutOfRange | LogNotFound

  // ---------------------------------------------------------------- rows

  /** A stat and an amount of xp: on a template the change per unit, on a log the amount that
      was really applied. */
  datatype Effect = Effect(statId: StatId, xp: int)

  datatype InputType = Binary | Quantity

  datatype Template = Template(
    enabled: bool, inputType: InputType, minQuantity: int, maxQuantity: int, effects: seq<Effect>)

  datatype Account = Account(stats: map<StatId, Score>, global: Score)

  datatype ActivityLog = ActivityLog(
    id: LogId, user: UserId, templateId: TemplateId, quantity: int,
    total: int, effects: seq<Effect>, createdAt: int)

  datatype Db = Db(
    statIds: set<StatId>,
    templates: map<TemplateId, Template>,
    accounts: map<UserId, Account>,
    logs: seq<ActivityLog>,
    nextLogId: LogId)

  const EMPTY_DB := Db({}, map[], map[], [], 0)

  // ---------------------------------------------------------------- effects

  function Ids(effects: seq<Effect>): set<StatId> {
    if effects == [] then {}
    else Ids(effects[..|effects| - 1]) + {effects[|effects| - 1].statId}
  }

  /** No stat is named twice (the unique key on template and stat). */
  predicate Distinct(effects: seq<Effect>) {
    effects == []
    || (effects[|effects| - 1].statId !in Ids(effects[..|effects| - 1])
        && Distinct(effects[..|effects| - 1]))
  }

  /** What a list of effects says about one stat. */
  function AmountOn(effects: seq<Effect>, s: StatId): int {
    if effects == [] then 0
    else
      var last := effects[|effects| - 1];
      AmountOn(effects[..|effects| - 1], s) + if last.statId == s then last.xp else 0
  }

  function SumAmounts(effects: seq<Effect>): int {
    if effects == [] then 0
    else SumAmounts(effects[..|effects| - 1]) + effects[|effects| - 1].xp
  }

  // ---------------------------------------------------------------- reading scores

  /** The row of a stat, or the row that would be created for it on first use. */
  function ScoreOf(stats: map<StatId, Score>, s: StatId): Score {
    if s in stats then stats[s] else NEW_SCORE
  }

  function AccountOf(db: Db, u: UserId): Account {
    if u in db.accounts then db.accounts[u] else Account(map[], NEW_SCORE)
  }

  function StatScore(db: Db, u: UserId, s: StatId): Score {
    ScoreOf(AccountOf(db, u).stats, s)
  }

  function GlobalScore(db: Db, u: UserId): Score {
    AccountOf(db, u).global
  }

  // ---------------------------------------------------------------- logging

  function EffectiveQuantity(
    templates: map<TemplateId, Template>, templateId: TemplateId, quantity: int): Result<int>
  {
    if templateId !in templates then Err(TemplateNotFound)
    else
      var t := templates[templateId];
      if !t.enabled then Err(TemplateDisabled)
      else if t.inputType.Binary? then Ok(1)
      else if !(t.minQuantity <= quantity <= t.maxQuantity) then Err(QuantityOutOfRange)
      else Ok(quantity)
  }

  /** How the response describes one score before and after the log. */
  datatype Report = Report(
    xp: int, level: int, leveledUp: bool, previousLevel: int, levelsGained: int,
    xpIntoLevel: int, xpForNext: int)

  function ReportMove(before: Score, after: Score): Report {
    var p := ProgressOf(after.xp);
    Report(after.xp, after.level, after.level > before.level, before.level,
           after.level - before.level, p.xpIntoLevel, p.xpForNext)
  }

  datatype AppliedEffect = AppliedEffect(statId: StatId, xpApplied: int, report: Report)

  datatype LogResponse = LogResponse(
    logId: LogId, total: int, applied: seq<AppliedEffect>, global: Report)

  /** The running values of the loop over a template's effects. */
  datatype Posting = Posting(stats: map<StatId, Score>, total: int, effects: seq<Effect>)

  function Post(stats: map<StatId, Score>, effects: seq<Effect>, quantity: int): Posting {
    if effects == [] then Posting(stats, 0, [])
    else
      var last := effects[|effects| - 1];
      PostOne(Post(stats, effects[..|effects| - 1], quantity), last.statId, last.xp * quantity)
  }

  function PostOne(p: Posting, s: StatId, rawDelta: int): Posting {
    var before := ScoreOf(p.stats, s);
    var after := Bump(before, rawDelta);
    var delta := after.xp - before.xp;
    Posting(p.stats[s := after], p.total + delta, p.effects + [Effect(s, delta)])
  }

  /** What the same loop reports, effect by effect. */
  function PostReports(stats: map<StatId, Score>, effects: seq<Effect>, quantity: int): seq<AppliedEffect> {
    if effects == [] then []
    else
      var n := |effects| - 1;
      var before := ScoreOf(Post(stats, effects[..n], quantity).stats, effects[n].statId);
      var after := Bump(before, effects[n].xp * quantity);
      PostReports(stats, effects[..n], quantity)
        + [AppliedEffect(effects[n].statId, after.xp - before.xp, ReportMove(before, after))]
  }

  /** The state after an accepted log of `quantity` units of a template. */
  function Logged(db: Db, u: UserId, templateId: TemplateId, quantity: int, now: int): Db
    requires u in db.accounts && templateId in db.templates
  {
    var a := db.accounts[u];
    var p := Post(a.stats, db.templates[templateId].effects, quantity);
    var row := ActivityLog(db.nextLogId, u, templateId, quantity, p.total, p.effects, now);
    db.(accounts := db.accounts[u := Account(p.stats, Bump(a.global, p.total))],
        logs := db.logs + [row],
        nextLogId := db.nextLogId + 1)
  }

  function LogReply(db: Db, u: UserId, templateId: TemplateId, quantity: int): LogResponse
    requires u in db.accounts && templateId in db.templates
  {
    var a := db.accounts[u];
    var effects := db.templates[templateId].effects;
    var total := Post(a.stats, effects, quantity).total;
    LogResponse(db.nextLogId, total, PostReports(a.stats, effects, quantity),
                ReportMove(a.global, Bump(a.global, total)))
  }

  // ---------------------------------------------------------------- deleting

  /** The position of the user's own log with this id. */
  function FindOwned(logs: seq<ActivityLog>, u: UserId, id: LogId): (found: Option<nat>)
    ensures found.Some? ==> found.value < |logs|
                            && logs[found.value].id == id && logs[found.value].user == u
    ensures found.None? ==> forall i | 0 <= i < |logs| :: !(logs[i].id == id && logs[i].user == u)
  {
    if logs == [] then None
    else
      var n := |logs| - 1;
      if logs[n].id == id && logs[n].user == u then Some(n)
      else FindOwned(logs[..n], u, id)
  }

  /** Take a log's applied amounts back out of the stat rows; a missing row is skipped. */
  function Unpost(stats: map<StatId, Score>, effects: seq<Effect>): map<StatId, Score> {
    if effects == [] then stats
    else
      var rest := Unpost(stats, effects[..|effects| - 1]);
      UnpostOne(rest, effects[|effects| - 1])
  }

  function UnpostOne(stats: map<StatId, Score>, effect: Effect): map<StatId, Score> {
    if effect.statId !in stats then stats
    else stats[effect.statId := Bump(stats[effect.statId], -effect.xp)]
  }

  function WithoutLog(logs: seq<ActivityLog>, i: nat): seq<ActivityLog>
    requires i < |logs|
  {
    logs[..i] + logs[i + 1..]
  }

  /** The state after the user's log at position `i` has been deleted. */
  function Deleted(db: Db, u: UserId, i: nat): Db
    requires u in db.accounts && i < |db.logs|
  {
    var a := db.accounts[u];
    var row := db.logs[i];
    db.(accounts := db.accounts[u := Account(Unpost(a.stats, row.effects), Bump(a.global, -row.total))],
        logs := WithoutLog(db.logs, i))
  }

  // ---------------------------------------------------------------- steps and runs

  /** Log and Delete are the service calls. The others are what happens around them: sign-ups,
      new stats (without a backfill of rows), and template edits by an admin. */
  datatype Op =
    | Log(user: UserId, templateId: TemplateId, quantity: int, now: int)
    | Delete(user: UserId, logId: LogId)
    | Register(user: UserId)
    | AddStat(statId: StatId)
    | SaveTemplate(templateId: TemplateId, template: Template)
    | DropTemplate(templateId: TemplateId)

  /** The constraints the template tables enforce. */
  ghost predicate ValidTemplate(t: Template, statIds: set<StatId>) {
    && 1 <= t.minQuantity <= t.maxQuantity <= 10000
    && Distinct(t.effects)
    && Ids(t.effects) <= statIds
  }

  /** A template that a log refers to cannot be dropped. */
  ghost predicate Referenced(db: Db, templateId: TemplateId) {
    exists i | 0 <= i < |db.logs| :: db.logs[i].templateId == templateId
  }

  function FreshAccount(statIds: set<StatId>): Account {
    Account(map s | s in statIds :: NEW_SCORE, NEW_SCORE)
  }

  ghost function Step(db: Db, op: Op): Db {
    match op
    case Log(u, t, q, now) =>
      if u !in db.accounts then db
      else (match EffectiveQuantity(db.templates, t, q)
            case Err(_) => db
            case Ok(quantity) => Logged(db, u, t, quantity, now))
    case Delete(u, id) =>
      if u !in db.accounts then db
      else (match FindOwned(db.logs, u, id)
            case None => db
            case Some(i) => Deleted(db, u, i))
    case Register(u) =>
      if u in db.accounts then db
      else db.(accounts := db.accounts[u := FreshAccount(db.statIds)])
    case AddStat(s) => db.(statIds := db.statIds + {s})
    case SaveTemplate(t, template) =>
      if ValidTemplate(template, db.statIds) then db.(templates := db.templates[t := template]) else db
    case DropTemplate(t) =>
      if Referenced(db, t) then db else db.(templates := db.templates - {t})
  }

  ghost function Run(db: Db, ops: seq<Op>): Db {
    if ops == [] then db
    else Step(Run(db, ops[..|ops| - 1]), ops[|ops| - 1])
  }
}
