/**
  What deletes undo: the delete of one log, at once or late, and of all own logs newest-first.
 */
module LedgerUndo {
  import opened Leveling
  import opened Scores
  import opened Ledger
  import opened Postings
  import opened LedgerInvariant
  import opened LedgerRuns
  import opened LedgerPrivacy

  // ---------------------------------------------------------------- one log and its delete

  /** A log moves each row by exactly the amount it records, and never lowers a level. */
  lemma LoggedMovesByRecord(
      db: Db, u: UserId, t: TemplateId, quantity: int, now: int, v: UserId, s: StatId)
    requires AccountsOk(db) && u in db.accounts && t in db.templates && Distinct(db.templates[t].effects)
    ensures var logged := Logged(db, u, t, quantity, now);
            && StatScore(logged, v, s).xp == StatScore(db, v, s).xp + ShareOn(logged.logs[|db.logs|], v, s)
            && StatScore(logged, v, s).level >= StatScore(db, v, s).level
  {
    PostTelescopes(db.accounts[u].stats, db.templates[t].effects, quantity, s);
    LoggedScores(db, u, t, quantity, now, v, s);
  }

  lemma NewestFound(logs: seq<ActivityLog>)
    requires logs != []
    ensures var n := |logs| - 1;
            && FindOwned(logs, logs[n].user, logs[n].id) == Some(n)
            && WithoutLog(logs, n) == logs[..n]
  {
  }

  /** Reverting a row's newest entry returns the row to its earlier xp without moving its level. */
  lemma RevertsTo(earlier: Score, db: Db, i: nat, v: UserId, s: StatId)
    requires i < |db.logs| && Coherent(db, db.logs[i])
    requires ValidScore(earlier) && earlier.level <= StatScore(db, v, s).level
    requires StatScore(db, v, s).xp == earlier.xp + ShareOn(db.logs[i], v, s)
    ensures StatScore(Deleted(db, db.logs[i].user, i), v, s) == Score(earlier.xp, StatScore(db, v, s).level)
  {
    var u := db.logs[i].user;
    DeletedScores(db, u, i, v, s);
    if v == u && s !in Ids(db.logs[i].effects) {
      AmountOnAbsent(db.logs[i].effects, s);
    }
  }

  lemma ThereAndBack(score: Score, delta: int)
    requires 0 <= score.xp
    ensures Bump(Bump(score, delta), -delta).xp == Max(score.xp, -delta)
  {
  }

  lemma {:induction false} LoggedIsCoherent(db: Db, u: UserId, t: TemplateId, quantity: int, now: int)
    requires Inv(db) && u in db.accounts && t in db.templates
    ensures var logged := Logged(db, u, t, quantity, now);
            Coherent(logged, logged.logs[|db.logs|]) && Distinct(db.templates[t].effects)
  {
    assert ValidTemplate(db.templates[t], db.statIds);
    LoggedKeepsLogs(db, u, t, quantity, now);
  }

  lemma GlobalThereAndBack(db: Db, u: UserId, t: TemplateId, quantity: int, now: int)
    requires Inv(db) && u in db.accounts && t in db.templates
    ensures var total := Post(db.accounts[u].stats, db.templates[t].effects, quantity).total;
            GlobalScore(Deleted(Logged(db, u, t, quantity, now), u, |db.logs|), u).xp
            == Max(GlobalScore(db, u).xp, -total)
  {
    hide Post, Unpost, Bump;
    ScoresValid(db, u, 0);
    var total := Post(db.accounts[u].stats, db.templates[t].effects, quantity).total;
    ThereAndBack(GlobalScore(db, u), total);
  }

  /** Deleting a log straight away brings every stat row of every user back to its xp, whatever
      was floored, and leaves the stat levels where the log put them.  The global total comes
      back exactly when logging did not hit the global floor. */
  lemma LogThenDelete(
      db: Db, u: UserId, t: TemplateId, quantity: int, now: int, v: UserId, s: StatId)
    requires Inv(db) && u in db.accounts && t in db.templates
    ensures var total := Post(db.accounts[u].stats, db.templates[t].effects, quantity).total;
            var logged := Logged(db, u, t, quantity, now);
            var undone := Step(logged, Delete(u, db.nextLogId));
            && undone.logs == db.logs
            && StatScore(undone, v, s) == Score(StatScore(db, v, s).xp, StatScore(logged, v, s).level)
            && GlobalScore(undone, u).xp == Max(GlobalScore(db, u).xp, -total)
            && (GlobalScore(undone, u).xp == GlobalScore(db, u).xp <==> 0 <= GlobalScore(db, u).xp + total)
  {
    hide Inv, Post, Unpost, Bump;
    var logged := Logged(db, u, t, quantity, now);
    var n := |db.logs|;
    LoggedIsCoherent(db, u, t, quantity, now);
    NewestFound(logged.logs);
    assert Step(logged, Delete(u, db.nextLogId)) == Deleted(logged, u, n);
    assert AccountsOk(db) by { InvAccounts(db); }
    LoggedMovesByRecord(db, u, t, quantity, now, v, s);
    ScoresValid(db, v, s);
    RevertsTo(StatScore(db, v, s), logged, n, v, s);
    GlobalThereAndBack(db, u, t, quantity, now);
  }

  lemma InvAccounts(db: Db)
    requires Inv(db)
    ensures AccountsOk(db) && TemplatesOk(db)
  {
  }

  /** The change that logging made to the user's global total. */
  ghost function PutGlobal(db: Db, u: UserId, t: TemplateId, quantity: int, now: int): int
    requires u in db.accounts && t in db.templates
  {
    GlobalScore(Logged(db, u, t, quantity, now), u).xp - GlobalScore(db, u).xp
  }

  /** And the change it made to one of the user's stat rows. */
  ghost function PutStat(db: Db, u: UserId, t: TemplateId, quantity: int, now: int, s: StatId): int
    requires u in db.accounts && t in db.templates
  {
    StatScore(Logged(db, u, t, quantity, now), u, s).xp - StatScore(db, u, s).xp
  }

  /** However late a log is found again, it is the row that was logged. */
  lemma {:induction false} FoundAgain(
      db: Db, u: UserId, t: TemplateId, quantity: int, now: int, ops: seq<Op>)
    requires Inv(db) && u in db.accounts && t in db.templates
    requires FindOwned(Run(Logged(db, u, t, quantity, now), ops).logs, u, db.nextLogId).Some?
    ensures var later := Run(Logged(db, u, t, quantity, now), ops);
            var i := FindOwned(later.logs, u, db.nextLogId).value;
            && later.logs[i] == Logged(db, u, t, quantity, now).logs[|db.logs|]
            && Inv(later) && Coherent(later, later.logs[i]) && u in later.accounts
            && Step(later, Delete(u, db.nextLogId)) == Deleted(later, u, i)
  {
    hide Run, Post, Unpost, Bump, Sandwiched, StatCovers;
    var logged := Logged(db, u, t, quantity, now);
    var later := Run(logged, ops);
    var i := FindOwned(later.logs, u, db.nextLogId).value;
    LogStepKeeps(db, u, t, quantity, now);
    RunKeepsInv(logged, ops);
    RowsKeepIds(logged, ops);
    assert Coherent(later, later.logs[i]);
    SameRow(logged, logged.logs[|db.logs|], later.logs[i]);
  }

  /** A delete, however late and whatever has happened since, takes back from every stat row what
      its log put there, floored at 0.  From the global total it takes back what the log put there
      if and only if logging did not hit the global floor. */
  lemma {:induction false} DeleteTakesBack(
      db: Db, u: UserId, t: TemplateId, quantity: int, now: int, ops: seq<Op>, s: StatId)
    requires Inv(db) && u in db.accounts && t in db.templates
    requires FindOwned(Run(Logged(db, u, t, quantity, now), ops).logs, u, db.nextLogId).Some?
    ensures var total := Post(db.accounts[u].stats, db.templates[t].effects, quantity).total;
            var later := Run(Logged(db, u, t, quantity, now), ops);
            var after := Step(later, Delete(u, db.nextLogId));
            && StatScore(after, u, s).xp
               == Max(0, StatScore(later, u, s).xp - PutStat(db, u, t, quantity, now, s))
            && (GlobalScore(after, u).xp
                == Max(0, GlobalScore(later, u).xp - PutGlobal(db, u, t, quantity, now))
                <==> 0 <= GlobalScore(db, u).xp + total)
  {
    hide Run, Post, Unpost, Inv;
    var later := Run(Logged(db, u, t, quantity, now), ops);
    FoundAgain(db, u, t, quantity, now, ops);
    LateStat(db, u, t, quantity, now, later, s);
    LateGlobal(db, u, t, quantity, now, later);
  }

  /** What logging put on a stat row is what the log row records. */
  lemma PutIsRecorded(
      db: Db, u: UserId, t: TemplateId, quantity: int, now: int, s: StatId)
    requires Inv(db) && u in db.accounts && t in db.templates
    ensures PutStat(db, u, t, quantity, now, s)
         == AmountOn(Logged(db, u, t, quantity, now).logs[|db.logs|].effects, s)
  {
    hide Inv, AmountOn, Post;
    LoggedIsCoherent(db, u, t, quantity, now);
    InvAccounts(db);
    LoggedMovesByRecord(db, u, t, quantity, now, u, s);
  }

  lemma DeletedXp(db: Db, u: UserId, i: nat, s: StatId)
    requires AccountsOk(db) && u in db.accounts && i < |db.logs| && Coherent(db, db.logs[i]) && db.logs[i].user == u
    ensures StatScore(Deleted(db, u, i), u, s).xp
         == Max(0, StatScore(db, u, s).xp - AmountOn(db.logs[i].effects, s))
  {
    hide Deleted, AccountsOk;
    DeletedScores(db, u, i, u, s);
    ScoresValid(db, u, s);
    if s !in Ids(db.logs[i].effects) {
      AmountOnAbsent(db.logs[i].effects, s);
    }
  }

  lemma LateStat(
      db: Db, u: UserId, t: TemplateId, quantity: int, now: int, later: Db, s: StatId)
    requires Inv(db) && Inv(later) && u in db.accounts && t in db.templates && u in later.accounts
    requires FindOwned(later.logs, u, db.nextLogId).Some?
    requires var i := FindOwned(later.logs, u, db.nextLogId).value;
             later.logs[i] == Logged(db, u, t, quantity, now).logs[|db.logs|] && Coherent(later, later.logs[i])
    ensures StatScore(Deleted(later, u, FindOwned(later.logs, u, db.nextLogId).value), u, s).xp
         == Max(0, StatScore(later, u, s).xp - PutStat(db, u, t, quantity, now, s))
  {
    hide Inv, AccountsOk, Coherent, Deleted, PutStat, StatScore, AmountOn;
    InvAccounts(later);
    PutIsRecorded(db, u, t, quantity, now, s);
    DeletedXp(later, u, FindOwned(later.logs, u, db.nextLogId).value, s);
  }

  lemma LateGlobal(
      db: Db, u: UserId, t: TemplateId, quantity: int, now: int, later: Db)
    requires Inv(db) && Inv(later) && u in db.accounts && t in db.templates && u in later.accounts
    requires FindOwned(later.logs, u, db.nextLogId).Some?
    requires later.logs[FindOwned(later.logs, u, db.nextLogId).value]
             == Logged(db, u, t, quantity, now).logs[|db.logs|]
    ensures var total := Post(db.accounts[u].stats, db.templates[t].effects, quantity).total;
            GlobalScore(Deleted(later, u, FindOwned(later.logs, u, db.nextLogId).value), u).xp
            == Max(0, GlobalScore(later, u).xp - PutGlobal(db, u, t, quantity, now))
            <==> 0 <= GlobalScore(db, u).xp + total
  {
    hide Post, Unpost, Sandwiched, StatCovers, SumXp;
    ScoresValid(db, u, 0);
    ScoresValid(later, u, 0);
  }

  // ---------------------------------------------------------------- undoing one's own logs newest-first

  ghost predicate NoDeletesBy(ops: seq<Op>, u: UserId) {
    forall i | 0 <= i < |ops| && ops[i].Delete? :: ops[i].user != u
  }

  /** The user deletes the newest of the user's own live logs. */
  ghost function UndoLast(db: Db, u: UserId): Db {
    var own := OwnLogs(db.logs, u);
    if own == [] then db else Step(db, Delete(u, own[|own| - 1].id))
  }

  /** The user does so again and again, and after each time the ledger takes a turn. */
  ghost function UndoNewest(db: Db, u: UserId, turns: seq<seq<Op>>): Db {
    if turns == [] then db
    else Run(UndoLast(UndoNewest(db, u, turns[..|turns| - 1]), u), turns[|turns| - 1])
  }

  /** The turns are other people's: they log and delete, templates change, but none acts for u. */
  ghost predicate OthersTurns(turns: seq<seq<Op>>, u: UserId) {
    forall i, k | 0 <= i < |turns| && 0 <= k < |turns[i]| :: !ActsFor(turns[i][k], u)
  }

  ghost predicate RestoresScores(back: Db, earlier: Db, peak: Db, u: UserId, s: StatId) {
    && GlobalScore(back, u) == Score(GlobalScore(earlier, u).xp, GlobalScore(peak, u).level)
    && StatScore(back, u, s) == Score(StatScore(earlier, u, s).xp, StatScore(peak, u, s).level)
  }

  /** `back` holds the user's logs and every xp of the user as in `earlier`, under the levels of
      `peak`. */
  ghost predicate Restores(back: Db, earlier: Db, peak: Db, u: UserId) {
    && OwnLogs(back.logs, u) == OwnLogs(earlier.logs, u)
    && (forall s: StatId :: RestoresScores(back, earlier, peak, u, s))
  }

  ghost predicate LevelAtMost(low: Db, high: Db, u: UserId, s: StatId) {
    && GlobalScore(low, u).level <= GlobalScore(high, u).level
    && StatScore(low, u, s).level <= StatScore(high, u, s).level
  }

  lemma StepRaisesLevels(db: Db, op: Op, u: UserId, s: StatId)
    requires LogsOk(db) && TemplatesOk(db)
    ensures LevelAtMost(db, Step(db, op), u, s)
  {
    StepMovesGlobal(db, op, u);
    RequestRaises(GlobalScore(db, u), GlobalRequest(db, op, u));
    StepMovesStat(db, op, u, s);
    RequestRaises(StatScore(db, u, s), StatRequest(db, op, u, s));
  }

  lemma RequestRaises(score: Score, request: seq<int>)
    requires |request| <= 1
    ensures score.level <= BumpAll(score, request).level
  {
    if request == [] {
      BumpOnce(score, 0);
    } else {
      assert request == [request[0]];
      BumpOnce(score, request[0]);
    }
  }

  /** Levels never fall, over any run. */
  lemma {:induction false} RunRaisesLevels(db: Db, ops: seq<Op>, j: nat, u: UserId, s: StatId)
    requires Inv(db) && j <= |ops|
    ensures LevelAtMost(Run(db, ops[..j]), Run(db, ops), u, s)
  {
    if j == |ops| {
      assert ops[..j] == ops;
    } else {
      var init := ops[..|ops| - 1];
      RunRaisesLevels(db, init, j, u, s);
      assert init[..j] == ops[..j];
      RunKeepsInv(db, init);
      StepRaisesLevels(Run(db, init), ops[|ops| - 1], u, s);
    }
  }

  lemma StepKeepsBalance(db: Db, op: Op, u: UserId)
    requires Inv(db) && Balanced(db, u) && !(op.Delete? && op.user == u)
    ensures Balanced(Step(db, op), u)
  {
    hide Inv, Balanced, GlobalGap;
    if op.Log? && op.user == u && u in db.accounts
       && EffectiveQuantity(db.templates, op.templateId, op.quantity).Ok? {
      LogKeepsBalance(
        db, u, op.templateId, EffectiveQuantity(db.templates, op.templateId, op.quantity).value, op.now, u);
    } else {
      assert GlobalGap(Step(db, op), u) == GlobalGap(db, u) by { OtherKeepsGap(db, op, u); }
      BalancedByGap(db, Step(db, op), u);
    }
  }

  lemma BalancedByGap(a: Db, b: Db, u: UserId)
    requires Balanced(a, u) && GlobalGap(a, u) == GlobalGap(b, u)
    ensures Balanced(b, u)
  {
  }

  /** As long as a user deletes nothing, the user's global xp stays the sum of the stat xp,
      whatever others delete. */
  lemma {:induction false} RunKeepsBalance(db: Db, ops: seq<Op>, u: UserId)
    requires Inv(db) && Balanced(db, u) && NoDeletesBy(ops, u)
    ensures Balanced(Run(db, ops), u)
  {
    hide Inv, Balanced;
    if ops != [] {
      var init := ops[..|ops| - 1];
      RunKeepsBalance(db, init, u);
      RunKeepsInv(db, init);
      StepKeepsBalance(Run(db, init), ops[|ops| - 1], u);
    }
  }

  // ---------------------------------------------------------------- undoing one log

  lemma UndoLoggedStat(
      db: Db, u: UserId, t: TemplateId, quantity: int, now: int, back: Db, i: nat, peak: Db, s: StatId)
    requires AccountsOk(db) && TemplatesOk(db) && u in db.accounts && t in db.templates
    requires i < |back.logs| && back.logs[i] == Logged(db, u, t, quantity, now).logs[|db.logs|]
    requires Coherent(back, back.logs[i])
    requires RestoresScores(back, Logged(db, u, t, quantity, now), peak, u, s)
    requires LevelAtMost(db, peak, u, s)
    ensures StatScore(Deleted(back, u, i), u, s)
         == Score(StatScore(db, u, s).xp, StatScore(peak, u, s).level)
  {
    assert ValidTemplate(db.templates[t], db.statIds);
    LoggedMovesByRecord(db, u, t, quantity, now, u, s);
    ScoresValid(db, u, s);
    RevertsTo(StatScore(db, u, s), back, i, u, s);
  }

  lemma UndoLoggedGlobal(
      db: Db, u: UserId, t: TemplateId, quantity: int, now: int, back: Db, i: nat, peak: Db, s: StatId)
    requires Inv(db) && Balanced(db, u) && u in db.accounts && t in db.templates
    requires i < |back.logs| && back.logs[i] == Logged(db, u, t, quantity, now).logs[|db.logs|]
    requires u in back.accounts
    requires RestoresScores(back, Logged(db, u, t, quantity, now), peak, u, s)
    requires LevelAtMost(db, peak, u, s)
    ensures GlobalScore(Deleted(back, u, i), u)
         == Score(GlobalScore(db, u).xp, GlobalScore(peak, u).level)
  {
    hide Post, Unpost, SumXp, StatCovers, Sandwiched;
    LogKeepsBalance(db, u, t, quantity, now, u);
    ScoresValid(db, u, 0);
  }

  lemma UndoLastIsDelete(back: Db, u: UserId, i: nat)
    requires Inv(back) && IsNewestOwn(back.logs, u, i)
    ensures u in back.accounts && Coherent(back, back.logs[i])
    ensures UndoLast(back, u) == Deleted(back, u, i)
  {
    hide Post, Unpost, Bump, SumXp, Sandwiched, StatCovers;
    assert Coherent(back, back.logs[i]);
    OnlyOwnerDeletes(back, i, u);
  }

  /** Undo one accepted log from a state that holds the same own logs and differs only by higher
      levels. */
  lemma UndoLogged(db: Db, u: UserId, t: TemplateId, quantity: int, now: int, back: Db, peak: Db)
    requires Inv(db) && Balanced(db, u) && u in db.accounts && t in db.templates
    requires Inv(back) && Restores(back, Logged(db, u, t, quantity, now), peak, u)
    requires forall s: StatId :: LevelAtMost(db, peak, u, s)
    ensures Restores(UndoLast(back, u), db, peak, u)
  {
    hide Inv, Balanced, LevelAtMost, RestoresScores, Deleted, Coherent;
    var logged := Logged(db, u, t, quantity, now);
    OwnAppend(db.logs, logged.logs[|db.logs|], u);
    NewestOwn(back.logs, u);
    var i: nat :| IsNewestOwn(back.logs, u, i);
    UndoLastIsDelete(back, u, i);
    assert AccountsOk(db) && TemplatesOk(db) by { InvAccounts(db); }
    DeletedLogs(back, u, i);
    forall s: StatId ensures RestoresScores(UndoLast(back, u), db, peak, u, s) {
      assert RestoresScores(back, logged, peak, u, s);
      assert LevelAtMost(db, peak, u, s);
      UndoLoggedStat(db, u, t, quantity, now, back, i, peak, s);
      UndoLoggedGlobal(db, u, t, quantity, now, back, i, peak, s);
      RestoresByScores(UndoLast(back, u), db, peak, u, s);
    }
  }

  lemma DeletedLogs(db: Db, u: UserId, i: nat)
    requires u in db.accounts && i < |db.logs|
    ensures Deleted(db, u, i).logs == WithoutLog(db.logs, i)
  {
  }

  lemma RestoresByScores(back: Db, earlier: Db, peak: Db, u: UserId, s: StatId)
    requires GlobalScore(back, u) == Score(GlobalScore(earlier, u).xp, GlobalScore(peak, u).level)
    requires StatScore(back, u, s) == Score(StatScore(earlier, u, s).xp, StatScore(peak, u, s).level)
    ensures RestoresScores(back, earlier, peak, u, s)
  {
  }

  /** The step was an accepted log of the user. */
  ghost predicate Adds(db: Db, op: Op, u: UserId) {
    op.Log? && op.user == u && u in db.accounts && EffectiveQuantity(db.templates, op.templateId, op.quantity).Ok?
  }

  lemma OwnAfterStep(db: Db, op: Op, u: UserId)
    requires !(op.Delete? && op.user == u)
    ensures |OwnLogs(Step(db, op).logs, u)| == |OwnLogs(db.logs, u)| + if Adds(db, op, u) then 1 else 0
    ensures !Adds(db, op, u) ==> OwnLogs(Step(db, op).logs, u) == OwnLogs(db.logs, u)
  {
    hide Post, Unpost, Bump;
    if Adds(db, op, u) {
      OwnAppend(db.logs, Step(db, op).logs[|db.logs|], u);
    } else if !ActsFor(op, u) {
      StepIsPrivate(db, op, u);
    }
  }

  /** A step that adds no log of the user's and is no delete of the user's leaves nothing to undo. */
  lemma UndoNothing(db: Db, op: Op, back: Db, peak: Db, u: UserId)
    requires !(op.Delete? && op.user == u) && !Adds(db, op, u)
    requires Restores(back, Step(db, op), peak, u)
    ensures Restores(back, db, peak, u)
  {
    hide Post, Unpost, Bump, OwnLogs;
    OwnAfterStep(db, op, u);
    if !ActsFor(op, u) {
      StepIsPrivate(db, op, u);
    }
    forall s: StatId ensures RestoresScores(back, db, peak, u, s) {
      assert RestoresScores(back, Step(db, op), peak, u, s);
    }
  }

  // ---------------------------------------------------------------- undoing a whole run

  lemma {:induction false} UndoKeepsInv(db: Db, u: UserId, turns: seq<seq<Op>>)
    requires Inv(db)
    ensures Inv(UndoNewest(db, u, turns)) && Inv(UndoLast(UndoNewest(db, u, turns), u))
  {
    hide Inv, Step, OwnLogs;
    if turns != [] {
      var before := UndoNewest(db, u, turns[..|turns| - 1]);
      UndoKeepsInv(db, u, turns[..|turns| - 1]);
      RunKeepsInv(UndoLast(before, u), turns[|turns| - 1]);
    }
    var back := UndoNewest(db, u, turns);
    var own := OwnLogs(back.logs, u);
    if own != [] {
      StepKeepsInv(back, Delete(u, own[|own| - 1].id));
    }
  }

  lemma RunPrefix(db: Db, ops: seq<Op>, j: nat)
    requires j < |ops|
    ensures Run(db, ops[..j + 1]) == Step(Run(db, ops[..j]), ops[j])
  {
    assert ops[..j + 1][..j] == ops[..j];
  }

  /** Other people's turns keep what has been restored. */
  lemma TurnKeeps(back: Db, turn: seq<Op>, earlier: Db, peak: Db, u: UserId)
    requires Restores(back, earlier, peak, u) && forall k | 0 <= k < |turn| :: !ActsFor(turn[k], u)
    ensures Restores(Run(back, turn), earlier, peak, u)
  {
    hide OwnLogs, Run;
    RunIsPrivate(back, turn, u);
    forall s: StatId ensures RestoresScores(Run(back, turn), earlier, peak, u, s) {
      assert RestoresScores(back, earlier, peak, u, s);
    }
  }

  lemma {:induction false} UndoOneMore(
      here: Db, op: Op, last: Db, u: UserId, back: Db, turn: seq<Op>)
    requires Inv(here) && Balanced(here, u) && Adds(here, op, u)
    requires forall s: StatId :: LevelAtMost(here, last, u, s)
    requires Inv(back) && Restores(back, Step(here, op), last, u)
    requires forall k | 0 <= k < |turn| :: !ActsFor(turn[k], u)
    ensures Restores(Run(UndoLast(back, u), turn), here, last, u)
  {
    hide Inv, Balanced, LevelAtMost, Restores, Logged, Run, UndoLast;
    var quantity := EffectiveQuantity(here.templates, op.templateId, op.quantity).value;
    UndoLogged(here, u, op.templateId, quantity, op.now, back, last);
    TurnKeeps(UndoLast(back, u), turn, here, last, u);
  }

  /** How many of the user's own logs the rest of the run has added. */
  ghost function AddedSince(db: Db, ops: seq<Op>, u: UserId, j: nat): int
    requires j <= |ops|
  {
    |OwnLogs(Run(db, ops).logs, u)| - |OwnLogs(Run(db, ops[..j]).logs, u)|
  }

  /** A user who has deleted nothing in a run, starting balanced, and then deletes the own logs
      newest-first passes back through every earlier state of the run: own logs, every stat xp and
      the global xp are as they were then, while all levels stay at the run's final level.  Others
      may log and delete all the time, in the run and between the deletes. */
  lemma {:induction false} UndoReplaysBackwards(db: Db, ops: seq<Op>, u: UserId, j: nat, turns: seq<seq<Op>>)
    requires Inv(db) && Balanced(db, u) && NoDeletesBy(ops, u) && j <= |ops|
    requires |turns| == AddedSince(db, ops, u, j) && OthersTurns(turns, u)
    ensures Restores(UndoNewest(Run(db, ops), u, turns), Run(db, ops[..j]), Run(db, ops), u)
    decreases |ops| - j
  {
    hide Inv, Balanced, Restores, Step, Run, LevelAtMost, OwnLogs, Adds;
    var last := Run(db, ops);
    if j == |ops| {
      assert ops[..j] == ops;
      RestoresItself(last, u);
    } else {
      var here := Run(db, ops[..j]);
      RunPrefix(db, ops, j);
      OwnAfterStep(here, ops[j], u);
      if Adds(here, ops[j], u) {
        OwnGrows(db, ops, u, j + 1);
        var n := |turns| - 1;
        UndoReplaysBackwards(db, ops, u, j + 1, turns[..n]);
        PrefixFacts(db, ops, u, j);
        UndoKeepsInv(last, u, turns[..n]) by { RunKeepsInv(db, ops); }
        UndoOneMore(here, ops[j], last, u, UndoNewest(last, u, turns[..n]), turns[n]);
      } else {
        UndoReplaysBackwards(db, ops, u, j + 1, turns);
        UndoNothing(here, ops[j], UndoNewest(last, u, turns), last, u);
      }
    }
  }

  lemma RestoresItself(db: Db, u: UserId)
    ensures Restores(db, db, db, u)
  {
    forall s: StatId ensures RestoresScores(db, db, db, u, s) {
    }
  }

  lemma {:induction false} OwnGrows(db: Db, ops: seq<Op>, u: UserId, j: nat)
    requires NoDeletesBy(ops, u) && j <= |ops|
    ensures 0 <= AddedSince(db, ops, u, j)
    decreases |ops| - j
  {
    hide Run, Step, OwnLogs;
    if j == |ops| {
      assert ops[..j] == ops;
    } else {
      OwnGrows(db, ops, u, j + 1);
      RunPrefix(db, ops, j);
      OwnAfterStep(Run(db, ops[..j]), ops[j], u);
    }
  }

  lemma PrefixFacts(db: Db, ops: seq<Op>, u: UserId, j: nat)
    requires Inv(db) && Balanced(db, u) && NoDeletesBy(ops, u) && j <= |ops|
    ensures Inv(Run(db, ops[..j])) && Balanced(Run(db, ops[..j]), u)
    ensures forall s: StatId :: LevelAtMost(Run(db, ops[..j]), Run(db, ops), u, s)
  {
    hide Inv, Balanced, LevelAtMost, Run;
    RunKeepsInv(db, ops[..j]);
    RunKeepsBalance(db, ops[..j], u);
    forall s: StatId ensures LevelAtMost(Run(db, ops[..j]), Run(db, ops), u, s) {
      RunRaisesLevels(db, ops, j, u, s);
    }
  }
}
