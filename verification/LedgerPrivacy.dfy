/**
  Whose rows a call can touch, and which log rows stay what they are.
 */
module LedgerPrivacy {
  import opened Scores
  import opened Ledger
  import opened LedgerInvariant

  // ---------------------------------------------------------------- whom a call touches

  predicate ActsFor(op: Op, u: UserId) {
    (op.Log? || op.Delete? || op.Register?) && op.user == u
  }

  /** A step leaves every user but the one it acts for exactly as they were, account and logs. */
  lemma StepIsPrivate(db: Db, op: Op, u: UserId)
    requires !ActsFor(op, u)
    ensures AccountOf(Step(db, op), u) == AccountOf(db, u)
    ensures OwnLogs(Step(db, op).logs, u) == OwnLogs(db.logs, u)
    ensures u in Step(db, op).accounts <==> u in db.accounts
  {
    hide Post, Unpost, Bump, WithoutLog, OwnLogs;
    if op.Log? && op.user in db.accounts && EffectiveQuantity(db.templates, op.templateId, op.quantity).Ok? {
      OwnAppend(db.logs, Step(db, op).logs[|db.logs|], u);
    } else if op.Delete? && op.user in db.accounts && FindOwned(db.logs, op.user, op.logId).Some? {
      OwnWithout(db.logs, FindOwned(db.logs, op.user, op.logId).value, u);
    }
  }

  lemma {:induction false} RunIsPrivate(db: Db, ops: seq<Op>, u: UserId)
    requires forall i | 0 <= i < |ops| :: !ActsFor(ops[i], u)
    ensures AccountOf(Run(db, ops), u) == AccountOf(db, u)
    ensures OwnLogs(Run(db, ops).logs, u) == OwnLogs(db.logs, u)
  {
    hide Step;
    if ops != [] {
      RunIsPrivate(db, ops[..|ops| - 1], u);
      StepIsPrivate(Run(db, ops[..|ops| - 1]), ops[|ops| - 1], u);
    }
  }

  /** A log is deletable by its owner and by nobody else; for others, and for ids of no log, the
      call fails and changes nothing. */
  lemma OnlyOwnerDeletes(db: Db, i: nat, u: UserId)
    requires LogsOk(db) && i < |db.logs|
    ensures FindOwned(db.logs, u, db.logs[i].id) == if u == db.logs[i].user then Some(i) else None
    ensures u != db.logs[i].user ==> Step(db, Delete(u, db.logs[i].id)) == db
  {
    var found := FindOwned(db.logs, u, db.logs[i].id);
    assert forall j | 0 <= j < |db.logs| && j != i :: db.logs[j].id != db.logs[i].id;
  }

  // ---------------------------------------------------------------- a user's own logs

  /** The live logs of one user, oldest first. */
  function OwnLogs(logs: seq<ActivityLog>, u: UserId): seq<ActivityLog> {
    if logs == [] then []
    else
      var last := logs[|logs| - 1];
      OwnLogs(logs[..|logs| - 1], u) + if last.user == u then [last] else []
  }

  lemma OwnAppend(logs: seq<ActivityLog>, row: ActivityLog, u: UserId)
    ensures OwnLogs(logs + [row], u) == if row.user == u then OwnLogs(logs, u) + [row] else OwnLogs(logs, u)
  {
    assert (logs + [row])[..|logs|] == logs;
  }

  /** Taking out the last row, or an earlier one. */
  lemma WithoutSplits(logs: seq<ActivityLog>, i: nat)
    requires i < |logs|
    ensures var n := |logs| - 1;
            WithoutLog(logs, i) == if i == n then logs[..n] else WithoutLog(logs[..n], i) + [logs[n]]
  {
  }

  lemma {:induction false} OwnWithout(logs: seq<ActivityLog>, i: nat, u: UserId)
    requires i < |logs| && logs[i].user != u
    ensures OwnLogs(WithoutLog(logs, i), u) == OwnLogs(logs, u)
  {
    hide OwnLogs, WithoutLog;
    var n := |logs| - 1;
    WithoutSplits(logs, i);
    assert logs == logs[..n] + [logs[n]];
    OwnAppend(logs[..n], logs[n], u);
    if i < n {
      OwnWithout(logs[..n], i, u);
      OwnAppend(WithoutLog(logs[..n], i), logs[n], u);
    }
  }

  /** Position i holds the user's newest log. */
  ghost predicate IsNewestOwn(logs: seq<ActivityLog>, u: UserId, i: nat) {
    var own := OwnLogs(logs, u);
    && i < |logs| && own != []
    && logs[i] == own[|own| - 1] && logs[i].user == u
    && OwnLogs(WithoutLog(logs, i), u) == own[..|own| - 1]
  }

  lemma {:induction false} NewestOwn(logs: seq<ActivityLog>, u: UserId)
    requires OwnLogs(logs, u) != []
    ensures exists i: nat :: IsNewestOwn(logs, u, i)
  {
    hide OwnLogs, WithoutLog;
    if logs == [] {
      NoneOwn(u);
    } else {
      var n := |logs| - 1;
      assert logs == logs[..n] + [logs[n]];
      OwnAppend(logs[..n], logs[n], u);
      if logs[n].user == u {
        WithoutSplits(logs, n);
        assert IsNewestOwn(logs, u, n);
      } else {
        NewestOwn(logs[..n], u);
        var i: nat :| IsNewestOwn(logs[..n], u, i);
        WithoutSplits(logs, i);
        OwnAppend(WithoutLog(logs[..n], i), logs[n], u);
        assert IsNewestOwn(logs, u, i);
      }
    }
  }

  lemma NoneOwn(u: UserId)
    ensures OwnLogs([], u) == []
  {
  }

  // ---------------------------------------------------------------- log rows keep their identity

  lemma StepKeepsIds(db: Db, op: Op, r: ActivityLog)
    requires r in Step(db, op).logs
    ensures r in db.logs || r.id == db.nextLogId
  {
    hide Post, Unpost, Bump;
  }

  /** No run brings a new row under an old id, and none changes a row. */
  lemma {:induction false} RowsKeepIds(db: Db, ops: seq<Op>)
    ensures db.nextLogId <= Run(db, ops).nextLogId
    ensures forall r | r in Run(db, ops).logs :: r in db.logs || db.nextLogId <= r.id
  {
    hide Post, Unpost, Bump, Step;
    if ops != [] {
      var before, op := Run(db, ops[..|ops| - 1]), ops[|ops| - 1];
      RowsKeepIds(db, ops[..|ops| - 1]);
      IdsGrow(before, op);
      forall r | r in Step(before, op).logs ensures r in db.logs || db.nextLogId <= r.id {
        StepKeepsIds(before, op, r);
      }
    }
  }

  lemma IdsGrow(db: Db, op: Op)
    ensures db.nextLogId <= Step(db, op).nextLogId
  {
    hide Post, Unpost, Bump;
  }

  lemma SameRow(db: Db, x: ActivityLog, r: ActivityLog)
    requires LogsOk(db) && x in db.logs && (r in db.logs || db.nextLogId <= r.id) && r.id == x.id
    ensures r == x
  {
    var i :| 0 <= i < |db.logs| && db.logs[i] == x;
    assert Coherent(db, db.logs[i]);
    var k :| 0 <= k < |db.logs| && db.logs[k] == r;
  }
}
