/**
  Cursor stability: a client pages through its history while the ledger goes on.
 */
module HistoryMoving {
  import opened Scores
  import opened Ledger
  import opened LedgerInvariant
  import opened LedgerPrivacy
  import opened History
  import opened HistoryWalk

  // ---------------------------------------------------------------- tables that agree below a cursor

  /** Two states of the log table that hold the same wanted rows older than the cursor. */
  ghost predicate AgreeBelow(a: seq<ActivityLog>, b: seq<ActivityLog>, u: UserId, f: Filter, cursor: int) {
    forall x :: Wanted(x, a, u, f, Some(cursor)) <==> Wanted(x, b, u, f, Some(cursor))
  }

  lemma InsertAgrees(logs: seq<ActivityLog>, row: ActivityLog, u: UserId, f: Filter, cursor: int)
    requires row.user == u ==> cursor <= row.createdAt
    ensures AgreeBelow(logs, logs + [row], u, f, cursor)
  {
  }

  lemma DeleteAgrees(logs: seq<ActivityLog>, i: nat, u: UserId, f: Filter, cursor: int)
    requires i < |logs| && (logs[i].user == u ==> cursor <= logs[i].createdAt)
    ensures AgreeBelow(logs, WithoutLog(logs, i), u, f, cursor)
  {
    forall x ensures Wanted(x, logs, u, f, Some(cursor)) <==> Wanted(x, WithoutLog(logs, i), u, f, Some(cursor)) {
      if Wanted(x, logs, u, f, Some(cursor)) {
        var k :| 0 <= k < |logs| && logs[k] == x;
        assert WithoutLog(logs, i)[if k < i then k else k - 1] == x;
      }
    }
  }

  lemma AgreeLower(
      a: seq<ActivityLog>, b: seq<ActivityLog>, u: UserId, f: Filter, cursor: int, later: int)
    requires AgreeBelow(a, b, u, f, cursor) && later <= cursor
    ensures AgreeBelow(a, b, u, f, later)
  {
    forall x ensures Wanted(x, a, u, f, Some(later)) <==> Wanted(x, b, u, f, Some(later)) {
      assert Wanted(x, a, u, f, Some(later)) <==> Wanted(x, a, u, f, Some(cursor)) && x.createdAt < later;
      assert Wanted(x, b, u, f, Some(later)) <==> Wanted(x, b, u, f, Some(cursor)) && x.createdAt < later;
    }
  }

  lemma ListingAgrees(
      rows: seq<ActivityLog>, a: seq<ActivityLog>, b: seq<ActivityLog>, u: UserId, f: Filter, cursor: int, limit: nat)
    requires AgreeBelow(a, b, u, f, cursor)
    requires IsListing(rows, a, u, f, Some(cursor), limit)
    ensures IsListing(rows, b, u, f, Some(cursor), limit)
  {
    hide Wanted, NewestFirst, NoRepeats;
  }

  /** A walk from a cursor is a walk over every table that agrees below it. */
  lemma {:induction false} WalkAgrees(
      fetches: seq<seq<ActivityLog>>, a: seq<ActivityLog>, b: seq<ActivityLog>, u: UserId, f: Filter,
      cursor: int, limit: nat)
    requires 1 <= limit && AgreeBelow(a, b, u, f, cursor)
    requires IsWalk(fetches, a, u, f, Some(cursor), limit)
    ensures IsWalk(fetches, b, u, f, Some(cursor), limit)
    decreases |fetches|
  {
    hide AgreeBelow, IsListing, CountForUser;
    ListingAgrees(fetches[0], a, b, u, f, cursor, limit + 1);
    if |fetches[0]| > limit {
      var next := fetches[0][limit - 1].createdAt;
      CursorFalls(fetches[0], a, u, f, cursor, limit);
      AgreeLower(a, b, u, f, cursor, next);
      WalkGoesOn(fetches, a, u, f, Some(cursor), limit);
      WalkAgrees(fetches[1..], a, b, u, f, next, limit);
    }
  }

  lemma CursorFalls(
      fetch: seq<ActivityLog>, logs: seq<ActivityLog>, u: UserId, f: Filter, cursor: int, limit: nat)
    requires 1 <= limit < |fetch| && IsListing(fetch, logs, u, f, Some(cursor), limit + 1)
    ensures fetch[limit - 1].createdAt < cursor
  {
    assert fetch[limit - 1] in fetch;
    assert Wanted(fetch[limit - 1], logs, u, f, Some(cursor));
  }

  // ---------------------------------------------------------------- what may happen between pages

  /** The step logs nothing for the user before the cursor and deletes no log of the user below
      it; everything else may happen, other users' logs and deletes included. */
  ghost predicate StaysAbove(db: Db, op: Op, u: UserId, cursor: int) {
    && (op.Log? && op.user == u ==> cursor <= op.now)
    && (op.Delete? && op.user == u ==>
          match FindOwned(db.logs, u, op.logId)
          case None => true
          case Some(i) => cursor <= db.logs[i].createdAt)
  }

  ghost predicate RunStaysAbove(db: Db, ops: seq<Op>, u: UserId, cursor: int) {
    forall k | 0 <= k < |ops| :: StaysAbove(Run(db, ops[..k]), ops[k], u, cursor)
  }

  lemma StepAgrees(db: Db, op: Op, u: UserId, f: Filter, cursor: int)
    requires StaysAbove(db, op, u, cursor)
    ensures AgreeBelow(db.logs, Step(db, op).logs, u, f, cursor)
  {
    hide AgreeBelow, Post, Unpost, Bump;
    assert AgreeBelow(db.logs, db.logs, u, f, cursor) by { Unmoved(db.logs, u, f, cursor); }
    if op.Log? && op.user in db.accounts && EffectiveQuantity(db.templates, op.templateId, op.quantity).Ok? {
      InsertAgrees(db.logs, Step(db, op).logs[|db.logs|], u, f, cursor);
    } else if op.Delete? && op.user in db.accounts && FindOwned(db.logs, op.user, op.logId).Some? {
      DeleteAgrees(db.logs, FindOwned(db.logs, op.user, op.logId).value, u, f, cursor);
    }
  }

  lemma Unmoved(logs: seq<ActivityLog>, u: UserId, f: Filter, cursor: int)
    ensures AgreeBelow(logs, logs, u, f, cursor)
  {
  }

  lemma AgreeOn(
      a: seq<ActivityLog>, b: seq<ActivityLog>, c: seq<ActivityLog>, u: UserId, f: Filter, cursor: int)
    requires AgreeBelow(a, b, u, f, cursor) && AgreeBelow(b, c, u, f, cursor)
    ensures AgreeBelow(a, c, u, f, cursor)
  {
  }

  /** A run that stays at or above the cursor leaves every wanted row below it in place. */
  lemma {:induction false} RunAgrees(db: Db, ops: seq<Op>, u: UserId, f: Filter, cursor: int)
    requires RunStaysAbove(db, ops, u, cursor)
    ensures AgreeBelow(db.logs, Run(db, ops).logs, u, f, cursor)
  {
    hide AgreeBelow, StaysAbove, Step;
    if ops == [] {
      Unmoved(db.logs, u, f, cursor);
    } else {
      var n := |ops| - 1;
      assert forall k | 0 <= k < n :: ops[..n][..k] == ops[..k];
      RunAgrees(db, ops[..n], u, f, cursor);
      StepAgrees(Run(db, ops[..n]), ops[n], u, f, cursor);
      AgreeOn(db.logs, Run(db, ops[..n]).logs, Run(db, ops).logs, u, f, cursor);
    }
  }

  // ---------------------------------------------------------------- walks over a moving ledger

  /** A client's requests, with the steps the ledger takes after each but the last: a request
      reads the log table as it is by then, and the steps stay at or above the cursor it gave. */
  ghost predicate IsMovingWalk(
      fetches: seq<seq<ActivityLog>>, db: Db, turns: seq<seq<Op>>, u: UserId, f: Filter,
      before: Option<int>, limit: nat)
    requires 1 <= limit
  {
    && |fetches| == |turns| + 1
    && IsListing(fetches[0], db.logs, u, f, before, limit + 1)
    && if |fetches[0]| > limit then
         var cursor := fetches[0][limit - 1].createdAt;
         && |turns| > 0
         && RunStaysAbove(db, turns[0], u, cursor)
         && IsMovingWalk(fetches[1..], Run(db, turns[0]), turns[1..], u, f, Some(cursor), limit)
       else turns == []
  }

  /** Cursor stability: whatever the ledger does at or above the cursor between requests, the
      client's pages are those of a walk over the log table its first request saw. */
  lemma {:induction false} MovingWalkIsWalk(
      fetches: seq<seq<ActivityLog>>, db: Db, turns: seq<seq<Op>>, u: UserId, f: Filter,
      before: Option<int>, limit: nat)
    requires 1 <= limit && IsMovingWalk(fetches, db, turns, u, f, before, limit)
    ensures IsWalk(fetches, db.logs, u, f, before, limit)
    decreases |fetches|
  {
    hide IsListing, RunStaysAbove, AgreeBelow, CountForUser, Run;
    if |fetches[0]| > limit {
      var cursor := fetches[0][limit - 1].createdAt;
      var later := Run(db, turns[0]);
      MovingWalkIsWalk(fetches[1..], later, turns[1..], u, f, Some(cursor), limit);
      RunAgrees(db, turns[0], u, f, cursor);
      AgreeBack(db.logs, later.logs, u, f, cursor);
      WalkAgrees(fetches[1..], later.logs, db.logs, u, f, cursor, limit);
    }
  }

  lemma AgreeBack(a: seq<ActivityLog>, b: seq<ActivityLog>, u: UserId, f: Filter, cursor: int)
    requires AgreeBelow(a, b, u, f, cursor)
    ensures AgreeBelow(b, a, u, f, cursor)
  {
  }

  // ---------------------------------------------------------------- delivered rows may go

  lemma PagesAreWanted(
      fetches: seq<seq<ActivityLog>>, logs: seq<ActivityLog>, u: UserId, f: Filter, before: Option<int>,
      limit: nat, k: nat, x: ActivityLog)
    requires 1 <= limit && IsWalk(fetches, logs, u, f, before, limit)
    requires k < |fetches| && x in Take(fetches[k], limit)
    ensures Wanted(x, logs, u, f, before)
  {
    PageInItems(fetches, logs, u, f, limit, k, x);
    ItemsWanted(fetches, logs, u, f, before, limit, x);
  }

  lemma {:induction false} PageInItems(
      fetches: seq<seq<ActivityLog>>, logs: seq<ActivityLog>, u: UserId, f: Filter, limit: nat, k: nat, x: ActivityLog)
    requires k < |fetches| && x in Take(fetches[k], limit)
    ensures x in Items(Pages(fetches, logs, u, f, limit))
  {
    ItemsSplit(fetches, logs, u, f, limit);
    if k > 0 {
      PageInItems(fetches[1..], logs, u, f, limit, k - 1, x);
    }
  }

  /** Later pages lie strictly below the first page's cursor. */
  lemma LaterIsOlder(
      fetches: seq<seq<ActivityLog>>, logs: seq<ActivityLog>, u: UserId, f: Filter, before: Option<int>,
      limit: nat, k: nat, y: ActivityLog)
    requires 1 <= limit && IsWalk(fetches, logs, u, f, before, limit)
    requires 1 <= k < |fetches| && y in Take(fetches[k], limit)
    ensures |fetches[0]| > limit && y.createdAt < fetches[0][limit - 1].createdAt
  {
    hide IsListing, CountForUser, Matches;
    assert |fetches[0]| > limit;
    WalkGoesOn(fetches, logs, u, f, before, limit);
    hide IsWalk;
    assert fetches[1..][k - 1] == fetches[k];
    PagesAreWanted(fetches[1..], logs, u, f, Some(fetches[0][limit - 1].createdAt), limit, k - 1, y);
  }

  lemma FirstIsAbove(
      fetches: seq<seq<ActivityLog>>, logs: seq<ActivityLog>, u: UserId, f: Filter, before: Option<int>,
      limit: nat, x: ActivityLog)
    requires 1 <= limit && IsWalk(fetches, logs, u, f, before, limit)
    requires |fetches[0]| > limit && x in Take(fetches[0], limit)
    ensures fetches[0][limit - 1].createdAt <= x.createdAt
  {
    HeadAboveCursor(fetches[0], limit, x);
  }

  /** Every row delivered up to a page lies at or above the cursor after that page. */
  lemma {:induction false} DeliveredIsAbove(
      fetches: seq<seq<ActivityLog>>, logs: seq<ActivityLog>, u: UserId, f: Filter, before: Option<int>,
      limit: nat, j: nat, k: nat, x: ActivityLog)
    requires 1 <= limit && IsWalk(fetches, logs, u, f, before, limit)
    requires j <= k < |fetches| && |fetches[k]| > limit && x in Take(fetches[j], limit)
    ensures fetches[k][limit - 1].createdAt <= x.createdAt
    decreases j
  {
    hide IsWalk;
    if k > 0 {
      var y := fetches[k][limit - 1];
      assert y == Take(fetches[k], limit)[limit - 1];
      LaterIsOlder(fetches, logs, u, f, before, limit, k, y);
    }
    if j == 0 {
      FirstIsAbove(fetches, logs, u, f, before, limit, x);
    } else {
      WalkGoesOn(fetches, logs, u, f, before, limit);
      assert fetches[1..][j - 1] == fetches[j] && fetches[1..][k - 1] == fetches[k];
      DeliveredIsAbove(fetches[1..], logs, u, f, Some(fetches[0][limit - 1].createdAt), limit, j - 1, k - 1, x);
    }
  }

  /** The step between pages that the service offers the client for a row it was shown: deleting
      it, at any time after, stays at or above the cursor the client holds. */
  lemma DeliveredMayBeDeleted(
      fetches: seq<seq<ActivityLog>>, db: Db, turns: seq<seq<Op>>, u: UserId, f: Filter, before: Option<int>,
      limit: nat, j: nat, k: nat, x: ActivityLog, ops: seq<Op>)
    requires 1 <= limit && LogsOk(db) && IsMovingWalk(fetches, db, turns, u, f, before, limit)
    requires j <= k < |fetches| && |fetches[k]| > limit && x in Take(fetches[j], limit)
    ensures StaysAbove(Run(db, ops), Delete(u, x.id), u, fetches[k][limit - 1].createdAt)
  {
    hide IsMovingWalk, IsWalk, Run;
    MovingWalkIsWalk(fetches, db, turns, u, f, before, limit);
    DeliveredIsAbove(fetches, db.logs, u, f, before, limit, j, k, x);
    PagesAreWanted(fetches, db.logs, u, f, before, limit, j, x);
    RowsKeepIds(db, ops);
    var found := FindOwned(Run(db, ops).logs, u, x.id);
    if found.Some? {
      SameRow(db, x, Run(db, ops).logs[found.value]);
    }
  }
}
