/**
  The laws for the ledger as it is really used: from the empty database on.
 */
module LedgerReachable {
  import opened Scores
  import opened Ledger
  import opened LedgerInvariant
  import opened LedgerRuns
  import opened LedgerExact
  import opened LedgerUndo
  import opened LevelReports
  import opened History
  import opened HistoryWalk
  import opened HistoryComplete

  ghost predicate Reachable(db: Db) {
    exists ops: seq<Op> :: Run(EMPTY_DB, ops) == db
  }

  lemma ReachableStep(db: Db, op: Op)
    requires Reachable(db)
    ensures Reachable(Step(db, op))
  {
    var ops :| Run(EMPTY_DB, ops) == db;
    assert (ops + [op])[..|ops|] == ops;
    assert Run(EMPTY_DB, ops + [op]) == Step(db, op);
  }

  /** Every reachable state satisfies the invariant, and its log table repeats no row. */
  lemma ReachableIsConsistent(db: Db)
    requires Reachable(db)
    ensures Inv(db) && NoRepeats(db.logs)
  {
    var ops :| Run(EMPTY_DB, ops) == db;
    EmptyDbInv();
    RunKeepsInv(EMPTY_DB, ops);
    forall i, j | 0 <= i < j < |db.logs| ensures db.logs[i] != db.logs[j] {
      assert db.logs[i].id < db.logs[j].id;
    }
  }

  /** In every reachable state the global xp of every user lies between the live logs' total and
      the sum of the stat rows, and no stat row holds less than its live logs applied. */
  lemma ReachableSandwich(db: Db, u: UserId, s: StatId)
    requires Reachable(db)
    ensures Sandwiched(db, u) && StatCovers(db, u, s)
  {
    ReachableIsConsistent(db);
  }

  /** From the empty database on: xp is the requests' running total above its lowest point, and
      levels are the levels of the peaks, for every stat and for the global total. */
  lemma {:induction false} ScoresFromEmpty(ops: seq<Op>, u: UserId, s: StatId, peak: int, globalPeak: int)
    requires IsHighest(StatHistory(EMPTY_DB, ops, u, s), peak)
    requires IsHighest(GlobalHistory(EMPTY_DB, ops, u), globalPeak)
    ensures var db := Run(EMPTY_DB, ops);
            && Reflects(StatRequests(EMPTY_DB, ops, u, s), StatScore(db, u, s).xp)
            && Reflects(GlobalRequests(EMPTY_DB, ops, u), GlobalScore(db, u).xp)
            && StatScore(db, u, s).level == Leveling.LevelFromXp(peak)
            && GlobalScore(db, u).level == Leveling.LevelFromXp(globalPeak)
  {
    hide Inv, Run, Reflects, StatHistory, GlobalHistory;
    EmptyDbInv();
    StatReflection(EMPTY_DB, ops, u, s);
    GlobalReflection(EMPTY_DB, ops, u);
    StatHighWater(EMPTY_DB, ops, u, s, peak);
    GlobalHighWater(EMPTY_DB, ops, u, globalPeak);
  }

  /** In a service of any templates, a user of whom no live log ever recorded a loss has stat
      rows, live logs and global total in exact agreement. */
  lemma {:induction false} ExactFromEmpty(ops: seq<Op>, u: UserId)
    requires AlwaysGains(EMPTY_DB, ops, u)
    ensures ExactOf(Run(EMPTY_DB, ops), u)
  {
    hide Run, ExactOf, AlwaysGains;
    EmptyDbInv();
    EmptyDbExact();
    GainsStayExact(EMPTY_DB, ops, u);
  }

  /** With a catalogue that has only ever given xp this holds for every user. */
  lemma {:induction false} AllExactFromEmpty(ops: seq<Op>)
    requires forall i | 0 <= i < |ops| :: GainfulOp(ops[i])
    ensures Exact(Run(EMPTY_DB, ops))
  {
    EmptyDbInv();
    EmptyDbExact();
    GainfulRunsStayExact(EMPTY_DB, ops);
  }

  /** A user who has never deleted has global xp equal to the sum of stat xp, and can go back
      newest-first to any earlier xp, whatever others do all the while. */
  lemma {:induction false} UndoFromEmpty(ops: seq<Op>, u: UserId, j: nat, turns: seq<seq<Op>>)
    requires NoDeletesBy(ops, u) && j <= |ops|
    requires |turns| == AddedSince(EMPTY_DB, ops, u, j) && OthersTurns(turns, u)
    ensures Balanced(Run(EMPTY_DB, ops), u)
    ensures Restores(UndoNewest(Run(EMPTY_DB, ops), u, turns), Run(EMPTY_DB, ops[..j]), Run(EMPTY_DB, ops), u)
  {
    hide Inv, Run, Restores;
    EmptyDbInv();
    assert Balanced(EMPTY_DB, u);
    RunKeepsBalance(EMPTY_DB, ops, u);
    UndoReplaysBackwards(EMPTY_DB, ops, u, j, turns);
  }

  /** From the empty database on a level is 1 plus what was reported plus what deletes added. */
  lemma {:induction false} LevelsFromEmpty(ops: seq<Op>, u: UserId, s: StatId)
    ensures StatScore(Run(EMPTY_DB, ops), u, s).level
         == 1 + RunGains(EMPTY_DB, ops, u, s) + RunSilent(EMPTY_DB, ops, u, s)
    ensures GlobalScore(Run(EMPTY_DB, ops), u).level
         == 1 + RunGlobalGains(EMPTY_DB, ops, u) + RunGlobalSilent(EMPTY_DB, ops, u)
  {
    hide Inv, Run;
    EmptyDbInv();
    RunLevels(EMPTY_DB, ops, u, s);
  }

  /** Over the history of a reachable state, a walk misses nothing if and only if no page end
      falls between rows of one time. */
  lemma {:induction false} ReachableWalks(
      db: Db, fetches: seq<seq<ActivityLog>>, u: UserId, f: Filter, before: Option<int>, limit: nat)
    requires Reachable(db) && 1 <= limit && IsWalk(fetches, db.logs, u, f, before, limit)
    ensures (forall x | Wanted(x, db.logs, u, f, before) :: x in Items(Pages(fetches, db.logs, u, f, limit)))
            <==> CleanEnds(SortNewest(Select(db.logs, u, f, before)), limit)
  {
    hide IsWalk, Reachable;
    ReachableIsConsistent(db);
    WalkCompleteIff(fetches, db.logs, u, f, before, limit);
  }
}
