/**
  One order for all rows: interleaved log transactions leave every stat row as if they had run one
  after the other in the order of their commits.
 */
module CommitOrder {
  import opened Scores
  import opened RowLocks
  import Ledger

  // ---------------------------------------------------------------- running one after the other

  /** What a transaction asks of one stat row: nothing, or one delta. */
  function DeltaOf(requests: seq<Request>, s: StatId): seq<int> {
    if requests == [] then []
    else
      var last := requests[|requests| - 1];
      DeltaOf(requests[..|requests| - 1], s) + if last.statId == s then [last.delta] else []
  }

  /** What a transaction is to do, according to the event that begins it. */
  ghost function Begun(events: seq<Event>, t: TxnId): Ledger.Option<seq<Request>> {
    if events == [] then Ledger.None
    else
      var before, last := Begun(events[..|events| - 1], t), events[|events| - 1];
      if before.Some? then before
      else if last.Begin? && last.txn == t && DistinctStats(last.requests) then Ledger.Some(last.requests)
      else Ledger.None
  }

  /** What these transactions are to do to one stat row, one transaction after the other. */
  ghost function DeltasOf(order: seq<TxnId>, events: seq<Event>, s: StatId): seq<int> {
    if order == [] then []
    else
      var begun := Begun(events, order[|order| - 1]);
      DeltasOf(order[..|order| - 1], events, s) + if begun.Some? then DeltaOf(begun.value, s) else []
  }

  predicate Commits(w: World, e: Event) {
    e.Commit? && e.txn in w.txns && w.txns[e.txn].phase.Ready? && !HasNext(w.txns[e.txn])
  }

  /** The transactions that commit in this interleaving, in the order in which they do. */
  ghost function InCommitOrder(start: map<StatId, Score>, events: seq<Event>): seq<TxnId> {
    if events == [] then []
    else
      var init, last := events[..|events| - 1], events[|events| - 1];
      InCommitOrder(start, init) + if Commits(Interleave(Start(start), init), last) then [last.txn] else []
  }

  // ---------------------------------------------------------------- the invariant

  /** What a live transaction has asked of a row so far is what it was granted there. */
  ghost predicate AskedOk(w: World, t: TxnId, s: StatId)
    requires t in w.txns
  {
    var txn, g := w.txns[t], GrantsOf(w, s);
    Active(txn) ==>
      && txn.done <= |txn.requests|
      && (s in txn.written ==> g != [] && DeltaOf(txn.requests[..txn.done], s) == [g[|g| - 1].delta])
      && (s !in txn.written ==> DeltaOf(txn.requests[..txn.done], s) == [])
  }

  ghost predicate AllAskedOk(w: World, s: StatId) {
    forall t | t in w.txns :: AskedOk(w, t, s)
  }

  ghost predicate AllHoldOk(w: World, s: StatId) {
    forall t | t in w.txns :: HoldsOk(w, t, s)
  }

  lemma BeginAsks(w: World, t: TxnId, requests: seq<Request>, v: TxnId, s: StatId)
    requires t !in w.txns && (v in w.txns ==> AskedOk(w, v, s)) && (v in w.txns || v == t)
    ensures AskedOk(w.(txns := w.txns[t := Txn(requests, 0, Ready, map[], map[])]), v, s)
  {
    assert requests[..0] == [];
  }

  lemma GrantAsks(w: World, t: TxnId, read: Score, v: TxnId, s: StatId)
    requires t in w.txns && v in w.txns && HasNext(w.txns[t]) && AskedOk(w, v, s) && HoldsOk(w, v, s)
    requires w.txns[t].phase.Ready? || w.txns[t].phase.Missing?
    requires w.txns[t].requests[w.txns[t].done].statId !in w.owner
    ensures AskedOk(GrantTo(w, t, read), v, s)
  {
    hide DeltaOf;
  }

  lemma WriteAsks(w: World, t: TxnId, v: TxnId, s: StatId)
    requires t in w.txns && v in w.txns && HasNext(w.txns[t]) && w.txns[t].phase.Locked?
    requires AskedOk(w, v, s) && HoldsOk(w, v, s)
    ensures AskedOk(WriteRow(w, t), v, s)
  {
    hide DeltaOf, Bump;
    var txn := w.txns[t];
    OneMoreRequest(txn.requests, txn.done, s);
  }

  lemma OneMoreRequest(requests: seq<Request>, done: nat, s: StatId)
    requires done < |requests|
    ensures DeltaOf(requests[..done + 1], s)
         == if requests[done].statId == s then DeltaOf(requests[..done], s) + [requests[done].delta]
            else DeltaOf(requests[..done], s)
  {
    assert requests[..done + 1][..done] == requests[..done];
  }

  lemma PhaseAsks(w: World, t: TxnId, phase: Phase, v: TxnId, s: StatId)
    requires t in w.txns && v in w.txns && Active(w.txns[t]) && AskedOk(w, v, s)
    ensures AskedOk(SetPhase(w, t, phase), v, s)
  {
    hide DeltaOf;
  }

  lemma AsksSame(a: World, b: World, v: TxnId, s: StatId)
    requires v in a.txns && a.txns == b.txns && a.grants == b.grants && AskedOk(a, v, s)
    ensures AskedOk(b, v, s)
  {
  }

  lemma NextAsks(w: World, e: Event, v: TxnId, s: StatId)
    requires AllAskedOk(w, s) && AllHoldOk(w, s)
    requires v in Next(w, e).txns
    ensures AskedOk(Next(w, e), v, s)
  {
    hide AskedOk, HoldsOk, GrantTo, WriteRow, SetPhase;
    if Next(w, e) != w {
      var t := e.txn;
      match e
      case Begin(_, requests) => BeginAsks(w, t, requests, v, s);
      case Select(_) =>
        var r := w.txns[t].requests[w.txns[t].done];
        if r.statId !in w.rows {
          KeysKept(w, t, Missing);
          PhaseAsks(w, t, Missing, v, s);
        } else {
          GrantKeys(w, t, w.rows[r.statId]);
          GrantAsks(w, t, w.rows[r.statId], v, s);
        }
      case Insert(_) =>
        var r := w.txns[t].requests[w.txns[t].done];
        if r.statId in w.rows {
          KeysKept(w, t, Aborted);
          PhaseAsks(w, t, Aborted, v, s);
          AsksSame(SetPhase(w, t, Aborted), Next(w, e), v, s);
        } else {
          GrantKeys(w, t, NEW_SCORE);
          GrantAsks(w, t, NEW_SCORE, v, s);
        }
      case Write(_) =>
        WriteKeys(w, t);
        WriteAsks(w, t, v, s);
      case Commit(_) =>
        KeysKept(w, t, Committed);
        PhaseAsks(w, t, Committed, v, s);
        AsksSame(SetPhase(w, t, Committed), Next(w, e), v, s);
      case Abort(_) =>
        KeysKept(w, t, Aborted);
        PhaseAsks(w, t, Aborted, v, s);
        AsksSame(SetPhase(w, t, Aborted), Next(w, e), v, s);
    }
  }

  lemma KeysKept(w: World, t: TxnId, phase: Phase)
    requires t in w.txns
    ensures SetPhase(w, t, phase).txns.Keys == w.txns.Keys
    ensures SetPhase(w, t, phase).grants == w.grants
  {
  }

  lemma GrantKeys(w: World, t: TxnId, read: Score)
    requires t in w.txns && HasNext(w.txns[t])
    ensures GrantTo(w, t, read).txns.Keys == w.txns.Keys
  {
  }

  lemma WriteKeys(w: World, t: TxnId)
    requires t in w.txns && HasNext(w.txns[t]) && w.txns[t].phase.Locked?
    ensures WriteRow(w, t).txns.Keys == w.txns.Keys
  {
  }

  // ---------------------------------------------------------------- what an event does to the order

  /** Only a commit makes a transaction committed, and only once. */
  lemma NextTxns(w: World, e: Event, t: TxnId)
    ensures t in w.txns ==> t in Next(w, e).txns
    ensures IsCommitted(Next(w, e).txns, t) <==> IsCommitted(w.txns, t) || (Commits(w, e) && t == e.txn)
    ensures Commits(w, e) ==> !IsCommitted(w.txns, e.txn)
  {
    hide Bump;
  }

  /** Every transaction there is carries what its beginning said, whatever has happened since. */
  lemma {:induction false} RequestsAreBegun(start: map<StatId, Score>, events: seq<Event>, t: TxnId)
    ensures var w := Interleave(Start(start), events);
            && (t in w.txns <==> Begun(events, t).Some?)
            && (t in w.txns ==> w.txns[t].requests == Begun(events, t).value)
  {
    hide Next;
    if events != [] {
      RequestsAreBegun(start, events[..|events| - 1], t);
      NextBegins(Interleave(Start(start), events[..|events| - 1]), events[|events| - 1], t);
    }
  }

  lemma NextBegins(w: World, e: Event, t: TxnId)
    ensures t in Next(w, e).txns <==> t in w.txns || (e.Begin? && e.txn == t && DistinctStats(e.requests))
    ensures t in w.txns ==> Next(w, e).txns[t].requests == w.txns[t].requests
    ensures t !in w.txns && t in Next(w, e).txns ==> Next(w, e).txns[t].requests == e.requests
  {
    hide Bump;
  }

  lemma {:induction false} DeltasKept(order: seq<TxnId>, events: seq<Event>, e: Event, s: StatId)
    requires forall i | 0 <= i < |order| :: Begun(events, order[i]).Some?
    ensures DeltasOf(order, events + [e], s) == DeltasOf(order, events, s)
  {
    if order != [] {
      assert (events + [e])[..|events|] == events;
      DeltasKept(order[..|order| - 1], events, e, s);
    }
  }

  lemma RowsKept(w: World, e: Event)
    requires !Commits(w, e)
    ensures Next(w, e).rows == w.rows
  {
  }

  /** A commit applies to each row what its transaction asked of it, and has recorded the change. */
  lemma CommitApplies(w: World, t: TxnId, s: StatId)
    requires t in w.txns && w.txns[t].phase.Ready? && !HasNext(w.txns[t])
    requires HoldsOk(w, t, s) && AskedOk(w, t, s)
    ensures RowScore(CommitTxn(w, t).rows, s) == BumpAll(RowScore(w.rows, s), DeltaOf(w.txns[t].requests, s))
    ensures s in w.txns[t].applied <==> DeltaOf(w.txns[t].requests, s) != []
    ensures s in w.txns[t].applied ==>
              w.txns[t].applied[s] == RowScore(CommitTxn(w, t).rows, s).xp - RowScore(w.rows, s).xp
  {
    hide DeltaOf, Bump, BumpAll;
    var txn := w.txns[t];
    assert txn.requests[..txn.done] == txn.requests;
    if s in txn.written {
      var g := GrantsOf(w, s);
      BumpOne(RowScore(w.rows, s), g[|g| - 1].delta);
    } else {
      BumpNone(RowScore(w.rows, s));
    }
  }

  lemma BumpOne(score: Score, delta: int)
    ensures BumpAll(score, [delta]) == Bump(score, delta)
  {
    assert [delta][..0] == [];
  }

  lemma BumpNone(score: Score)
    ensures BumpAll(score, []) == score
  {
  }

  // ---------------------------------------------------------------- every interleaving

  lemma {:induction false} AsksKept(start: map<StatId, Score>, events: seq<Event>, s: StatId)
    ensures AllAskedOk(Interleave(Start(start), events), s)
  {
    hide AskedOk, Next, InvAt;
    if events != [] {
      var init := events[..|events| - 1];
      var w := Interleave(Start(start), init);
      AsksKept(start, init, s);
      assert AllHoldOk(w, s) by { HoldsInAll(start, init, s); }
      forall t | t in Interleave(Start(start), events).txns ensures AskedOk(Interleave(Start(start), events), t, s) {
        NextAsks(w, events[|events| - 1], t, s);
      }
    }
  }

  lemma HoldsInAll(start: map<StatId, Score>, events: seq<Event>, s: StatId)
    ensures AllHoldOk(Interleave(Start(start), events), s)
  {
    hide Interleave;
    InterleaveKeeps(start, events, s);
  }

  /** The commit order names every committed transaction, once, and no other. */
  lemma {:induction false} OrderIsCommitted(start: map<StatId, Score>, events: seq<Event>, t: TxnId)
    ensures var order := InCommitOrder(start, events);
            && (t in order <==> IsCommitted(Interleave(Start(start), events).txns, t))
            && (forall i, j | 0 <= i < j < |order| && order[i] == t :: order[j] != t)
  {
    hide Next, Commits;
    if events != [] {
      OrderIsCommitted(start, events[..|events| - 1], t);
      NextTxns(Interleave(Start(start), events[..|events| - 1]), events[|events| - 1], t);
    }
  }

  /** Whatever the interleaving of selects, inserts, writes, commits and aborts: every stat row is
      as if the committed transactions had done what they were begun with one after the other in the
      order of their commits, the same order for all rows. */
  lemma {:induction false} OneOrderForAllRows(start: map<StatId, Score>, events: seq<Event>, s: StatId)
    ensures var w := Interleave(Start(start), events);
            RowScore(w.rows, s) == BumpAll(RowScore(start, s), DeltasOf(InCommitOrder(start, events), events, s))
  {
    hide Next, Commits, Bump, BumpAll, AskedOk, HoldsOk, DeltaOf, Begun;
    if events == [] {
      BumpNone(RowScore(start, s));
    } else {
      var init, e := events[..|events| - 1], events[|events| - 1];
      assert events == init + [e];
      var before := Interleave(Start(start), init);
      var order := InCommitOrder(start, init);
      OneOrderForAllRows(start, init, s);
      OrderKept(start, init, e, s);
      if Commits(before, e) {
        CommitOfRun(start, init, e, s);
        CommitIsCommit(before, e);
        BumpAllConcat(RowScore(start, s), DeltasOf(order, init, s), DeltaOf(before.txns[e.txn].requests, s));
        RequestsAreBegun(start, events, e.txn);
        NextTxns(before, e, e.txn);
        OrderExtends(order, e.txn, events, s);
      } else {
        RowsKept(before, e);
        assert InCommitOrder(start, events) == order;
      }
    }
  }

  /** A commit in a run: each row moves by what the transaction asked, and the amounts recorded are
      the moves. */
  lemma CommitOfRun(start: map<StatId, Score>, init: seq<Event>, e: Event, s: StatId)
    requires Commits(Interleave(Start(start), init), e)
    ensures var before, after := Interleave(Start(start), init), Next(Interleave(Start(start), init), e);
            var txn := before.txns[e.txn];
            && RowScore(after.rows, s) == BumpAll(RowScore(before.rows, s), DeltaOf(txn.requests, s))
            && (s in txn.applied <==> DeltaOf(txn.requests, s) != [])
            && (s in txn.applied ==> txn.applied[s] == RowScore(after.rows, s).xp - RowScore(before.rows, s).xp)
  {
    hide Next, Interleave, Bump, BumpAll, AskedOk, HoldsOk, DeltaOf;
    var before := Interleave(Start(start), init);
    AsksKept(start, init, s);
    HoldsInAll(start, init, s);
    CommitIsCommit(before, e);
    CommitApplies(before, e.txn, s);
  }

  lemma CommitIsCommit(w: World, e: Event)
    requires Commits(w, e)
    ensures Next(w, e) == CommitTxn(w, e.txn)
    ensures e.txn in w.txns && w.txns[e.txn].phase.Ready? && !HasNext(w.txns[e.txn])
  {
  }

  lemma OrderExtends(order: seq<TxnId>, t: TxnId, events: seq<Event>, s: StatId)
    requires Begun(events, t).Some?
    ensures DeltasOf(order + [t], events, s) == DeltasOf(order, events, s) + DeltaOf(Begun(events, t).value, s)
  {
    assert (order + [t])[..|order|] == order;
  }

  lemma OrderKept(start: map<StatId, Score>, init: seq<Event>, e: Event, s: StatId)
    ensures var order := InCommitOrder(start, init);
            DeltasOf(order, init + [e], s) == DeltasOf(order, init, s)
  {
    hide Interleave, InCommitOrder, Begun;
    var order := InCommitOrder(start, init);
    forall i | 0 <= i < |order| ensures Begun(init, order[i]).Some? {
      OrderIsCommitted(start, init, order[i]);
      RequestsAreBegun(start, init, order[i]);
    }
    DeltasKept(order, init, e, s);
  }

  // ---------------------------------------------------------------- lock order is commit order

  /** A step other than a commit adds no committed grant to a row. */
  lemma GrantsWait(w: World, e: Event, s: StatId)
    requires GrantsOk(w, s) && !Commits(w, e)
    ensures CommittedDeltas(GrantsOf(Next(w, e), s), Next(w, e).txns) == CommittedDeltas(GrantsOf(w, s), w.txns)
  {
    hide Next, Commits, CommittedDeltas, CommittedApplied;
    var g, after := GrantsOf(w, s), Next(w, e);
    forall i | 0 <= i < |g| ensures IsCommitted(w.txns, g[i].txn) <==> IsCommitted(after.txns, g[i].txn) {
      NextTxns(w, e, g[i].txn);
    }
    SameDeltas(g, w.txns, after.txns);
    GrantsGrow(w, e, s);
    if GrantsOf(after, s) != g {
      var last := GrantsOf(after, s)[|g|];
      FoldLast(GrantsOf(after, s), after.txns, s);
    }
  }

  lemma {:induction false} SameDeltas(g: seq<Grant>, before: map<TxnId, Txn>, after: map<TxnId, Txn>)
    requires forall i | 0 <= i < |g| :: IsCommitted(before, g[i].txn) <==> IsCommitted(after, g[i].txn)
    ensures CommittedDeltas(g, before) == CommittedDeltas(g, after)
  {
    if g != [] {
      SameDeltas(g[..|g| - 1], before, after);
    }
  }

  lemma GrantsGrow(w: World, e: Event, s: StatId)
    ensures var g, grown := GrantsOf(w, s), GrantsOf(Next(w, e), s);
            grown == g
            || (|grown| == |g| + 1 && grown[..|g|] == g && !IsCommitted(Next(w, e).txns, grown[|g|].txn))
  {
    hide Bump;
  }

  /** A commit turns the owner's grant on each row it wrote into a committed one. */
  lemma GrantsCommit(w: World, t: TxnId, s: StatId)
    requires t in w.txns && w.txns[t].phase.Ready? && !HasNext(w.txns[t])
    requires GrantsOk(w, s) && HoldsOk(w, t, s) && AskedOk(w, t, s)
    ensures CommittedDeltas(GrantsOf(CommitTxn(w, t), s), CommitTxn(w, t).txns)
         == CommittedDeltas(GrantsOf(w, s), w.txns) + DeltaOf(w.txns[t].requests, s)
  {
    hide Bump, BumpAll, CommittedDeltas, CommittedApplied, DeltaOf;
    var g, after, txn := GrantsOf(w, s), CommitTxn(w, t), w.txns[t];
    assert txn.requests[..txn.done] == txn.requests;
    if s in txn.written {
      var n := |g| - 1;
      SameDeltas(g[..n], w.txns, after.txns);
      FoldLast(g, w.txns, s);
      FoldLast(g, after.txns, s);
    } else {
      SameDeltas(g, w.txns, after.txns);
      assert CommittedDeltas(g, w.txns) + [] == CommittedDeltas(g, w.txns);
    }
  }

  /** On every row the committed grants, in the order the lock was given, are what the committed
      transactions were begun with for that row, in the order of the commits. */
  lemma {:induction false} LockOrderIsCommitOrder(start: map<StatId, Score>, events: seq<Event>, s: StatId)
    ensures var w := Interleave(Start(start), events);
            CommittedDeltas(GrantsOf(w, s), w.txns) == DeltasOf(InCommitOrder(start, events), events, s)
  {
    hide Next, Commits, CommittedDeltas, AskedOk, HoldsOk, GrantsOk, DeltaOf, Begun, Serial;
    if events == [] {
      NoGrants(start, s);
    } else {
      var init, e := events[..|events| - 1], events[|events| - 1];
      assert events == init + [e];
      var before := Interleave(Start(start), init);
      LockOrderIsCommitOrder(start, init, s);
      OrderKept(start, init, e, s);
      InterleaveKeeps(start, init, s);
      if Commits(before, e) {
        AsksKept(start, init, s);
        CommitIsCommit(before, e);
        GrantsCommit(before, e.txn, s);
        RequestsAreBegun(start, events, e.txn);
        NextTxns(before, e, e.txn);
        OrderExtends(InCommitOrder(start, init), e.txn, events, s);
      } else {
        GrantsWait(before, e, s);
        assert InCommitOrder(start, events) == InCommitOrder(start, init);
      }
    }
  }

  lemma NoGrants(start: map<StatId, Score>, s: StatId)
    ensures CommittedDeltas(GrantsOf(Start(start), s), Start(start).txns) == []
  {
  }
}
