/**
  Nothing but a lock holds a transaction up: from any state in which the rows it names are free it
  can run to its commit, and then each of those rows has moved by what it asked.
 */
module LockProgress {
  import opened Scores
  import opened RowLocks

  /** The events that carry out one request: lock the row, or insert the missing one, and write. */
  function Visit(rows: map<StatId, Score>, t: TxnId, s: StatId): seq<Event> {
    if s in rows then [Select(t), Write(t)] else [Select(t), Insert(t), Write(t)]
  }

  function Visits(rows: map<StatId, Score>, t: TxnId, requests: seq<Request>): seq<Event> {
    if requests == [] then []
    else Visit(rows, t, requests[0].statId) + Visits(rows, t, requests[1..])
  }

  /** A whole log transaction with nobody in its way. */
  function Script(rows: map<StatId, Score>, t: TxnId, requests: seq<Request>): seq<Event> {
    [Begin(t, requests)] + Visits(rows, t, requests) + [Commit(t)]
  }

  lemma {:induction false} InterleaveOn(w: World, first: seq<Event>, more: seq<Event>)
    ensures Interleave(w, first + more) == Interleave(Interleave(w, first), more)
  {
    hide Next;
    if more == [] {
      assert first + more == first;
    } else {
      InterleaveOn(w, first, more[..|more| - 1]);
      assert (first + more)[..|first + more| - 1] == first + more[..|more| - 1];
    }
  }

  lemma OneEvent(w: World, e: Event)
    ensures Interleave(w, [e]) == Next(w, e)
  {
    assert [e][..0] == [];
  }

  /** A select of a free committed row is granted, with the score the row has. */
  lemma FreeRowIsGranted(w: World, t: TxnId)
    requires t in w.txns && w.txns[t].phase.Ready? && HasNext(w.txns[t])
    requires var s := w.txns[t].requests[w.txns[t].done].statId; s in w.rows && s !in w.owner
    ensures var s := w.txns[t].requests[w.txns[t].done].statId;
            var after := Next(w, Select(t));
            && after.rows == w.rows && after.owner == w.owner[s := t]
            && after.txns == w.txns[t := w.txns[t].(phase := Locked(w.rows[s]))]
  {
  }

  /** A missing row whose key is free is inserted, as a new score. */
  lemma MissingRowIsInserted(w: World, t: TxnId)
    requires t in w.txns && w.txns[t].phase.Ready? && HasNext(w.txns[t])
    requires var s := w.txns[t].requests[w.txns[t].done].statId; s !in w.rows && s !in w.owner
    ensures var s := w.txns[t].requests[w.txns[t].done].statId;
            var after := Next(Next(w, Select(t)), Insert(t));
            && after.rows == w.rows && after.owner == w.owner[s := t]
            && after.txns == w.txns[t := w.txns[t].(phase := Locked(NEW_SCORE))]
  {
  }

  /** A locked row is written: what was read, moved by the delta asked. */
  lemma LockedRowIsWritten(w: World, t: TxnId)
    requires t in w.txns && w.txns[t].phase.Locked? && HasNext(w.txns[t])
    ensures var after := Next(w, Write(t));
            var r := w.txns[t].requests[w.txns[t].done];
            && after.rows == w.rows && after.owner == w.owner && after.txns.Keys == w.txns.Keys
            && after.txns[t].requests == w.txns[t].requests && after.txns[t].phase == Ready
            && after.txns[t].done == w.txns[t].done + 1
            && after.txns[t].written == w.txns[t].written[r.statId := Bump(w.txns[t].phase.read, r.delta)]
  {
    hide Bump;
  }

  /** The transaction stands before its next request, the remaining ones name distinct free rows. */
  ghost predicate Unhindered(w: World, t: TxnId) {
    && t in w.txns && w.txns[t].phase.Ready? && w.txns[t].done <= |w.txns[t].requests|
    && DistinctStats(w.txns[t].requests)
    && forall i | w.txns[t].done <= i < |w.txns[t].requests| :: w.txns[t].requests[i].statId !in w.owner
  }

  lemma VisitIsMade(w: World, t: TxnId)
    requires Unhindered(w, t) && HasNext(w.txns[t])
    ensures var txn := w.txns[t];
            var r := txn.requests[txn.done];
            var after := Interleave(w, Visit(w.rows, t, r.statId));
            && Unhindered(after, t) && after.rows == w.rows
            && after.txns[t].requests == txn.requests && after.txns[t].done == txn.done + 1
            && after.txns[t].written == txn.written[r.statId := Bump(RowScore(w.rows, r.statId), r.delta)]
  {
    hide Next, Bump;
    var s := w.txns[t].requests[w.txns[t].done].statId;
    if s in w.rows {
      FreeRowIsGranted(w, t);
      LockedRowIsWritten(Next(w, Select(t)), t);
      InterleaveOn(w, [Select(t)], [Write(t)]);
      OneEvent(w, Select(t));
      OneEvent(Next(w, Select(t)), Write(t));
      assert [Select(t)] + [Write(t)] == Visit(w.rows, t, s);
    } else {
      MissingRowIsInserted(w, t);
      var inserted := Next(Next(w, Select(t)), Insert(t));
      LockedRowIsWritten(inserted, t);
      InterleaveOn(w, [Select(t), Insert(t)], [Write(t)]);
      InterleaveOn(w, [Select(t)], [Insert(t)]);
      assert [Select(t)] + [Insert(t)] == [Select(t), Insert(t)];
      OneEvent(w, Select(t));
      OneEvent(Next(w, Select(t)), Insert(t));
      OneEvent(inserted, Write(t));
      assert [Select(t), Insert(t)] + [Write(t)] == Visit(w.rows, t, s);
    }
  }

  /** What a transaction has written once it has carried out its requests from one on. */
  lemma {:induction false} VisitsAreMade(w: World, t: TxnId, s: StatId)
    requires Unhindered(w, t)
    ensures var txn := w.txns[t];
            var after := Interleave(w, Visits(w.rows, t, txn.requests[txn.done..]));
            && Unhindered(after, t) && after.rows == w.rows
            && after.txns[t].requests == txn.requests && after.txns[t].done == |txn.requests|
            && (forall i | txn.done <= i < |txn.requests| && txn.requests[i].statId == s ::
                  s in after.txns[t].written
                  && after.txns[t].written[s] == Bump(RowScore(w.rows, s), txn.requests[i].delta))
            && ((forall i | txn.done <= i < |txn.requests| :: txn.requests[i].statId != s) ==>
                  (s in after.txns[t].written <==> s in txn.written)
                  && (s in txn.written ==> after.txns[t].written[s] == txn.written[s]))
    decreases |w.txns[t].requests| - w.txns[t].done
  {
    hide Next, Bump;
    var txn := w.txns[t];
    var rest := txn.requests[txn.done..];
    if rest != [] {
      var visit := Visit(w.rows, t, rest[0].statId);
      var mid := Interleave(w, visit);
      VisitIsMade(w, t);
      assert rest[1..] == txn.requests[txn.done + 1..];
      InterleaveOn(w, visit, Visits(w.rows, t, rest[1..]));
      VisitsAreMade(mid, t, s);
    }
  }

  /** From any state in which nobody holds the rows it names, a new log transaction can run through:
      it is committed, each row it names has moved by the delta named there, and no other row has. */
  lemma AloneItCommits(w: World, t: TxnId, requests: seq<Request>, s: StatId)
    requires t !in w.txns && DistinctStats(requests)
    requires forall i | 0 <= i < |requests| :: requests[i].statId !in w.owner
    ensures var after := Interleave(w, Script(w.rows, t, requests));
            && IsCommitted(after.txns, t)
            && (forall i | 0 <= i < |requests| && requests[i].statId == s ::
                  RowScore(after.rows, s) == Bump(RowScore(w.rows, s), requests[i].delta))
            && ((forall i | 0 <= i < |requests| :: requests[i].statId != s) ==>
                  RowScore(after.rows, s) == RowScore(w.rows, s))
  {
    hide Bump, Visits, Interleave;
    var begun := Next(w, Begin(t, requests));
    assert begun.txns[t].requests[0..] == requests;
    VisitsAreMade(begun, t, s);
    var done := Interleave(begun, Visits(w.rows, t, requests));
    OneEvent(w, Begin(t, requests));
    InterleaveOn(w, [Begin(t, requests)], Visits(w.rows, t, requests));
    InterleaveOn(w, [Begin(t, requests)] + Visits(w.rows, t, requests), [Commit(t)]);
    OneEvent(done, Commit(t));
    assert Next(done, Commit(t)) == CommitTxn(done, t);
  }

  // ---------------------------------------------------------------- aborts

  /** An abort gives up all locks and leaves the committed rows alone. */
  lemma AbortReleases(w: World, t: TxnId)
    requires t in w.txns && Active(w.txns[t])
    ensures var after := Next(w, Abort(t));
            && after.rows == w.rows && after.txns == w.txns[t := w.txns[t].(phase := Aborted)]
            && (forall s :: s in after.owner <==> s in w.owner && w.owner[s] != t)
            && (forall s | s in after.owner :: after.owner[s] == w.owner[s])
  {
  }

  /** A transaction that found a row missing and finds its key taken when it inserts is aborted. */
  lemma TakenKeyAborts(w: World, t: TxnId)
    requires t in w.txns && w.txns[t].phase.Missing? && HasNext(w.txns[t])
    requires w.txns[t].requests[w.txns[t].done].statId in w.rows
    ensures Next(w, Insert(t)) == Next(w, Abort(t))
  {
  }

  lemma AbortedStays(w: World, t: TxnId, e: Event)
    requires t in w.txns && w.txns[t].phase.Aborted?
    ensures t in Next(w, e).txns && Next(w, e).txns[t] == w.txns[t]
  {
    hide Bump;
  }

  /** An aborted transaction never commits. */
  lemma {:induction false} AbortIsFinal(w: World, t: TxnId, events: seq<Event>)
    requires t in w.txns && w.txns[t].phase.Aborted?
    ensures var after := Interleave(w, events);
            t in after.txns && after.txns[t] == w.txns[t] && !IsCommitted(after.txns, t)
  {
    hide Next;
    if events != [] {
      AbortIsFinal(w, t, events[..|events| - 1]);
      AbortedStays(Interleave(w, events[..|events| - 1]), t, events[|events| - 1]);
    }
  }
}
