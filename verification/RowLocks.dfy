/**
  Interleaved log transactions of one user at the grain of single database operations: find and
  lock a stat row, or insert the missing one, write it, commit, abort.  The row lock of
  get_for_update and the unique key on (user, stat) make every stat row serial in lock order.
 */
module RowLocks {
  import opened Scores
  import Ledger

  type StatId = Ledger.StatId
  type TxnId = nat

  /** One effect of a log: the stat and the raw delta to apply to it. */
  datatype Request = Request(statId: StatId, delta: int)

  /** Where a transaction stands with its next request: about to select the row; having found
      none and about to insert it; or holding the row's lock with the score it read. */
  datatype Phase = Ready | Missing | Locked(read: Score) | Committed | Aborted

  datatype Txn = Txn(
    requests: seq<Request>, done: nat, phase: Phase,
    written: map<StatId, Score>, applied: map<StatId, int>)

  datatype Grant = Grant(txn: TxnId, delta: int)

  /** `rows` is the committed table; `owner` says who holds a row's lock or has an uncommitted
      insert under its key; `grants` is the history of lock grants per stat, oldest first. */
  datatype World = World(
    rows: map<StatId, Score>, owner: map<StatId, TxnId>,
    txns: map<TxnId, Txn>, grants: map<StatId, seq<Grant>>)

  datatype Event =
    | Begin(txn: TxnId, requests: seq<Request>)
    | Select(txn: TxnId)
    | Insert(txn: TxnId)
    | Write(txn: TxnId)
    | Commit(txn: TxnId)
    | Abort(txn: TxnId)

  // ---------------------------------------------------------------- reading the world

  function RowScore(rows: map<StatId, Score>, s: StatId): Score {
    if s in rows then rows[s] else NEW_SCORE
  }

  function GrantsOf(w: World, s: StatId): seq<Grant> {
    if s in w.grants then w.grants[s] else []
  }

  predicate Active(t: Txn) {
    t.phase.Ready? || t.phase.Missing? || t.phase.Locked?
  }

  predicate HasNext(t: Txn) {
    t.done < |t.requests|
  }

  ghost predicate DistinctStats(requests: seq<Request>) {
    forall i, j | 0 <= i < j < |requests| :: requests[i].statId != requests[j].statId
  }

  // ---------------------------------------------------------------- steps

  function SetPhase(w: World, t: TxnId, phase: Phase): World
    requires t in w.txns
  {
    w.(txns := w.txns[t := w.txns[t].(phase := phase)])
  }

  /** The lock on the next request's row is given to the transaction, which reads `read`. */
  function GrantTo(w: World, t: TxnId, read: Score): World
    requires t in w.txns && HasNext(w.txns[t])
  {
    var r := w.txns[t].requests[w.txns[t].done];
    SetPhase(w, t, Locked(read))
      .(owner := w.owner[r.statId := t],
        grants := w.grants[r.statId := GrantsOf(w, r.statId) + [Grant(t, r.delta)]])
  }

  function Release(owner: map<StatId, TxnId>, t: TxnId): map<StatId, TxnId> {
    map s | s in owner && owner[s] != t :: owner[s]
  }

  function AbortTxn(w: World, t: TxnId): World
    requires t in w.txns
  {
    SetPhase(w, t, Aborted).(owner := Release(w.owner, t))
  }

  function CommitTxn(w: World, t: TxnId): World
    requires t in w.txns
  {
    SetPhase(w, t, Committed).(owner := Release(w.owner, t), rows := w.rows + w.txns[t].written)
  }

  function WriteRow(w: World, t: TxnId): World
    requires t in w.txns && HasNext(w.txns[t]) && w.txns[t].phase.Locked?
  {
    var txn := w.txns[t];
    var r := txn.requests[txn.done];
    var after := Bump(txn.phase.read, r.delta);
    w.(txns := w.txns[t := Txn(txn.requests, txn.done + 1, Ready,
                               txn.written[r.statId := after],
                               txn.applied[r.statId := after.xp - txn.phase.read.xp])])
  }

  /** An event that is not enabled, or that must wait for a lock, changes nothing. */
  ghost function Next(w: World, e: Event): World {
    match e
    case Begin(t, requests) =>
      if t in w.txns || !DistinctStats(requests) then w
      else w.(txns := w.txns[t := Txn(requests, 0, Ready, map[], map[])])
    case Select(t) =>
      if t !in w.txns || !w.txns[t].phase.Ready? || !HasNext(w.txns[t]) then w
      else
        var s := w.txns[t].requests[w.txns[t].done].statId;
        if s !in w.rows then SetPhase(w, t, Missing)
        else if s in w.owner then w
        else GrantTo(w, t, w.rows[s])
    case Insert(t) =>
      if t !in w.txns || !w.txns[t].phase.Missing? || !HasNext(w.txns[t]) then w
      else
        var s := w.txns[t].requests[w.txns[t].done].statId;
        if s in w.rows then AbortTxn(w, t)       // the unique key is taken
        else if s in w.owner then w              // another uncommitted insert holds the key
        else GrantTo(w, t, NEW_SCORE)
    case Write(t) =>
      if t !in w.txns || !w.txns[t].phase.Locked? || !HasNext(w.txns[t]) then w
      else WriteRow(w, t)
    case Commit(t) =>
      if t !in w.txns || !w.txns[t].phase.Ready? || HasNext(w.txns[t]) then w
      else CommitTxn(w, t)
    case Abort(t) =>
      if t !in w.txns || !Active(w.txns[t]) then w else AbortTxn(w, t)
  }

  ghost function Interleave(w: World, events: seq<Event>): World {
    if events == [] then w
    else Next(Interleave(w, events[..|events| - 1]), events[|events| - 1])
  }

  function Start(rows: map<StatId, Score>): World {
    World(rows, map[], map[], map[])
  }

  // ---------------------------------------------------------------- what the grants say

  predicate IsCommitted(txns: map<TxnId, Txn>, t: TxnId) {
    t in txns && txns[t].phase.Committed?
  }

  /** The deltas of the committed transactions among a row's lock grants, in lock order. */
  function CommittedDeltas(grants: seq<Grant>, txns: map<TxnId, Txn>): seq<int> {
    if grants == [] then []
    else
      var last := grants[|grants| - 1];
      CommittedDeltas(grants[..|grants| - 1], txns)
        + if IsCommitted(txns, last.txn) then [last.delta] else []
  }

  /** The amounts those transactions recorded as applied to the stat. */
  function CommittedApplied(grants: seq<Grant>, txns: map<TxnId, Txn>, s: StatId): int {
    if grants == [] then 0
    else
      var last := grants[|grants| - 1];
      CommittedApplied(grants[..|grants| - 1], txns, s)
        + if IsCommitted(txns, last.txn) && s in txns[last.txn].applied then txns[last.txn].applied[s] else 0
  }

  /** A row is the floored fold of its committed requests in lock order, over what it started
      from, and its xp is the sum of the amounts its committed transactions recorded. */
  ghost predicate Serial(start: map<StatId, Score>, w: World, s: StatId) {
    && RowScore(w.rows, s) == BumpAll(RowScore(start, s), CommittedDeltas(GrantsOf(w, s), w.txns))
    && RowScore(w.rows, s).xp == RowScore(start, s).xp + CommittedApplied(GrantsOf(w, s), w.txns, s)
  }

  // ---------------------------------------------------------------- the invariant

  /** Only the newest grant of a row can belong to a live transaction, and then it is the owner. */
  ghost predicate GrantsOk(w: World, s: StatId) {
    var g := GrantsOf(w, s);
    && (forall i | 0 <= i < |g| :: g[i].txn in w.txns)
    && (forall i | 0 <= i < |g| - 1 :: !Active(w.txns[g[i].txn]))
    && (s in w.owner <==> g != [] && Active(w.txns[g[|g| - 1].txn]))
    && (s in w.owner ==> w.owner[s] == g[|g| - 1].txn)
  }

  predicate LockedOn(txn: Txn, s: StatId) {
    txn.phase.Locked? && HasNext(txn) && txn.requests[txn.done].statId == s
  }

  /** A live transaction owns exactly the rows it has written and the one it is locked on; its
      pending value is the owner's grant applied to the committed row, which cannot move. */
  ghost predicate HoldsOk(w: World, t: TxnId, s: StatId)
    requires t in w.txns
  {
    var txn, g := w.txns[t], GrantsOf(w, s);
    Active(txn) ==>
      && (s in txn.written <==> s in txn.applied)
      && (s in w.owner && w.owner[s] == t <==> s in txn.written || LockedOn(txn, s))
      && (s in txn.written ==>
            && g != [] && !LockedOn(txn, s)
            && txn.written[s] == Bump(RowScore(w.rows, s), g[|g| - 1].delta)
            && txn.applied[s] == txn.written[s].xp - RowScore(w.rows, s).xp)
      && (LockedOn(txn, s) ==>
            && g != [] && g[|g| - 1].delta == txn.requests[txn.done].delta
            && txn.phase.read == RowScore(w.rows, s))
  }

  ghost predicate InvAt(start: map<StatId, Score>, w: World, s: StatId) {
    && GrantsOk(w, s)
    && Serial(start, w, s)
    && (forall t | t in w.txns :: HoldsOk(w, t, s))
  }

  // ---------------------------------------------------------------- folds over grants

  lemma {:induction false} SameCommitted(g: seq<Grant>, before: map<TxnId, Txn>, after: map<TxnId, Txn>, s: StatId)
    requires forall i | 0 <= i < |g| :: IsCommitted(before, g[i].txn) <==> IsCommitted(after, g[i].txn)
    requires forall i | 0 <= i < |g| && IsCommitted(before, g[i].txn) && IsCommitted(after, g[i].txn) ::
               before[g[i].txn].applied == after[g[i].txn].applied
    ensures CommittedDeltas(g, before) == CommittedDeltas(g, after)
    ensures CommittedApplied(g, before, s) == CommittedApplied(g, after, s)
  {
    if g != [] {
      SameCommitted(g[..|g| - 1], before, after, s);
    }
  }

  lemma FoldLast(g: seq<Grant>, txns: map<TxnId, Txn>, s: StatId)
    requires g != []
    ensures var init, last := g[..|g| - 1], g[|g| - 1];
            && CommittedDeltas(g, txns)
               == (if IsCommitted(txns, last.txn) then CommittedDeltas(init, txns) + [last.delta]
                   else CommittedDeltas(init, txns))
            && CommittedApplied(g, txns, s)
               == CommittedApplied(init, txns, s)
                  + if IsCommitted(txns, last.txn) && s in txns[last.txn].applied then txns[last.txn].applied[s] else 0
  {
    assert CommittedDeltas(g[..|g| - 1], txns) + [] == CommittedDeltas(g[..|g| - 1], txns);
  }

  lemma BumpAllSnoc(score: Score, deltas: seq<int>, delta: int)
    ensures BumpAll(score, deltas + [delta]) == Bump(BumpAll(score, deltas), delta)
  {
    assert (deltas + [delta])[..|deltas|] == deltas;
  }

  /** A step that commits nothing and leaves the table alone keeps every row serial. */
  lemma SerialKept(start: map<StatId, Score>, w: World, after: World, t: TxnId, s: StatId)
    requires Serial(start, w, s) && GrantsOk(w, s) && after.rows == w.rows
    requires t in after.txns && after.txns == w.txns[t := after.txns[t]]
    requires !IsCommitted(w.txns, t) && !IsCommitted(after.txns, t)
    requires GrantsOf(after, s) == GrantsOf(w, s)
             || exists d: int :: GrantsOf(after, s) == GrantsOf(w, s) + [Grant(t, d)]
    ensures Serial(start, after, s)
  {
    hide Bump, BumpAll;
    var g := GrantsOf(w, s);
    SameCommitted(g, w.txns, after.txns, s);
    if GrantsOf(after, s) != g {
      assert GrantsOf(after, s)[..|g|] == g;
      assert CommittedDeltas(g, after.txns) + [] == CommittedDeltas(g, after.txns);
    }
  }

  // ---------------------------------------------------------------- steps that commit nothing

  lemma BeginKeeps(start: map<StatId, Score>, w: World, t: TxnId, requests: seq<Request>, s: StatId)
    requires GrantsOk(w, s) && Serial(start, w, s) && t !in w.txns
    ensures var after := w.(txns := w.txns[t := Txn(requests, 0, Ready, map[], map[])]);
            && GrantsOk(after, s) && Serial(start, after, s)
            && HoldsOk(after, t, s)
            && (forall v | v in w.txns && HoldsOk(w, v, s) :: HoldsOk(after, v, s))
  {
    hide Bump, BumpAll, CommittedDeltas, CommittedApplied;
    SerialKept(start, w, w.(txns := w.txns[t := Txn(requests, 0, Ready, map[], map[])]), t, s);
  }

  lemma MissingKeeps(start: map<StatId, Score>, w: World, t: TxnId, s: StatId)
    requires GrantsOk(w, s) && Serial(start, w, s) && t in w.txns && w.txns[t].phase.Ready?
    ensures var after := SetPhase(w, t, Missing);
            && after.txns.Keys == w.txns.Keys
            && GrantsOk(after, s) && Serial(start, after, s)
            && (forall v | v in w.txns && HoldsOk(w, v, s) :: HoldsOk(after, v, s))
  {
    hide Bump, BumpAll, CommittedDeltas, CommittedApplied;
    SerialKept(start, w, SetPhase(w, t, Missing), t, s);
  }

  lemma GrantKeeps(start: map<StatId, Score>, w: World, t: TxnId, read: Score, s: StatId)
    requires GrantsOk(w, s) && Serial(start, w, s) && t in w.txns && HasNext(w.txns[t]) && HoldsOk(w, t, s)
    requires w.txns[t].phase.Ready? || w.txns[t].phase.Missing?
    requires var r := w.txns[t].requests[w.txns[t].done]; r.statId !in w.owner && read == RowScore(w.rows, r.statId)
    ensures var after := GrantTo(w, t, read);
            && after.txns.Keys == w.txns.Keys
            && GrantsOk(after, s) && Serial(start, after, s)
            && (forall v | v in w.txns && HoldsOk(w, v, s) :: HoldsOk(after, v, s))
  {
    hide Bump, BumpAll, CommittedDeltas, CommittedApplied;
    var r := w.txns[t].requests[w.txns[t].done];
    var after := GrantTo(w, t, read);
    if s == r.statId {
      assert GrantsOf(after, s) == GrantsOf(w, s) + [Grant(t, r.delta)];
    }
    SerialKept(start, w, after, t, s);
  }

  lemma WriteKeeps(start: map<StatId, Score>, w: World, t: TxnId, s: StatId)
    requires GrantsOk(w, s) && Serial(start, w, s) && t in w.txns && HasNext(w.txns[t]) && HoldsOk(w, t, s)
    requires w.txns[t].phase.Locked?
    ensures var after := WriteRow(w, t);
            && after.txns.Keys == w.txns.Keys
            && GrantsOk(after, s) && Serial(start, after, s)
            && (forall v | v in w.txns && HoldsOk(w, v, s) :: HoldsOk(after, v, s))
  {
    hide Bump, BumpAll, CommittedDeltas, CommittedApplied;
    SerialKept(start, w, WriteRow(w, t), t, s);
  }

  lemma AbortKeeps(start: map<StatId, Score>, w: World, t: TxnId, s: StatId)
    requires GrantsOk(w, s) && Serial(start, w, s) && t in w.txns && Active(w.txns[t])
    ensures var after := AbortTxn(w, t);
            && after.txns.Keys == w.txns.Keys
            && GrantsOk(after, s) && Serial(start, after, s)
            && (forall v | v in w.txns && HoldsOk(w, v, s) :: HoldsOk(after, v, s))
  {
    hide Bump, BumpAll, CommittedDeltas, CommittedApplied;
    SerialKept(start, w, AbortTxn(w, t), t, s);
  }

  // ---------------------------------------------------------------- commit

  /** Committing folds the owner's grant into each row it wrote, and touches no other row. */
  lemma CommitSerial(start: map<StatId, Score>, w: World, t: TxnId, s: StatId)
    requires GrantsOk(w, s) && Serial(start, w, s) && t in w.txns && HoldsOk(w, t, s)
    requires w.txns[t].phase.Ready?
    ensures Serial(start, CommitTxn(w, t), s)
  {
    hide Bump, BumpAll, CommittedDeltas, CommittedApplied;
    var g := GrantsOf(w, s);
    var after := CommitTxn(w, t);
    if s in w.txns[t].written {
      var n := |g| - 1;
      SameCommitted(g[..n], w.txns, after.txns, s);
      FoldLast(g, w.txns, s);
      FoldLast(g, after.txns, s);
      BumpAllSnoc(RowScore(start, s), CommittedDeltas(g[..n], w.txns), g[n].delta);
    } else {
      SameCommitted(g, w.txns, after.txns, s);
    }
  }

  lemma CommitKeeps(start: map<StatId, Score>, w: World, t: TxnId, s: StatId)
    requires GrantsOk(w, s) && Serial(start, w, s) && t in w.txns && HoldsOk(w, t, s)
    requires w.txns[t].phase.Ready?
    ensures var after := CommitTxn(w, t);
            && after.txns.Keys == w.txns.Keys
            && GrantsOk(after, s) && Serial(start, after, s)
            && (forall v | v in w.txns && HoldsOk(w, v, s) :: HoldsOk(after, v, s))
  {
    hide Bump, BumpAll, CommittedDeltas, CommittedApplied;
    CommitSerial(start, w, t, s);
  }

  // ---------------------------------------------------------------- every interleaving

  lemma NextKeeps(start: map<StatId, Score>, w: World, e: Event, s: StatId)
    requires GrantsOk(w, s) && Serial(start, w, s) && forall t | t in w.txns :: HoldsOk(w, t, s)
    ensures var after := Next(w, e);
            && GrantsOk(after, s) && Serial(start, after, s) && forall t | t in after.txns :: HoldsOk(after, t, s)
  {
    hide GrantsOk, Serial, HoldsOk, GrantTo, WriteRow, CommitTxn, AbortTxn;
    if Next(w, e) != w {
      var t := e.txn;
      match e
      case Begin(_, requests) => BeginKeeps(start, w, t, requests, s);
      case Select(_) =>
        var r := w.txns[t].requests[w.txns[t].done];
        if r.statId !in w.rows {
          MissingKeeps(start, w, t, s);
        } else {
          GrantKeeps(start, w, t, w.rows[r.statId], s);
        }
      case Insert(_) =>
        var r := w.txns[t].requests[w.txns[t].done];
        if r.statId in w.rows {
          AbortKeeps(start, w, t, s);
        } else {
          GrantKeeps(start, w, t, NEW_SCORE, s);
        }
      case Write(_) => WriteKeeps(start, w, t, s);
      case Commit(_) => CommitKeeps(start, w, t, s);
      case Abort(_) => AbortKeeps(start, w, t, s);
    }
  }

  lemma {:induction false} InterleaveKeeps(start: map<StatId, Score>, events: seq<Event>, s: StatId)
    ensures InvAt(start, Interleave(Start(start), events), s)
  {
    if events != [] {
      InterleaveKeeps(start, events[..|events| - 1], s);
      NextKeeps(start, Interleave(Start(start), events[..|events| - 1]), events[|events| - 1], s);
    }
  }

  /** Row-lock serialisation: after any interleaving of selects, inserts, writes, commits and
      aborts, every committed stat row is the floored fold of its committed requests in the order
      their locks were granted, and its xp is its start plus the applied amounts recorded by the
      transactions that committed. */
  lemma {:induction false} EveryInterleavingIsSerial(start: map<StatId, Score>, events: seq<Event>, s: StatId)
    ensures Serial(start, Interleave(Start(start), events), s)
  {
    InterleaveKeeps(start, events, s);
  }

  /** Two live transactions never hold the same row. */
  lemma {:induction false} LocksAreExclusive(
      start: map<StatId, Score>, events: seq<Event>, t: TxnId, v: TxnId, s: StatId)
    ensures var w := Interleave(Start(start), events);
            t in w.txns && v in w.txns && Active(w.txns[t]) && Active(w.txns[v])
            && (s in w.txns[t].written || LockedOn(w.txns[t], s))
            && (s in w.txns[v].written || LockedOn(w.txns[v], s))
            ==> t == v
  {
    hide Interleave;
    InterleaveKeeps(start, events, s);
  }
}
