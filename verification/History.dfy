/**
  Cursor pagination of the activity history: the filtered query, the page cut from it, and the
  walk a client makes by following next_before.
 */
module History {
  import opened Sorting
  import opened Ledger

  datatype Filter = Filter(templateId: Option<TemplateId>, fromTime: Option<int>, toTime: Option<int>)

  // ---------------------------------------------------------------- the query

  predicate Matches(row: ActivityLog, u: UserId, f: Filter) {
    && row.user == u
    && (f.templateId.Some? ==> row.templateId == f.templateId.value)
    && (f.fromTime.Some? ==> f.fromTime.value <= row.createdAt)
    && (f.toTime.Some? ==> row.createdAt <= f.toTime.value)
  }

  predicate Before(row: ActivityLog, before: Option<int>) {
    before.Some? ==> row.createdAt < before.value
  }

  /** The rows a query with this filter and cursor is about. */
  predicate Wanted(row: ActivityLog, logs: seq<ActivityLog>, u: UserId, f: Filter, before: Option<int>) {
    row in logs && Matches(row, u, f) && Before(row, before)
  }

  ghost predicate NewestFirst(rows: seq<ActivityLog>) {
    forall i, j | 0 <= i < j < |rows| :: rows[j].createdAt <= rows[i].createdAt
  }

  ghost predicate NoRepeats(rows: seq<ActivityLog>) {
    forall i, j | 0 <= i < j < |rows| :: rows[i] != rows[j]
  }

  /** What ORDER BY created_at DESC LIMIT promises, whichever way ties are broken: wanted rows,
      newest first, none twice, and a wanted row is left out only if the limit is used up by rows
      at least as new. */
  ghost predicate IsListing(
      rows: seq<ActivityLog>, logs: seq<ActivityLog>, u: UserId, f: Filter, before: Option<int>, limit: nat)
  {
    && NewestFirst(rows) && NoRepeats(rows) && |rows| <= limit
    && (forall x | x in rows :: Wanted(x, logs, u, f, before))
    && (forall x | Wanted(x, logs, u, f, before) && x !in rows ::
          |rows| == limit && forall r | r in rows :: x.createdAt <= r.createdAt)
  }

  // ---------------------------------------------------------------- a query that keeps the promise

  function Select(logs: seq<ActivityLog>, u: UserId, f: Filter, before: Option<int>): seq<ActivityLog> {
    if logs == [] then []
    else
      var last := logs[|logs| - 1];
      Select(logs[..|logs| - 1], u, f, before)
        + if Matches(last, u, f) && Before(last, before) then [last] else []
  }

  function Newness(row: ActivityLog): int {
    -row.createdAt
  }

  function SortNewest(rows: seq<ActivityLog>): seq<ActivityLog> {
    SortBy(Newness, rows)
  }

  function Take(rows: seq<ActivityLog>, limit: nat): seq<ActivityLog> {
    if |rows| <= limit then rows else rows[..limit]
  }

  function ListForUser(
      logs: seq<ActivityLog>, u: UserId, f: Filter, before: Option<int>, limit: nat): seq<ActivityLog>
  {
    Take(SortNewest(Select(logs, u, f, before)), limit)
  }

  function CountForUser(logs: seq<ActivityLog>, u: UserId, f: Filter): nat {
    |Select(logs, u, f, None)|
  }

  lemma AppendOnce(rows: seq<ActivityLog>, row: ActivityLog)
    requires NoRepeats(rows) && row !in rows
    ensures NoRepeats(rows + [row]) && rows + [] == rows
  {
  }

  lemma {:induction false} SelectWanted(logs: seq<ActivityLog>, u: UserId, f: Filter, before: Option<int>)
    ensures forall x :: x in Select(logs, u, f, before) <==> Wanted(x, logs, u, f, before)
    ensures NoRepeats(logs) ==> NoRepeats(Select(logs, u, f, before))
  {
    if logs != [] {
      var init, last := logs[..|logs| - 1], logs[|logs| - 1];
      assert logs == init + [last];
      SelectWanted(init, u, f, before);
      if NoRepeats(logs) {
        assert last !in init;
        AppendOnce(Select(init, u, f, before), last);
      }
    }
  }

  lemma SortKeeps(rows: seq<ActivityLog>)
    ensures NewestFirst(SortNewest(rows))
    ensures multiset(SortNewest(rows)) == multiset(rows)
  {
    SortByKeeps(Newness, rows);
    var sorted := SortNewest(rows);
    forall i, j | 0 <= i < j < |sorted| ensures sorted[j].createdAt <= sorted[i].createdAt {
      assert Newness(sorted[i]) <= Newness(sorted[j]);
    }
  }

  lemma SameBag(a: seq<ActivityLog>, b: seq<ActivityLog>)
    requires multiset(a) == multiset(b)
    ensures |a| == |b|
    ensures forall x :: x in a <==> x in b
    ensures NoRepeats(a) ==> NoRepeats(b)
  {
    SameMembers(a, b);
    if NoRepeats(a) && !NoRepeats(b) {
      var i, j :| 0 <= i < j < |b| && b[i] == b[j];
      TwiceInBag(b, i, j);
      OnceInBag(a, b[i]);
    }
  }

  lemma TwiceInBag(rows: seq<ActivityLog>, i: nat, j: nat)
    requires i < j < |rows| && rows[i] == rows[j]
    ensures multiset(rows)[rows[i]] >= 2
  {
    assert rows == rows[..j] + rows[j..];
    assert rows[i] in rows[..j] && rows[i] in rows[j..];
  }

  lemma {:induction false} OnceInBag(rows: seq<ActivityLog>, x: ActivityLog)
    requires NoRepeats(rows)
    ensures multiset(rows)[x] <= 1
  {
    if rows != [] {
      var n := |rows| - 1;
      assert rows == rows[..n] + [rows[n]];
      OnceInBag(rows[..n], x);
      if x == rows[n] {
        assert x !in rows[..n];
      }
    }
  }

  // ---------------------------------------------------------------- what the limit cuts

  /** The whole answer, before the limit: every wanted row once, newest first. */
  ghost predicate IsWhole(
      rows: seq<ActivityLog>, logs: seq<ActivityLog>, u: UserId, f: Filter, before: Option<int>)
  {
    && NewestFirst(rows) && NoRepeats(rows)
    && (forall x :: x in rows <==> Wanted(x, logs, u, f, before))
  }

  lemma SortedIsWhole(logs: seq<ActivityLog>, u: UserId, f: Filter, before: Option<int>)
    requires NoRepeats(logs)
    ensures IsWhole(SortNewest(Select(logs, u, f, before)), logs, u, f, before)
  {
    hide Wanted, NewestFirst, NoRepeats, Select, SortNewest;
    var wanted := Select(logs, u, f, before);
    SelectWanted(logs, u, f, before);
    SortKeeps(wanted);
    SameBag(wanted, SortNewest(wanted));
  }

  lemma CutKeepsOrder(rows: seq<ActivityLog>, limit: nat)
    requires NewestFirst(rows) && NoRepeats(rows)
    ensures NewestFirst(Take(rows, limit)) && NoRepeats(Take(rows, limit))
    ensures forall x | x in Take(rows, limit) :: x in rows
  {
  }

  lemma CutOffIsOlder(rows: seq<ActivityLog>, limit: nat, x: ActivityLog, r: ActivityLog)
    requires NewestFirst(rows) && x in rows && x !in Take(rows, limit) && r in Take(rows, limit)
    ensures |Take(rows, limit)| == limit && x.createdAt <= r.createdAt
  {
    var i :| 0 <= i < |rows| && rows[i] == x;
    var j :| 0 <= j < |Take(rows, limit)| && rows[j] == r;
  }

  lemma CutIsListing(
      rows: seq<ActivityLog>, logs: seq<ActivityLog>, u: UserId, f: Filter, before: Option<int>, limit: nat)
    requires IsWhole(rows, logs, u, f, before)
    ensures IsListing(Take(rows, limit), logs, u, f, before, limit)
  {
    hide Wanted, NewestFirst, NoRepeats;
    CutKeepsOrder(rows, limit);
    var cut := Take(rows, limit);
    forall x | Wanted(x, logs, u, f, before) && x !in cut
      ensures |cut| == limit && forall r | r in cut :: x.createdAt <= r.createdAt
    {
      forall r | r in cut ensures x.createdAt <= r.createdAt {
        CutOffIsOlder(rows, limit, x, r);
      }
    }
  }

  /** The query is satisfiable: sorting the wanted rows and cutting at the limit keeps the promise. */
  lemma ListForUserIsListing(
      logs: seq<ActivityLog>, u: UserId, f: Filter, before: Option<int>, limit: nat)
    requires NoRepeats(logs)
    ensures IsListing(ListForUser(logs, u, f, before, limit), logs, u, f, before, limit)
  {
    hide IsWhole, IsListing, SortNewest, Select;
    SortedIsWhole(logs, u, f, before);
    CutIsListing(SortNewest(Select(logs, u, f, before)), logs, u, f, before, limit);
  }
}
