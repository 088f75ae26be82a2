/**
  Sorting by an integer key, as a function.
 */
module Sorting {
  function InsertBy<T>(key: T -> int, row: T, sorted: seq<T>): seq<T> {
    if |sorted| == 0 then [row]
    else if key(row) <= key(sorted[0]) then [row] + sorted
    else [sorted[0]] + InsertBy(key, row, sorted[1..])
  }

  function SortBy<T>(key: T -> int, rows: seq<T>): seq<T> {
    if |rows| == 0 then [] else InsertBy(key, rows[|rows| - 1], SortBy(key, rows[..|rows| - 1]))
  }

  ghost predicate InOrder<T>(key: T -> int, rows: seq<T>) {
    forall i, j | 0 <= i < j < |rows| :: key(rows[i]) <= key(rows[j])
  }

  lemma {:induction false} InsertBag<T>(key: T -> int, row: T, sorted: seq<T>)
    ensures multiset(InsertBy(key, row, sorted)) == multiset(sorted) + multiset{row}
  {
    if |sorted| > 0 {
      assert sorted == [sorted[0]] + sorted[1..];
      InsertBag(key, row, sorted[1..]);
    }
  }

  lemma PrependOrder<T>(key: T -> int, row: T, rows: seq<T>)
    requires InOrder(key, rows) && (|rows| > 0 ==> key(row) <= key(rows[0]))
    ensures InOrder(key, [row] + rows)
  {
    var all := [row] + rows;
    forall i, j | 0 <= i < j < |all| ensures key(all[i]) <= key(all[j]) {
      assert all[j] == rows[j - 1];
      assert key(rows[0]) <= key(rows[j - 1]);
    }
  }

  lemma {:induction false} InsertOrder<T>(key: T -> int, row: T, sorted: seq<T>)
    requires InOrder(key, sorted)
    ensures var all := InsertBy(key, row, sorted);
            && InOrder(key, all) && |all| > 0
            && (all[0] == row || (|sorted| > 0 && all[0] == sorted[0] && key(sorted[0]) < key(row)))
  {
    if |sorted| > 0 && key(sorted[0]) < key(row) {
      InsertOrder(key, row, sorted[1..]);
      PrependOrder(key, sorted[0], InsertBy(key, row, sorted[1..]));
    } else {
      PrependOrder(key, row, sorted);
    }
  }

  /** Sorting yields the same rows, in order. */
  lemma {:induction false} SortByKeeps<T>(key: T -> int, rows: seq<T>)
    ensures InOrder(key, SortBy(key, rows))
    ensures multiset(SortBy(key, rows)) == multiset(rows)
  {
    if |rows| > 0 {
      var init := rows[..|rows| - 1];
      assert rows == init + [rows[|rows| - 1]];
      SortByKeeps(key, init);
      InsertBag(key, rows[|rows| - 1], SortBy(key, init));
      InsertOrder(key, rows[|rows| - 1], SortBy(key, init));
    }
  }

  lemma SameMembers<T>(a: seq<T>, b: seq<T>)
    requires multiset(a) == multiset(b)
    ensures |a| == |b|
    ensures forall x :: x in a <==> x in b
  {
    assert |multiset(a)| == |multiset(b)|;
    forall x ensures x in a <==> x in b {
      assert x in a <==> x in multiset(a);
      assert x in b <==> x in multiset(b);
    }
  }
}
