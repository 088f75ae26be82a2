/**
  Pages of the history and the walk over them.  A walk is given by the rows each request
  fetched, so that nothing here depends on how the database breaks ties in created_at.
 */
module HistoryWalk {
  import opened Ledger
  import opened History

  datatype Page = Page(items: seq<ActivityLog>, total: nat, hasMore: bool, nextBefore: Option<int>)

  /** The page cut from `limit + 1` fetched rows. */
  function MakePage(rows: seq<ActivityLog>, limit: nat, total: nat): Page {
    var hasMore := |rows| > limit;
    var items := Take(rows, limit);
    Page(items, total, hasMore,
         if hasMore && items != [] then Some(items[|items| - 1].createdAt) else None)
  }

  function GetHistory(logs: seq<ActivityLog>, u: UserId, f: Filter, before: Option<int>, limit: nat): Page {
    MakePage(ListForUser(logs, u, f, before, limit + 1), limit, CountForUser(logs, u, f))
  }

  /** has_more says exactly whether a wanted row is missing from the page. */
  lemma HasMoreIsExact(
      rows: seq<ActivityLog>, logs: seq<ActivityLog>, u: UserId, f: Filter, before: Option<int>, limit: nat, total: nat)
    requires IsListing(rows, logs, u, f, before, limit + 1)
    ensures var page := MakePage(rows, limit, total);
            page.hasMore <==> exists x :: Wanted(x, logs, u, f, before) && x !in page.items
  {
    var page := MakePage(rows, limit, total);
    if page.hasMore {
      assert rows[limit] in rows && rows[limit] !in rows[..limit];
    }
  }

  // ---------------------------------------------------------------- walks

  /** The client asks again with next_before until has_more is false. */
  ghost predicate IsWalk(
      fetches: seq<seq<ActivityLog>>, logs: seq<ActivityLog>, u: UserId, f: Filter, before: Option<int>, limit: nat)
  {
    fetches != []
    && IsListing(fetches[0], logs, u, f, before, limit + 1)
    && var page := MakePage(fetches[0], limit, CountForUser(logs, u, f));
       if page.hasMore then IsWalk(fetches[1..], logs, u, f, page.nextBefore, limit) else |fetches| == 1
  }

  /** After a page with more to come the walk goes on below that page's last row. */
  lemma WalkGoesOn(
      fetches: seq<seq<ActivityLog>>, logs: seq<ActivityLog>, u: UserId, f: Filter, before: Option<int>, limit: nat)
    requires 1 <= limit && IsWalk(fetches, logs, u, f, before, limit) && |fetches[0]| > limit
    ensures |fetches| > 1 && IsWalk(fetches[1..], logs, u, f, Some(fetches[0][limit - 1].createdAt), limit)
  {
    hide IsListing, CountForUser;
  }

  /** The pages the client is given. */
  function Pages(
      fetches: seq<seq<ActivityLog>>, logs: seq<ActivityLog>, u: UserId, f: Filter, limit: nat): seq<Page>
  {
    if fetches == [] then []
    else [MakePage(fetches[0], limit, CountForUser(logs, u, f))] + Pages(fetches[1..], logs, u, f, limit)
  }

  /** Everything shown on these pages, in the order shown. */
  function Items(pages: seq<Page>): seq<ActivityLog> {
    if pages == [] then [] else pages[0].items + Items(pages[1..])
  }

  lemma ItemsSplit(fetches: seq<seq<ActivityLog>>, logs: seq<ActivityLog>, u: UserId, f: Filter, limit: nat)
    requires fetches != []
    ensures Items(Pages(fetches, logs, u, f, limit))
         == Take(fetches[0], limit) + Items(Pages(fetches[1..], logs, u, f, limit))
  {
    assert Pages(fetches, logs, u, f, limit)[1..] == Pages(fetches[1..], logs, u, f, limit);
  }

  /** The row fetched beyond the page is as old as the page's last row: the next cursor, being
      strict, steps over it. */
  predicate Torn(fetch: seq<ActivityLog>, limit: nat)
    requires 1 <= limit
  {
    |fetch| > limit && fetch[limit].createdAt == fetch[limit - 1].createdAt
  }

  /** The cursor after a page bounds what is on it from below, and what comes from above. */
  lemma CursorSplits(
      fetch: seq<ActivityLog>, logs: seq<ActivityLog>, u: UserId, f: Filter, before: Option<int>, limit: nat,
      x: ActivityLog)
    requires 1 <= limit && IsListing(fetch, logs, u, f, before, limit + 1) && |fetch| > limit
    ensures var cursor := fetch[limit - 1].createdAt;
            && MakePage(fetch, limit, CountForUser(logs, u, f)).nextBefore == Some(cursor)
            && (x in Take(fetch, limit) ==> cursor <= x.createdAt)
            && (Wanted(x, logs, u, f, Some(cursor)) ==> Wanted(x, logs, u, f, before) && x.createdAt < cursor)
            && (Wanted(x, logs, u, f, before) && x.createdAt < cursor ==> Wanted(x, logs, u, f, Some(cursor)))
            && (Wanted(x, logs, u, f, before) && cursor <= x.createdAt && x !in Take(fetch, limit) ==>
                  x.createdAt == cursor && Torn(fetch, limit))
  {
    hide Matches, CountForUser;
    var cursor := fetch[limit - 1].createdAt;
    assert fetch[limit - 1] in fetch && fetch[limit] in fetch;
    assert Wanted(fetch[limit - 1], logs, u, f, before);
    assert fetch[limit].createdAt <= cursor;
    if x in fetch[..limit] {
      HeadAboveCursor(fetch, limit, x);
    }
    if x in fetch && x !in fetch[..limit] {
      assert x == fetch[limit];
    }
  }

  lemma HeadAboveCursor(fetch: seq<ActivityLog>, limit: nat, x: ActivityLog)
    requires 1 <= limit < |fetch| && NewestFirst(fetch) && x in fetch[..limit]
    ensures fetch[limit - 1].createdAt <= x.createdAt
  {
    var i :| 0 <= i < limit && fetch[i] == x;
  }

  lemma {:induction false} ItemsWanted(
      fetches: seq<seq<ActivityLog>>, logs: seq<ActivityLog>, u: UserId, f: Filter, before: Option<int>,
      limit: nat, x: ActivityLog)
    requires 1 <= limit && IsWalk(fetches, logs, u, f, before, limit)
    requires x in Items(Pages(fetches, logs, u, f, limit))
    ensures Wanted(x, logs, u, f, before)
    decreases |fetches|
  {
    ItemsSplit(fetches, logs, u, f, limit);
    if x in Take(fetches[0], limit) {
      assert x in fetches[0];
    } else {
      CursorSplits(fetches[0], logs, u, f, before, limit, x);
      ItemsWanted(fetches[1..], logs, u, f, Some(fetches[0][limit - 1].createdAt), limit, x);
    }
  }

  /** No walk returns a row twice, and it returns rows newest first, across page ends too. */
  lemma {:induction false} WalkIsOrdered(
      fetches: seq<seq<ActivityLog>>, logs: seq<ActivityLog>, u: UserId, f: Filter, before: Option<int>, limit: nat)
    requires 1 <= limit && IsWalk(fetches, logs, u, f, before, limit)
    ensures NewestFirst(Items(Pages(fetches, logs, u, f, limit))) && NoRepeats(Items(Pages(fetches, logs, u, f, limit)))
    decreases |fetches|
  {
    var head := Take(fetches[0], limit);
    ItemsSplit(fetches, logs, u, f, limit);
    CutKeepsOrder(fetches[0], limit);
    if |fetches[0]| > limit {
      hide IsListing, NewestFirst, NoRepeats;
      var cursor := fetches[0][limit - 1].createdAt;
      var tail := Items(Pages(fetches[1..], logs, u, f, limit));
      CursorSplits(fetches[0], logs, u, f, before, limit, fetches[0][0]);
      WalkIsOrdered(fetches[1..], logs, u, f, Some(cursor), limit);
      forall x | x in tail ensures x.createdAt < cursor {
        ItemsWanted(fetches[1..], logs, u, f, Some(cursor), limit, x);
        CursorSplits(fetches[0], logs, u, f, before, limit, x);
      }
      forall x | x in head ensures cursor <= x.createdAt {
        CursorSplits(fetches[0], logs, u, f, before, limit, x);
      }
      JoinOrdered(head, tail, cursor);
    } else {
      assert Items(Pages(fetches, logs, u, f, limit)) == head;
    }
  }

  lemma JoinOrdered(a: seq<ActivityLog>, b: seq<ActivityLog>, cursor: int)
    requires NewestFirst(a) && NoRepeats(a) && NewestFirst(b) && NoRepeats(b)
    requires (forall x | x in a :: cursor <= x.createdAt) && (forall x | x in b :: x.createdAt < cursor)
    ensures NewestFirst(a + b) && NoRepeats(a + b)
  {
    var all := a + b;
    forall i, j | 0 <= i < j < |all| ensures all[j].createdAt <= all[i].createdAt && all[i] != all[j] {
      if i < |a| <= j {
        assert all[i] in a && all[j] in b;
      }
    }
  }

  // ---------------------------------------------------------------- what a walk misses

  /** A wanted row a walk does not return is as old as the cursor of a torn page. */
  lemma {:induction false} MissedAtTornPage(
      fetches: seq<seq<ActivityLog>>, logs: seq<ActivityLog>, u: UserId, f: Filter, before: Option<int>,
      limit: nat, x: ActivityLog)
    requires 1 <= limit && IsWalk(fetches, logs, u, f, before, limit)
    requires Wanted(x, logs, u, f, before) && x !in Items(Pages(fetches, logs, u, f, limit))
    ensures exists k | 0 <= k < |fetches| ::
              Torn(fetches[k], limit) && x.createdAt == fetches[k][limit - 1].createdAt
    decreases |fetches|
  {
    hide Items, Pages, Matches, CountForUser;
    ItemsSplit(fetches, logs, u, f, limit);
    if |fetches[0]| > limit {
      var cursor := fetches[0][limit - 1].createdAt;
      CursorSplits(fetches[0], logs, u, f, before, limit, x);
      WalkGoesOn(fetches, logs, u, f, before, limit);
      hide IsWalk, IsListing;
      if x.createdAt < cursor {
        MissedAtTornPage(fetches[1..], logs, u, f, Some(cursor), limit, x);
        var k :| 0 <= k < |fetches[1..]| && Torn(fetches[1..][k], limit)
                 && x.createdAt == fetches[1..][k][limit - 1].createdAt;
        assert fetches[k + 1] == fetches[1..][k];
      } else {
        assert Torn(fetches[0], limit);
      }
    } else {
      assert false;
    }
  }

  /** The extra row of a torn page is never returned. */
  lemma {:induction false} TornPageMisses(
      fetches: seq<seq<ActivityLog>>, logs: seq<ActivityLog>, u: UserId, f: Filter, before: Option<int>,
      limit: nat, k: nat)
    requires 1 <= limit && IsWalk(fetches, logs, u, f, before, limit)
    requires k < |fetches| && Torn(fetches[k], limit)
    ensures Wanted(fetches[k][limit], logs, u, f, before)
    ensures fetches[k][limit] !in Items(Pages(fetches, logs, u, f, limit))
    decreases |fetches|
  {
    hide Items, Pages, Matches, CountForUser;
    var x := fetches[k][limit];
    if k == 0 {
      ExtraIsLost(fetches, logs, u, f, before, limit);
    } else {
      assert |fetches[0]| > limit;
      CursorSplits(fetches[0], logs, u, f, before, limit, x);
      WalkGoesOn(fetches, logs, u, f, before, limit);
      hide IsWalk, IsListing;
      assert fetches[k] == fetches[1..][k - 1];
      TornPageMisses(fetches[1..], logs, u, f, Some(fetches[0][limit - 1].createdAt), limit, k - 1);
      ItemsSplit(fetches, logs, u, f, limit);
    }
  }

  /** The extra row of a torn first page is wanted, and neither that page nor a later one has it. */
  lemma ExtraIsLost(
      fetches: seq<seq<ActivityLog>>, logs: seq<ActivityLog>, u: UserId, f: Filter, before: Option<int>, limit: nat)
    requires 1 <= limit && IsWalk(fetches, logs, u, f, before, limit) && Torn(fetches[0], limit)
    ensures Wanted(fetches[0][limit], logs, u, f, before)
    ensures fetches[0][limit] !in Items(Pages(fetches, logs, u, f, limit))
  {
    hide Items, Pages, Matches, CountForUser;
    var x, cursor := fetches[0][limit], fetches[0][limit - 1].createdAt;
    assert x in fetches[0] && x !in fetches[0][..limit];
    ItemsSplit(fetches, logs, u, f, limit);
    WalkGoesOn(fetches, logs, u, f, before, limit);
    hide IsWalk;
    if x in Items(Pages(fetches[1..], logs, u, f, limit)) {
      ItemsWanted(fetches[1..], logs, u, f, Some(cursor), limit, x);
      assert false;
    }
  }

  /** A walk returns every wanted row exactly when none of its pages is torn. */
  lemma CompleteIffUntorn(
      fetches: seq<seq<ActivityLog>>, logs: seq<ActivityLog>, u: UserId, f: Filter, before: Option<int>, limit: nat)
    requires 1 <= limit && IsWalk(fetches, logs, u, f, before, limit)
    ensures (forall x | Wanted(x, logs, u, f, before) :: x in Items(Pages(fetches, logs, u, f, limit)))
            <==> (forall k | 0 <= k < |fetches| :: !Torn(fetches[k], limit))
  {
    if k :| 0 <= k < |fetches| && Torn(fetches[k], limit) {
      TornPageMisses(fetches, logs, u, f, before, limit, k);
    } else {
      forall x | Wanted(x, logs, u, f, before) ensures x in Items(Pages(fetches, logs, u, f, limit)) {
        if x !in Items(Pages(fetches, logs, u, f, limit)) {
          MissedAtTornPage(fetches, logs, u, f, before, limit, x);
        }
      }
    }
  }

  // ---------------------------------------------------------------- distinct times

  ghost predicate DistinctTimes(logs: seq<ActivityLog>, u: UserId, f: Filter) {
    forall x, y | Wanted(x, logs, u, f, None) && Wanted(y, logs, u, f, None) && x.createdAt == y.createdAt :: x == y
  }

  lemma {:induction false} NoTornPages(
      fetches: seq<seq<ActivityLog>>, logs: seq<ActivityLog>, u: UserId, f: Filter, before: Option<int>,
      limit: nat, k: nat)
    requires 1 <= limit && IsWalk(fetches, logs, u, f, before, limit)
    requires DistinctTimes(logs, u, f) && k < |fetches|
    ensures !Torn(fetches[k], limit)
    decreases k
  {
    if k == 0 {
      var fetch := fetches[0];
      if |fetch| > limit {
        var x, y := fetch[limit - 1], fetch[limit];
        assert x in fetch && y in fetch && x != y;
        assert Wanted(x, logs, u, f, None) && Wanted(y, logs, u, f, None);
      }
    } else {
      CursorSplits(fetches[0], logs, u, f, before, limit, fetches[0][0]);
      NoTornPages(fetches[1..], logs, u, f, Some(fetches[0][limit - 1].createdAt), limit, k - 1);
      assert fetches[k] == fetches[1..][k - 1];
    }
  }

  ghost predicate TimesApart(rows: seq<ActivityLog>) {
    forall x, y | x in rows && y in rows && x.createdAt == y.createdAt :: x == y
  }

  /** Two newest-first lists of the same rows, no two rows of one time, are the same list. */
  lemma {:induction false} SameOrder(a: seq<ActivityLog>, b: seq<ActivityLog>)
    requires NewestFirst(a) && NoRepeats(a) && NewestFirst(b) && NoRepeats(b)
    requires (forall x :: x in a <==> x in b) && TimesApart(a)
    ensures a == b
    decreases |a|
  {
    hide NewestFirst, NoRepeats, TimesApart;
    assert a != [] ==> a[0] in b;
    assert b != [] ==> b[0] in a;
    if a != [] {
      SameHead(a, b);
      TailOrder(a);
      TailOrder(b);
      var a', b' := a[1..], b[1..];
      forall x ensures x in a' <==> x in b' {
        TailMembers(a, x);
        TailMembers(b, x);
      }
      SameOrder(a', b');
    }
  }

  lemma TailOrder(rows: seq<ActivityLog>)
    requires NewestFirst(rows) && NoRepeats(rows) && rows != []
    ensures NewestFirst(rows[1..]) && NoRepeats(rows[1..])
    ensures TimesApart(rows) ==> TimesApart(rows[1..])
  {
  }

  lemma SameHead(a: seq<ActivityLog>, b: seq<ActivityLog>)
    requires NewestFirst(a) && NewestFirst(b) && a != [] && b != []
    requires a[0] in b && b[0] in a && TimesApart(a)
    ensures a[0] == b[0]
  {
    assert a[0].createdAt <= b[0].createdAt;
    assert b[0].createdAt <= a[0].createdAt;
  }

  lemma TailMembers(rows: seq<ActivityLog>, x: ActivityLog)
    requires NoRepeats(rows) && rows != []
    ensures x in rows[1..] <==> x in rows && x != rows[0]
  {
    assert rows == [rows[0]] + rows[1..];
  }

  /** With distinct times every walk, however the database sorts, returns exactly the filtered
      log list newest first; started without a cursor it returns `total` rows. */
  lemma WalkIsSortedHistory(
      fetches: seq<seq<ActivityLog>>, logs: seq<ActivityLog>, u: UserId, f: Filter, before: Option<int>, limit: nat)
    requires 1 <= limit && NoRepeats(logs) && DistinctTimes(logs, u, f)
    requires IsWalk(fetches, logs, u, f, before, limit)
    ensures Items(Pages(fetches, logs, u, f, limit)) == SortNewest(Select(logs, u, f, before))
    ensures before == None ==> |Items(Pages(fetches, logs, u, f, limit))| == CountForUser(logs, u, f)
  {
    var wanted := Select(logs, u, f, before);
    var sorted, items := SortNewest(wanted), Items(Pages(fetches, logs, u, f, limit));
    SelectWanted(logs, u, f, before);
    SortKeeps(wanted);
    SameBag(wanted, sorted);
    WalkIsOrdered(fetches, logs, u, f, before, limit);
    forall k | 0 <= k < |fetches| ensures !Torn(fetches[k], limit) {
      NoTornPages(fetches, logs, u, f, before, limit, k);
    }
    CompleteIffUntorn(fetches, logs, u, f, before, limit);
    forall x ensures x in items <==> x in sorted {
      if x in items { ItemsWanted(fetches, logs, u, f, before, limit, x); }
    }
    forall x, y | x in items && y in items && x.createdAt == y.createdAt ensures x == y {
      assert Wanted(x, logs, u, f, None) && Wanted(y, logs, u, f, None);
    }
    SameOrder(items, sorted);
  }

  lemma {:induction false} PageAt(
      fetches: seq<seq<ActivityLog>>, logs: seq<ActivityLog>, u: UserId, f: Filter, limit: nat, k: nat)
    requires k < |fetches|
    ensures |Pages(fetches, logs, u, f, limit)| == |fetches|
    ensures Pages(fetches, logs, u, f, limit)[k] == MakePage(fetches[k], limit, CountForUser(logs, u, f))
  {
    hide MakePage, CountForUser;
    if |fetches| > 1 {
      PageAt(fetches[1..], logs, u, f, limit, if k > 0 then k - 1 else 0);
    }
  }

  /** Every page before the last is full. */
  lemma {:induction false} EarlierPagesFull(
      fetches: seq<seq<ActivityLog>>, logs: seq<ActivityLog>, u: UserId, f: Filter, before: Option<int>, limit: nat)
    requires 1 <= limit && IsWalk(fetches, logs, u, f, before, limit)
    ensures var pages := Pages(fetches, logs, u, f, limit);
            && |pages| == |fetches|
            && (forall k | 0 <= k < |pages| - 1 :: |pages[k].items| == limit)
            && |pages[|pages| - 1].items| == |fetches[|fetches| - 1]| <= limit
    decreases |fetches|
  {
    hide CountForUser;
    var pages := Pages(fetches, logs, u, f, limit);
    PageAt(fetches, logs, u, f, limit, 0);
    if |fetches[0]| > limit {
      WalkGoesOn(fetches, logs, u, f, before, limit);
      hide IsWalk;
      EarlierPagesFull(fetches[1..], logs, u, f, Some(fetches[0][limit - 1].createdAt), limit);
      assert pages[1..] == Pages(fetches[1..], logs, u, f, limit);
      forall k | 0 <= k < |pages| - 1 ensures |pages[k].items| == limit {
        if k > 0 { assert pages[k] == pages[1..][k - 1]; }
      }
      assert pages[|pages| - 1] == pages[1..][|pages| - 2];
    }
  }

  /** Two rows of one time on either side of a page end: the walk is over after the first. */
  lemma TieIsLost(x: ActivityLog, y: ActivityLog)
    requires x != y && x.user == y.user && x.createdAt == y.createdAt
    ensures var everything, fetches := Filter(None, None, None), [[x, y], []];
            && IsWalk(fetches, [x, y], x.user, everything, None, 1)
            && Items(Pages(fetches, [x, y], x.user, everything, 1)) == [x]
  {
    var everything := Filter(None, None, None);
    var fetches := [[x, y], []];
    assert fetches[1..] == [[]];
    assert Take([x, y], 1) == [x];
    assert forall z :: z in [x, y] <==> z == x || z == y;
    assert IsListing([x, y], [x, y], x.user, everything, None, 2);
    assert IsListing([], [x, y], x.user, everything, Some(x.createdAt), 2);
    assert IsWalk([[]], [x, y], x.user, everything, Some(x.createdAt), 1);
    ItemsSplit(fetches, [x, y], x.user, everything, 1);
    ItemsSplit([[]], [x, y], x.user, everything, 1);
  }
}
