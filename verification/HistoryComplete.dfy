/**
  What can be said of a walk before it starts: whether it will return everything, and how many
  requests it takes at most, whichever way the database orders rows of one time.
 */
module HistoryComplete {
  import opened Ledger
  import opened History
  import opened HistoryWalk
  import opened HistoryPage

  // ---------------------------------------------------------------- the times of a page

  /** If what is newer than b's i-th row at the head of a is also in b, a's i-th row is no newer. */
  lemma NotNewerAt(a: seq<ActivityLog>, b: seq<ActivityLog>, i: nat)
    requires NewestFirst(a) && NoRepeats(a) && NewestFirst(b) && i < |a| && i < |b|
    requires forall x | x in a && b[i].createdAt < x.createdAt :: x in b
    ensures a[i].createdAt <= b[i].createdAt
  {
    if b[i].createdAt < a[i].createdAt {
      forall x | x in a[..i + 1] ensures x in b[..i] {
        var j :| 0 <= j <= i && a[j] == x;
        assert j < i ==> a[i].createdAt <= a[j].createdAt;
        assert x in a;
        var k :| 0 <= k < |b| && b[k] == x;
        assert b[i].createdAt < b[k].createdAt;
      }
      NoMoreThan(a[..i + 1], b[..i]);
    }
  }

  lemma FetchLength(
      fetch: seq<ActivityLog>, whole: seq<ActivityLog>, logs: seq<ActivityLog>, u: UserId, f: Filter,
      before: Option<int>, limit: nat)
    requires IsListing(fetch, logs, u, f, before, limit) && IsWhole(whole, logs, u, f, before)
    ensures |fetch| == if |whole| <= limit then |whole| else limit
  {
    hide Wanted, NewestFirst, NoRepeats;
    NoMoreThan(fetch, whole);
    if |fetch| < limit {
      NoMoreThan(whole, fetch);
    }
  }

  /** Whatever the order of ties, a fetch shows the times of the whole answer, place by place. */
  lemma FetchTimes(
      fetch: seq<ActivityLog>, whole: seq<ActivityLog>, logs: seq<ActivityLog>, u: UserId, f: Filter,
      before: Option<int>, limit: nat, i: nat)
    requires IsListing(fetch, logs, u, f, before, limit) && IsWhole(whole, logs, u, f, before)
    requires i < |fetch| && i < |whole|
    ensures fetch[i].createdAt == whole[i].createdAt
  {
    hide Wanted, NewestFirst, NoRepeats;
    assert fetch[i] in fetch;
    NotNewerAt(fetch, whole, i);
    NotNewerAt(whole, fetch, i);
  }

  // ---------------------------------------------------------------- the condition

  /** No two rows of one time stand on either side of a page end: counting in pages from the
      newest wanted row, the last of each full page is newer than the first of the next. */
  predicate CleanEnds(rows: seq<ActivityLog>, limit: nat)
    requires 1 <= limit
    decreases |rows|
  {
    |rows| > limit ==> rows[limit].createdAt < rows[limit - 1].createdAt && CleanEnds(rows[limit..], limit)
  }

  /** What the strict cursor leaves after a clean page end is the rest of the whole answer. */
  lemma RestIsWhole(
      whole: seq<ActivityLog>, logs: seq<ActivityLog>, u: UserId, f: Filter, before: Option<int>, limit: nat)
    requires 1 <= limit < |whole| && IsWhole(whole, logs, u, f, before)
    requires whole[limit].createdAt < whole[limit - 1].createdAt
    ensures IsWhole(whole[limit..], logs, u, f, Some(whole[limit - 1].createdAt))
  {
    hide Matches;
    var rest, cursor := whole[limit..], whole[limit - 1].createdAt;
    assert whole[limit - 1] in whole;
    forall x ensures x in rest <==> Wanted(x, logs, u, f, Some(cursor)) {
      if x in rest {
        var k :| 0 <= k < |rest| && rest[k] == x;
        assert x == whole[limit + k] && x in whole;
        assert k > 0 ==> whole[limit + k].createdAt <= whole[limit].createdAt;
      }
      if Wanted(x, logs, u, f, Some(cursor)) {
        assert Wanted(whole[limit - 1], logs, u, f, before);
        assert x in whole;
        var k :| 0 <= k < |whole| && whole[k] == x;
        assert whole[k].createdAt < whole[limit - 1].createdAt;
        assert x == rest[k - limit];
      }
    }
    RestKeepsOrder(whole, limit);
  }

  lemma RestKeepsOrder(rows: seq<ActivityLog>, limit: nat)
    requires NewestFirst(rows) && NoRepeats(rows) && limit <= |rows|
    ensures NewestFirst(rows[limit..]) && NoRepeats(rows[limit..])
  {
  }

  lemma {:induction false} UntornIffClean(
      fetches: seq<seq<ActivityLog>>, whole: seq<ActivityLog>, logs: seq<ActivityLog>, u: UserId, f: Filter,
      before: Option<int>, limit: nat)
    requires 1 <= limit && IsWalk(fetches, logs, u, f, before, limit) && IsWhole(whole, logs, u, f, before)
    ensures (forall k | 0 <= k < |fetches| :: !Torn(fetches[k], limit)) <==> CleanEnds(whole, limit)
    decreases |fetches|
  {
    hide IsListing, IsWhole;
    var fetch := fetches[0];
    FetchLength(fetch, whole, logs, u, f, before, limit + 1);
    if |whole| > limit {
      FetchTimes(fetch, whole, logs, u, f, before, limit + 1, limit - 1);
      FetchTimes(fetch, whole, logs, u, f, before, limit + 1, limit);
      WholeFalls(whole, logs, u, f, before, limit);
      if !Torn(fetch, limit) {
        WalkGoesOn(fetches, logs, u, f, before, limit);
        RestIsWhole(whole, logs, u, f, before, limit);
        hide IsWalk;
        UntornIffClean(fetches[1..], whole[limit..], logs, u, f, Some(fetch[limit - 1].createdAt), limit);
        assert forall k | 0 < k < |fetches| :: fetches[k] == fetches[1..][k - 1];
        assert forall k | 0 <= k < |fetches| - 1 :: fetches[1..][k] == fetches[k + 1];
      }
    }
  }

  lemma WholeFalls(
      whole: seq<ActivityLog>, logs: seq<ActivityLog>, u: UserId, f: Filter, before: Option<int>, limit: nat)
    requires 1 <= limit < |whole| && IsWhole(whole, logs, u, f, before)
    ensures whole[limit].createdAt <= whole[limit - 1].createdAt
  {
  }

  /** A walk, in whatever order its rows of one time come, returns every wanted row if and only if
      no page end falls between two rows of one time in the filtered, sorted log table. */
  lemma {:induction false} WalkCompleteIff(
      fetches: seq<seq<ActivityLog>>, logs: seq<ActivityLog>, u: UserId, f: Filter, before: Option<int>, limit: nat)
    requires 1 <= limit && NoRepeats(logs) && IsWalk(fetches, logs, u, f, before, limit)
    ensures (forall x | Wanted(x, logs, u, f, before) :: x in Items(Pages(fetches, logs, u, f, limit)))
            <==> CleanEnds(SortNewest(Select(logs, u, f, before)), limit)
  {
    hide IsWalk, IsWhole, Items, SortNewest, Select;
    SortedIsWhole(logs, u, f, before);
    UntornIffClean(fetches, SortNewest(Select(logs, u, f, before)), logs, u, f, before, limit);
    CompleteIffUntorn(fetches, logs, u, f, before, limit);
  }

  // ---------------------------------------------------------------- walks end

  /** The requests of a client that has followed next_before so far, done or not. */
  ghost predicate IsWalkSoFar(
      fetches: seq<seq<ActivityLog>>, logs: seq<ActivityLog>, u: UserId, f: Filter, before: Option<int>, limit: nat)
    requires 1 <= limit
  {
    && fetches != []
    && IsListing(fetches[0], logs, u, f, before, limit + 1)
    && (|fetches| > 1 ==>
          && |fetches[0]| > limit
          && IsWalkSoFar(fetches[1..], logs, u, f, Some(fetches[0][limit - 1].createdAt), limit))
  }

  /** A full page takes at least its rows off what is left to ask for. */
  lemma PageConsumes(
      fetch: seq<ActivityLog>, logs: seq<ActivityLog>, u: UserId, f: Filter, before: Option<int>, limit: nat)
    requires 1 <= limit < |fetch| && NoRepeats(logs) && IsListing(fetch, logs, u, f, before, limit + 1)
    ensures |Select(logs, u, f, Some(fetch[limit - 1].createdAt))| + limit <= |Select(logs, u, f, before)|
    ensures limit < |Select(logs, u, f, before)|
  {
    hide Wanted, NewestFirst, Select;
    var cursor := fetch[limit - 1].createdAt;
    var head, rest, all := fetch[..limit], Select(logs, u, f, Some(cursor)), Select(logs, u, f, before);
    SelectWanted(logs, u, f, Some(cursor));
    SelectWanted(logs, u, f, before);
    forall x | x in head ensures x in all && x !in rest {
      CursorSplits(fetch, logs, u, f, before, limit, x);
    }
    forall x | x in rest ensures x in all {
      CursorSplits(fetch, logs, u, f, before, limit, x);
    }
    forall x | x in fetch ensures x in all {
    }
    NoMoreThan(fetch, all);
    assert NoRepeats(head + rest);
    NoMoreThan(head + rest, all);
  }

  /** However far a walk has come and however ties are ordered: n requests have a follow-up only
      if n·limit is below the number of wanted rows, so ⌈wanted / limit⌉ requests always do. */
  lemma {:induction false} WalksEnd(
      fetches: seq<seq<ActivityLog>>, logs: seq<ActivityLog>, u: UserId, f: Filter, before: Option<int>, limit: nat)
    requires 1 <= limit && NoRepeats(logs) && IsWalkSoFar(fetches, logs, u, f, before, limit)
    ensures |fetches| == 1 || limit * (|fetches| - 1) < |Select(logs, u, f, before)|
    decreases |fetches|
  {
    hide IsListing, NoRepeats, Select;
    if |fetches| > 1 {
      var cursor := fetches[0][limit - 1].createdAt;
      PageConsumes(fetches[0], logs, u, f, before, limit);
      WalksEnd(fetches[1..], logs, u, f, Some(cursor), limit);
      assert limit * (|fetches| - 1) == limit + limit * (|fetches| - 2);
    }
  }

  lemma NextIsSmaller(
      logs: seq<ActivityLog>, u: UserId, f: Filter, before: Option<int>, limit: nat)
    requires 1 <= limit && NoRepeats(logs) && GetHistory(logs, u, f, before, limit).hasMore
    ensures var next := GetHistory(logs, u, f, before, limit).nextBefore;
            next.Some? && |Select(logs, u, f, next)| < |Select(logs, u, f, before)|
  {
    hide ListForUser, CountForUser, Select, IsListing;
    ListForUserIsListing(logs, u, f, before, limit + 1);
    PageConsumes(ListForUser(logs, u, f, before, limit + 1), logs, u, f, before, limit);
  }

  /** The pages a client is given that asks get_history and follows next_before: there is a last. */
  function Walk(logs: seq<ActivityLog>, u: UserId, f: Filter, before: Option<int>, limit: nat): (pages: seq<Page>)
    requires 1 <= limit && NoRepeats(logs)
    decreases |Select(logs, u, f, before)|
  {
    var page := GetHistory(logs, u, f, before, limit);
    if page.hasMore then
      NextIsSmaller(logs, u, f, before, limit);
      [page] + Walk(logs, u, f, page.nextBefore, limit)
    else [page]
  }

  /** They are the pages of a walk. */
  lemma {:induction false} WalkIsWalk(
      logs: seq<ActivityLog>, u: UserId, f: Filter, before: Option<int>, limit: nat)
    requires 1 <= limit && NoRepeats(logs)
    ensures exists fetches ::
              IsWalk(fetches, logs, u, f, before, limit)
              && Walk(logs, u, f, before, limit) == Pages(fetches, logs, u, f, limit)
    decreases |Select(logs, u, f, before)|
  {
    hide ListForUser, CountForUser, Select, IsListing, NoRepeats;
    ListForUserIsListing(logs, u, f, before, limit + 1);
    var fetch := ListForUser(logs, u, f, before, limit + 1);
    var page := GetHistory(logs, u, f, before, limit);
    if page.hasMore {
      NextIsSmaller(logs, u, f, before, limit);
      WalkIsWalk(logs, u, f, page.nextBefore, limit);
      var rest :| IsWalk(rest, logs, u, f, page.nextBefore, limit)
                  && Walk(logs, u, f, page.nextBefore, limit) == Pages(rest, logs, u, f, limit);
      var fetches := [fetch] + rest;
      assert fetches[1..] == rest;
      assert IsWalk(fetches, logs, u, f, before, limit);
    } else {
      var fetches := [fetch];
      assert IsWalk(fetches, logs, u, f, before, limit);
      assert fetches[1..] == [] && Pages(fetches[1..], logs, u, f, limit) == [];
      assert Pages(fetches, logs, u, f, limit) == [page] + [] == [page];
    }
  }

  /** What get_history shows a client page after page: wanted rows, newest first, none twice; all
      of them if and only if no page end falls between rows of one time. */
  lemma {:induction false} WalkShows(
      logs: seq<ActivityLog>, u: UserId, f: Filter, before: Option<int>, limit: nat)
    requires 1 <= limit && NoRepeats(logs)
    ensures var shown := Items(Walk(logs, u, f, before, limit));
            && NewestFirst(shown) && NoRepeats(shown)
            && (forall x | x in shown :: Wanted(x, logs, u, f, before))
            && ((forall x | Wanted(x, logs, u, f, before) :: x in shown)
                <==> CleanEnds(SortNewest(Select(logs, u, f, before)), limit))
  {
    hide IsWalk, Walk, Pages, Items, NewestFirst, Wanted, SortNewest, Select, NoRepeats;
    WalkIsWalk(logs, u, f, before, limit);
    var fetches :| IsWalk(fetches, logs, u, f, before, limit)
                   && Walk(logs, u, f, before, limit) == Pages(fetches, logs, u, f, limit);
    WalkIsOrdered(fetches, logs, u, f, before, limit);
    WalkCompleteIff(fetches, logs, u, f, before, limit);
    forall x | x in Items(Pages(fetches, logs, u, f, limit)) ensures Wanted(x, logs, u, f, before) {
      ItemsWanted(fetches, logs, u, f, before, limit, x);
    }
  }
}
