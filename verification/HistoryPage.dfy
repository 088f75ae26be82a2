/**
  One answer of get_history: what its items, total, has_more and next_before say about the table.
 */
module HistoryPage {
  import opened Counting
  import opened Ledger
  import opened History
  import opened HistoryWalk

  // ---------------------------------------------------------------- counting rows

  ghost function RowSet(rows: seq<ActivityLog>): set<ActivityLog> {
    set r | r in rows
  }

  lemma {:induction false} RowCount(rows: seq<ActivityLog>)
    ensures |RowSet(rows)| <= |rows|
    ensures NoRepeats(rows) ==> |RowSet(rows)| == |rows|
  {
    if rows != [] {
      var init, last := rows[..|rows| - 1], rows[|rows| - 1];
      assert rows == init + [last];
      RowCount(init);
      assert RowSet(rows) == RowSet(init) + {last};
    }
  }

  /** Pigeonhole: distinct rows all found in another list are no more than that list has. */
  lemma NoMoreThan(a: seq<ActivityLog>, b: seq<ActivityLog>)
    requires NoRepeats(a) && forall x | x in a :: x in b
    ensures |a| <= |b|
  {
    RowCount(a);
    RowCount(b);
    SubsetSize(RowSet(a), RowSet(b));
  }

  // ---------------------------------------------------------------- the total

  ghost function Matching(logs: seq<ActivityLog>, u: UserId, f: Filter): set<ActivityLog> {
    set r | r in logs && Matches(r, u, f)
  }

  /** The count is the number of rows that match, wherever the cursor stands. */
  lemma CountIsMatching(logs: seq<ActivityLog>, u: UserId, f: Filter)
    requires NoRepeats(logs)
    ensures CountForUser(logs, u, f) == |Matching(logs, u, f)|
  {
    var all := Select(logs, u, f, None);
    SelectWanted(logs, u, f, None);
    RowCount(all);
    assert RowSet(all) == Matching(logs, u, f);
  }

  /** Two time windows that meet without a gap or an overlap share the rows of their union: both
      ends of a window belong to it. */
  lemma {:induction false} WindowsSplit(
      logs: seq<ActivityLog>, u: UserId, t: Option<TemplateId>, low: Option<int>, m: int, high: Option<int>)
    requires (low.Some? ==> low.value <= m + 1) && (high.Some? ==> m <= high.value)
    ensures CountForUser(logs, u, Filter(t, low, high))
         == CountForUser(logs, u, Filter(t, low, Some(m))) + CountForUser(logs, u, Filter(t, Some(m + 1), high))
  {
    if logs != [] {
      WindowsSplit(logs[..|logs| - 1], u, t, low, m, high);
    }
  }

  /** What one filter selects is what each of its parts selects. */
  lemma FiltersCombine(
      logs: seq<ActivityLog>, u: UserId, t: TemplateId, low: int, high: int, before: int, x: ActivityLog)
    ensures x in Select(logs, u, Filter(Some(t), Some(low), Some(high)), Some(before))
            <==> x in logs && x.user == u && x.templateId == t && low <= x.createdAt <= high && x.createdAt < before
  {
    SelectWanted(logs, u, Filter(Some(t), Some(low), Some(high)), Some(before));
  }

  // ---------------------------------------------------------------- the page

  /** A right answer: the items are a listing of the wanted rows up to the limit, the total counts
      the matching rows of the table, and next_before is there exactly when a wanted row is missing
      from the page, and is then the time of the last item. */
  ghost predicate AnswersHistory(
      page: Page, logs: seq<ActivityLog>, u: UserId, f: Filter, before: Option<int>, limit: nat)
  {
    && IsListing(page.items, logs, u, f, before, limit)
    && page.total == |Matching(logs, u, f)|
    && (page.hasMore <==> exists x :: Wanted(x, logs, u, f, before) && x !in page.items)
    && (page.nextBefore.Some? <==> page.hasMore && page.items != [])
    && (page.nextBefore.Some? ==> page.nextBefore.value == page.items[|page.items| - 1].createdAt)
    && (page.items == [] && page.hasMore ==> limit == 0)
  }

  lemma CutListing(
      fetch: seq<ActivityLog>, logs: seq<ActivityLog>, u: UserId, f: Filter, before: Option<int>, limit: nat)
    requires IsListing(fetch, logs, u, f, before, limit + 1)
    ensures IsListing(Take(fetch, limit), logs, u, f, before, limit)
  {
    hide Wanted, NewestFirst, NoRepeats;
    var cut := Take(fetch, limit);
    CutKeepsOrder(fetch, limit);
    forall x | Wanted(x, logs, u, f, before) && x !in cut
      ensures |cut| == limit && forall r | r in cut :: x.createdAt <= r.createdAt
    {
      forall r | r in cut ensures x.createdAt <= r.createdAt {
        if x in fetch {
          CutOffIsOlder(fetch, limit, x, r);
        }
      }
    }
  }

  /** Whatever order of ties the database returns, the page cut from its rows is a right answer. */
  lemma PageIsRight(
      fetch: seq<ActivityLog>, logs: seq<ActivityLog>, u: UserId, f: Filter, before: Option<int>, limit: nat)
    requires NoRepeats(logs) && IsListing(fetch, logs, u, f, before, limit + 1)
    ensures AnswersHistory(MakePage(fetch, limit, CountForUser(logs, u, f)), logs, u, f, before, limit)
  {
    hide IsListing, CountForUser, Matching, Wanted;
    CutListing(fetch, logs, u, f, before, limit);
    CountIsMatching(logs, u, f);
    HasMoreIsExact(fetch, logs, u, f, before, limit, CountForUser(logs, u, f));
  }

  /** get_history itself answers right. */
  lemma HistoryIsRight(logs: seq<ActivityLog>, u: UserId, f: Filter, before: Option<int>, limit: nat)
    requires NoRepeats(logs)
    ensures AnswersHistory(GetHistory(logs, u, f, before, limit), logs, u, f, before, limit)
  {
    hide IsListing, AnswersHistory, MakePage;
    ListForUserIsListing(logs, u, f, before, limit + 1);
    PageIsRight(ListForUser(logs, u, f, before, limit + 1), logs, u, f, before, limit);
  }
}
