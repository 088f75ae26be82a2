/**
  What the cached template list promises: current rows only, for an id set that was the enabled
  set less than five minutes ago, and a right answer exactly when that set is still the same.
 */
module TemplateStaleness {
  import opened Counting
  import opened Ledger
  import opened TemplateCache

  // ---------------------------------------------------------------- counting ids

  /** Rows are without repeats exactly when they have as many ids as rows. */
  lemma {:induction false} UniqueCount(rows: seq<Row>)
    ensures |IdSet(rows)| <= |rows|
    ensures UniqueIds(rows) <==> |IdSet(rows)| == |rows|
  {
    if rows != [] {
      var init, last := rows[..|rows| - 1], rows[|rows| - 1];
      assert rows == init + [last];
      UniqueCount(init);
      assert IdSet(rows) == IdSet(init) + {last.id};
      if last.id in IdSet(init) {
        var r :| r in init && r.id == last.id;
        var i :| 0 <= i < |init| && init[i] == r;
        assert rows[i].id == rows[|rows| - 1].id;
        assert IdSet(rows) == IdSet(init);
      } else {
        LastIsNew(init, last);
      }
    }
  }

  lemma LastIsNew(init: seq<Row>, last: Row)
    requires last.id !in IdSet(init)
    ensures UniqueIds(init + [last]) <==> UniqueIds(init)
  {
    var rows := init + [last];
    assert forall i | 0 <= i < |init| :: rows[i] == init[i] && init[i].id in IdSet(init);
    if UniqueIds(rows) {
      forall i, j | 0 <= i < j < |init| ensures init[i].id != init[j].id {
        assert rows[i].id != rows[j].id;
      }
    }
  }

  lemma IdsOfRows(rows: seq<Row>)
    requires UniqueIds(rows)
    ensures Members(IdsOf(rows)) == IdSet(rows)
    ensures |Members(IdsOf(rows))| == |IdsOf(rows)|
  {
    UniqueCount(rows);
    var ids := IdsOf(rows);
    forall id ensures id in Members(ids) <==> id in IdSet(rows) {
      if id in Members(ids) {
        var i :| 0 <= i < |ids| && ids[i] == id;
        assert rows[i] in rows;
      }
      if id in IdSet(rows) {
        var r :| r in rows && r.id == id;
        var i :| 0 <= i < |rows| && rows[i] == r;
        assert ids[i] == id;
      }
    }
  }

  // ---------------------------------------------------------------- what the queries return

  lemma SortKeepsUnique(rows: seq<Row>)
    requires UniqueIds(rows)
    ensures UniqueIds(SortByTitle(rows)) && IdSet(SortByTitle(rows)) == IdSet(rows)
  {
    SortKeeps(rows);
    assert IdSet(SortByTitle(rows)) == IdSet(rows);
    UniqueCount(rows);
    UniqueCount(SortByTitle(rows));
  }

  /** list_enabled: the enabled rows and no others, each once, by title. */
  lemma ListEnabledIsListing(table: seq<Row>)
    requires UniqueIds(table)
    ensures var rows := ListEnabled(table);
            ByTitle(rows) && UniqueIds(rows) && IdSet(rows) == EnabledIds(table) &&
            forall r :: r in rows <==> r in table && r.enabled
  {
    EnabledMembers(table);
    SortKeeps(Enabled(table));
    SortKeepsUnique(Enabled(table));
    assert IdSet(Enabled(table)) == EnabledIds(table);
  }

  /** list_by_ids: the rows with a wanted id, enabled or not, each once, by title. */
  lemma ListByIdsIsListing(table: seq<Row>, ids: seq<TemplateId>)
    requires UniqueIds(table)
    ensures var rows := ListByIds(table, ids);
            ByTitle(rows) && UniqueIds(rows) && IdSet(rows) == IdSet(table) * Members(ids) &&
            forall r :: r in rows <==> r in table && r.id in ids
  {
    WithIdsMembers(table, ids);
    SortKeeps(WithIds(table, ids));
    SortKeepsUnique(WithIds(table, ids));
    assert IdSet(WithIds(table, ids)) == IdSet(table) * Members(ids);
  }

  /** Comparing two lengths is enough to find out whether a cached id has lost its row. */
  lemma LengthsTell(table: seq<Row>, ids: seq<TemplateId>)
    requires UniqueIds(table) && |Members(ids)| == |ids|
    ensures |ListByIds(table, ids)| == |ids| <==> Members(ids) <= IdSet(table)
  {
    var rows := ListByIds(table, ids);
    ListByIdsIsListing(table, ids);
    UniqueCount(rows);
    SubsetSize(IdSet(rows), Members(ids));
    if Members(ids) <= IdSet(table) {
      assert IdSet(rows) == Members(ids);
    }
  }

  // ---------------------------------------------------------------- one read

  /** The key was written by a read: no id twice. */
  ghost predicate KeyOk(c: Catalog) {
    c.key.Some? ==> |Members(c.key.value.ids)| == |c.key.value.ids|
  }

  /** The read is answered from the cached ids. */
  ghost predicate Hit(c: Catalog) {
    LiveKey(c).Some? && Members(LiveKey(c).value) <= IdSet(c.table)
  }

  /** Whatever the key holds, a reader sees rows of the table as it is now, in title order and
      none twice; so a deleted template is never shown, and edits to a shown one are. */
  lemma ServedIsCurrent(c: Catalog)
    requires UniqueIds(c.table)
    ensures ByTitle(Served(c)) && UniqueIds(Served(c)) && forall r | r in Served(c) :: r in c.table
  {
    ListEnabledIsListing(c.table);
    if LiveKey(c).Some? {
      ListByIdsIsListing(c.table, LiveKey(c).value);
    }
  }

  lemma ServedIds(c: Catalog)
    requires UniqueIds(c.table) && KeyOk(c)
    ensures IdSet(Served(c)) == if Hit(c) then Members(LiveKey(c).value) else EnabledIds(c.table)
    ensures AfterRead(c).key == if Hit(c) then c.key else Some(Entry(IdsOf(ListEnabled(c.table)), c.clock + TTL))
    ensures !Hit(c) ==> Served(c) == ListEnabled(c.table)
    ensures Hit(c) ==> Served(c) == ListByIds(c.table, LiveKey(c).value)
  {
    ListEnabledIsListing(c.table);
    if LiveKey(c).Some? {
      var ids := LiveKey(c).value;
      LengthsTell(c.table, ids);
      ListByIdsIsListing(c.table, ids);
      if Hit(c) {
        assert IdSet(c.table) * Members(ids) == Members(ids);
      }
    }
  }

  lemma IdSharedMeansSame(table: seq<Row>, r: Row, q: Row)
    requires UniqueIds(table) && r in table && q in table && r.id == q.id
    ensures r == q
  {
    var i :| 0 <= i < |table| && table[i] == r;
    var j :| 0 <= j < |table| && table[j] == q;
  }

  /** A right answer to list_enabled, whichever way rows of one title are ordered. */
  ghost predicate AnswersEnabled(rows: seq<Row>, table: seq<Row>) {
    && ByTitle(rows) && UniqueIds(rows)
    && forall r :: r in rows <==> r in table && r.enabled
  }

  ghost predicate AnswersIds(rows: seq<Row>, table: seq<Row>, ids: seq<TemplateId>) {
    && ByTitle(rows) && UniqueIds(rows)
    && forall r :: r in rows <==> r in table && r.id in ids
  }

  /** What a read may show, whichever way its query orders rows of one title. */
  ghost predicate MayServe(rows: seq<Row>, c: Catalog) {
    if Hit(c) then AnswersIds(rows, c.table, LiveKey(c).value) else AnswersEnabled(rows, c.table)
  }

  lemma ServedMayServe(c: Catalog)
    requires UniqueIds(c.table) && KeyOk(c)
    ensures MayServe(Served(c), c)
  {
    ServedIds(c);
    ListEnabledIsListing(c.table);
    if Hit(c) {
      ListByIdsIsListing(c.table, LiveKey(c).value);
    }
  }

  lemma EnabledIffListed(table: seq<Row>, ids: seq<TemplateId>, r: Row)
    requires UniqueIds(table) && r in table && Members(ids) == EnabledIds(table)
    ensures r.enabled <==> r.id in ids
  {
    if r.id in ids {
      assert r.id in EnabledIds(table);
      var q :| q in table && q.enabled && q.id == r.id;
      IdSharedMeansSame(table, r, q);
    }
    if r.enabled {
      assert r.id in EnabledIds(table);
    }
  }

  /** What a read shows is a right answer to list_enabled exactly when the read is not answered
      from the cache or the cached ids are still the enabled ones. */
  lemma AgreesIff(c: Catalog, rows: seq<Row>)
    requires UniqueIds(c.table) && MayServe(rows, c)
    ensures AnswersEnabled(rows, c.table) <==> (Hit(c) ==> Members(LiveKey(c).value) == EnabledIds(c.table))
  {
    hide ByTitle, UniqueIds;
    if Hit(c) {
      var ids := LiveKey(c).value;
      if Members(ids) == EnabledIds(c.table) {
        forall r | r in c.table ensures r.enabled <==> r.id in ids {
          EnabledIffListed(c.table, ids, r);
        }
      }
      if AnswersEnabled(rows, c.table) {
        assert IdSet(rows) == EnabledIds(c.table);
        assert IdSet(rows) == IdSet(c.table) * Members(ids);
      }
    }
  }

  // ---------------------------------------------------------------- whole runs

  lemma {:induction false} WithoutMembers(table: seq<Row>, id: TemplateId)
    requires UniqueIds(table)
    ensures forall r :: r in Without(table, id) <==> r in table && r.id != id
    ensures UniqueIds(Without(table, id))
  {
    if table != [] {
      var init, last := table[..|table| - 1], table[|table| - 1];
      assert table == init + [last];
      WithoutMembers(init, id);
      AppendUnique(Without(init, id), last, init);
    }
  }

  lemma ChangeKeepsUnique(c: Catalog, op: CatalogOp)
    requires UniqueIds(c.table)
    ensures UniqueIds(Change(c, op).table)
  {
    match op
    case Save(row) =>
      WithoutMembers(c.table, row.id);
      LastIsNew(Without(c.table, row.id), row);
    case Drop(id) => WithoutMembers(c.table, id);
    case _ =>
  }

  /** now's key is the one a read that missed at past wrote. */
  ghost predicate WrittenAt(now: Catalog, past: Catalog) {
    && past.clock <= now.clock
    && now.key == Some(Entry(IdsOf(ListEnabled(past.table)), past.clock + TTL))
  }

  ghost function At(c: Catalog, ops: seq<CatalogOp>, k: nat): Catalog
    requires k <= |ops|
  {
    Later(c, ops[..k])
  }

  /** One change: the key stays, goes, or is written from the table of this very moment. */
  lemma KeyAfterChange(c: Catalog, op: CatalogOp)
    requires UniqueIds(c.table) && KeyOk(c)
    ensures var now := Change(c, op);
            (now.key == c.key && op != Invalidate) || now.key == None || (WrittenAt(now, c) && op == Read)
    ensures KeyOk(Change(c, op)) && c.clock <= Change(c, op).clock
  {
    hide Served, ListEnabled, ListByIds, Without;
    if op.Read? {
      ServedIds(c);
      ListEnabledIsListing(c.table);
      IdsOfRows(ListEnabled(c.table));
    }
  }

  /** Nobody has deleted the key since this moment. */
  ghost predicate Uninvalidated(ops: seq<CatalogOp>, k: nat) {
    forall i | k <= i < |ops| :: ops[i] != Invalidate
  }

  lemma NoKeyIsOk(c: Catalog)
    requires c.key == None
    ensures KeyOk(c)
  {
  }

  lemma MomentCarries(c: Catalog, ops: seq<CatalogOp>, k: nat)
    requires k < |ops| - 1 && ops[|ops| - 1] != Invalidate
    requires var init := ops[..|ops| - 1];
             && WrittenAt(Later(c, init), At(c, init, k)) && Uninvalidated(init, k) && init[k] == Read
             && Later(c, ops).key == Later(c, init).key && Later(c, init).clock <= Later(c, ops).clock
    ensures WrittenAt(Later(c, ops), At(c, ops, k)) && Uninvalidated(ops, k) && ops[k] == Read
  {
    hide Later, ListEnabled, IdsOf;
    assert ops[..|ops| - 1][..k] == ops[..k];
  }

  /** At every moment of every run that starts without a key, the key, if any, holds exactly the
      enabled ids of one earlier moment, a read's, in title order, and that moment's clock plus the
      TTL; and nobody has deleted the key since. */
  lemma {:induction false} KeyHasAMoment(c: Catalog, ops: seq<CatalogOp>)
    requires UniqueIds(c.table) && c.key == None
    ensures UniqueIds(Later(c, ops).table) && KeyOk(Later(c, ops))
    ensures Later(c, ops).key.Some? ==>
              exists k: nat | k < |ops| ::
                WrittenAt(Later(c, ops), At(c, ops, k)) && Uninvalidated(ops, k) && ops[k] == Read
  {
    hide Change, AfterRead, ListEnabled, IdsOf, UniqueIds, KeyOk;
    if ops == [] {
      NoKeyIsOk(c);
    } else {
      var n := |ops| - 1;
      var init, before := ops[..n], Later(c, ops[..n]);
      KeyHasAMoment(c, init);
      ChangeKeepsUnique(before, ops[n]);
      KeyAfterChange(before, ops[n]);
      assert At(c, ops, n) == before;
      var now := Later(c, ops);
      if now.key.Some? {
        if now.key == before.key && ops[n] != Invalidate {
          var k: nat :| k < n && WrittenAt(before, At(c, init, k)) && Uninvalidated(init, k) && init[k] == Read;
          MomentCarries(c, ops, k);
        } else {
          assert WrittenAt(now, At(c, ops, n)) && Uninvalidated(ops, n);
        }
      }
    }
  }

  /** A moment's list, as a reader at another moment may still be shown it. */
  ghost predicate StillShown(now: Catalog, past: Catalog) {
    && past.clock <= now.clock < past.clock + 300
    && IdSet(Served(now)) == EnabledIds(past.table)
  }

  /** Bounded staleness: after any run of edits, deletions, key deletions, clock ticks and reads,
      the templates shown are those that were enabled at one moment less than 300 seconds ago,
      and that moment lies after the last deletion of the key. */
  lemma BoundedStaleness(c: Catalog, ops: seq<CatalogOp>)
    requires UniqueIds(c.table) && c.key == None
    ensures exists k: nat | k <= |ops| :: StillShown(Later(c, ops), At(c, ops, k)) && Uninvalidated(ops, k)
  {
    var now := Later(c, ops);
    KeyHasAMoment(c, ops);
    ServedIds(now);
    if Hit(now) {
      var k: nat :| k < |ops| && WrittenAt(now, At(c, ops, k)) && Uninvalidated(ops, k) && ops[k] == Read;
      MomentKeepsUnique(c, ops[..k]);
      ListEnabledIsListing(At(c, ops, k).table);
      IdsOfRows(ListEnabled(At(c, ops, k).table));
      assert StillShown(now, At(c, ops, k));
    } else {
      assert ops[..|ops|] == ops;
      assert StillShown(now, At(c, ops, |ops|));
    }
  }

  lemma {:induction false} MomentKeepsUnique(c: Catalog, ops: seq<CatalogOp>)
    requires UniqueIds(c.table)
    ensures UniqueIds(Later(c, ops).table)
  {
    if ops != [] {
      MomentKeepsUnique(c, ops[..|ops| - 1]);
      ChangeKeepsUnique(Later(c, ops[..|ops| - 1]), ops[|ops| - 1]);
    }
  }

  lemma {:induction false} KeyStaysGone(c: Catalog, ops: seq<CatalogOp>)
    requires c.key == None && forall i | 0 <= i < |ops| :: ops[i] != Read
    ensures Later(c, ops).key == None
  {
    if ops != [] {
      KeyStaysGone(c, ops[..|ops| - 1]);
    }
  }

  lemma {:induction false} LaterOn(c: Catalog, first: seq<CatalogOp>, more: seq<CatalogOp>)
    ensures Later(c, first + more) == Later(Later(c, first), more)
  {
    if more == [] {
      assert first + more == first;
    } else {
      LaterOn(c, first, more[..|more| - 1]);
      assert (first + more)[..|first + more| - 1] == first + more[..|more| - 1];
    }
  }

  /** What the invalidation is for: after it, and whatever else is done to the templates before the
      next read, that read is a right answer to list_enabled of the table as it is then. */
  lemma {:induction false} InvalidatedReadIsRight(
      c: Catalog, ops: seq<CatalogOp>, more: seq<CatalogOp>, rows: seq<Row>)
    requires forall i | 0 <= i < |more| :: more[i] != Read
    requires MayServe(rows, Later(c, ops + [Invalidate] + more))
    ensures AnswersEnabled(rows, Later(c, ops + [Invalidate] + more).table)
  {
    var gone := Later(c, ops + [Invalidate]);
    assert (ops + [Invalidate])[..|ops|] == ops;
    assert gone == Change(Later(c, ops), Invalidate);
    LaterOn(c, ops + [Invalidate], more);
    KeyStaysGone(gone, more);
  }

  /** What the edits do: a saved row is there as saved, a dropped one is gone, every other row stays,
      and neither touches key or clock; time passes as told and touches nothing else. */
  lemma EditOutcome(c: Catalog, op: CatalogOp)
    requires UniqueIds(c.table)
    ensures var now := Change(c, op);
            && (op.Save? || op.Drop? ==> now.key == c.key && now.clock == c.clock)
            && (op.Save? ==> forall r :: r in now.table <==> r == op.row || (r in c.table && r.id != op.row.id))
            && (op.Drop? ==> forall r :: r in now.table <==> r in c.table && r.id != op.id)
            && (op.Tick? ==> now == Catalog(c.table, c.key, c.clock + op.seconds))
            && (op.Invalidate? ==> now == Catalog(c.table, None, c.clock))
            && (op.Read? ==> now.table == c.table && now.clock == c.clock)
  {
    match op
    case Save(row) => WithoutMembers(c.table, row.id);
    case Drop(id) => WithoutMembers(c.table, id);
    case _ =>
  }

  /** When the enabled ids are what they were at every moment of the last TTL seconds since the
      key was last deleted, whatever the read may show is a right answer to list_enabled. */
  lemma {:induction false} QuietMeansExact(c: Catalog, ops: seq<CatalogOp>, rows: seq<Row>)
    requires UniqueIds(c.table) && c.key == None
    requires forall k: nat | k <= |ops| && Later(c, ops).clock < At(c, ops, k).clock + TTL && Uninvalidated(ops, k) ::
               EnabledIds(At(c, ops, k).table) == EnabledIds(Later(c, ops).table)
    requires MayServe(rows, Later(c, ops))
    ensures AnswersEnabled(rows, Later(c, ops).table)
  {
    var now := Later(c, ops);
    KeyHasAMoment(c, ops);
    BoundedStaleness(c, ops);
    var k: nat :| k <= |ops| && StillShown(now, At(c, ops, k)) && Uninvalidated(ops, k);
    ServedIds(now);
    AgreesIff(now, rows);
  }

  /** The step neither deletes the key nor drops a row that these ids name. */
  predicate LeavesKey(op: CatalogOp, ids: set<TemplateId>) {
    op != Invalidate && (op.Drop? ==> op.id !in ids)
  }

  /** The key a read at c wrote is still there, and all its ids have rows. */
  ghost predicate Frozen(now: Catalog, c: Catalog) {
    && now.key == Some(Entry(IdsOf(ListEnabled(c.table)), c.clock + TTL))
    && UniqueIds(now.table) && EnabledIds(c.table) <= IdSet(now.table)
  }

  lemma ReadFreezes(c: Catalog)
    requires UniqueIds(c.table) && KeyOk(c) && !Hit(c)
    ensures Frozen(Change(c, Read), c)
  {
    ServedIds(c);
  }

  lemma FrozenHits(now: Catalog, c: Catalog)
    requires UniqueIds(c.table) && Frozen(now, c) && now.clock < c.clock + TTL
    ensures Hit(now) && KeyOk(now) && Members(LiveKey(now).value) == EnabledIds(c.table)
  {
    hide UniqueIds, ListEnabled, IdsOf;
    ListEnabledIsListing(c.table);
    IdsOfRows(ListEnabled(c.table));
  }

  lemma ChangeKeepsFrozen(now: Catalog, c: Catalog, op: CatalogOp)
    requires UniqueIds(c.table) && Frozen(now, c) && LeavesKey(op, EnabledIds(c.table))
    requires now.clock < c.clock + TTL
    ensures Frozen(Change(now, op), c) && now.clock <= Change(now, op).clock
  {
    hide ListEnabled, ListByIds, IdsOf, Served;
    ChangeKeepsUnique(now, op);
    match op
    case Save(row) => SavedIds(now.table, row);
    case Drop(id) => DroppedIds(now.table, id);
    case Read => {
      FrozenHits(now, c);
      ServedIds(now);
    }
    case _ =>
  }

  lemma {:induction false} StaysFrozen(c: Catalog, ops: seq<CatalogOp>)
    requires UniqueIds(c.table) && KeyOk(c) && !Hit(c)
    requires forall i | 0 <= i < |ops| :: LeavesKey(ops[i], EnabledIds(c.table))
    requires Later(Change(c, Read), ops).clock < c.clock + TTL
    ensures Frozen(Later(Change(c, Read), ops), c)
  {
    hide Change, Frozen, Hit, KeyOk, LeavesKey, EnabledIds, UniqueIds;
    if ops == [] {
      ReadFreezes(c);
    } else {
      var init, op := ops[..|ops| - 1], ops[|ops| - 1];
      ClockRuns(Later(Change(c, Read), init), op);
      StaysFrozen(c, init);
      ChangeKeepsFrozen(Later(Change(c, Read), init), c, op);
    }
  }

  lemma ClockRuns(c: Catalog, op: CatalogOp)
    ensures c.clock <= Change(c, op).clock
  {
  }

  /** What the hooks cannot prevent: from a read that wrote the key until the key is deleted, runs
      out or loses a row, whatever is saved meanwhile, a template is shown, as it is by then, if
      and only if it was enabled at that read. */
  lemma {:induction false} FrozenUntilInvalidated(c: Catalog, ops: seq<CatalogOp>, row: Row, rows: seq<Row>)
    requires UniqueIds(c.table) && KeyOk(c) && !Hit(c)
    requires forall i | 0 <= i < |ops| :: LeavesKey(ops[i], EnabledIds(c.table))
    requires Later(Change(c, Read), ops).clock < c.clock + TTL
    requires row in Later(Change(c, Read), ops).table && MayServe(rows, Later(Change(c, Read), ops))
    ensures row in rows <==> row.id in EnabledIds(c.table)
  {
    hide Frozen, UniqueIds, EnabledIds, Later;
    var now := Later(Change(c, Read), ops);
    StaysFrozen(c, ops);
    FrozenHits(now, c);
    assert row.id in LiveKey(now).value <==> row.id in Members(LiveKey(now).value);
  }

  lemma DroppedIds(table: seq<Row>, id: TemplateId)
    requires UniqueIds(table)
    ensures IdSet(Without(table, id)) == IdSet(table) - {id}
  {
    WithoutMembers(table, id);
  }

  lemma SavedIds(table: seq<Row>, row: Row)
    requires UniqueIds(table)
    ensures IdSet(Without(table, row.id) + [row]) == IdSet(table) + {row.id}
  {
    WithoutMembers(table, row.id);
    var all := Without(table, row.id) + [row];
    assert row in all;
    forall id | id in IdSet(table) ensures id in IdSet(all) {
      if id != row.id {
        var q :| q in table && q.id == id;
        assert q in all;
      }
    }
  }
}
