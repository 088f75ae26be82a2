/**
  The template list with its cached ids: the read path, what can happen to the templates, the
  key and the clock around it, and what a reader can be shown.
 */
module TemplateCache {
  import opened Sorting
  import opened Ledger

  /** A template row as the list shows it.  `title` stands for the title's place in the
      database's sort order, `body` for everything else on the row. */
  datatype Row = Row(id: TemplateId, title: int, enabled: bool, body: nat)

  /** The cached id list and the moment from which the key is gone. */
  datatype Entry = Entry(ids: seq<TemplateId>, expires: int)

  const TTL := 300

  datatype Catalog = Catalog(table: seq<Row>, key: Option<Entry>, clock: int)

  // ---------------------------------------------------------------- the two queries

  function Enabled(table: seq<Row>): seq<Row> {
    if table == [] then []
    else
      var last := table[|table| - 1];
      Enabled(table[..|table| - 1]) + if last.enabled then [last] else []
  }

  function WithIds(table: seq<Row>, ids: seq<TemplateId>): seq<Row> {
    if table == [] then []
    else
      var last := table[|table| - 1];
      WithIds(table[..|table| - 1], ids) + if last.id in ids then [last] else []
  }

  function Title(row: Row): int {
    row.title
  }

  function SortByTitle(rows: seq<Row>): seq<Row> {
    SortBy(Title, rows)
  }

  function ListEnabled(table: seq<Row>): seq<Row> {
    SortByTitle(Enabled(table))
  }

  function ListByIds(table: seq<Row>, ids: seq<TemplateId>): seq<Row> {
    SortByTitle(WithIds(table, ids))
  }

  function IdsOf(rows: seq<Row>): seq<TemplateId> {
    seq(|rows|, i requires 0 <= i < |rows| => rows[i].id)
  }

  // ---------------------------------------------------------------- the read

  function LiveKey(c: Catalog): Option<seq<TemplateId>> {
    if c.key.Some? && c.clock < c.key.value.expires then Some(c.key.value.ids) else None
  }

  function Served(c: Catalog): seq<Row> {
    var ids := LiveKey(c);
    if ids.Some? && |ListByIds(c.table, ids.value)| == |ids.value| then ListByIds(c.table, ids.value)
    else ListEnabled(c.table)
  }

  function AfterRead(c: Catalog): Catalog {
    var ids := LiveKey(c);
    if ids.Some? && |ListByIds(c.table, ids.value)| == |ids.value| then c
    else c.(key := Some(Entry(IdsOf(ListEnabled(c.table)), c.clock + TTL)))
  }

  class TemplateService {
    var table: seq<Row>
    var key: Option<Entry>
    var clock: int

    ghost function Snapshot(): Catalog
      reads this
    {
      Catalog(table, key, clock)
    }

    /** Over an existing table, with no key written yet. */
    constructor (rows: seq<Row>, now: int)
      ensures Snapshot() == Catalog(rows, None, now)
    {
      table, key, clock := rows, None, now;
    }

    /** list_templates: try the cached ids, and on a miss query and write the key. */
    method ListTemplates() returns (rows: seq<Row>)
      modifies this`key
      ensures rows == Served(old(Snapshot()))
      ensures Snapshot() == AfterRead(old(Snapshot()))
    {
      if key.Some? && clock < key.value.expires {
        var ids := key.value.ids;
        rows := ListByIds(table, ids);
        if |rows| == |ids| {
          return;
        }
      }
      rows := ListEnabled(table);
      key := Some(Entry(IdsOf(rows), clock + TTL));
    }

    method InvalidateTemplatesCache()
      modifies this`key
      ensures Snapshot() == Change(old(Snapshot()), Invalidate)
    {
      key := None;
    }
  }

  // ---------------------------------------------------------------- what happens around it

  datatype CatalogOp =
    | Save(row: Row)
    | Drop(id: TemplateId)
    | Invalidate
    | Tick(seconds: nat)
    | Read

  function Without(table: seq<Row>, id: TemplateId): seq<Row> {
    if table == [] then []
    else
      var last := table[|table| - 1];
      Without(table[..|table| - 1], id) + if last.id == id then [] else [last]
  }

  /** The invalidation hooks are asynchronous: an edit and the key's deletion are separate steps,
      in any order and with anything in between. */
  function Change(c: Catalog, op: CatalogOp): Catalog {
    match op
    case Save(row) => c.(table := Without(c.table, row.id) + [row])
    case Drop(id) => c.(table := Without(c.table, id))
    case Invalidate => c.(key := None)
    case Tick(seconds) => c.(clock := c.clock + seconds)
    case Read => AfterRead(c)
  }

  function Later(c: Catalog, ops: seq<CatalogOp>): Catalog {
    if ops == [] then c else Change(Later(c, ops[..|ops| - 1]), ops[|ops| - 1])
  }

  // ---------------------------------------------------------------- properties of the queries

  ghost predicate UniqueIds(table: seq<Row>) {
    forall i, j | 0 <= i < j < |table| :: table[i].id != table[j].id
  }

  ghost predicate ByTitle(rows: seq<Row>) {
    forall i, j | 0 <= i < j < |rows| :: rows[i].title <= rows[j].title
  }

  ghost function EnabledIds(table: seq<Row>): set<TemplateId> {
    set r | r in table && r.enabled :: r.id
  }

  ghost function IdSet(rows: seq<Row>): set<TemplateId> {
    set r | r in rows :: r.id
  }

  ghost function Members(ids: seq<TemplateId>): set<TemplateId> {
    set id | id in ids
  }

  lemma SortKeeps(rows: seq<Row>)
    ensures ByTitle(SortByTitle(rows))
    ensures |SortByTitle(rows)| == |rows|
    ensures forall r :: r in SortByTitle(rows) <==> r in rows
  {
    SortByKeeps(Title, rows);
    var sorted := SortByTitle(rows);
    SameMembers(sorted, rows);
    forall i, j | 0 <= i < j < |sorted| ensures sorted[i].title <= sorted[j].title {
      assert Title(sorted[i]) <= Title(sorted[j]);
    }
  }

  lemma {:induction false} EnabledMembers(table: seq<Row>)
    ensures forall r :: r in Enabled(table) <==> r in table && r.enabled
    ensures UniqueIds(table) ==> UniqueIds(Enabled(table))
  {
    if table != [] {
      var init, last := table[..|table| - 1], table[|table| - 1];
      assert table == init + [last];
      EnabledMembers(init);
      if UniqueIds(table) {
        AppendUnique(Enabled(init), last, init);
      }
    }
  }

  lemma {:induction false} WithIdsMembers(table: seq<Row>, ids: seq<TemplateId>)
    ensures forall r :: r in WithIds(table, ids) <==> r in table && r.id in ids
    ensures UniqueIds(table) ==> UniqueIds(WithIds(table, ids))
  {
    if table != [] {
      var init, last := table[..|table| - 1], table[|table| - 1];
      assert table == init + [last];
      WithIdsMembers(init, ids);
      if UniqueIds(table) {
        AppendUnique(WithIds(init, ids), last, init);
      }
    }
  }

  lemma AppendUnique(rows: seq<Row>, last: Row, init: seq<Row>)
    requires UniqueIds(init + [last]) && UniqueIds(rows) && forall r | r in rows :: r in init
    ensures UniqueIds(rows + [last]) && rows + [] == rows
  {
    forall i | 0 <= i < |rows| ensures rows[i].id != last.id {
      assert rows[i] in rows;
      var k :| 0 <= k < |init| && init[k] == rows[i];
      assert (init + [last])[k] == rows[i] && (init + [last])[|init|] == last;
    }
  }
}
