/**
  The account query (`querySpec`, `sqlAll` and the edge accessors of backend/ent/account_query.go
  and backend/ent/account.go): column selection, the six eager loaders, and what a caller then finds.

  A row maps the names of its non-NULL columns to values; reading it with a column list keeps the
  selected columns only, so an unselected foreign key looks like NULL and an unselected ID like 0.
*/
module AccountQuery {
  import opened Common
  import opened EagerLoad

  datatype Value = Key(k: int) | Other(text: string)

  type Row = map<string, Value>

  const ID := "id"
  const PROXY := "proxy_id"
  const PARENT := "parent_account_id"
  const ACCOUNT := "account_id"

  function KeyAt(row: Row, col: string): Option<int> {
    if col in row && row[col].Key? then Some(row[col].k) else None
  }

  function IntAt(row: Row, col: string): int {
    if KeyAt(row, col).Some? then KeyAt(row, col).value else 0
  }

  function IdOf(row: Row): int {
    IntAt(row, ID)
  }

  /** The keys of a row are its values of that kind; a missing ID counts as 0. */
  lemma KeysAre(row: Row, col: string, k: int)
    ensures KeyAt(row, col) == Some(k) <==> col in row && row[col] == Key(k)
    ensures "id" in row && row["id"] == Key(k) ==> IdOf(row) == k
    ensures (forall i :: "id" in row ==> row["id"] != Key(i)) ==> IdOf(row) == 0
    ensures RefersTo(col, k)(row) <==> col in row && row[col] == Key(k)
  {
    if "id" in row && row["id"].Key? {
      assert row["id"] == Key(row["id"].k);
    }
  }

  // ----- column selection

  function AppendOnce(cols: seq<string>, c: string): seq<string> {
    if c in cols then cols else cols + [c]
  }

  function AppendAll(cols: seq<string>, needed: seq<string>): seq<string> {
    if needed == [] then cols else AppendOnce(AppendAll(cols, needed[..|needed| - 1]), needed[|needed| - 1])
  }

  function NotId(): string -> bool {
    c => c != ID
  }

  /** The columns of a query with the selection `fields`; an empty selection means all columns. */
  function Selected(fields: seq<string>, needed: seq<string>): seq<string> {
    AppendAll([ID] + Filter(fields, NotId()), needed)
  }

  /** The foreign keys that the many-to-one loaders read from the node itself. */
  function Needed(withProxy: bool, withParent: bool): seq<string> {
    (if withProxy then [PROXY] else []) + (if withParent then [PARENT] else [])
  }

  method QuerySpec(fields: seq<string>, withProxy: bool, withParent: bool) returns (cols: Option<seq<string>>)
    ensures cols == if fields == [] then None else Some(Selected(fields, Needed(withProxy, withParent)))
  {
    cols := None;
    if |fields| > 0 {
      var columns := [ID];
      for i := 0 to |fields|
        invariant columns == [ID] + Filter(fields[..i], NotId())
      {
        assert fields[..i + 1][..i] == fields[..i];
        if fields[i] != ID {
          columns := columns + [fields[i]];
        }
      }
      assert fields[..|fields|] == fields;
      ghost var start := columns;
      if withProxy {
        columns := AppendOnce(columns, PROXY);
      }
      if withParent {
        columns := AppendOnce(columns, PARENT);
      }
      NeededInTurn(start, withProxy, withParent);
      cols := Some(columns);
    }
  }

  lemma NeededInTurn(cols: seq<string>, withProxy: bool, withParent: bool)
    ensures
      var c := if withProxy then AppendOnce(cols, PROXY) else cols;
      AppendAll(cols, Needed(withProxy, withParent)) == if withParent then AppendOnce(c, PARENT) else c
  {
    var n := Needed(withProxy, withParent);
    assert [PROXY][..0] == [] && [PARENT][..0] == [];
    if withProxy && withParent {
      assert n[..1] == [PROXY];
      assert AppendAll(cols, [PROXY]) == AppendOnce(cols, PROXY);
    } else {
      assert withProxy ==> n == [PROXY];
      assert withParent ==> n == [PARENT];
    }
  }

  lemma {:induction false} AppendAllKeeps(cols: seq<string>, needed: seq<string>)
    requires cols != []
    ensures cols <= AppendAll(cols, needed)
    ensures forall c :: c in AppendAll(cols, needed) <==> c in cols || c in needed
    ensures ID in cols ==> multiset(AppendAll(cols, needed))[ID] == multiset(cols)[ID]
  {
    if needed != [] {
      AppendAllKeeps(cols, needed[..|needed| - 1]);
      assert needed == needed[..|needed| - 1] + [needed[|needed| - 1]];
    }
  }

  /** With a selection, the ID comes first and only once, and nothing selected or needed is missing. */
  lemma SelectionKeepsKeys(fields: seq<string>, needed: seq<string>)
    ensures
      var cols := Selected(fields, needed);
      && cols != [] && cols[0] == ID && multiset(cols)[ID] == 1
      && forall c :: c in cols <==> c == ID || c in fields || c in needed
  {
    var others := Filter(fields, NotId());
    var base := [ID] + others;
    FilterMembers(fields, NotId());
    FilterHas(fields, NotId(), ID);
    AppendAllKeeps(base, needed);
    assert multiset(base) == multiset{ID} + multiset(others);
    assert ID !in others;
  }

  /** Reads a row as the query of a table with an ID column does. */
  function Reader(fields: seq<string>, needed: seq<string>): Row -> Row {
    row => if fields == [] then row else Restrict(row, Selected(fields, needed))
  }

  function Restrict(row: Row, cols: seq<string>): Row {
    map c | c in row && c in cols :: row[c]
  }

  /** `read` is `row` with the wanted columns only. */
  ghost predicate Shows(read: Row, row: Row, wanted: string -> bool) {
    && (forall c :: c in read <==> c in row && wanted(c))
    && (forall c :: c in read ==> read[c] == row[c])
  }

  /** The columns that a selection reads from a table with an ID column. */
  function Wanted(fields: seq<string>, needed: seq<string>): string -> bool {
    c => fields == [] || c == ID || c in fields || c in needed
  }

  /** Reading a row keeps every wanted column with its value, and nothing else. */
  lemma ReaderShows(fields: seq<string>, needed: seq<string>, row: Row)
    ensures Shows(Reader(fields, needed)(row), row, Wanted(fields, needed))
  {
    SelectionKeepsKeys(fields, needed);
  }

  lemma ReaderKeeps(fields: seq<string>, needed: seq<string>, row: Row, c: string)
    requires c == ID || c in fields || c in needed
    ensures KeyAt(Reader(fields, needed)(row), c) == KeyAt(row, c)
  {
    SelectionKeepsKeys(fields, needed);
  }

  // ----- the batched queries

  datatype Tables = Tables(
    accounts: seq<Row>,
    proxies: seq<Row>,
    joined: seq<JoinRow<Row>>,
    usageLogs: seq<Row>,
    accountGroups: seq<Row>)

  /** The requested edges; each carries the column selection of its own query. */
  datatype With = With(
    groups: Option<seq<string>>,
    proxy: Option<seq<string>>,
    parent: Option<seq<string>>,
    children: Option<seq<string>>,
    usageLogs: Option<seq<string>>,
    accountGroups: Option<seq<string>>)

  function HasIdIn(ids: seq<int>): Row -> bool {
    row => IdOf(row) in ids
  }

  function RefersInto(col: string, ids: seq<int>): Row -> bool {
    row => KnownKey(ids, KeyAt(row, col))
  }

  function RefersTo(col: string, id: int): Row -> bool {
    row => KeyAt(row, col) == Some(id)
  }

  function ById(table: seq<Row>, read: Row -> Row): seq<int> -> seq<Row> {
    ids => MapSeq(Filter(table, HasIdIn(ids)), read)
  }

  function ByForeignKey(table: seq<Row>, col: string, read: Row -> Row): seq<int> -> seq<Row> {
    ids => MapSeq(Filter(table, RefersInto(col, ids)), read)
  }

  function ReadJoined(read: Row -> Row): JoinRow<Row> -> JoinRow<Row> {
    (j: JoinRow<Row>) => JoinRow(j.account, read(j.group))
  }

  function JoinedInto(ids: seq<int>): JoinRow<Row> -> bool {
    (j: JoinRow<Row>) => j.account in ids
  }

  function ByJoin(joined: seq<JoinRow<Row>>, read: Row -> Row): seq<int> -> seq<JoinRow<Row>> {
    ids => MapSeq(Filter(joined, JoinedInto(ids)), ReadJoined(read))
  }

  /** The selection of a one-to-many query: its foreign key is appended to a nonempty selection. */
  function WithKey(fields: seq<string>, col: string): seq<string> {
    if fields == [] then [] else AppendOnce(fields, col)
  }

  /** The account-group table has no ID column, so only the selected columns are read. */
  function PlainReader(fields: seq<string>): Row -> Row {
    row => if fields == [] then row else Restrict(row, fields)
  }

  /** The reader of a one-to-many query, whose foreign key is always selected. */
  function KeyedReader(fields: seq<string>, col: string, hasId: bool): Row -> Row {
    if hasId then Reader(WithKey(fields, col), []) else PlainReader(WithKey(fields, col))
  }

  /** The columns that a one-to-many query reads: its foreign key joins every selection. */
  function KeyedWanted(fields: seq<string>, col: string, hasId: bool): string -> bool {
    c => fields == [] || c == col || c in fields || (hasId && c == ID)
  }

  lemma KeyedReaderShows(fields: seq<string>, col: string, hasId: bool, row: Row)
    ensures Shows(KeyedReader(fields, col, hasId)(row), row, KeyedWanted(fields, col, hasId))
  {
    SelectionKeepsKeys(WithKey(fields, col), []);
  }

  function NullableKey(col: string): Row -> Option<int> {
    row => KeyAt(row, col)
  }

  function RequiredKey(col: string): Row -> Option<int> {
    row => Some(IntAt(row, col))
  }

  /** The join reads the group's ID from the first selected column. */
  function FirstColumn(fields: seq<string>): Row -> int {
    row => IntAt(row, if fields == [] then ID else Selected(fields, [])[0])
  }

  // ----- what every node must be loaded with

  datatype Edges = Edges(
    groups: seq<Row>,
    proxy: Option<Row>,
    parent: Option<Row>,
    children: seq<Row>,
    usageLogs: seq<Row>,
    accountGroups: seq<Row>,
    loaded: With)

  datatype Node = Node(row: Row, edges: Edges)

  function ReadOne(table: seq<Row>, fields: Option<seq<string>>, fk: Option<int>): Option<Row> {
    if fields.None? || fk.None? then None
    else
      match LastWith(table, IdOf, fk.value)
      case None => None
      case Some(row) => Some(Reader(fields.value, [])(row))
  }

  function ReadMany(table: seq<Row>, col: string, read: Row -> Row, ids: seq<int>, k: nat): seq<Row>
    requires k < |ids|
  {
    if IsLast(ids, k) then MapSeq(Filter(table, RefersTo(col, ids[k])), read) else []
  }

  /** The groups joined to node k, read from the whole rows of the groups. */
  ghost function GroupsEdge(joined: seq<JoinRow<Row>>, fields: Option<seq<string>>, ids: seq<int>, k: nat): seq<Row>
    requires k < |ids|
  {
    if fields.None? || !IsLast(ids, k) then []
    else MapSeq(JoinedGroups(Filter(joined, JoinedInto(ids)), IdOf, ids[k]), Reader(fields.value, []))
  }

  function ManyEdge(table: seq<Row>, col: string, hasId: bool, fields: Option<seq<string>>, ids: seq<int>,
                    k: nat): seq<Row>
    requires k < |ids|
  {
    if fields.None? then [] else ReadMany(table, col, KeyedReader(fields.value, col, hasId), ids, k)
  }

  /** The edges of node k, from the whole rows: the selection of the account query plays no part. */
  ghost function EdgesSpec(w: With, db: Tables, rows: seq<Row>, k: nat): Edges
    requires k < |rows|
  {
    var ids := MapSeq(rows, IdOf);
    Edges(
      GroupsEdge(db.joined, w.groups, ids, k),
      ReadOne(db.proxies, w.proxy, KeyAt(rows[k], PROXY)),
      ReadOne(db.accounts, w.parent, KeyAt(rows[k], PARENT)),
      ManyEdge(db.accounts, PARENT, true, w.children, ids, k),
      ManyEdge(db.usageLogs, ACCOUNT, true, w.usageLogs, ids, k),
      ManyEdge(db.accountGroups, ACCOUNT, false, w.accountGroups, ids, k),
      w)
  }

  // ----- the batched queries answer what the specification asks

  lemma {:induction false} OneThroughQuery(table: seq<Row>, fields: seq<string>, ids: seq<int>, id: int)
    requires id in ids
    ensures LastWith(ById(table, Reader(fields, []))(ids), IdOf, id) == ReadOne(table, Some(fields), Some(id))
  {
    if table != [] {
      var init, row := table[..|table| - 1], table[|table| - 1];
      var read := Reader(fields, []);
      OneThroughQuery(init, fields, ids, id);
      ReaderKeeps(fields, [], row, ID);
      var all, before := Filter(table, HasIdIn(ids)), Filter(init, HasIdIn(ids));
      if IdOf(row) in ids {
        assert MapSeq(all, read)[..|all| - 1] == MapSeq(before, read);
      } else {
        assert all == before;
      }
    }
  }

  lemma ByIdAnswersRequests(table: seq<Row>, fields: seq<string>, ids: seq<int>)
    ensures forall n :: n in ById(table, Reader(fields, []))(ids) ==> IdOf(n) in ids
  {
    var kept := Filter(table, HasIdIn(ids));
    forall i | 0 <= i < |kept|
      ensures IdOf(Reader(fields, [])(kept[i])) in ids
    {
      assert kept[i] in kept;
      FilterHas(table, HasIdIn(ids), kept[i]);
      ReaderKeeps(fields, [], kept[i], ID);
    }
  }

  lemma ManyThroughQuery(table: seq<Row>, col: string, read: Row -> Row, fkOf: Row -> Option<int>, ids: seq<int>,
                         id: int)
    requires id in ids
    requires forall row, i :: KeyAt(row, col) == Some(i) ==> fkOf(read(row)) == Some(i)
    ensures Filter(ByForeignKey(table, col, read)(ids), KeyIs(fkOf, id)) ==
      MapSeq(Filter(table, RefersTo(col, id)), read)
  {
    var kept := Filter(table, RefersInto(col, ids));
    forall x | x in kept
      ensures (fkOf(read(x)) == Some(id)) == RefersTo(col, id)(x)
    {
      FilterHas(table, RefersInto(col, ids), x);
    }
    FilterOfMap(kept, read, KeyIs(fkOf, id), RefersTo(col, id));
    FilterTwice(table, RefersInto(col, ids), RefersTo(col, id));
  }

  lemma ByForeignKeyAnswersRequests(table: seq<Row>, col: string, read: Row -> Row, fkOf: Row -> Option<int>,
                                    ids: seq<int>)
    requires forall row, i :: KeyAt(row, col) == Some(i) ==> fkOf(read(row)) == Some(i)
    ensures forall n :: n in ByForeignKey(table, col, read)(ids) ==> KnownKey(ids, fkOf(n))
  {
    var kept := Filter(table, RefersInto(col, ids));
    forall i | 0 <= i < |kept|
      ensures KnownKey(ids, fkOf(read(kept[i])))
    {
      assert kept[i] in kept;
      FilterHas(table, RefersInto(col, ids), kept[i]);
    }
  }

  /** The first selected column of a group is its ID. */
  lemma FirstColumnIsId(fields: seq<string>, row: Row)
    ensures FirstColumn(fields)(Reader(fields, [])(row)) == IdOf(row)
  {
    SelectionKeepsKeys(fields, []);
    ReaderKeeps(fields, [], row, ID);
  }

  /** Reading the groups of joined rows changes neither which groups are joined nor to whom. */
  lemma JoinsThroughReader(rows: seq<JoinRow<Row>>, fields: seq<string>, account: int, id: int)
    ensures
      var read := MapSeq(rows, ReadJoined(Reader(fields, [])));
      && (HasGroup(read, FirstColumn(fields), id) <==> HasGroup(rows, IdOf, id))
      && (Joins(read, FirstColumn(fields), account, id) <==> Joins(rows, IdOf, account, id))
  {
    var f := ReadJoined(Reader(fields, []));
    forall j | j in rows
      ensures f(j) in MapSeq(rows, f) && FirstColumn(fields)(f(j).group) == IdOf(j.group)
    {
      InMapSeq(rows, f, f(j));
      FirstColumnIsId(fields, j.group);
    }
    forall r | r in MapSeq(rows, f)
      ensures exists j :: j in rows && f(j) == r
    {
      InMapSeq(rows, f, r);
    }
  }

  lemma {:induction false} FirstsThroughReader(rows: seq<JoinRow<Row>>, fields: seq<string>)
    ensures Firsts(MapSeq(rows, ReadJoined(Reader(fields, []))), FirstColumn(fields)) ==
      MapSeq(Firsts(rows, IdOf), Reader(fields, []))
  {
    if rows != [] {
      var init, row, f := rows[..|rows| - 1], rows[|rows| - 1], ReadJoined(Reader(fields, []));
      assert MapSeq(rows, f)[..|rows| - 1] == MapSeq(init, f);
      FirstsThroughReader(init, fields);
      FirstColumnIsId(fields, row.group);
      JoinsThroughReader(init, fields, row.account, IdOf(row.group));
    }
  }

  /** The selection of the group query plays no part in which groups a node is loaded with. */
  lemma GroupsThroughQuery(joined: seq<JoinRow<Row>>, fields: seq<string>, ids: seq<int>, k: nat)
    requires k < |ids|
    ensures GroupsSpec(ids, k, ByJoin(joined, Reader(fields, []))(ids), FirstColumn(fields)) ==
      GroupsEdge(joined, Some(fields), ids, k)
  {
    var rows, read := Filter(joined, JoinedInto(ids)), Reader(fields, []);
    var answer := ByJoin(joined, read)(ids);
    FirstsThroughReader(rows, fields);
    forall g | g in Firsts(rows, IdOf)
      ensures JoinedTo(answer, FirstColumn(fields), ids[k])(read(g)) == JoinedTo(rows, IdOf, ids[k])(g)
    {
      FirstColumnIsId(fields, g);
      JoinsThroughReader(rows, fields, ids[k], IdOf(g));
    }
    FilterOfMap(Firsts(rows, IdOf), read, JoinedTo(answer, FirstColumn(fields), ids[k]), JoinedTo(rows, IdOf, ids[k]));
  }

  // ----- the loaders, one edge at a time

  /** loadProxy, loadParent: with rows that a batched query returned, the load cannot fail. */
  method LoadOne(fks: seq<Option<int>>, table: seq<Row>, fields: seq<string>) returns (edges: seq<Option<Row>>)
    ensures |edges| == |fks|
    ensures forall k :: 0 <= k < |fks| ==> edges[k] == ReadOne(table, Some(fields), fks[k])
  {
    var query := ById(table, Reader(fields, []));
    var r := LoadToOne(fks, query, IdOf);
    ByIdAnswersRequests(table, fields, Requested(fks));
    forall k | 0 <= k < |fks|
      ensures OneSpec(fks[k], Answer(fks, query), IdOf) == ReadOne(table, Some(fields), fks[k])
    {
      RequestedAt(fks, k);
      if fks[k].Some? {
        OneThroughQuery(table, fields, Requested(fks), fks[k].value);
      }
    }
    edges := r.value;
  }

  /** loadChildren, loadUsageLogs, loadAccountGroups: likewise. */
  method LoadMany(ids: seq<int>, table: seq<Row>, col: string, read: Row -> Row, fkOf: Row -> Option<int>)
    returns (edges: seq<seq<Row>>)
    requires forall row, i :: KeyAt(row, col) == Some(i) ==> fkOf(read(row)) == Some(i)
    ensures |edges| == |ids|
    ensures forall k :: 0 <= k < |ids| ==> edges[k] == ReadMany(table, col, read, ids, k)
  {
    var r := LoadToMany(ids, ByForeignKey(table, col, read), fkOf);
    ByForeignKeyAnswersRequests(table, col, read, fkOf, ids);
    forall k | 0 <= k < |ids|
      ensures ManySpec(ids, k, ByForeignKey(table, col, read)(ids), fkOf) == ReadMany(table, col, read, ids, k)
    {
      assert ids[k] in ids;
      ManyThroughQuery(table, col, read, fkOf, ids, ids[k]);
    }
    edges := r.value;
  }

  lemma JoinAnswersRequests(joined: seq<JoinRow<Row>>, read: Row -> Row, ids: seq<int>)
    ensures forall j :: j in ByJoin(joined, read)(ids) ==> j.account in ids
  {
    var kept := Filter(joined, JoinedInto(ids));
    forall i | 0 <= i < |kept|
      ensures kept[i].account in ids
    {
      assert kept[i] in kept;
      FilterHas(joined, JoinedInto(ids), kept[i]);
    }
  }

  lemma KeyedReaderKeeps(fields: seq<string>, col: string, hasId: bool, row: Row)
    ensures KeyAt(KeyedReader(fields, col, hasId)(row), col) == KeyAt(row, col)
  {
    SelectionKeepsKeys(WithKey(fields, col), []);
  }

  method LoadGroupsEdge(ids: seq<int>, joined: seq<JoinRow<Row>>, fields: Option<seq<string>>)
    returns (edges: seq<seq<Row>>)
    ensures |edges| == |ids|
    ensures forall k :: 0 <= k < |ids| ==> edges[k] == GroupsEdge(joined, fields, ids, k)
  {
    edges := seq(|ids|, k => []);
    if fields.Some? {
      JoinAnswersRequests(joined, Reader(fields.value, []), ids);
      edges := LoadGroups(ids, ByJoin(joined, Reader(fields.value, [])), FirstColumn(fields.value));
      forall k | 0 <= k < |ids|
        ensures edges[k] == GroupsEdge(joined, fields, ids, k)
      {
        GroupsThroughQuery(joined, fields.value, ids, k);
      }
    }
  }

  method LoadOneEdge(read: seq<Row>, col: string, table: seq<Row>, fields: Option<seq<string>>)
    returns (edges: seq<Option<Row>>)
    ensures |edges| == |read|
    ensures forall k :: 0 <= k < |read| ==> edges[k] == ReadOne(table, fields, KeyAt(read[k], col))
  {
    edges := seq(|read|, k => None);
    if fields.Some? {
      edges := LoadOne(seq(|read|, k requires 0 <= k < |read| => KeyAt(read[k], col)), table, fields.value);
    }
  }

  method LoadManyEdge(ids: seq<int>, table: seq<Row>, col: string, hasId: bool, nullable: bool,
                      fields: Option<seq<string>>)
    returns (edges: seq<seq<Row>>)
    ensures |edges| == |ids|
    ensures forall k :: 0 <= k < |ids| ==> edges[k] == ManyEdge(table, col, hasId, fields, ids, k)
  {
    edges := seq(|ids|, k => []);
    if fields.Some? {
      var fkOf := if nullable then NullableKey(col) else RequiredKey(col);
      var read := KeyedReader(fields.value, col, hasId);
      forall row, i | KeyAt(row, col) == Some(i)
        ensures fkOf(read(row)) == Some(i)
      {
        KeyedReaderKeeps(fields.value, col, hasId, row);
      }
      edges := LoadMany(ids, table, col, read, fkOf);
    }
  }

  /**
    The whole query over the rows that its own SELECT returned.  Whatever the selection `fields`, no
    loader fails and every node has the edges that the unselected rows call for.
  */
  method SqlAll(fields: seq<string>, w: With, db: Tables, rows: seq<Row>) returns (nodes: seq<Node>)
    ensures |nodes| == |rows|
    ensures forall k :: 0 <= k < |rows| ==>
      && nodes[k].row == Reader(fields, Needed(w.proxy.Some?, w.parent.Some?))(rows[k])
      && Shows(nodes[k].row, rows[k], Wanted(fields, Needed(w.proxy.Some?, w.parent.Some?)))
      && nodes[k].edges == EdgesSpec(w, db, rows, k)
  {
    var n := |rows|;
    if n == 0 {
      return [];
    }
    var ids, read := ReadNodes(fields, w, rows);
    var groups := LoadGroupsEdge(ids, db.joined, w.groups);
    var proxies := LoadOneEdge(read, PROXY, db.proxies, w.proxy);
    var parents := LoadOneEdge(read, PARENT, db.accounts, w.parent);
    var children := LoadManyEdge(ids, db.accounts, PARENT, true, true, w.children);
    var usageLogs := LoadManyEdge(ids, db.usageLogs, ACCOUNT, true, false, w.usageLogs);
    var accountGroups := LoadManyEdge(ids, db.accountGroups, ACCOUNT, false, false, w.accountGroups);
    forall k | 0 <= k < n
      ensures Shows(read[k], rows[k], Wanted(fields, Needed(w.proxy.Some?, w.parent.Some?)))
    {
      ReaderShows(fields, Needed(w.proxy.Some?, w.parent.Some?), rows[k]);
    }
    nodes := seq(n, k requires 0 <= k < n =>
      Node(read[k], Edges(groups[k], proxies[k], parents[k], children[k], usageLogs[k], accountGroups[k], w)));
  }

  /** Builds the nodes; their IDs and needed foreign keys survive every selection. */
  method ReadNodes(fields: seq<string>, w: With, rows: seq<Row>) returns (ids: seq<int>, read: seq<Row>)
    ensures |read| == |rows| && ids == MapSeq(rows, IdOf)
    ensures forall k :: 0 <= k < |rows| ==>
      && read[k] == Reader(fields, Needed(w.proxy.Some?, w.parent.Some?))(rows[k])
      && (w.proxy.Some? ==> KeyAt(read[k], PROXY) == KeyAt(rows[k], PROXY))
      && (w.parent.Some? ==> KeyAt(read[k], PARENT) == KeyAt(rows[k], PARENT))
  {
    var cols := QuerySpec(fields, w.proxy.Some?, w.parent.Some?);
    var needed := Needed(w.proxy.Some?, w.parent.Some?);
    read := seq(|rows|, k requires 0 <= k < |rows| => if cols.None? then rows[k] else Restrict(rows[k], cols.value));
    ids := seq(|read|, k requires 0 <= k < |read| => IdOf(read[k]));
    forall k | 0 <= k < |rows|
      ensures ids[k] == IdOf(rows[k])
      ensures w.proxy.Some? ==> KeyAt(read[k], PROXY) == KeyAt(rows[k], PROXY)
      ensures w.parent.Some? ==> KeyAt(read[k], PARENT) == KeyAt(rows[k], PARENT)
    {
      assert read[k] == Reader(fields, needed)(rows[k]);
      ReaderKeeps(fields, needed, rows[k], ID);
      if w.proxy.Some? { ReaderKeeps(fields, needed, rows[k], PROXY); }
      if w.parent.Some? { ReaderKeeps(fields, needed, rows[k], PARENT); }
    }
  }

  // ----- what a caller finds

  datatype Found<+T> = Loaded(value: T) | NotFound | NotLoaded

  /** The accessor of a to-one edge. */
  function OneOrErr(edge: Option<Row>, requested: bool): Found<Row> {
    if edge.Some? then Loaded(edge.value) else if requested then NotFound else NotLoaded
  }

  function ProxyOrErr(e: Edges): Found<Row> {
    OneOrErr(e.proxy, e.loaded.proxy.Some?)
  }

  function ParentOrErr(e: Edges): Found<Row> {
    OneOrErr(e.parent, e.loaded.parent.Some?)
  }

  lemma {:induction false} LastWithFinds(table: seq<Row>, id: int)
    ensures match LastWith(table, IdOf, id)
      case None => forall row :: row in table ==> IdOf(row) != id
      case Some(row) => row in table && IdOf(row) == id
  {
    if table != [] {
      LastWithFinds(table[..|table| - 1], id);
      assert table == table[..|table| - 1] + [table[|table| - 1]];
    }
  }

  /**
    What an accessor reports for a foreign key into `table`: "not loaded" exactly without a request,
    "not found" exactly when no row has that ID, and otherwise a row that has it.
  */
  ghost predicate Decided(found: Found<Row>, table: seq<Row>, fields: Option<seq<string>>, fk: Option<int>) {
    && (found.NotLoaded? <==> fields.None?)
    && (found.NotFound? <==> fields.Some? && (fk.None? || forall a :: a in table ==> IdOf(a) != fk.value))
    && (found.Loaded? ==>
         exists a :: a in table && fk == Some(IdOf(a)) && Shows(found.value, a, Wanted(fields.value, [])))
  }

  lemma OneIsDecided(table: seq<Row>, fields: Option<seq<string>>, fk: Option<int>)
    ensures Decided(OneOrErr(ReadOne(table, fields, fk), fields.Some?), table, fields, fk)
  {
    if fields.Some? && fk.Some? {
      LastWithFinds(table, fk.value);
      var found := LastWith(table, IdOf, fk.value);
      if found.Some? {
        ReaderShows(fields.value, [], found.value);
      }
    }
  }

  /** The accessor of a to-many edge. */
  function ManyOrErr(edge: seq<Row>, requested: bool): Found<seq<Row>> {
    if requested then Loaded(edge) else NotLoaded
  }

  function GroupsOrErr(e: Edges): Found<seq<Row>> {
    ManyOrErr(e.groups, e.loaded.groups.Some?)
  }

  function ChildrenOrErr(e: Edges): Found<seq<Row>> {
    ManyOrErr(e.children, e.loaded.children.Some?)
  }

  function UsageLogsOrErr(e: Edges): Found<seq<Row>> {
    ManyOrErr(e.usageLogs, e.loaded.usageLogs.Some?)
  }

  function AccountGroupsOrErr(e: Edges): Found<seq<Row>> {
    ManyOrErr(e.accountGroups, e.loaded.accountGroups.Some?)
  }

  /**
    What an accessor reports for the rows of `table` that refer to `id` through `col`: "not loaded"
    exactly without a request, and otherwise all of them, in table order, each with its wanted columns.
  */
  ghost predicate Listed(found: Found<seq<Row>>, table: seq<Row>, col: string, hasId: bool,
                         fields: Option<seq<string>>, id: int) {
    && (found.NotLoaded? <==> fields.None?) && !found.NotFound?
    && (found.Loaded? ==>
         exists picks ::
           && IsPicks(table, RefersTo(col, id), picks) && |found.value| == |picks|
           && forall i :: 0 <= i < |picks| ==>
                Shows(found.value[i], table[picks[i]], KeyedWanted(fields.value, col, hasId)))
  }

  lemma ManyIsListed(table: seq<Row>, col: string, hasId: bool, fields: Option<seq<string>>, ids: seq<int>, k: nat)
    requires k < |ids| && IsLast(ids, k)
    ensures
      var edge := ManyEdge(table, col, hasId, fields, ids, k);
      Listed(ManyOrErr(edge, fields.Some?), table, col, hasId, fields, ids[k])
  {
    if fields.Some? {
      var edge := ManyEdge(table, col, hasId, fields, ids, k);
      var picks := FilterPicks(table, RefersTo(col, ids[k]));
      forall i | 0 <= i < |picks|
        ensures Shows(edge[i], table[picks[i]], KeyedWanted(fields.value, col, hasId))
      {
        KeyedReaderShows(fields.value, col, hasId, table[picks[i]]);
      }
      assert IsPicks(table, RefersTo(col, ids[k]), picks) && |edge| == |picks|;
    }
  }

  /**
    The last node of an ID, in particular every node when the IDs are distinct, finds all rows that
    refer to it; an earlier node with the same ID finds none.
  */
  lemma EveryNodeIsListed(w: With, db: Tables, rows: seq<Row>, k: nat)
    requires k < |rows|
    ensures
      var e, id := EdgesSpec(w, db, rows, k), IdOf(rows[k]);
      if IsLast(MapSeq(rows, IdOf), k) then
        && Listed(ChildrenOrErr(e), db.accounts, "parent_account_id", true, w.children, id)
        && Listed(UsageLogsOrErr(e), db.usageLogs, "account_id", true, w.usageLogs, id)
        && Listed(AccountGroupsOrErr(e), db.accountGroups, "account_id", false, w.accountGroups, id)
      else e.children == [] && e.usageLogs == [] && e.accountGroups == [] && e.groups == []
  {
    var ids := MapSeq(rows, IdOf);
    if IsLast(ids, k) {
      ManyIsListed(db.accounts, PARENT, true, w.children, ids, k);
      ManyIsListed(db.usageLogs, ACCOUNT, true, w.usageLogs, ids, k);
      ManyIsListed(db.accountGroups, ACCOUNT, false, w.accountGroups, ids, k);
    }
  }

  /** The groups of a node are its joined groups, each with its wanted columns. */
  lemma EveryNodeHasItsGroups(w: With, db: Tables, rows: seq<Row>, k: nat)
    requires k < |rows| && IsLast(MapSeq(rows, IdOf), k)
    ensures
      var ids, found := MapSeq(rows, IdOf), GroupsOrErr(EdgesSpec(w, db, rows, k));
      var groups := JoinedGroups(Filter(db.joined, JoinedInto(ids)), IdOf, ids[k]);
      && (found.NotLoaded? <==> w.groups.None?) && !found.NotFound?
      && (found.Loaded? ==> |found.value| == |groups|)
      && (found.Loaded? ==> forall i :: 0 <= i < |groups| ==>
           Shows(found.value[i], groups[i], Wanted(w.groups.value, [])))
  {
    if w.groups.Some? {
      var ids := MapSeq(rows, IdOf);
      var groups := JoinedGroups(Filter(db.joined, JoinedInto(ids)), IdOf, ids[k]);
      forall i | 0 <= i < |groups|
        ensures Shows(Reader(w.groups.value, [])(groups[i]), groups[i], Wanted(w.groups.value, []))
      {
        ReaderShows(w.groups.value, [], groups[i]);
      }
    }
  }

  /** Every node finds out about its parent and its proxy, also nodes that share one or occur twice. */
  lemma EveryNodeIsDecided(w: With, db: Tables, rows: seq<Row>, k: nat)
    requires k < |rows|
    ensures Decided(ParentOrErr(EdgesSpec(w, db, rows, k)), db.accounts, w.parent, KeyAt(rows[k], PARENT))
    ensures Decided(ProxyOrErr(EdgesSpec(w, db, rows, k)), db.proxies, w.proxy, KeyAt(rows[k], PROXY))
  {
    OneIsDecided(db.accounts, w.parent, KeyAt(rows[k], PARENT));
    OneIsDecided(db.proxies, w.proxy, KeyAt(rows[k], PROXY));
  }

  ghost predicate PrimaryKey(table: seq<Row>) {
    forall a, b :: a in table && b in table && IdOf(a) == IdOf(b) ==> a == b
  }

  /** The IDs of the rows that the children query reads for account `id`. */
  lemma ChildIds(accounts: seq<Row>, fields: seq<string>, id: int, child: int)
    ensures
      (exists x :: x in MapSeq(Filter(accounts, RefersTo(PARENT, id)), KeyedReader(fields, PARENT, true))
        && IdOf(x) == child)
      <==> (exists a :: a in accounts && KeyAt(a, PARENT) == Some(id) && IdOf(a) == child)
  {
    var mine, read := Filter(accounts, RefersTo(PARENT, id)), KeyedReader(fields, PARENT, true);
    FilterMembers(accounts, RefersTo(PARENT, id));
    forall a | a in mine
      ensures read(a) in MapSeq(mine, read) && IdOf(read(a)) == IdOf(a)
    {
      InMapSeq(mine, read, read(a));
      ReaderKeeps(WithKey(fields, PARENT), [], a, ID);
    }
    forall x | x in MapSeq(mine, read)
      ensures exists a :: a in mine && read(a) == x
    {
      InMapSeq(mine, read, x);
    }
  }

  /** The ID of the row that the parent query reads for a foreign key. */
  lemma ParentId(accounts: seq<Row>, fields: seq<string>, fk: Option<int>, id: int)
    requires exists a :: a in accounts && IdOf(a) == id
    ensures (exists p :: ReadOne(accounts, Some(fields), fk) == Some(p) && IdOf(p) == id) <==> fk == Some(id)
  {
    if fk.Some? {
      LastWithFinds(accounts, fk.value);
      var found := LastWith(accounts, IdOf, fk.value);
      if found.Some? {
        ReaderKeeps(fields, [], found.value, ID);
        assert ReadOne(accounts, Some(fields), fk) == Some(Reader(fields, [])(found.value));
      }
    }
  }

  /**
    Parent and children loading are dual: over one account table, whatever the two queries select, the
    account c is among the loaded children of p exactly when p is the loaded parent of c.
  */
  lemma ParentChildDuality(wp: With, wc: With, db: Tables, ps: seq<Row>, i: nat, cs: seq<Row>, j: nat)
    requires wp.children.Some? && wc.parent.Some? && PrimaryKey(db.accounts)
    requires i < |ps| && ps[i] in db.accounts && IsLast(MapSeq(ps, IdOf), i)
    requires j < |cs| && cs[j] in db.accounts
    ensures
      (exists x :: x in EdgesSpec(wp, db, ps, i).children && IdOf(x) == IdOf(cs[j])) <==>
      (exists y :: EdgesSpec(wc, db, cs, j).parent == Some(y) && IdOf(y) == IdOf(ps[i]))
  {
    ChildIds(db.accounts, wp.children.value, IdOf(ps[i]), IdOf(cs[j]));
    ParentId(db.accounts, wc.parent.value, KeyAt(cs[j], PARENT), IdOf(ps[i]));
  }
}
