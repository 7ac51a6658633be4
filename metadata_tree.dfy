/** How the schema browser turns the rows of `information_schema.columns` into the
    schema → table → column tree. The two dictionaries of the loading loop (schema name →
    schema node, "schema.table" → table node) are kept here as maps to positions in the
    tree value. */
module MetadataTree {
  import opened Wrappers
  import opened Text
  import opened AppConfigModels
  import opened SchemaModels
  import opened FieldOverlay

  /** One row of the column query: name, data type, default, maximum length, and the
      text of `is_nullable`. */
  datatype ColumnRecord = ColumnRecord(
    columnName: string,
    dataType: string,
    columnDefault: Option<string>,
    characterMaximumLength: Option<Int32>,
    isNullable: string)

  /** One row of the catalog-wide column query: the table it belongs to and the column. */
  datatype ColumnRow = ColumnRow(tableSchema: string, tableName: string, record: ColumnRecord)

  /** The column node made for a row of table `schema.table`: named after the column,
      nullable when the catalog says "YES", its alias the column name, filled from the
      database, then overlaid with the stored override. */
  function NewColumn(index: map<string, FieldConfig>, schema: string, table: string, rec: ColumnRecord): Column {
    var c := FreshColumn.(columnName := rec.columnName, isNullable := rec.isNullable == "YES", alias := rec.columnName);
    Apply(index, schema, table, c.InitFromDb(rec.dataType, rec.columnDefault, rec.characterMaximumLength))
  }

  /** What a new column node holds: the database facts always come from the row; without
      a stored override the node is visible, its alias is its name and its local type,
      length and default are the database's (a missing default shown as ""). */
  lemma NewColumnFacts(index: map<string, FieldConfig>, schema: string, table: string, rec: ColumnRecord)
    ensures var c := NewColumn(index, schema, table, rec);
      && c.columnName == rec.columnName && c.dbType == rec.dataType
      && c.characterMaximumLength == rec.characterMaximumLength
      && (c.isNullable <==> rec.isNullable == "YES")
    ensures MakeFieldKey(schema, table, rec.columnName) !in index ==>
      var c := NewColumn(index, schema, table, rec);
      && c.isVisible && c.alias == rec.columnName && c.localType == rec.dataType
      && c.localLength == rec.characterMaximumLength && c.localDefault == rec.columnDefault.GetOr("")
  {
  }

  /** The key of the loading loop's table dictionary. */
  function TableKey(schema: string, table: string): string {
    schema + "." + table
  }

  function RowKey(r: ColumnRow): string {
    TableKey(r.tableSchema, r.tableName)
  }

  function KeyOfTable(t: Table): string {
    TableKey(t.schema, t.name)
  }

  predicate ValidPos(tree: seq<Schema>, p: (nat, nat)) {
    p.0 < |tree| && p.1 < |tree[p.0].tables|
  }

  /** The tree being built and the two dictionaries of the loop, as positions. */
  datatype TreeState = TreeState(tree: seq<Schema>, schemaAt: map<string, nat>, tableAt: map<string, (nat, nat)>)

  /** The dictionaries agree with the tree: each schema name is at exactly one position
      and each table key at exactly one position, and a table node's schema is the name
      of the schema node that holds it. */
  ghost predicate Indexed(st: TreeState) {
    SchemasIndexed(st) && TablesIndexed(st)
  }

  ghost predicate SchemasIndexed(st: TreeState) {
    && (forall n :: n in st.schemaAt ==> st.schemaAt[n] < |st.tree| && st.tree[st.schemaAt[n]].name == n)
    && (forall i :: 0 <= i < |st.tree| ==> st.tree[i].name in st.schemaAt && st.schemaAt[st.tree[i].name] == i)
  }

  ghost predicate TablesIndexed(st: TreeState) {
    TableEntriesValid(st) && TableNodesListed(st) && TableSchemasMatch(st.tree)
  }

  /** Each table key is stored at the position of a table node with that key. */
  ghost predicate TableEntriesValid(st: TreeState) {
    forall k :: k in st.tableAt ==>
      (ValidPos(st.tree, st.tableAt[k]) && KeyOfTable(st.tree[st.tableAt[k].0].tables[st.tableAt[k].1]) == k)
  }

  /** Each table node's key is stored, with the node's position. */
  ghost predicate TableNodesListed(st: TreeState) {
    forall i, j :: 0 <= i < |st.tree| && 0 <= j < |st.tree[i].tables| ==>
      KeyOfTable(st.tree[i].tables[j]) in st.tableAt && st.tableAt[KeyOfTable(st.tree[i].tables[j])] == (i, j)
  }

  ghost predicate TableSchemasMatch(tree: seq<Schema>) {
    forall i, j :: 0 <= i < |tree| && 0 <= j < |tree[i].tables| ==> tree[i].tables[j].schema == tree[i].name
  }

  ghost predicate Distinct(names: seq<string>) {
    forall a, b :: 0 <= a < b < |names| ==> names[a] != names[b]
  }

  /** The state after the schema query: one empty schema node per name, in query order,
      indexed by name (the schema dictionary is built from the node list), no tables. */
  function Initial(names: seq<string>): TreeState
    requires Distinct(names)
  {
    var tree := seq(|names|, i requires 0 <= i < |names| => Schema(names[i], []));
    TreeState(tree, NameIndex(names), map[])
  }

  /** The schema dictionary: the names entered in order, each under its position. */
  function NameIndex(names: seq<string>): map<string, nat>
    decreases |names|
  {
    if names == [] then map[] else NameIndex(names[..|names| - 1])[names[|names| - 1] := |names| - 1]
  }

  /** With distinct names, the dictionary holds exactly the names, each at its position. */
  lemma {:induction false} NameIndexFacts(names: seq<string>)
    requires Distinct(names)
    ensures forall n :: n in NameIndex(names) ==> NameIndex(names)[n] < |names| && names[NameIndex(names)[n]] == n
    ensures forall i :: 0 <= i < |names| ==> names[i] in NameIndex(names) && NameIndex(names)[names[i]] == i
    decreases |names|
  {
    if names != [] {
      var init := names[..|names| - 1];
      assert forall i :: 0 <= i < |init| ==> init[i] == names[i];
      NameIndexFacts(init);
    }
  }

  lemma InitialIndexed(names: seq<string>)
    requires Distinct(names)
    ensures Indexed(Initial(names))
  {
    NameIndexFacts(names);
  }

  function WithSchema(st: TreeState, s: string): TreeState {
    TreeState(st.tree + [Schema(s, [])], st.schemaAt[s := |st.tree|], st.tableAt)
  }

  lemma IndexedWithSchema(st: TreeState, s: string)
    requires Indexed(st) && s !in st.schemaAt
    ensures Indexed(WithSchema(st, s))
  {
    var r := WithSchema(st, s);
    assert forall i :: 0 <= i < |st.tree| ==> r.tree[i] == st.tree[i];
    assert SchemasIndexed(r);
    assert TablesIndexed(r);
  }

  lemma IndexedWithColumns(st: TreeState, p: (nat, nat), cols: seq<Column>)
    requires Indexed(st) && ValidPos(st.tree, p)
    ensures Indexed(st.(tree := WithColumns(st.tree, p.0, p.1, cols)))
  {
    var r := st.(tree := WithColumns(st.tree, p.0, p.1, cols));
    assert forall i, j :: 0 <= i < |r.tree| && 0 <= j < |r.tree[i].tables| ==>
      KeyOfTable(r.tree[i].tables[j]) == KeyOfTable(st.tree[i].tables[j]) && r.tree[i].tables[j].schema == st.tree[i].tables[j].schema;
    assert forall i :: 0 <= i < |r.tree| ==> r.tree[i].name == st.tree[i].name;
    assert SchemasIndexed(r);
    assert TablesIndexed(r);
  }

  function WithNewTable(st: TreeState, i: nat, t: Table): TreeState
    requires i < |st.tree|
  {
    TreeState(WithTable(st.tree, i, t), st.schemaAt, st.tableAt[KeyOfTable(t) := (i, |st.tree[i].tables|)])
  }

  lemma IndexedWithNewTable(st: TreeState, i: nat, t: Table)
    requires Indexed(st) && i < |st.tree|
    requires t.schema == st.tree[i].name && KeyOfTable(t) !in st.tableAt
    ensures Indexed(WithNewTable(st, i, t))
  {
    var r := WithNewTable(st, i, t);
    assert forall k :: 0 <= k < |r.tree| ==> r.tree[k].name == st.tree[k].name;
    assert SchemasIndexed(r);
    TablesIndexedWithNewTable(st, i, t);
  }

  lemma TablesIndexedWithNewTable(st: TreeState, i: nat, t: Table)
    requires TablesIndexed(st) && i < |st.tree|
    requires t.schema == st.tree[i].name && KeyOfTable(t) !in st.tableAt
    ensures TablesIndexed(WithNewTable(st, i, t))
  {
    EntriesWithNewTable(st, i, t);
    ListedWithNewTable(st, i, t);
    var r := WithNewTable(st, i, t);
    assert forall k, j :: 0 <= k < |st.tree| && 0 <= j < |st.tree[k].tables| ==> r.tree[k].tables[j] == st.tree[k].tables[j];
  }

  lemma EntriesWithNewTable(st: TreeState, i: nat, t: Table)
    requires TableEntriesValid(st) && i < |st.tree| && KeyOfTable(t) !in st.tableAt
    ensures TableEntriesValid(WithNewTable(st, i, t))
  {
    var r := WithNewTable(st, i, t);
    forall k | k in r.tableAt
      ensures ValidPos(r.tree, r.tableAt[k]) && KeyOfTable(r.tree[r.tableAt[k].0].tables[r.tableAt[k].1]) == k
    {
      if k != KeyOfTable(t) {
        var p := st.tableAt[k];
        assert r.tableAt[k] == p;
        assert r.tree[p.0].tables[p.1] == st.tree[p.0].tables[p.1];
      }
    }
  }

  lemma ListedWithNewTable(st: TreeState, i: nat, t: Table)
    requires TableNodesListed(st) && i < |st.tree| && KeyOfTable(t) !in st.tableAt
    ensures TableNodesListed(WithNewTable(st, i, t))
  {
    var r := WithNewTable(st, i, t);
    forall k, j | 0 <= k < |r.tree| && 0 <= j < |r.tree[k].tables|
      ensures KeyOfTable(r.tree[k].tables[j]) in r.tableAt && r.tableAt[KeyOfTable(r.tree[k].tables[j])] == (k, j)
    {
      if (k, j) != (i, |st.tree[i].tables|) {
        assert r.tree[k].tables[j] == st.tree[k].tables[j];
      }
    }
  }

  /** The state once the row's schema has a node: unchanged when it has one already,
      otherwise with a new empty node for it at the end. */
  function WithSchemaNode(st: TreeState, s: string): TreeState {
    if s in st.schemaAt then st else WithSchema(st, s)
  }

  /** The state once the row's table has a node: unchanged when its key is stored,
      otherwise with a new empty table node at the end of schema node `i`. */
  function WithTableNode(st: TreeState, i: nat, s: string, t: string): (r: TreeState)
    requires i < |st.tree|
    ensures TableKey(s, t) in r.tableAt
  {
    if TableKey(s, t) in st.tableAt then st else WithNewTable(st, i, Table(s, t, []))
  }

  /** Column `col` appended to the table node stored under `key`. */
  function AppendColumn(st: TreeState, key: string, col: Column): TreeState
    requires key in st.tableAt && ValidPos(st.tree, st.tableAt[key])
  {
    var p := st.tableAt[key];
    st.(tree := WithColumns(st.tree, p.0, p.1, st.tree[p.0].tables[p.1].columns + [col]))
  }

  /** One turn of the loading loop: find the row's schema node or append a new one, find
      the table node by "schema.table" or add an empty one to the row's schema node, then
      append the column node. The override is looked up with the row's own names. In an
      indexed state every stored position is in range (AddRowSteps), so the two range
      guards below always hold. */
  function AddRow(st: TreeState, index: map<string, FieldConfig>, row: ColumnRow): TreeState {
    var s := row.tableSchema;
    var key := RowKey(row);
    var st1 := WithSchemaNode(st, s);
    var i := st1.schemaAt[s];
    if i < |st1.tree| then
      var st2 := WithTableNode(st1, i, s, row.tableName);
      if ValidPos(st2.tree, st2.tableAt[key]) then AppendColumn(st2, key, NewColumn(index, s, row.tableName, row.record)) else st2
    else st1
  }

  /** After the schema step the row's schema has a node in range, and the state is still
      indexed. */
  lemma WithSchemaNodeFacts(st: TreeState, s: string)
    requires Indexed(st)
    ensures var st1 := WithSchemaNode(st, s);
      && Indexed(st1) && s in st1.schemaAt && st1.schemaAt[s] < |st1.tree|
      && st1.tree[st1.schemaAt[s]].name == s
  {
    if s !in st.schemaAt {
      IndexedWithSchema(st, s);
    }
  }

  /** After the table step the row's table key is stored at a position in range, and the
      state is still indexed. */
  lemma WithTableNodeFacts(st: TreeState, i: nat, s: string, t: string)
    requires Indexed(st) && i < |st.tree| && st.tree[i].name == s
    ensures var st2 := WithTableNode(st, i, s, t);
      Indexed(st2) && ValidPos(st2.tree, st2.tableAt[TableKey(s, t)])
  {
    if TableKey(s, t) !in st.tableAt {
      IndexedWithNewTable(st, i, Table(s, t, []));
    }
  }

  /** One turn of the loop, step by step, in an indexed state: the guards hold and the
      turn is the column appended to the table node of the row. */
  lemma AddRowSteps(st: TreeState, index: map<string, FieldConfig>, row: ColumnRow)
    requires Indexed(st)
    ensures var s := row.tableSchema;
      var st1 := WithSchemaNode(st, s);
      && s in st1.schemaAt && st1.schemaAt[s] < |st1.tree|
      && var st2 := WithTableNode(st1, st1.schemaAt[s], s, row.tableName);
      && ValidPos(st2.tree, st2.tableAt[RowKey(row)])
      && AddRow(st, index, row) == AppendColumn(st2, RowKey(row), NewColumn(index, s, row.tableName, row.record))
  {
    var s := row.tableSchema;
    WithSchemaNodeFacts(st, s);
    var st1 := WithSchemaNode(st, s);
    WithTableNodeFacts(st1, st1.schemaAt[s], s, row.tableName);
  }

  /** One turn of the loop keeps the dictionaries in agreement with the tree. */
  lemma AddRowIndexed(st: TreeState, index: map<string, FieldConfig>, row: ColumnRow)
    requires Indexed(st)
    ensures Indexed(AddRow(st, index, row))
  {
    var s := row.tableSchema;
    WithSchemaNodeFacts(st, s);
    var st1 := WithSchemaNode(st, s);
    WithTableNodeFacts(st1, st1.schemaAt[s], s, row.tableName);
    var st2 := WithTableNode(st1, st1.schemaAt[s], s, row.tableName);
    var p := st2.tableAt[RowKey(row)];
    AddRowSteps(st, index, row);
    IndexedWithColumns(st2, p, st2.tree[p.0].tables[p.1].columns + [NewColumn(index, s, row.tableName, row.record)]);
  }

  /** Adding an empty table node and then a column to it is adding the table node with
      that column. */
  lemma AppendToNewTable(st: TreeState, i: nat, s: string, t: string, col: Column)
    requires i < |st.tree| && TableKey(s, t) !in st.tableAt
    ensures var st2 := WithNewTable(st, i, Table(s, t, []));
      && ValidPos(st2.tree, st2.tableAt[TableKey(s, t)])
      && AppendColumn(st2, TableKey(s, t), col) == WithNewTable(st, i, Table(s, t, [col]))
  {
    var st2 := WithNewTable(st, i, Table(s, t, []));
    assert st2.tableAt[TableKey(s, t)] == (i, |st.tree[i].tables|);
    var r := AppendColumn(st2, TableKey(s, t), col);
    var goal := WithNewTable(st, i, Table(s, t, [col]));
    var n := |st.tree[i].tables|;
    assert st2.tree[i].tables == st.tree[i].tables + [Table(s, t, [])];
    assert [] + [col] == [col];
    assert r.tree[i].tables == st2.tree[i].tables[n := Table(s, t, [col])];
    assert r.tree[i].tables == st.tree[i].tables + [Table(s, t, [col])];
    assert r.tree[i] == goal.tree[i];
    assert r.tree == goal.tree;
  }

  /** The state after the loading loop has consumed `rows`. */
  function Build(names: seq<string>, index: map<string, FieldConfig>, rows: seq<ColumnRow>): TreeState
    requires Distinct(names)
    decreases |rows|
  {
    if rows == [] then Initial(names)
    else AddRow(Build(names, index, rows[..|rows| - 1]), index, rows[|rows| - 1])
  }

  /** One more row of the prefix is one more turn of the loop. */
  lemma BuildSnoc(names: seq<string>, index: map<string, FieldConfig>, rows: seq<ColumnRow>, j: nat)
    requires Distinct(names) && j < |rows|
    ensures Build(names, index, rows[..j + 1]) == AddRow(Build(names, index, rows[..j]), index, rows[j])
  {
    assert rows[..j + 1][..j] == rows[..j];
  }

  /** Whatever the rows, the loop's dictionaries agree with the tree it builds. */
  lemma {:induction false} BuildIndexed(names: seq<string>, index: map<string, FieldConfig>, rows: seq<ColumnRow>)
    requires Distinct(names)
    ensures Indexed(Build(names, index, rows))
    decreases |rows|
  {
    if rows == [] {
      InitialIndexed(names);
    } else {
      BuildIndexed(names, index, rows[..|rows| - 1]);
      AddRowIndexed(Build(names, index, rows[..|rows| - 1]), index, rows[|rows| - 1]);
    }
  }

  /** The column nodes that the rows with table key `key` produce, in row order. */
  function ColumnsFor(index: map<string, FieldConfig>, rows: seq<ColumnRow>, key: string): seq<Column>
    decreases |rows|
  {
    if rows == [] then []
    else
      var r := rows[|rows| - 1];
      ColumnsFor(index, rows[..|rows| - 1], key)
        + (if RowKey(r) == key then [NewColumn(index, r.tableSchema, r.tableName, r.record)] else [])
  }

  function SchemaNames(tree: seq<Schema>): (r: seq<string>)
    ensures |r| == |tree| && forall i :: 0 <= i < |tree| ==> r[i] == tree[i].name
  {
    seq(|tree|, i requires 0 <= i < |tree| => tree[i].name)
  }

  /** The columns of the table node stored under `k`. */
  function ColumnsAt(st: TreeState, k: string): seq<Column>
    requires k in st.tableAt && ValidPos(st.tree, st.tableAt[k])
  {
    st.tree[st.tableAt[k].0].tables[st.tableAt[k].1].columns
  }

  /** The facts about one turn of the loop that the lemmas below rely on. */
  ghost predicate Grows(st: TreeState, r: TreeState, row: ColumnRow, col: Column) {
    && |r.tree| >= |st.tree|
    && (forall i :: 0 <= i < |st.tree| ==> r.tree[i].name == st.tree[i].name)
    && (forall i :: |st.tree| <= i < |r.tree| ==> r.tree[i].name == row.tableSchema)
    && row.tableSchema in r.schemaAt && RowKey(row) in r.tableAt
    && (forall n :: n in st.schemaAt ==> n in r.schemaAt)
    && (forall k :: k in st.tableAt ==> k in r.tableAt)
    && (forall k :: k in r.tableAt ==> ValidPos(r.tree, r.tableAt[k]))
    && (forall k :: k in st.tableAt ==> ValidPos(st.tree, st.tableAt[k]))
    && (forall k :: k in r.tableAt ==>
          (ColumnsAt(r, k) == (if k in st.tableAt then ColumnsAt(st, k) else [])
            + (if k == RowKey(row) then [col] else [])))
  }

  lemma WithSchemaFacts(st: TreeState, s: string)
    requires Indexed(st) && s !in st.schemaAt
    ensures var r := WithSchema(st, s);
      && Indexed(r) && r.tableAt == st.tableAt && |r.tree| == |st.tree| + 1
      && (forall i :: 0 <= i < |st.tree| ==> r.tree[i] == st.tree[i])
      && r.tree[|st.tree|].name == s && s in r.schemaAt
      && (forall n :: n in st.schemaAt ==> n in r.schemaAt)
  {
    IndexedWithSchema(st, s);
  }

  lemma WithColumnsFacts(st: TreeState, row: ColumnRow, col: Column)
    requires Indexed(st) && row.tableSchema in st.schemaAt && RowKey(row) in st.tableAt
    ensures var p := st.tableAt[RowKey(row)];
      Grows(st, st.(tree := WithColumns(st.tree, p.0, p.1, st.tree[p.0].tables[p.1].columns + [col])), row, col)
  {
    var key := RowKey(row);
    var p := st.tableAt[key];
    var r := st.(tree := WithColumns(st.tree, p.0, p.1, st.tree[p.0].tables[p.1].columns + [col]));
    IndexedWithColumns(st, p, st.tree[p.0].tables[p.1].columns + [col]);
    forall k | k in r.tableAt
      ensures ColumnsAt(r, k) == ColumnsAt(st, k) + (if k == key then [col] else [])
    {
      if k != key {
        assert st.tableAt[k] != p;
      }
    }
  }

  lemma WithNewTableFacts(st: TreeState, row: ColumnRow, col: Column)
    requires Indexed(st) && row.tableSchema in st.schemaAt && RowKey(row) !in st.tableAt
    ensures Grows(st, WithNewTable(st, st.schemaAt[row.tableSchema], Table(row.tableSchema, row.tableName, [col])), row, col)
  {
    var i := st.schemaAt[row.tableSchema];
    var t := Table(row.tableSchema, row.tableName, [col]);
    var r := WithNewTable(st, i, t);
    IndexedWithNewTable(st, i, t);
    assert ColumnsAt(r, RowKey(row)) == [col];
    forall k | k in st.tableAt
      ensures ColumnsAt(r, k) == ColumnsAt(st, k)
    {
      assert r.tableAt[k] == st.tableAt[k];
    }
  }

  /** What one turn of the loop changes: schema nodes are only appended (the new one is
      named after the row's schema), the row's schema and table key get entries, entries
      are never removed, and only the row's table gains a column, at its end. */
  lemma AddRowFacts(st: TreeState, index: map<string, FieldConfig>, row: ColumnRow)
    requires Indexed(st)
    ensures Grows(st, AddRow(st, index, row), row, NewColumn(index, row.tableSchema, row.tableName, row.record))
  {
    var s := row.tableSchema;
    var col := NewColumn(index, s, row.tableName, row.record);
    var st1 := WithSchemaNode(st, s);
    var r := AddRow(st, index, row);
    if s !in st.schemaAt {
      WithSchemaFacts(st, s);
    }
    AddRowSteps(st, index, row);
    if RowKey(row) in st1.tableAt {
      WithColumnsFacts(st1, row, col);
    } else {
      AppendToNewTable(st1, st1.schemaAt[s], s, row.tableName, col);
      WithNewTableFacts(st1, row, col);
    }
    assert Grows(st1, r, row, col);
    if s !in st.schemaAt {
      GrowsAfterNewSchema(st, st1, r, row, col);
    }
  }

  /** The entries that one turn of the loop leaves in the dictionaries. */
  lemma AddRowKeepsEntries(st: TreeState, index: map<string, FieldConfig>, row: ColumnRow)
    requires Indexed(st)
    ensures var r := AddRow(st, index, row);
      && row.tableSchema in r.schemaAt && RowKey(row) in r.tableAt
      && (forall n :: n in st.schemaAt ==> n in r.schemaAt)
      && (forall k :: k in st.tableAt ==> k in r.tableAt)
  {
    AddRowFacts(st, index, row);
  }

  /** How one turn of the loop changes the columns stored under each key. */
  lemma AddRowColumns(st: TreeState, index: map<string, FieldConfig>, row: ColumnRow)
    requires Indexed(st)
    ensures var r := AddRow(st, index, row);
      var col := NewColumn(index, row.tableSchema, row.tableName, row.record);
      forall k :: k in r.tableAt ==>
        && ValidPos(r.tree, r.tableAt[k])
        && (k in st.tableAt ==> ValidPos(st.tree, st.tableAt[k]))
        && ColumnsAt(r, k) == (if k in st.tableAt then ColumnsAt(st, k) else []) + (if k == RowKey(row) then [col] else [])
  {
    AddRowFacts(st, index, row);
  }

  lemma GrowsAfterNewSchema(st: TreeState, st1: TreeState, r: TreeState, row: ColumnRow, col: Column)
    requires Indexed(st) && row.tableSchema !in st.schemaAt && st1 == WithSchema(st, row.tableSchema)
    requires Grows(st1, r, row, col)
    ensures Grows(st, r, row, col)
  {
    WithSchemaFacts(st, row.tableSchema);
    assert forall k :: k in st.tableAt ==> ColumnsAt(st1, k) == ColumnsAt(st, k);
  }

  /** The names from the schema query come first, in their order. */
  lemma {:induction false} BuildKeepsQueriedSchemas(names: seq<string>, index: map<string, FieldConfig>, rows: seq<ColumnRow>)
    requires Distinct(names)
    ensures var st := Build(names, index, rows);
      |st.tree| >= |names| && SchemaNames(st.tree)[..|names|] == names
    decreases |rows|
  {
    if rows != [] {
      var init := rows[..|rows| - 1];
      BuildKeepsQueriedSchemas(names, index, init);
      BuildIndexed(names, index, init);
      AddRowFacts(Build(names, index, init), index, rows[|rows| - 1]);
    }
  }

  /** Every row's schema and every row's table key have a node. */
  lemma {:induction false} BuildCoversRows(names: seq<string>, index: map<string, FieldConfig>, rows: seq<ColumnRow>)
    requires Distinct(names)
    ensures var st := Build(names, index, rows);
      forall r :: r in rows ==> r.tableSchema in st.schemaAt && RowKey(r) in st.tableAt
    decreases |rows|
  {
    if rows != [] {
      var init := rows[..|rows| - 1];
      var row := rows[|rows| - 1];
      BuildCoversRows(names, index, init);
      var prev := Build(names, index, init);
      var st := Build(names, index, rows);
      assert st == AddRow(prev, index, row);
      BuildIndexed(names, index, init);
      AddRowKeepsEntries(prev, index, row);
      forall r | r in rows
        ensures r.tableSchema in st.schemaAt && RowKey(r) in st.tableAt
      {
        if r != row {
          assert r in init;
        }
      }
    }
  }

  /** A schema node after the queried ones is the schema of some row. */
  lemma {:induction false} BuildAddsOnlyRowSchemas(names: seq<string>, index: map<string, FieldConfig>, rows: seq<ColumnRow>)
    requires Distinct(names)
    ensures var st := Build(names, index, rows);
      forall i :: |names| <= i < |st.tree| ==> exists r :: r in rows && r.tableSchema == st.tree[i].name
    decreases |rows|
  {
    if rows != [] {
      var init := rows[..|rows| - 1];
      var row := rows[|rows| - 1];
      BuildAddsOnlyRowSchemas(names, index, init);
      BuildKeepsQueriedSchemas(names, index, init);
      var prev := Build(names, index, init);
      var st := Build(names, index, rows);
      BuildIndexed(names, index, init);
      AddRowFacts(prev, index, row);
      forall i | |names| <= i < |st.tree|
        ensures exists r :: r in rows && r.tableSchema == st.tree[i].name
      {
        if i < |prev.tree| {
          var r :| r in init && r.tableSchema == prev.tree[i].name;
          assert r in rows;
        } else {
          assert row in rows && st.tree[i].name == row.tableSchema;
        }
      }
    }
  }

  /** Each table node holds exactly the columns of the rows with its key, in row order. */
  lemma {:induction false} BuildGroupsColumns(names: seq<string>, index: map<string, FieldConfig>, rows: seq<ColumnRow>)
    requires Distinct(names)
    ensures var st := Build(names, index, rows);
      forall k :: k in st.tableAt ==> ValidPos(st.tree, st.tableAt[k]) && ColumnsAt(st, k) == ColumnsFor(index, rows, k)
    decreases |rows|
  {
    if rows != [] {
      var init := rows[..|rows| - 1];
      var row := rows[|rows| - 1];
      BuildGroupsColumns(names, index, init);
      BuildCoversRows(names, index, init);
      var prev := Build(names, index, init);
      var st := Build(names, index, rows);
      assert st == AddRow(prev, index, row);
      var col := NewColumn(index, row.tableSchema, row.tableName, row.record);
      BuildIndexed(names, index, init);
      AddRowColumns(prev, index, row);
      forall k | k in st.tableAt
        ensures ValidPos(st.tree, st.tableAt[k]) && ColumnsAt(st, k) == ColumnsFor(index, rows, k)
      {
        assert ColumnsFor(index, rows, k) == ColumnsFor(index, init, k) + (if RowKey(row) == k then [col] else []);
        if k !in prev.tableAt {
          ColumnsForAbsent(index, init, k);
        }
      }
    }
  }

  /** No column for a key that no row has. */
  lemma {:induction false} ColumnsForAbsent(index: map<string, FieldConfig>, rows: seq<ColumnRow>, key: string)
    requires forall r :: r in rows ==> RowKey(r) != key
    ensures ColumnsFor(index, rows, key) == []
    decreases |rows|
  {
    if rows != [] {
      assert rows[|rows| - 1] in rows;
      assert forall r :: r in rows[..|rows| - 1] ==> r in rows;
      ColumnsForAbsent(index, rows[..|rows| - 1], key);
    }
  }

  /** A consistent state has at most one schema node per name and at most one table node
      per "schema.table" key. */
  lemma IndexedUnique(st: TreeState)
    requires Indexed(st)
    ensures forall a, b :: 0 <= a < b < |st.tree| ==> st.tree[a].name != st.tree[b].name
    ensures forall a, x, b, y ::
      (0 <= a < |st.tree| && 0 <= x < |st.tree[a].tables| && 0 <= b < |st.tree| && 0 <= y < |st.tree[b].tables|
       && (a, x) != (b, y)) ==> KeyOfTable(st.tree[a].tables[x]) != KeyOfTable(st.tree[b].tables[y])
  {
  }

  /** The loaded tree: one node per schema name and per table key, whatever the rows. */
  lemma BuildUnique(names: seq<string>, index: map<string, FieldConfig>, rows: seq<ColumnRow>)
    requires Distinct(names)
    ensures var tree := Build(names, index, rows).tree;
      forall a, b :: 0 <= a < b < |tree| ==> tree[a].name != tree[b].name
    ensures var tree := Build(names, index, rows).tree;
      forall a, x, b, y ::
        (0 <= a < |tree| && 0 <= x < |tree[a].tables| && 0 <= b < |tree| && 0 <= y < |tree[b].tables|
         && (a, x) != (b, y)) ==> KeyOfTable(tree[a].tables[x]) != KeyOfTable(tree[b].tables[y])
  {
    BuildIndexed(names, index, rows);
    IndexedUnique(Build(names, index, rows));
  }

  /** Rows whose table keys are equal share one table node, which holds the columns of
      both, in row order. */
  lemma SameKeySharesNode(names: seq<string>, index: map<string, FieldConfig>, r0: ColumnRow, r1: ColumnRow)
    requires Distinct(names) && RowKey(r0) == RowKey(r1)
    ensures var st := Build(names, index, [r0, r1]);
      && RowKey(r0) in st.tableAt && ValidPos(st.tree, st.tableAt[RowKey(r0)])
      && ColumnsAt(st, RowKey(r0))
         == [NewColumn(index, r0.tableSchema, r0.tableName, r0.record), NewColumn(index, r1.tableSchema, r1.tableName, r1.record)]
  {
    var rows := [r0, r1];
    BuildCoversRows(names, index, rows);
    BuildGroupsColumns(names, index, rows);
    assert rows[..1] == [r0] && [r0][..0] == [];
    assert r0 in rows;
    assert ColumnsFor(index, [r0], RowKey(r0)) == [NewColumn(index, r0.tableSchema, r0.tableName, r0.record)];
  }

  /** The table key joins with "." as the override key does, so the different tables "c"
      of schema "a.b" and "b.c" of schema "a" have the same key and share a node. */
  lemma TableKeysCollide()
    ensures TableKey("a.b", "c") == TableKey("a", "b.c")
  {
  }

  /** The column nodes that a reload of table `schema.table` makes from the rows of the
      per-table column query, in row order. */
  function ReloadColumns(index: map<string, FieldConfig>, schema: string, table: string, recs: seq<ColumnRecord>): (r: seq<Column>)
    ensures |r| == |recs|
  {
    seq(|recs|, i requires 0 <= i < |recs| => NewColumn(index, schema, table, recs[i]))
  }

  /** A reload makes the same column nodes as a full load of that table's rows: the only
      difference is where the rows come from. */
  lemma {:induction false} ReloadMatchesLoad(index: map<string, FieldConfig>, schema: string, table: string, recs: seq<ColumnRecord>)
    ensures ReloadColumns(index, schema, table, recs)
         == ColumnsFor(index, seq(|recs|, i requires 0 <= i < |recs| => ColumnRow(schema, table, recs[i])), TableKey(schema, table))
    decreases |recs|
  {
    var rows := seq(|recs|, i requires 0 <= i < |recs| => ColumnRow(schema, table, recs[i]));
    if recs != [] {
      var init := recs[..|recs| - 1];
      ReloadMatchesLoad(index, schema, table, init);
      assert rows[..|rows| - 1] == seq(|init|, i requires 0 <= i < |init| => ColumnRow(schema, table, init[i]));
      assert ReloadColumns(index, schema, table, recs)
          == ReloadColumns(index, schema, table, init) + [NewColumn(index, schema, table, recs[|recs| - 1])];
    }
  }
}
