/** The metadata tree shown by the schema browser: schemas hold tables, tables hold columns.
    Schemas and tables are plain values; the column node, whose InitFromDb fills its
    fields in place, is also an object whose `View()` reads it into a value. */
module SchemaModels {
  import opened Wrappers
  import opened Text

  /** The value of a column node: what the database reports about the column
      (`dbType`, `isNullable`, `characterMaximumLength`) and the locally editable display
      metadata (`isVisible`, `alias`, `localType`, `localDefault`, `localLength`). */
  datatype Column = Column(
    columnName: string,
    dbType: string,
    isNullable: bool,
    characterMaximumLength: Option<Int32>,
    isVisible: bool,
    alias: string,
    localType: string,
    localDefault: string,
    localLength: Option<Int32>)
  {
    /** The column after `InitFromDb(dataType, def, length)`. */
    function InitFromDb(dataType: string, def: Option<string>, length: Option<Int32>): Column {
      this.(dbType := dataType, localType := dataType, localDefault := def.GetOr(""),
            characterMaximumLength := length, localLength := length)
    }
  }

  /** A column node as constructed: visible, everything else empty. */
  const FreshColumn := Column("", "", false, None, true, "", "", "", None)

  datatype Table = Table(schema: string, name: string, columns: seq<Column>)

  datatype Schema = Schema(name: string, tables: seq<Table>)

  /** `InitFromDb` copies the database's type and length into both the read-only and the
      local attributes, turns a missing default into "", and touches nothing else: the
      name, nullability, visibility and alias stay as they were. Applying it twice is the
      same as applying it once. */
  lemma InitFromDbFacts(c: Column, dataType: string, def: Option<string>, length: Option<Int32>)
    ensures var r := c.InitFromDb(dataType, def, length);
      && r.dbType == dataType && r.localType == dataType
      && r.characterMaximumLength == length && r.localLength == length
      && (def.Some? ==> r.localDefault == def.value) && (def.None? ==> r.localDefault == "")
      && r.columnName == c.columnName && r.isNullable == c.isNullable
      && r.isVisible == c.isVisible && r.alias == c.alias
      && r.InitFromDb(dataType, def, length) == r
  {
  }

  /** The result of `InitFromDb` depends only on the name, nullability, visibility and
      alias that the column already had, not on its earlier type, default or length. */
  lemma InitFromDbForgetsEarlierValues(c: Column, d: Column, dataType: string, def: Option<string>, length: Option<Int32>)
    requires c.columnName == d.columnName && c.isNullable == d.isNullable
    requires c.isVisible == d.isVisible && c.alias == d.alias
    ensures c.InitFromDb(dataType, def, length) == d.InitFromDb(dataType, def, length)
  {
  }

  class ColumnItem {
    var columnName: string
    var dbType: string
    var isNullable: bool
    var characterMaximumLength: Option<Int32>
    var isVisible: bool
    var alias: string
    var localType: string
    var localDefault: string
    var localLength: Option<Int32>

    function View(): Column
      reads this
    {
      Column(columnName, dbType, isNullable, characterMaximumLength, isVisible, alias,
             localType, localDefault, localLength)
    }

    constructor ()
      ensures View() == FreshColumn
    {
      columnName, dbType, isNullable, characterMaximumLength := "", "", false, None;
      isVisible, alias, localType, localDefault, localLength := true, "", "", "", None;
    }

    method InitFromDb(dataType: string, def: Option<string>, length: Option<Int32>)
      modifies this
      ensures View() == old(View()).InitFromDb(dataType, def, length)
    {
      dbType := dataType;
      localType := dataType;
      localDefault := def.GetOr("");
      characterMaximumLength := length;
      localLength := length;
    }
  }

  /** A table node as constructed: empty schema and table names, no columns. */
  const FreshTable := Table("", "", [])

  /** A schema node as constructed: empty name, no tables. */
  const FreshSchema := Schema("", [])

  /** Replaces the column list of table `j` of schema `i` in a tree value. */
  function WithColumns(tree: seq<Schema>, i: nat, j: nat, cols: seq<Column>): (r: seq<Schema>)
    requires i < |tree| && j < |tree[i].tables|
    ensures |r| == |tree| && forall k :: 0 <= k < |tree| && k != i ==> r[k] == tree[k]
    ensures r[i].name == tree[i].name && |r[i].tables| == |tree[i].tables|
    ensures forall y :: 0 <= y < |tree[i].tables| && y != j ==> r[i].tables[y] == tree[i].tables[y]
    ensures r[i].tables[j] == tree[i].tables[j].(columns := cols)
  {
    tree[i := tree[i].(tables := tree[i].tables[j := tree[i].tables[j].(columns := cols)])]
  }

  /** Adds one table to schema `i` of a tree value. */
  function WithTable(tree: seq<Schema>, i: nat, t: Table): (r: seq<Schema>)
    requires i < |tree|
    ensures |r| == |tree| && forall k :: 0 <= k < |tree| && k != i ==> r[k] == tree[k]
    ensures r[i] == tree[i].(tables := tree[i].tables + [t])
  {
    tree[i := tree[i].(tables := tree[i].tables + [t])]
  }
}
