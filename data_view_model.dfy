/** The data explorer's view-model: the schema and table pickers, the bounded SELECT that
    loads a table into a grid, and the row commands that the primary key gates.

    The server is not modelled: what each query returns is a parameter of the operation
    that sends it. The loaded table keeps only its rows' count and which rows are marked
    for deletion; cell values and the data adapter's change tracking are not modelled. */
module DataExplorer {
  import opened Wrappers
  import opened Text
  import opened Ddl
  import opened Services

  /** The row cap of the SELECT. */
  const DefaultRowLimit: nat := 200

  /** A row of the column query: column_name, data_type and udt_name. */
  datatype ColumnInfo = ColumnInfo(columnName: string, dataType: string, udtName: string)

  /** The geometry test of GetSelectableColumnsAsync, with its three disjuncts. */
  predicate IsSpatialColumn(c: ColumnInfo) {
    || EqualsIgnoreCase(c.udtName, "geometry")
    || EqualsIgnoreCase(c.udtName, "geography")
    || (EqualsIgnoreCase(c.dataType, "USER-DEFINED")
        && (EqualsIgnoreCase(c.udtName, "geometry") || EqualsIgnoreCase(c.udtName, "geography")))
  }

  /** The third disjunct adds nothing: a column is spatial exactly when its udt_name is
      geometry or geography, whatever its data_type. */
  lemma SpatialByUdtName(c: ColumnInfo, dataType: string)
    ensures IsSpatialColumn(c) <==> EqualsIgnoreCase(c.udtName, "geometry") || EqualsIgnoreCase(c.udtName, "geography")
    ensures IsSpatialColumn(c.(dataType := dataType)) == IsSpatialColumn(c)
  {
  }

  /** The names of the columns that are not spatial, in ordinal order. */
  function SelectableColumns(rows: seq<ColumnInfo>): (r: seq<string>)
    ensures |r| <= |rows|
    decreases |rows|
  {
    if rows == [] then []
    else
      var c := rows[|rows| - 1];
      SelectableColumns(rows[..|rows| - 1]) + (if IsSpatialColumn(c) then [] else [c.columnName])
  }

  /** The positions of the rows that are not spatial, in increasing order. */
  function NonSpatialPositions(rows: seq<ColumnInfo>): (idx: seq<nat>)
    decreases |rows|
  {
    if rows == [] then []
    else
      var n := |rows| - 1;
      NonSpatialPositions(rows[..n]) + (if IsSpatialColumn(rows[n]) then [] else [n])
  }

  /** The selectable columns are the names of the rows at the non-spatial positions, which
      are increasing and hold no spatial row. */
  lemma {:induction false} SelectableAtPositions(rows: seq<ColumnInfo>)
    ensures var idx, names := NonSpatialPositions(rows), SelectableColumns(rows);
      && |idx| == |names|
      && (forall k :: 0 <= k < |idx| ==> idx[k] < |rows| && !IsSpatialColumn(rows[idx[k]]) && names[k] == rows[idx[k]].columnName)
      && (forall k, l :: 0 <= k < l < |idx| ==> idx[k] < idx[l])
    decreases |rows|
  {
    if rows != [] {
      var n := |rows| - 1;
      SelectableAtPositions(rows[..n]);
      var prev := NonSpatialPositions(rows[..n]);
      forall k | 0 <= k < |prev| ensures rows[prev[k]] == rows[..n][prev[k]] {
      }
    }
  }

  /** Every row that is not spatial is at one of the non-spatial positions, so its name is
      among the selectable columns. */
  lemma {:induction false} NonSpatialPositionsComplete(rows: seq<ColumnInfo>)
    ensures forall i :: 0 <= i < |rows| && !IsSpatialColumn(rows[i]) ==> i in NonSpatialPositions(rows)
    decreases |rows|
  {
    if rows != [] {
      var n := |rows| - 1;
      NonSpatialPositionsComplete(rows[..n]);
      forall i | 0 <= i < |rows| && !IsSpatialColumn(rows[i]) ensures i in NonSpatialPositions(rows) {
        if i < n {
          assert rows[..n][i] == rows[i];
        }
      }
    }
  }

  /** A column name between double quotes, inner quotes left as they are. */
  function Quoted(s: string): string {
    "\"" + s + "\""
  }

  function QuotedAll(cols: seq<string>): (r: seq<string>)
    ensures |r| == |cols| && forall i :: 0 <= i < |cols| ==> r[i] == Quoted(cols[i])
  {
    seq(|cols|, i requires 0 <= i < |cols| => Quoted(cols[i]))
  }

  /** The row cap clause of the SELECT. */
  function LimitClause(limit: nat): string {
    " LIMIT " + IntToString(limit)
  }

  /** The SELECT that loads a table: the selectable columns, the table, the row cap. */
  function SelectSql(schema: string, table: string, cols: seq<string>): string {
    "SELECT " + Join(", ", QuotedAll(cols)) + " FROM " + Quoted(schema) + "." + Quoted(table) + LimitClause(DefaultRowLimit)
  }

  /** The SELECT asks for at most 200 rows. */
  lemma SelectSqlLimit(schema: string, table: string, cols: seq<string>)
    ensures var sql := SelectSql(schema, table, cols);
      |sql| >= 10 && sql[|sql| - 10..] == " LIMIT 200" && sql[..7] == "SELECT "
  {
    assert NatToString(2) == "2";
    assert NatToString(20) == NatToString(2) + [DigitChar(0)] == "20";
    assert NatToString(200) == NatToString(20) + [DigitChar(0)] == "200";
    var sql := SelectSql(schema, table, cols);
    var head := "SELECT " + Join(", ", QuotedAll(cols)) + " FROM " + Quoted(schema) + "." + Quoted(table);
    assert sql == head + " LIMIT 200";
    assert sql[|sql| - 10..] == " LIMIT 200";
    assert sql[..7] == "SELECT ";
  }

  /** Without a quote in a name, doubling inner quotes changes nothing. */
  lemma {:induction false} NoQuoteNoDoubling(s: string)
    requires '"' !in s
    ensures DoubleQuotes(s) == s
    decreases |s|
  {
    if s != [] {
      assert s[1..] == s[1..] && '"' !in s[1..] by {
        forall j | 0 <= j < |s[1..]| ensures s[1..][j] != '"' {
          assert s[1..][j] == s[j + 1];
        }
      }
      NoQuoteNoDoubling(s[1..]);
      assert s == [s[0]] + s[1..];
    }
  }

  /** When no name holds a double quote, the SELECT quotes the schema, the table and every
      column as QuoteIdentifier would. */
  lemma SelectSqlQuotesCleanNames(schema: string, table: string, cols: seq<string>)
    requires '"' !in schema && '"' !in table && forall i :: 0 <= i < |cols| ==> '"' !in cols[i]
    ensures SelectSql(schema, table, cols)
         == "SELECT " + Join(", ", seq(|cols|, i requires 0 <= i < |cols| => QuoteIdentifier(cols[i])))
            + " FROM " + FullTableName(schema, table) + LimitClause(DefaultRowLimit)
  {
    NoQuoteNoDoubling(schema);
    NoQuoteNoDoubling(table);
    forall i | 0 <= i < |cols| ensures QuoteIdentifier(cols[i]) == Quoted(cols[i]) {
      NoQuoteNoDoubling(cols[i]);
    }
    assert QuotedAll(cols) == seq(|cols|, i requires 0 <= i < |cols| => QuoteIdentifier(cols[i]));
  }

  /** Because inner quotes are not doubled, two different tables can give the same SELECT:
      schema `x"."y` with table `z`, and schema `x` with table `y"."z`. */
  lemma SelectSqlAmbiguous()
    ensures SelectSql("x\".\"y", "z", ["c"]) == SelectSql("x", "y\".\"z", ["c"])
  {
    assert Quoted("x\".\"y") + "." + Quoted("z") == Quoted("x") + "." + Quoted("y\".\"z");
  }

  /** A row of the loaded table. */
  datatype Row = Row(markedForDeletion: bool)

  /** What the server answers to the two metadata queries and the SELECT of a load:
      the column rows, the primary-key columns, the message of an error that ended the
      metadata queries, the number of rows the table holds, and the message of an error
      that ended the SELECT. */
  datatype DataReply = DataReply(columns: seq<ColumnInfo>, primaryKeys: seq<string>, metadataError: Option<string>,
                                 tableRows: nat, fillError: Option<string>)

  /** What a name query returns: the names read, and the message of an error that ended it. */
  datatype NamesReply = NamesReply(names: seq<string>, error: Option<string>)

  /** The status line, as a tag with its arguments. The "…ing" messages are always
      replaced before an operation ends and are left out. */
  datatype DataStatus =
    | Ready | NoConnectionString | LoadedSchemas(count: nat) | ErrorLoadingSchemas(message: string)
    | LoadedTables(schema: string, count: nat) | ErrorLoadingTables(message: string)
    | SelectSchemaAndTable | NoSelectableColumns | LoadedRowsWithLimit(rows: nat, limit: nat)
    | LoadedNoPrimaryKey | ErrorLoadingData(message: string)
    | NoDataToSave | CannotSaveNoPrimaryKey | ChangesSaved | ErrorSavingChanges(message: string)
    | LoadDataFirst | CannotAddRowNoPrimaryKey | NewRowAdded
    | NoRowSelected | CannotDeleteNoPrimaryKey | RowMarkedForDeletion

  /** Everything the data explorer reads and writes. `tableShown` says whether the grid
      shows the loaded table (TableData is its view, not null); `adapterSql` is the SELECT
      the data adapter was made with; `selectedRow` is the grid's selected row, by position. */
  datatype DataState = DataState(
    schemas: seq<string>,
    tables: seq<string>,
    selectedSchema: Option<string>,
    selectedTable: Option<string>,
    tableShown: bool,
    dataTable: Option<seq<Row>>,
    adapterSql: Option<string>,
    primaryKeyColumns: seq<string>,
    hasPrimaryKey: bool,
    selectedRow: Option<nat>,
    suppressAutoLoad: bool,
    isLoading: bool,
    status: DataStatus)

  const InitialDataState := DataState([], [], None, None, false, None, None, [], false, None, false, false, Ready)

  /** The grid shows only the loaded table, a selected row is one of its rows, and the
      adapter and the table are made together. */
  predicate ValidData(s: DataState) {
    && (s.tableShown ==> s.dataTable.Some?)
    && (s.selectedRow.Some? ==> s.tableShown && s.dataTable.Some? && s.selectedRow.value < |s.dataTable.value|)
    && (s.adapterSql.Some? <==> s.dataTable.Some?)
  }

  // ---------------------------------------------------------------------------
  // The command guards.

  predicate CanEdit(s: DataState) {
    s.hasPrimaryKey && s.dataTable.Some?
  }

  predicate CanLoadData(s: DataState) {
    !IsNullOrEmpty(s.selectedSchema) && !IsNullOrEmpty(s.selectedTable) && !s.isLoading
  }

  predicate CanSaveChanges(s: DataState) {
    CanEdit(s) && s.adapterSql.Some?
  }

  predicate CanDeleteRow(s: DataState) {
    CanEdit(s) && s.selectedRow.Some?
  }

  // ---------------------------------------------------------------------------
  // The selection setters. A setter does something only when the value changes (ordinal
  // string equality); the grid drops its selected row whenever TableData is replaced.

  /** The SelectedTable setter: a new table hides the grid. */
  function AfterSelectTable(s: DataState, value: Option<string>): (r: DataState)
    ensures ValidData(s) ==> ValidData(r)
  {
    if value == s.selectedTable then s
    else s.(selectedTable := value, tableShown := false, selectedRow := None)
  }

  /** A new, non-empty table starts a data load, unless auto-load is suppressed. */
  predicate SelectTableStartsLoad(s: DataState, value: Option<string>) {
    value != s.selectedTable && !s.suppressAutoLoad && !IsNullOrEmpty(value)
  }

  /** The SelectedSchema setter: a new schema empties the table list, hides the grid and
      clears the selected table. */
  function AfterSelectSchema(s: DataState, value: Option<string>): (r: DataState)
    ensures ValidData(s) ==> ValidData(r)
  {
    if value == s.selectedSchema then s
    else AfterSelectTable(s.(selectedSchema := value, tables := [], tableShown := false, selectedRow := None), None)
  }

  /** A new, non-empty schema starts a table load. */
  predicate SelectSchemaStartsLoad(s: DataState, value: Option<string>) {
    value != s.selectedSchema && !IsNullOrEmpty(value)
  }

  // ---------------------------------------------------------------------------
  // The loads.

  /** The schema LoadSchemasAsync selects: "public" when the list has it, else the first. */
  function DefaultSchema(names: seq<string>): Option<string> {
    if "public" in names then Some("public") else if names != [] then Some(names[0]) else None
  }

  /** LoadSchemasAsync. `connected` says whether the current connection string is set. */
  function AfterLoadSchemas(s: DataState, connected: bool, reply: NamesReply): (r: DataState)
    ensures ValidData(s) ==> ValidData(r)
  {
    if !connected then s.(status := NoConnectionString)
    else if reply.error.Some? then s.(schemas := reply.names, status := ErrorLoadingSchemas(reply.error.value), isLoading := false)
    else
      var w := s.(schemas := reply.names, status := LoadedSchemas(|reply.names|), isLoading := true);
      var d := DefaultSchema(reply.names);
      (if d.Some? then AfterSelectSchema(w, d) else w).(isLoading := false)
  }

  /** The state in which LoadSchemasAsync selects its default schema. */
  function SchemasListed(s: DataState, reply: NamesReply): DataState {
    s.(schemas := reply.names, status := LoadedSchemas(|reply.names|), isLoading := true)
  }

  /** Whether LoadSchemasAsync starts a table load through the schema setter. */
  predicate LoadSchemasStartsLoad(s: DataState, connected: bool, reply: NamesReply) {
    && connected && reply.error.None? && DefaultSchema(reply.names).Some?
    && SelectSchemaStartsLoad(SchemasListed(s, reply), DefaultSchema(reply.names))
  }

  /** LoadDataAsync. The connection string is not checked here: without one the first
      metadata query fails, and `reply.metadataError` says so. */
  function AfterLoadData(s: DataState, reply: DataReply): (r: DataState)
    ensures ValidData(s) ==> ValidData(r)
  {
    if IsNullOrEmpty(s.selectedSchema) || IsNullOrEmpty(s.selectedTable) then s.(status := SelectSchemaAndTable)
    else
      var w := s.(primaryKeyColumns := [], hasPrimaryKey := false, isLoading := true);
      if reply.metadataError.Some? then
        w.(status := ErrorLoadingData(reply.metadataError.value), tableShown := false, selectedRow := None, isLoading := false)
      else LoadedData(w, reply)
  }

  /** The part of LoadDataAsync after the metadata queries: the primary-key flag, and the
      SELECT when some column is selectable. */
  function LoadedData(w: DataState, reply: DataReply): (r: DataState)
    requires w.selectedSchema.Some? && w.selectedTable.Some?
    ensures ValidData(w) ==> ValidData(r)
  {
    var cols := SelectableColumns(reply.columns);
    var w1 := w.(primaryKeyColumns := reply.primaryKeys, hasPrimaryKey := |reply.primaryKeys| > 0);
    if cols == [] then w1.(status := NoSelectableColumns, tableShown := false, selectedRow := None, isLoading := false)
    else FilledData(w1, cols, reply)
  }

  /** The `n` rows a fill reads, none marked for deletion. */
  function UnmarkedRows(n: nat): (r: seq<Row>)
    ensures |r| == n && forall i :: 0 <= i < n ==> !r[i].markedForDeletion
  {
    seq(n, _ => Row(false))
  }

  /** The SELECT of the selectable columns `cols`, and the table it fills. */
  function FilledData(w: DataState, cols: seq<string>, reply: DataReply): (r: DataState)
    requires w.selectedSchema.Some? && w.selectedTable.Some?
    ensures ValidData(w) ==> ValidData(r)
  {
    var n := if reply.tableRows < DefaultRowLimit then reply.tableRows else DefaultRowLimit;
    var filled := reply.fillError.None?;
    w.(adapterSql := Some(SelectSql(w.selectedSchema.value, w.selectedTable.value, cols)),
       dataTable := Some(if filled then UnmarkedRows(n) else []),
       status := if !filled then ErrorLoadingData(reply.fillError.value)
                 else if w.hasPrimaryKey then LoadedRowsWithLimit(n, DefaultRowLimit) else LoadedNoPrimaryKey,
       tableShown := filled, selectedRow := None, isLoading := false)
  }

  /** LoadTablesAsync: the table list, then the first table selected with auto-load
      suppressed, then one data load. */
  function AfterLoadTables(s: DataState, connected: bool, reply: NamesReply, data: DataReply): (r: DataState)
    ensures ValidData(s) ==> ValidData(r)
  {
    if IsNullOrEmpty(s.selectedSchema) || !connected then s
    else
      var w := s.(tables := reply.names, isLoading := true);
      if reply.error.Some? then w.(status := ErrorLoadingTables(reply.error.value), suppressAutoLoad := false, isLoading := false)
      else
        var w1 := w.(status := LoadedTables(s.selectedSchema.value, |reply.names|));
        var w2 := if reply.names == [] then w1 else AfterLoadData(FirstTableSelected(w1, reply.names[0]), data);
        w2.(suppressAutoLoad := false, isLoading := false)
  }

  /** `_suppressAutoLoad = true; SelectedTable = first; _suppressAutoLoad = false;` */
  function FirstTableSelected(w: DataState, first: string): (r: DataState)
    ensures ValidData(w) ==> ValidData(r)
  {
    AfterSelectTable(w.(suppressAutoLoad := true), Some(first)).(suppressAutoLoad := false)
  }

  // ---------------------------------------------------------------------------
  // The row commands. `saveError` is the message of an error the server raises while
  // saving the changes.

  function AfterSaveChanges(s: DataState, saveError: Option<string>): (r: DataState)
    ensures ValidData(s) ==> ValidData(r)
  {
    if s.adapterSql.None? || s.dataTable.None? then s.(status := NoDataToSave)
    else if !s.hasPrimaryKey then s.(status := CannotSaveNoPrimaryKey)
    else s.(status := if saveError.Some? then ErrorSavingChanges(saveError.value) else ChangesSaved, isLoading := false)
  }

  function AfterAddRow(s: DataState): (r: DataState)
    ensures ValidData(s) ==> ValidData(r)
  {
    if s.dataTable.None? then s.(status := LoadDataFirst)
    else if !s.hasPrimaryKey then s.(status := CannotAddRowNoPrimaryKey)
    else s.(dataTable := Some(s.dataTable.value + [Row(false)]), status := NewRowAdded)
  }

  function AfterDeleteSelectedRow(s: DataState): (r: DataState)
    requires ValidData(s)
    ensures ValidData(r)
  {
    if s.selectedRow.None? then s.(status := NoRowSelected)
    else if !s.hasPrimaryKey then s.(status := CannotDeleteNoPrimaryKey)
    else s.(dataTable := Some(s.dataTable.value[s.selectedRow.value := Row(true)]), status := RowMarkedForDeletion)
  }

  class DataViewModel {
    const db: DbConnectionService
    var schemas: seq<string>
    var tables: seq<string>
    var selectedSchema: Option<string>
    var selectedTable: Option<string>
    var tableShown: bool
    var dataTable: Option<seq<Row>>
    var adapterSql: Option<string>
    var primaryKeyColumns: seq<string>
    var hasPrimaryKey: bool
    var selectedRow: Option<nat>
    var suppressAutoLoad: bool
    var isLoading: bool
    var status: DataStatus

    function State(): DataState
      reads this
    {
      DataState(schemas, tables, selectedSchema, selectedTable, tableShown, dataTable, adapterSql,
                primaryKeyColumns, hasPrimaryKey, selectedRow, suppressAutoLoad, isLoading, status)
    }

    function Connected(): bool
      reads this, db
    {
      db.currentConnection.Some?
    }

    /** With a connection already set, the constructor loads the schemas; `reply` is what
      the schema query returns. */
    constructor (db: DbConnectionService, reply: NamesReply)
      ensures this.db == db
      ensures State() == if db.currentConnection.Some? then AfterLoadSchemas(InitialDataState, true, reply) else InitialDataState
    {
      this.db := db;
      schemas, tables, selectedSchema, selectedTable := [], [], None, None;
      tableShown, dataTable, adapterSql := false, None, None;
      primaryKeyColumns, hasPrimaryKey, selectedRow := [], false, None;
      suppressAutoLoad, isLoading, status := false, false, Ready;
      new;
      if db.currentConnection.Some? {
        var _ := LoadSchemas(reply);
      }
    }

    /** The SelectedSchema setter; `startsLoad` says whether it starts LoadTablesAsync. */
    method SetSelectedSchema(value: Option<string>) returns (startsLoad: bool)
      modifies this
      ensures State() == AfterSelectSchema(old(State()), value)
      ensures startsLoad == SelectSchemaStartsLoad(old(State()), value)
    {
      startsLoad := false;
      if value != selectedSchema {
        selectedSchema := value;
        tables, tableShown, selectedRow := [], false, None;
        var _ := SetSelectedTable(None);
        startsLoad := !IsNullOrEmpty(value);
      }
    }

    /** The SelectedTable setter; `startsLoad` says whether it starts LoadDataAsync. */
    method SetSelectedTable(value: Option<string>) returns (startsLoad: bool)
      modifies this
      ensures State() == AfterSelectTable(old(State()), value)
      ensures startsLoad == SelectTableStartsLoad(old(State()), value)
    {
      startsLoad := false;
      if value != selectedTable {
        selectedTable, tableShown, selectedRow := value, false, None;
        startsLoad := !suppressAutoLoad && !IsNullOrEmpty(value);
      }
    }

    /** The grid's row selection. */
    method SetSelectedRow(row: Option<nat>)
      requires row.Some? ==> tableShown && dataTable.Some? && row.value < |dataTable.value|
      modifies this
      ensures State() == old(State()).(selectedRow := row)
    {
      selectedRow := row;
    }

    /** LoadSchemasAsync; `startsLoad` says whether selecting the default schema starts
      LoadTablesAsync. */
    method LoadSchemas(reply: NamesReply) returns (startsLoad: bool)
      modifies this
      ensures State() == AfterLoadSchemas(old(State()), old(Connected()), reply)
      ensures startsLoad == LoadSchemasStartsLoad(old(State()), old(Connected()), reply)
    {
      startsLoad := false;
      if db.currentConnection.None? {
        status := NoConnectionString;
        return;
      }
      isLoading, schemas := true, reply.names;
      if reply.error.Some? {
        status := ErrorLoadingSchemas(reply.error.value);
      } else {
        status := LoadedSchemas(|reply.names|);
        var d := DefaultSchema(reply.names);
        if d.Some? {
          startsLoad := SetSelectedSchema(d);
        }
      }
      isLoading := false;
    }

    /** The column query's read loop, keeping the columns that are not spatial. */
    static method ReadSelectableColumns(rows: seq<ColumnInfo>) returns (columns: seq<string>)
      ensures columns == SelectableColumns(rows)
    {
      columns := [];
      var i := 0;
      while i < |rows|
        invariant 0 <= i <= |rows|
        invariant columns == SelectableColumns(rows[..i])
      {
        var c := rows[i];
        assert rows[..i + 1][..i] == rows[..i];
        if !IsSpatialColumn(c) {
          columns := columns + [c.columnName];
        }
        i := i + 1;
      }
      assert rows[..i] == rows;
    }

    /** LoadDataAsync; `reply` is what the server returns to its queries. */
    method LoadData(reply: DataReply)
      modifies this
      ensures State() == AfterLoadData(old(State()), reply)
    {
      if IsNullOrEmpty(selectedSchema) || IsNullOrEmpty(selectedTable) {
        status := SelectSchemaAndTable;
        return;
      }
      isLoading, primaryKeyColumns, hasPrimaryKey := true, [], false;
      if reply.metadataError.Some? {
        status, tableShown, selectedRow := ErrorLoadingData(reply.metadataError.value), false, None;
        isLoading := false;
        return;
      }
      LoadFromMetadata(reply);
    }

    method LoadFromMetadata(reply: DataReply)
      requires selectedSchema.Some? && selectedTable.Some?
      modifies this
      ensures State() == LoadedData(old(State()), reply)
    {
      var columns := ReadSelectableColumns(reply.columns);
      primaryKeyColumns := reply.primaryKeys;
      hasPrimaryKey := |primaryKeyColumns| > 0;
      if columns == [] {
        status, tableShown, selectedRow := NoSelectableColumns, false, None;
        isLoading := false;
        return;
      }
      FillTable(columns, reply);
    }

    method FillTable(columns: seq<string>, reply: DataReply)
      requires selectedSchema.Some? && selectedTable.Some?
      modifies this
      ensures State() == FilledData(old(State()), columns, reply)
    {
      var sql := SelectSql(selectedSchema.value, selectedTable.value, columns);
      var n := if reply.tableRows < DefaultRowLimit then reply.tableRows else DefaultRowLimit;
      var filled := reply.fillError.None?;
      var st := if !filled then ErrorLoadingData(reply.fillError.value)
                else if hasPrimaryKey then LoadedRowsWithLimit(n, DefaultRowLimit) else LoadedNoPrimaryKey;
      adapterSql, dataTable, status, tableShown, selectedRow, isLoading
        := Some(sql), Some(if filled then UnmarkedRows(n) else []), st, filled, None, false;
    }

    /** LoadTablesAsync; `reply` is what the table query returns and `data` what the data
      load of the first table gets. */
    method LoadTables(reply: NamesReply, data: DataReply)
      modifies this
      ensures State() == AfterLoadTables(old(State()), old(Connected()), reply, data)
    {
      if IsNullOrEmpty(selectedSchema) || db.currentConnection.None? {
        return;
      }
      isLoading, tables := true, reply.names;
      if reply.error.Some? {
        status := ErrorLoadingTables(reply.error.value);
      } else {
        status := LoadedTables(selectedSchema.value, |reply.names|);
        if reply.names != [] {
          suppressAutoLoad := true;
          var _ := SetSelectedTable(Some(reply.names[0]));
          suppressAutoLoad := false;
          LoadData(data);
        }
      }
      suppressAutoLoad, isLoading := false, false;
    }

    /** SaveChangesAsync. */
    method SaveChanges(saveError: Option<string>)
      modifies this
      ensures State() == AfterSaveChanges(old(State()), saveError)
    {
      if adapterSql.None? || dataTable.None? {
        status := NoDataToSave;
        return;
      }
      if !hasPrimaryKey {
        status := CannotSaveNoPrimaryKey;
        return;
      }
      isLoading := true;
      status := if saveError.Some? then ErrorSavingChanges(saveError.value) else ChangesSaved;
      isLoading := false;
    }

    /** AddRow. */
    method AddRow()
      modifies this
      ensures State() == AfterAddRow(old(State()))
    {
      if dataTable.None? {
        status := LoadDataFirst;
        return;
      }
      if !hasPrimaryKey {
        status := CannotAddRowNoPrimaryKey;
        return;
      }
      dataTable := Some(dataTable.value + [Row(false)]);
      status := NewRowAdded;
    }

    /** DeleteSelectedRow. */
    method DeleteSelectedRow()
      requires ValidData(State())
      modifies this
      ensures State() == AfterDeleteSelectedRow(old(State()))
    {
      if selectedRow.None? {
        status := NoRowSelected;
        return;
      }
      if !hasPrimaryKey {
        status := CannotDeleteNoPrimaryKey;
        return;
      }
      dataTable := Some(dataTable.value[selectedRow.value := Row(true)]);
      status := RowMarkedForDeletion;
    }
  }

  // ---------------------------------------------------------------------------
  // What the transitions promise.

  /** The default schema is "public" exactly when the list has it, otherwise the first
      schema, and none exactly when the list is empty; it is always one of the listed. */
  lemma DefaultSchemaFacts(names: seq<string>)
    ensures var d := DefaultSchema(names);
      && (d == Some("public") <==> "public" in names)
      && ("public" !in names && names != [] ==> d == Some(names[0]))
      && (d.None? <==> names == [])
      && (d.Some? ==> d.value in names)
  {
  }

  /** A successful schema load lists the schemas and leaves the default one selected; when
      that changes the selection, the table list is emptied, the grid hidden and no table
      selected, and a table load is started. */
  lemma LoadSchemasSelectsDefault(s: DataState, reply: NamesReply)
    requires reply.error.None? && reply.names != []
    ensures var r := AfterLoadSchemas(s, true, reply);
      && r.schemas == reply.names && r.selectedSchema == DefaultSchema(reply.names) && r.selectedSchema.Some?
      && r.selectedSchema.value in reply.names && !r.isLoading
      && (DefaultSchema(reply.names) != s.selectedSchema ==>
            && r.tables == [] && !r.tableShown && r.selectedTable.None? && r.selectedRow.None?
            && LoadSchemasStartsLoad(s, true, reply) == !IsNullOrEmpty(DefaultSchema(reply.names)))
  {
    DefaultSchemaFacts(reply.names);
  }

  /** The schema setter's cascade: a new schema empties the table list, hides the grid and
      clears the table and row selection, and starts a table load exactly when it is not
      empty; the same schema again changes nothing and starts nothing. */
  lemma SelectSchemaCascade(s: DataState, value: Option<string>)
    ensures var r := AfterSelectSchema(s, value);
      && (value != s.selectedSchema ==>
            && r.selectedSchema == value && r.tables == [] && !r.tableShown
            && r.selectedTable.None? && r.selectedRow.None?
            && r.(selectedSchema := s.selectedSchema, tables := s.tables, tableShown := s.tableShown,
                  selectedTable := s.selectedTable, selectedRow := s.selectedRow) == s
            && (SelectSchemaStartsLoad(s, value) <==> !IsNullOrEmpty(value)))
      && (value == s.selectedSchema ==> r == s && !SelectSchemaStartsLoad(s, value))
  {
  }

  /** The table setter starts a data load exactly when the table changes to a non-empty
      name while auto-load is not suppressed, so selecting the first table while it is
      suppressed starts none. */
  lemma SelectTableAutoLoad(s: DataState, value: Option<string>)
    ensures SelectTableStartsLoad(s, value) <==> value != s.selectedTable && !s.suppressAutoLoad && !IsNullOrEmpty(value)
    ensures !SelectTableStartsLoad(s.(suppressAutoLoad := true), value)
    ensures value != s.selectedTable ==> !AfterSelectTable(s, value).tableShown && AfterSelectTable(s, value).selectedTable == value
  {
  }

  /** A table load that lists some tables selects the first one and then loads its data
      exactly once, from the state with that table selected and auto-load no longer
      suppressed; afterwards auto-load is never left suppressed. */
  lemma LoadTablesSelectsFirst(s: DataState, reply: NamesReply, data: DataReply)
    requires !IsNullOrEmpty(s.selectedSchema) && reply.error.None? && reply.names != []
    ensures var w := s.(tables := reply.names, isLoading := true, status := LoadedTables(s.selectedSchema.value, |reply.names|));
      var sel := FirstTableSelected(w, reply.names[0]);
      && sel.selectedTable == Some(reply.names[0]) && !sel.suppressAutoLoad
      && !SelectTableStartsLoad(w.(suppressAutoLoad := true), Some(reply.names[0]))
      && AfterLoadTables(s, true, reply, data) == AfterLoadData(sel, data).(suppressAutoLoad := false, isLoading := false)
  {
  }

  /** However a table load ends, auto-load is not left suppressed and no load is running. */
  lemma LoadTablesResetsFlags(s: DataState, reply: NamesReply, data: DataReply)
    requires !IsNullOrEmpty(s.selectedSchema)
    ensures !AfterLoadTables(s, true, reply, data).suppressAutoLoad && !AfterLoadTables(s, true, reply, data).isLoading
  {
  }

  /** After the metadata queries of a data load, the primary-key flag says exactly whether
      the table has a primary-key column; with no selectable column the grid is emptied and
      no SELECT is made. When a metadata query fails the flag is off and the key list
      empty. */
  lemma LoadDataPrimaryKey(s: DataState, reply: DataReply)
    requires !IsNullOrEmpty(s.selectedSchema) && !IsNullOrEmpty(s.selectedTable)
    ensures var r := AfterLoadData(s, reply);
      && !r.isLoading
      && (reply.metadataError.None? ==>
            && r.primaryKeyColumns == reply.primaryKeys
            && (r.hasPrimaryKey <==> |reply.primaryKeys| > 0))
      && (reply.metadataError.Some? ==> !r.hasPrimaryKey && r.primaryKeyColumns == [] && !r.tableShown)
      && (reply.metadataError.None? && SelectableColumns(reply.columns) == [] ==>
            && !r.tableShown && r.status == NoSelectableColumns
            && r.adapterSql == s.adapterSql && r.dataTable == s.dataTable)
  {
  }

  /** A data load that reads the table shows at most 200 rows, none marked, from the SELECT
      of the selected table's selectable columns; its status gives the row count and the
      cap when the table has a primary key. */
  lemma LoadDataBounded(s: DataState, reply: DataReply)
    requires !IsNullOrEmpty(s.selectedSchema) && !IsNullOrEmpty(s.selectedTable)
    requires reply.metadataError.None? && reply.fillError.None? && SelectableColumns(reply.columns) != []
    ensures var r := AfterLoadData(s, reply);
      && r.adapterSql == Some(SelectSql(s.selectedSchema.value, s.selectedTable.value, SelectableColumns(reply.columns)))
      && r.tableShown && r.dataTable.Some?
      && |r.dataTable.value| <= DefaultRowLimit
      && |r.dataTable.value| == (if reply.tableRows < DefaultRowLimit then reply.tableRows else DefaultRowLimit)
      && (forall i :: 0 <= i < |r.dataTable.value| ==> !r.dataTable.value[i].markedForDeletion)
      && (r.hasPrimaryKey ==> r.status == LoadedRowsWithLimit(|r.dataTable.value|, DefaultRowLimit))
      && (!r.hasPrimaryKey ==> r.status == LoadedNoPrimaryKey)
  {
  }

  /** Adding a row to a loaded table with a primary key appends one unmarked row and keeps
      every earlier row; otherwise only the status changes. */
  lemma AddRowGrows(s: DataState)
    ensures var r := AfterAddRow(s);
      && (CanEdit(s) ==>
            && r.dataTable.Some? && |r.dataTable.value| == |s.dataTable.value| + 1
            && r.dataTable.value[..|s.dataTable.value|] == s.dataTable.value
            && !r.dataTable.value[|s.dataTable.value|].markedForDeletion
            && r.status == NewRowAdded)
      && (!CanEdit(s) ==> r == s.(status := r.status) && (r.status == LoadDataFirst || r.status == CannotAddRowNoPrimaryKey))
  {
    if CanEdit(s) {
      var r := AfterAddRow(s);
      assert r.dataTable.value[..|s.dataTable.value|] == s.dataTable.value;
    }
  }

  /** Deleting marks exactly the selected row and changes no other row; without a selected
      row or without a primary key only the status changes. */
  lemma DeleteMarksSelectedRow(s: DataState)
    requires ValidData(s)
    ensures var r := AfterDeleteSelectedRow(s);
      && (CanDeleteRow(s) ==>
            && r.dataTable.Some? && |r.dataTable.value| == |s.dataTable.value|
            && r.dataTable.value[s.selectedRow.value].markedForDeletion
            && (forall i :: 0 <= i < |s.dataTable.value| && i != s.selectedRow.value ==> r.dataTable.value[i] == s.dataTable.value[i])
            && r.status == RowMarkedForDeletion)
      && (!CanDeleteRow(s) ==> r == s.(status := r.status) && (r.status == NoRowSelected || r.status == CannotDeleteNoPrimaryKey))
  {
  }

  /** Saving never changes the rows; it is refused without a loaded table and adapter, and
      without a primary key. */
  lemma SaveChangesGuards(s: DataState, saveError: Option<string>)
    ensures var r := AfterSaveChanges(s, saveError);
      && r.dataTable == s.dataTable && r.tableShown == s.tableShown && r.selectedRow == s.selectedRow
      && (!CanSaveChanges(s) ==> r == s.(status := r.status) && (r.status == NoDataToSave || r.status == CannotSaveNoPrimaryKey))
      && (CanSaveChanges(s) ==> r.status == (if saveError.Some? then ErrorSavingChanges(saveError.value) else ChangesSaved))
  {
  }

  /** The guards of the add, delete and save buttons imply the checks inside the commands,
      so an enabled button never meets a refusal. */
  lemma EnabledRowCommandsProceed(s: DataState, saveError: Option<string>)
    requires ValidData(s)
    ensures CanEdit(s) ==> AfterAddRow(s).status == NewRowAdded
    ensures CanDeleteRow(s) ==> AfterDeleteSelectedRow(s).status == RowMarkedForDeletion
    ensures CanSaveChanges(s) ==> AfterSaveChanges(s, saveError).status != NoDataToSave
    ensures CanSaveChanges(s) ==> AfterSaveChanges(s, saveError).status != CannotSaveNoPrimaryKey
  {
  }
}
