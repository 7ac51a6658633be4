/** The schema browser's view-model: loads the schema → table → column tree, lays the stored
    overrides over it, saves them back, and runs the DDL commands (create schema, add a
    field to one table or to every table of a schema, drop a field, move the spatial
    columns of a table to another coordinate system).

    The server is not modelled: every query result an operation reads is a parameter of
    that operation, and every statement the server runs is appended to `executed`. */
module SchemaBrowser {
  import opened Wrappers
  import opened Text
  import opened AppConfigModels
  import opened SchemaModels
  import opened FieldOverlay
  import opened MetadataTree
  import opened Ddl
  import opened Services

  datatype CoordinateSystemName = Wgs84 | WebMercator | Cgcs2000

  datatype CoordinateSystemOption = CoordinateSystemOption(name: CoordinateSystemName, srid: Int32)

  /** The coordinate systems offered as conversion targets. */
  const CoordinateSystems: seq<CoordinateSystemOption> :=
    [CoordinateSystemOption(Wgs84, 4326), CoordinateSystemOption(WebMercator, 3857), CoordinateSystemOption(Cgcs2000, 4490)]

  /** The status line, as a tag with its arguments. The "…ing" messages that an operation
      shows while it waits for the server are always replaced before it ends and are left
      out. */
  datatype SchemaStatus =
    | Ready | NoConnection | Loaded | LoadError(message: string) | SavedConfigs(count: nat)
    | FieldNameRequired | FieldInvalidLength | FieldInvalidType
    | FieldExists(field: string) | FieldAdded(field: string) | FieldCreateError(message: string)
    | NoTableSelected | NoTargetCoordinateSystem | NoSpatialColumns
    | CoordinateConverted(converted: nat, skipped: nat) | CoordinateConvertError(message: string)
    | NoSchemaSelected | SchemaNoTables(schema: string) | BatchFieldCompleted(added: nat, skipped: nat)
    | NoFieldSelected | FieldDeleted(field: string) | FieldDeleteError(message: string)
    | SchemaNameRequired | SchemaExists(schema: string) | SchemaCreated(schema: string) | CreateError(message: string)

  function SpecStatus(e: SpecError): SchemaStatus {
    match e
    case NameRequired => FieldNameRequired
    case InvalidLength => FieldInvalidLength
    case InvalidType => FieldInvalidType
  }

  /** What the two catalog queries of a load return: the schema names, then the column
      rows in catalog order. `error` is the message of a database error that ended the
      load; the names and rows are then those read before it. */
  datatype SchemaReply = SchemaReply(schemaNames: seq<string>, rows: seq<ColumnRow>, error: Option<string>)

  /** Everything the commands of the schema browser read and write, apart from the two
      services: the override map, the tree, the selection (a selected schema or table is
      given by its position in the tree), the busy flag, the status line, the four input
      boxes, and the statements the server has run for this view-model, in order. */
  datatype ViewState = ViewState(
    fieldConfigMap: map<string, FieldConfig>,
    schemas: seq<Schema>,
    selectedCoordinateSystem: Option<CoordinateSystemOption>,
    selectedSchema: Option<nat>,
    selectedTable: Option<(nat, nat)>,
    selectedColumn: Option<Column>,
    isLoading: bool,
    status: SchemaStatus,
    newSchemaName: Option<string>,
    newFieldName: Option<string>,
    newFieldType: Option<string>,
    newFieldLength: Option<string>,
    executed: seq<string>)

  /** The selected schema and table are nodes of the tree. */
  predicate ValidState(v: ViewState) {
    && (v.selectedSchema.Some? ==> v.selectedSchema.value < |v.schemas|)
    && (v.selectedTable.Some? ==> ValidPos(v.schemas, v.selectedTable.value))
  }

  function SelectedTableOf(v: ViewState): Table
    requires ValidState(v) && v.selectedTable.Some?
  {
    v.schemas[v.selectedTable.value.0].tables[v.selectedTable.value.1]
  }

  /** Some column is named `name`, ignoring case. */
  predicate HasColumnNamed(cols: seq<Column>, name: string) {
    exists k :: 0 <= k < |cols| && EqualsIgnoreCase(cols[k].columnName, name)
  }

  /** Some schema is named `name`, ignoring case. */
  predicate HasSchemaNamed(tree: seq<Schema>, name: string) {
    exists k :: 0 <= k < |tree| && EqualsIgnoreCase(tree[k].name, name)
  }

  /** The first column named `name`, ignoring case. */
  function FirstNamed(cols: seq<Column>, name: string): Option<Column>
    decreases |cols|
  {
    if cols == [] then None
    else if EqualsIgnoreCase(cols[0].columnName, name) then Some(cols[0])
    else FirstNamed(cols[1..], name)
  }

  /** The search finds a column exactly when one has the name, and then it finds the first
      such column. */
  lemma {:induction false} FirstNamedFacts(cols: seq<Column>, name: string)
    ensures FirstNamed(cols, name).Some? <==> HasColumnNamed(cols, name)
    ensures FirstNamed(cols, name).Some? ==>
      exists k :: 0 <= k < |cols| && cols[k] == FirstNamed(cols, name).value
        && EqualsIgnoreCase(cols[k].columnName, name)
        && forall l :: 0 <= l < k ==> !EqualsIgnoreCase(cols[l].columnName, name)
    decreases |cols|
  {
    if cols != [] && !EqualsIgnoreCase(cols[0].columnName, name) {
      FirstNamedFacts(cols[1..], name);
      if HasColumnNamed(cols, name) {
        var k :| 0 <= k < |cols| && EqualsIgnoreCase(cols[k].columnName, name);
        assert cols[1..][k - 1] == cols[k];
      }
      if FirstNamed(cols, name).Some? {
        var k :| 0 <= k < |cols[1..]| && cols[1..][k] == FirstNamed(cols, name).value
          && EqualsIgnoreCase(cols[1..][k].columnName, name)
          && forall l :: 0 <= l < k ==> !EqualsIgnoreCase(cols[1..][l].columnName, name);
        assert forall l :: 1 <= l < k + 1 ==> cols[l] == cols[1..][l - 1];
      }
    }
  }

  /** The form boxes after a field has been added: name and length empty, the type back to
      the first entry of the list. */
  function ResetFieldForm(v: ViewState): ViewState {
    v.(newFieldName := Some(""), newFieldType := Some(FieldTypes[0]), newFieldLength := Some(""))
  }

  // ---------------------------------------------------------------------------
  // The commands as transitions of the state. `connected` says whether the current
  // connection string is set; `configs` is what the configuration store holds; the
  // other parameters are what the server answers.

  /** LoadSchemaAsync. Without a connection it only says so. Otherwise it empties the tree
      and the selection, rebuilds the override map, builds the tree from the reply, and
      ends with the load's status. */
  function AfterLoad(v: ViewState, connected: bool, configs: seq<FieldConfig>, reply: SchemaReply): (r: ViewState)
    requires Distinct(reply.schemaNames)
    ensures ValidState(v) ==> ValidState(r)
  {
    if !connected then v.(status := NoConnection)
    else
      var index := BuildIndex(configs);
      v.(fieldConfigMap := index, schemas := Build(reply.schemaNames, index, reply.rows).tree,
         selectedSchema := None, selectedTable := None, selectedColumn := None, isLoading := false,
         status := if reply.error.Some? then LoadError(reply.error.value) else Loaded)
  }

  /** ReloadSelectedTableColumnsAsync: the override map is rebuilt and the columns of
      `schema.table` are read; if a table is selected its column list becomes them, and if a
      column name is given the selected column becomes the first reloaded column with that
      name (none when no column has it). */
  function AfterReload(v: ViewState, configs: seq<FieldConfig>, schema: string, table: string, select: Option<string>, recs: seq<ColumnRecord>): (r: ViewState)
    requires ValidState(v)
    ensures ValidState(r)
  {
    var index := BuildIndex(configs);
    var cols := ReloadColumns(index, schema, table, recs);
    if v.selectedTable.None? then v.(fieldConfigMap := index)
    else
      var p := v.selectedTable.value;
      v.(fieldConfigMap := index, schemas := WithColumns(v.schemas, p.0, p.1, cols),
         selectedColumn := if IsNullOrWhiteSpace(select) then v.selectedColumn else FirstNamed(cols, select.value))
  }

  /** AddFieldAsync. `columnExists` is the server's answer to whether the table already has
      the column; `rejected` maps each statement the server refuses to its error message;
      `recs` is the reply of the reload. The checks that need no server come first. */
  function AfterAddField(v: ViewState, connected: bool, configs: seq<FieldConfig>, columnExists: bool,
                         rejected: map<string, string>, recs: seq<ColumnRecord>): (r: ViewState)
    requires ValidState(v)
    ensures ValidState(r)
  {
    if v.selectedTable.None? then v
    else
      match FieldSpecification(v.newFieldName, v.newFieldType, v.newFieldLength)
      case Err(e) => v.(status := SpecStatus(e))
      case Ok(spec) =>
        if HasColumnNamed(SelectedTableOf(v).columns, spec.name) then v.(status := FieldExists(spec.name))
        else if !connected then v.(status := NoConnection)
        else AfterAddFieldOnServer(v, configs, spec, columnExists, rejected, recs)
  }

  /** The part of AddFieldAsync that talks to the server: the existence query, the ALTER
      TABLE statement, the reload that selects the new column, and the reset form. */
  function AfterAddFieldOnServer(v: ViewState, configs: seq<FieldConfig>, spec: FieldSpec, columnExists: bool,
                                 rejected: map<string, string>, recs: seq<ColumnRecord>): (r: ViewState)
    requires ValidState(v) && v.selectedTable.Some?
    ensures ValidState(r)
  {
    var t := SelectedTableOf(v);
    var busy := v.(isLoading := true);
    if columnExists then v.(isLoading := false, status := FieldExists(spec.name))
    else
      var sql := AddColumnSql(t.schema, t.name, spec);
      if sql in rejected then v.(isLoading := false, status := FieldCreateError(rejected[sql]))
      else
        var w := AfterReload(busy.(executed := v.executed + [sql]), configs, t.schema, t.name, Some(spec.name), recs);
        ResetFieldForm(w).(isLoading := false, status := FieldAdded(spec.name))
  }

  /** ConvertCoordinateSystemAsync. `spatial` is the selected table's geometry columns
      followed by its geography columns. */
  function AfterConvert(v: ViewState, connected: bool, configs: seq<FieldConfig>, spatial: seq<SpatialColumn>,
                        rejected: map<string, string>, recs: seq<ColumnRecord>): (r: ViewState)
    requires ValidState(v)
    ensures ValidState(r)
  {
    if v.selectedTable.None? then v.(status := NoTableSelected)
    else if v.selectedCoordinateSystem.None? then v.(status := NoTargetCoordinateSystem)
    else if !connected then v.(status := NoConnection)
    else AfterConvertOnServer(v, configs, spatial, rejected, recs)
  }

  /** The part of ConvertCoordinateSystemAsync that talks to the server. */
  function AfterConvertOnServer(v: ViewState, configs: seq<FieldConfig>, spatial: seq<SpatialColumn>,
                                rejected: map<string, string>, recs: seq<ColumnRecord>): (r: ViewState)
    requires ValidState(v) && v.selectedTable.Some? && v.selectedCoordinateSystem.Some?
    ensures ValidState(r)
  {
    if spatial == [] then v.(isLoading := false, status := NoSpatialColumns)
    else
      var t := SelectedTableOf(v);
      var target := v.selectedCoordinateSystem.value.srid;
      var targets := ConvertTargets(spatial, target);
      var run := Run(ConvertStatements(t.schema, t.name, targets, target), rejected);
      var w := v.(isLoading := true, executed := v.executed + run.ran);
      if run.error.Some? then w.(isLoading := false, status := CoordinateConvertError(run.error.value))
      else
        AfterReload(w, configs, t.schema, t.name, None, recs)
          .(isLoading := false, status := CoordinateConverted(|targets|, ConvertSkipped(spatial, target)))
  }

  /** BatchAddFieldAsync. `tables` is the schema's base tables in name order, `existing`
      the tables that already have a column of that name, `recs` the reply of the reload of
      the selected table and `reply` that of the final load. */
  function AfterBatchAdd(v: ViewState, connected: bool, configs: seq<FieldConfig>, tables: seq<string>, existing: seq<string>,
                         rejected: map<string, string>, recs: seq<ColumnRecord>, reply: SchemaReply): (r: ViewState)
    requires ValidState(v) && Distinct(reply.schemaNames)
    ensures ValidState(r)
  {
    if v.selectedSchema.None? then v.(status := NoSchemaSelected)
    else
      match FieldSpecification(v.newFieldName, v.newFieldType, v.newFieldLength)
      case Err(e) => v.(status := SpecStatus(e))
      case Ok(spec) =>
        var schemaName := Trim(v.schemas[v.selectedSchema.value].name);
        if !connected then v.(status := NoConnection)
        else if IsBlank(schemaName) then v.(status := NoSchemaSelected)
        else AfterBatchAddOnServer(v, configs, schemaName, spec, tables, existing, rejected, recs, reply)
  }

  /** The part of BatchAddFieldAsync that talks to the server: the two table queries, one
      ALTER TABLE statement per table that lacks the column, and the end of the command. */
  function AfterBatchAddOnServer(v: ViewState, configs: seq<FieldConfig>, schemaName: string, spec: FieldSpec,
                                 tables: seq<string>, existing: seq<string>, rejected: map<string, string>,
                                 recs: seq<ColumnRecord>, reply: SchemaReply): (r: ViewState)
    requires ValidState(v) && Distinct(reply.schemaNames)
    ensures ValidState(r)
  {
    if tables == [] then v.(isLoading := false, status := SchemaNoTables(schemaName))
    else
      var targets := BatchTargets(tables, existing);
      var run := Run(BatchStatements(schemaName, targets, spec), rejected);
      var w := v.(isLoading := true, executed := v.executed + run.ran);
      if run.error.Some? then w.(isLoading := false, status := FieldCreateError(run.error.value))
      else AfterBatchDone(w, configs, spec.name, |targets|, BatchSkipped(tables, existing), recs, reply)
  }

  /** The end of a batch add whose statements have all run: the selected table, if any, is
      reloaded, the form is reset and the counts are shown; then the tree is loaded again,
      and the load's own status replaces the counts. */
  function AfterBatchDone(w: ViewState, configs: seq<FieldConfig>, field: string, added: nat, skipped: nat,
                          recs: seq<ColumnRecord>, reply: SchemaReply): (r: ViewState)
    requires ValidState(w) && Distinct(reply.schemaNames)
    ensures ValidState(r)
  {
    var w1 := if w.selectedTable.Some?
              then AfterReload(w, configs, SelectedTableOf(w).schema, SelectedTableOf(w).name, Some(field), recs)
              else w;
    var w2 := ResetFieldForm(w1).(status := BatchFieldCompleted(added, skipped));
    AfterLoad(w2, true, configs, reply).(isLoading := false)
  }

  /** DeleteFieldAsync. `confirmed` is the answer to the confirmation dialog. */
  function AfterDeleteField(v: ViewState, confirmed: bool, connected: bool, configs: seq<FieldConfig>,
                            rejected: map<string, string>, recs: seq<ColumnRecord>): (r: ViewState)
    requires ValidState(v)
    ensures ValidState(r)
  {
    if v.selectedTable.None? then v
    else if v.selectedColumn.None? then v.(status := NoFieldSelected)
    else if !confirmed then v
    else if !connected then v.(status := NoConnection)
    else AfterDeleteFieldOnServer(v, configs, rejected, recs)
  }

  /** The part of DeleteFieldAsync that talks to the server: the DROP COLUMN statement and
      the reload, after which no column is selected. */
  function AfterDeleteFieldOnServer(v: ViewState, configs: seq<FieldConfig>, rejected: map<string, string>,
                                    recs: seq<ColumnRecord>): (r: ViewState)
    requires ValidState(v) && v.selectedTable.Some? && v.selectedColumn.Some?
    ensures ValidState(r)
  {
    var t := SelectedTableOf(v);
    var field := v.selectedColumn.value.columnName;
    var sql := DropColumnSql(t.schema, t.name, field);
    if sql in rejected then v.(isLoading := false, status := FieldDeleteError(rejected[sql]))
    else
      AfterReload(v.(isLoading := true, executed := v.executed + [sql]), configs, t.schema, t.name, None, recs)
        .(selectedColumn := None, isLoading := false, status := FieldDeleted(field))
  }

  /** AddSchemaAsync. `schemaExists` is the server's answer to whether the schema exists.
      The source tests the trimmed name for blankness; a name is blank exactly when its
      trim is (`TrimKeepsBlankness`), so the untrimmed box is tested here. */
  function AfterAddSchema(v: ViewState, connected: bool, schemaExists: bool, rejected: map<string, string>): (r: ViewState)
    requires ValidState(v)
    ensures ValidState(r)
  {
    if !connected then v.(status := NoConnection)
    else if IsNullOrWhiteSpace(v.newSchemaName) then v.(status := SchemaNameRequired)
    else AfterAddSchemaOnServer(v, Trim(v.newSchemaName.value), schemaExists, rejected)
  }

  /** The part of AddSchemaAsync that talks to the server: the existence query and the
      CREATE SCHEMA statement; the new schema node is appended unless the tree already has
      one of that name. */
  function AfterAddSchemaOnServer(v: ViewState, name: string, schemaExists: bool, rejected: map<string, string>): (r: ViewState)
    requires ValidState(v)
    ensures ValidState(r)
  {
    if schemaExists then v.(isLoading := false, status := SchemaExists(name))
    else
      var sql := CreateSchemaSql(name);
      if sql in rejected then v.(isLoading := false, status := CreateError(rejected[sql]))
      else
        v.(executed := v.executed + [sql],
           schemas := if HasSchemaNamed(v.schemas, name) then v.schemas else v.schemas + [Schema(name, [])],
           newSchemaName := Some(""), isLoading := false, status := SchemaCreated(name))
  }

  // ---------------------------------------------------------------------------
  // The command guards.

  predicate CanAddField(v: ViewState) {
    !v.isLoading && v.selectedTable.Some? && !IsNullOrWhiteSpace(v.newFieldName) && !IsNullOrWhiteSpace(v.newFieldType)
  }

  predicate CanBatchAddField(v: ViewState) {
    && !v.isLoading && v.selectedSchema.Some? && v.selectedTable.None?
    && !IsNullOrWhiteSpace(v.newFieldName) && !IsNullOrWhiteSpace(v.newFieldType)
  }

  predicate CanConvertCoordinateSystem(v: ViewState) {
    !v.isLoading && v.selectedTable.Some? && v.selectedCoordinateSystem.Some?
  }

  predicate CanDeleteField(v: ViewState) {
    !v.isLoading && v.selectedTable.Some? && v.selectedColumn.Some?
  }

  predicate CanAddSchema(v: ViewState) {
    !v.isLoading && !IsNullOrWhiteSpace(v.newSchemaName)
  }

  class SchemaViewModel {
    const db: DbConnectionService
    const store: AppConfigService
    var fieldConfigMap: map<string, FieldConfig>
    var schemas: seq<Schema>
    var selectedCoordinateSystem: Option<CoordinateSystemOption>
    var selectedSchema: Option<nat>
    var selectedTable: Option<(nat, nat)>
    var selectedColumn: Option<Column>
    var isLoading: bool
    var status: SchemaStatus
    var newSchemaName: Option<string>
    var newFieldName: Option<string>
    var newFieldType: Option<string>
    var newFieldLength: Option<string>
    var executed: seq<string>

    function State(): ViewState
      reads this
    {
      ViewState(fieldConfigMap, schemas, selectedCoordinateSystem, selectedSchema, selectedTable, selectedColumn,
                isLoading, status, newSchemaName, newFieldName, newFieldType, newFieldLength, executed)
    }

    predicate Valid()
      reads this
    {
      ValidState(State())
    }

    function Connected(): bool
      reads this, db
    {
      db.currentConnection.Some?
    }

    constructor (db: DbConnectionService, store: AppConfigService)
      ensures Valid() && this.db == db && this.store == store
      ensures State() == ViewState(map[], [], None, None, None, None, false, Ready, None, None, Some(FieldTypes[0]), None, [])
    {
      this.db := db;
      this.store := store;
      fieldConfigMap, schemas, executed := map[], [], [];
      selectedCoordinateSystem, selectedSchema, selectedTable, selectedColumn := None, None, None, None;
      isLoading, status := false, Ready;
      newSchemaName, newFieldName, newFieldType, newFieldLength := None, None, Some(FieldTypes[0]), None;
    }

    /** The selection and the input boxes, as the view sets them. */
    method SetSelectedSchema(i: Option<nat>)
      requires Valid() && (i.Some? ==> i.value < |schemas|)
      modifies this
      ensures Valid() && State() == old(State()).(selectedSchema := i)
    {
      selectedSchema := i;
    }

    method SetSelectedTable(p: Option<(nat, nat)>)
      requires Valid() && (p.Some? ==> ValidPos(schemas, p.value))
      modifies this
      ensures Valid() && State() == old(State()).(selectedTable := p)
    {
      selectedTable := p;
    }

    method SetSelectedColumn(c: Option<Column>)
      requires Valid()
      modifies this
      ensures Valid() && State() == old(State()).(selectedColumn := c)
    {
      selectedColumn := c;
    }

    method SetSelectedCoordinateSystem(c: Option<CoordinateSystemOption>)
      requires Valid()
      modifies this
      ensures Valid() && State() == old(State()).(selectedCoordinateSystem := c)
    {
      selectedCoordinateSystem := c;
    }

    method SetInputs(schemaName: Option<string>, fieldName: Option<string>, fieldType: Option<string>, fieldLength: Option<string>)
      requires Valid()
      modifies this
      ensures Valid()
      ensures State() == old(State()).(newSchemaName := schemaName, newFieldName := fieldName,
                                        newFieldType := fieldType, newFieldLength := fieldLength)
    {
      newSchemaName, newFieldName, newFieldType, newFieldLength := schemaName, fieldName, fieldType, fieldLength;
    }

    /** BuildFieldConfigMap: the map is emptied, then every stored record is put under its
        key in store order. */
    method BuildFieldConfigMap()
      modifies this
      ensures State() == old(State()).(fieldConfigMap := BuildIndex(store.LoadFieldConfigs()))
    {
      fieldConfigMap := map[];
      var configs := store.LoadFieldConfigs();
      var i := 0;
      while i < |configs|
        invariant 0 <= i <= |configs|
        invariant State() == old(State()).(fieldConfigMap := BuildIndex(configs[..i]))
      {
        var cfg := configs[i];
        assert configs[..i + 1][..i] == configs[..i];
        fieldConfigMap := fieldConfigMap[MakeFieldKey(cfg.schema, cfg.table, cfg.column) := cfg];
        i := i + 1;
      }
      assert configs[..i] == configs;
    }

    /** ApplyFieldConfig: lays the stored override for `schema.table.column` over the column
        node, if there is one. */
    method ApplyFieldConfig(schema: string, table: string, col: ColumnItem)
      modifies col
      ensures col.View() == Apply(fieldConfigMap, schema, table, old(col.View()))
    {
      var key := MakeFieldKey(schema, table, col.columnName);
      if key in fieldConfigMap {
        var cfg := fieldConfigMap[key];
        col.isVisible := cfg.isVisible;
        col.alias := if IsBlank(cfg.alias) then col.columnName else cfg.alias;
        col.localType := if IsBlank(cfg.localType) then col.localType else cfg.localType;
        col.localLength := if cfg.localLength.Some? then cfg.localLength else col.localLength;
        col.localDefault := cfg.localDefault.GetOr(col.localDefault);
      }
    }

    /** The column node for one catalog row of table `schema.table`. */
    method MakeColumn(schema: string, table: string, rec: ColumnRecord) returns (c: ColumnItem)
      ensures fresh(c) && c.View() == NewColumn(fieldConfigMap, schema, table, rec)
    {
      c := new ColumnItem();
      c.columnName := rec.columnName;
      c.isNullable := rec.isNullable == "YES";
      c.alias := rec.columnName;
      c.InitFromDb(rec.dataType, rec.columnDefault, rec.characterMaximumLength);
      ApplyFieldConfig(schema, table, c);
    }

    /** One turn of the loading loop over the tree and the two dictionaries: the row's
        schema node is looked up by name or appended, its table node is looked up by
        "schema.table" or appended to that schema node, and the column node made from the
        row is appended to the table node. */
    method AddRowToTree(tree: seq<Schema>, schemaDict: map<string, nat>, tableDict: map<string, (nat, nat)>, row: ColumnRow)
      returns (tree': seq<Schema>, schemaDict': map<string, nat>, tableDict': map<string, (nat, nat)>)
      requires Indexed(TreeState(tree, schemaDict, tableDict))
      ensures TreeState(tree', schemaDict', tableDict') == AddRow(TreeState(tree, schemaDict, tableDict), fieldConfigMap, row)
    {
      ghost var st := TreeState(tree, schemaDict, tableDict);
      AddRowSteps(st, fieldConfigMap, row);
      tree', schemaDict', tableDict' := tree, schemaDict, tableDict;
      var schemaName := row.tableSchema;
      if schemaName !in schemaDict' {
        schemaDict' := schemaDict'[schemaName := |tree'|];
        tree' := tree' + [Schema(schemaName, [])];
      }
      ghost var st1 := TreeState(tree', schemaDict', tableDict');
      assert st1 == WithSchemaNode(st, schemaName);
      var si := schemaDict'[schemaName];
      var tableKey := schemaName + "." + row.tableName;
      if tableKey !in tableDict' {
        tableDict' := tableDict'[tableKey := (si, |tree'[si].tables|)];
        tree' := tree'[si := tree'[si].(tables := tree'[si].tables + [Table(schemaName, row.tableName, [])])];
      }
      ghost var st2 := TreeState(tree', schemaDict', tableDict');
      assert st2 == WithTableNode(st1, si, schemaName, row.tableName);
      var col := MakeColumn(schemaName, row.tableName, row.record);
      var p := tableDict'[tableKey];
      var t := tree'[p.0].tables[p.1];
      tree' := tree'[p.0 := tree'[p.0].(tables := tree'[p.0].tables[p.1 := t.(columns := t.columns + [col.View()])])];
    }

    /** The first half of the load: one empty schema node per name of the schema query,
        and the schema dictionary built from them. */
    static method SchemaNodes(names: seq<string>)
      returns (tree: seq<Schema>, schemaDict: map<string, nat>, tableDict: map<string, (nat, nat)>)
      requires Distinct(names)
      ensures TreeState(tree, schemaDict, tableDict) == Initial(names)
    {
      tree, schemaDict, tableDict := [], map[], map[];
      var i := 0;
      while i < |names|
        invariant 0 <= i <= |names|
        invariant |tree| == i && forall k :: 0 <= k < i ==> tree[k] == Schema(names[k], [])
        invariant schemaDict == NameIndex(names[..i])
      {
        assert names[..i + 1][..i] == names[..i];
        tree, schemaDict := tree + [Schema(names[i], [])], schemaDict[names[i] := i];
        i := i + 1;
      }
      assert names[..i] == names;
      assert tree == Initial(names).tree;
    }

    /** The loading loop over the rows of the column query, in row order. */
    method BuildTree(names: seq<string>, rows: seq<ColumnRow>)
      returns (tree: seq<Schema>, schemaDict: map<string, nat>, tableDict: map<string, (nat, nat)>)
      requires Distinct(names)
      ensures TreeState(tree, schemaDict, tableDict) == Build(names, fieldConfigMap, rows)
    {
      tree, schemaDict, tableDict := SchemaNodes(names);
      var j := 0;
      while j < |rows|
        invariant 0 <= j <= |rows|
        invariant TreeState(tree, schemaDict, tableDict) == Build(names, fieldConfigMap, rows[..j])
      {
        BuildIndexed(names, fieldConfigMap, rows[..j]);
        BuildSnoc(names, fieldConfigMap, rows, j);
        tree, schemaDict, tableDict := AddRowToTree(tree, schemaDict, tableDict, rows[j]);
        j := j + 1;
      }
      assert rows[..j] == rows;
    }

    /** LoadSchemaAsync over the reply of the two catalog queries. The schema names of a
        catalog are distinct; the dictionary built from them would throw otherwise. */
    method LoadSchema(reply: SchemaReply)
      requires Valid() && Distinct(reply.schemaNames)
      modifies this
      ensures State() == AfterLoad(old(State()), Connected(), store.LoadFieldConfigs(), reply)
    {
      if db.currentConnection.None? {
        status := NoConnection;
      } else {
        LoadConnected(reply);
      }
    }

    /** The load once a connection string is set: the tree and the selection are emptied,
        the override map is rebuilt, and the tree is built from the reply. */
    method LoadConnected(reply: SchemaReply)
      requires Distinct(reply.schemaNames)
      modifies this
      ensures State() == AfterLoad(old(State()), true, store.LoadFieldConfigs(), reply)
    {
      selectedSchema, selectedTable, selectedColumn := None, None, None;
      BuildFieldConfigMap();
      LoadTree(reply);
      isLoading, status := false, if reply.error.Some? then LoadError(reply.error.value) else Loaded;
    }

    /** The tree becomes the one built from the reply over the current override map. */
    method LoadTree(reply: SchemaReply)
      requires Distinct(reply.schemaNames)
      modifies this
      ensures State() == old(State()).(schemas := Build(reply.schemaNames, fieldConfigMap, reply.rows).tree)
    {
      var tree, schemaDict, tableDict := BuildTree(reply.schemaNames, reply.rows);
      schemas := tree;
    }

    /** The innermost loop of SaveFieldConfigs: a record for each column of `table` with a
        non-blank name, appended to `configs`. */
    static method AppendColumnRecords(configs: seq<FieldConfig>, schemaName: string, table: Table) returns (configs': seq<FieldConfig>)
      ensures configs' == configs + ProjectColumns(schemaName, table.name, table.columns)
    {
      configs' := configs;
      var k := 0;
      while k < |table.columns|
        invariant 0 <= k <= |table.columns|
        invariant configs' == configs + ProjectColumns(schemaName, table.name, table.columns[..k])
      {
        var col := table.columns[k];
        assert table.columns[..k + 1][..k] == table.columns[..k];
        ghost var tail := if IsBlank(col.columnName) then [] else [Record(schemaName, table.name, col)];
        assert ProjectColumns(schemaName, table.name, table.columns[..k + 1])
          == ProjectColumns(schemaName, table.name, table.columns[..k]) + tail;
        if !IsBlank(col.columnName) {
          configs' := configs' + [FieldConfig(schemaName, table.name, col.columnName, col.isVisible,
                                              col.alias, col.localType, col.localLength, Some(col.localDefault))];
        }
        AppendAssoc(configs, ProjectColumns(schemaName, table.name, table.columns[..k]), tail);
        k := k + 1;
      }
      assert table.columns[..k] == table.columns;
    }

    /** The middle loop of SaveFieldConfigs: the records of each table of `schema` with a
        non-blank name, appended to `configs`. */
    static method AppendTableRecords(configs: seq<FieldConfig>, schema: Schema) returns (configs': seq<FieldConfig>)
      ensures configs' == configs + ProjectTables(schema.name, schema.tables)
    {
      configs' := configs;
      var j := 0;
      while j < |schema.tables|
        invariant 0 <= j <= |schema.tables|
        invariant configs' == configs + ProjectTables(schema.name, schema.tables[..j])
      {
        var table := schema.tables[j];
        assert schema.tables[..j + 1][..j] == schema.tables[..j];
        ghost var tail := if IsBlank(table.name) then [] else ProjectColumns(schema.name, table.name, table.columns);
        assert ProjectTables(schema.name, schema.tables[..j + 1]) == ProjectTables(schema.name, schema.tables[..j]) + tail;
        if !IsBlank(table.name) {
          configs' := AppendColumnRecords(configs', schema.name, table);
        }
        AppendAssoc(configs, ProjectTables(schema.name, schema.tables[..j]), tail);
        j := j + 1;
      }
      assert schema.tables[..j] == schema.tables;
    }

    /** SaveFieldConfigs: one record per column of the tree whose schema, table and column
        names are all non-blank, in tree order, handed to the store; the status gives the
        count. */
    method SaveFieldConfigs()
      modifies this, store
      ensures store.config == old(store.config).(fieldConfigs := ProjectTree(old(schemas)))
      ensures State() == old(State()).(status := SavedConfigs(|ProjectTree(old(schemas))|))
    {
      var configs: seq<FieldConfig> := [];
      var i := 0;
      while i < |schemas|
        invariant 0 <= i <= |schemas|
        invariant configs == ProjectTree(schemas[..i])
        modifies {}
      {
        var schema := schemas[i];
        assert schemas[..i + 1][..i] == schemas[..i];
        ghost var tail := if IsBlank(schema.name) then [] else ProjectTables(schema.name, schema.tables);
        assert ProjectTree(schemas[..i + 1]) == ProjectTree(schemas[..i]) + tail;
        if !IsBlank(schema.name) {
          configs := AppendTableRecords(configs, schema);
        }
        assert configs == ProjectTree(schemas[..i]) + tail;
        i := i + 1;
      }
      assert schemas[..i] == schemas;
      store.SaveFieldConfigs(configs);
      status := SavedConfigs(|configs|);
    }

    /** The reading loop of ReloadSelectedTableColumnsAsync: one column node per row of the
        reply, in row order. */
    method ReadColumns(schema: string, table: string, recs: seq<ColumnRecord>) returns (cols: seq<Column>)
      ensures cols == ReloadColumns(fieldConfigMap, schema, table, recs)
    {
      cols := [];
      var i := 0;
      while i < |recs|
        invariant 0 <= i <= |recs|
        invariant |cols| == i && forall k :: 0 <= k < i ==> cols[k] == NewColumn(fieldConfigMap, schema, table, recs[k])
      {
        var c := MakeColumn(schema, table, recs[i]);
        cols := cols + [c.View()];
        i := i + 1;
      }
    }

    /** ReloadSelectedTableColumnsAsync over the reply `recs` of the column query. */
    method ReloadSelectedTableColumns(schema: string, table: string, select: Option<string>, recs: seq<ColumnRecord>)
      requires Valid()
      modifies this
      ensures State() == AfterReload(old(State()), store.LoadFieldConfigs(), schema, table, select, recs)
    {
      BuildFieldConfigMap();
      var columns := ReadColumns(schema, table, recs);
      if selectedTable.None? {
        return;
      }
      var p := selectedTable.value;
      schemas := WithColumns(schemas, p.0, p.1, columns);
      if !IsNullOrWhiteSpace(select) {
        selectedColumn := FirstNamed(columns, select.value);
      }
    }

    /** AddFieldAsync. */
    method AddField(columnExists: bool, rejected: map<string, string>, recs: seq<ColumnRecord>)
      requires Valid()
      modifies this
      ensures State() == AfterAddField(old(State()), Connected(), store.LoadFieldConfigs(), columnExists, rejected, recs)
    {
      if selectedTable.None? {
        return;
      }
      var p := selectedTable.value;
      var spec := FieldSpecification(newFieldName, newFieldType, newFieldLength);
      if spec.Err? {
        status := SpecStatus(spec.error);
        return;
      }
      if HasColumnNamed(schemas[p.0].tables[p.1].columns, spec.value.name) {
        status := FieldExists(spec.value.name);
        return;
      }
      if db.currentConnection.None? {
        status := NoConnection;
        return;
      }
      AddFieldOnServer(spec.value, columnExists, rejected, recs);
    }

    method AddFieldOnServer(spec: FieldSpec, columnExists: bool, rejected: map<string, string>, recs: seq<ColumnRecord>)
      requires Valid() && selectedTable.Some?
      modifies this
      ensures State() == AfterAddFieldOnServer(old(State()), store.LoadFieldConfigs(), spec, columnExists, rejected, recs)
    {
      var p := selectedTable.value;
      var t := schemas[p.0].tables[p.1];
      isLoading := true;
      if columnExists {
        isLoading, status := false, FieldExists(spec.name);
        return;
      }
      var sql := AddColumnSql(t.schema, t.name, spec);
      if sql in rejected {
        isLoading, status := false, FieldCreateError(rejected[sql]);
        return;
      }
      executed := executed + [sql];
      ghost var sent := State();
      ReloadSelectedTableColumns(t.schema, t.name, Some(spec.name), recs);
      ghost var reloaded := State();
      ResetAfterAdd(spec.name);
      assert State() == ResetFieldForm(reloaded).(isLoading := false, status := FieldAdded(spec.name));
    }

    /** The end of AddFieldAsync: the form is reset and the new field is reported. */
    method ResetAfterAdd(field: string)
      modifies this
      ensures State() == ResetFieldForm(old(State())).(isLoading := false, status := FieldAdded(field))
    {
      newFieldName, newFieldType, newFieldLength, isLoading, status := Some(""), Some(FieldTypes[0]), Some(""), false, FieldAdded(field);
    }

    /** ConvertCoordinateSystemAsync. `spatial` is the reply of the geometry column query
        followed by that of the geography column query. */
    method ConvertCoordinateSystem(spatial: seq<SpatialColumn>, rejected: map<string, string>, recs: seq<ColumnRecord>)
      requires Valid()
      modifies this
      ensures State() == AfterConvert(old(State()), Connected(), store.LoadFieldConfigs(), spatial, rejected, recs)
    {
      if selectedTable.None? {
        status := NoTableSelected;
        return;
      }
      if selectedCoordinateSystem.None? {
        status := NoTargetCoordinateSystem;
        return;
      }
      if db.currentConnection.None? {
        status := NoConnection;
        return;
      }
      ConvertOnServer(spatial, rejected, recs);
    }

    method ConvertOnServer(spatial: seq<SpatialColumn>, rejected: map<string, string>, recs: seq<ColumnRecord>)
      requires Valid() && selectedTable.Some? && selectedCoordinateSystem.Some?
      modifies this
      ensures State() == AfterConvertOnServer(old(State()), store.LoadFieldConfigs(), spatial, rejected, recs)
    {
      var p := selectedTable.value;
      var schemaName, tableName := schemas[p.0].tables[p.1].schema, schemas[p.0].tables[p.1].name;
      var targetSrid := selectedCoordinateSystem.value.srid;
      isLoading := true;
      if spatial == [] {
        isLoading, status := false, NoSpatialColumns;
        return;
      }
      var ran, error, converted, skipped := RunConversion(schemaName, tableName, spatial, targetSrid, rejected);
      executed := executed + ran;
      if error.Some? {
        isLoading, status := false, CoordinateConvertError(error.value);
        return;
      }
      ReloadSelectedTableColumns(schemaName, tableName, None, recs);
      isLoading, status := false, CoordinateConverted(converted, skipped);
    }

    /** The end of BatchAddFieldAsync once every statement has run. */
    method FinishBatch(field: string, added: nat, skipped: nat, recs: seq<ColumnRecord>, reply: SchemaReply)
      requires Valid() && Distinct(reply.schemaNames) && Connected()
      modifies this
      ensures State() == AfterBatchDone(old(State()), store.LoadFieldConfigs(), field, added, skipped, recs, reply)
    {
      if selectedTable.Some? {
        var p := selectedTable.value;
        var t := schemas[p.0].tables[p.1];
        ReloadSelectedTableColumns(t.schema, t.name, Some(field), recs);
      }
      newFieldName, newFieldType, newFieldLength := Some(""), Some(FieldTypes[0]), Some("");
      status := BatchFieldCompleted(added, skipped);
      LoadSchema(reply);
      isLoading := false;
    }

    /** BatchAddFieldAsync. `tables` is the reply of the base-table query, `existing` that
        of the query for tables that already have the column. */
    method BatchAddField(tables: seq<string>, existing: seq<string>, rejected: map<string, string>,
                         recs: seq<ColumnRecord>, reply: SchemaReply)
      requires Valid() && Distinct(reply.schemaNames)
      modifies this
      ensures State() == AfterBatchAdd(old(State()), Connected(), store.LoadFieldConfigs(), tables, existing, rejected, recs, reply)
    {
      if selectedSchema.None? {
        status := NoSchemaSelected;
        return;
      }
      var spec := FieldSpecification(newFieldName, newFieldType, newFieldLength);
      if spec.Err? {
        status := SpecStatus(spec.error);
        return;
      }
      if db.currentConnection.None? {
        status := NoConnection;
        return;
      }
      var schemaName := Trim(schemas[selectedSchema.value].name);
      if IsBlank(schemaName) {
        status := NoSchemaSelected;
        return;
      }
      BatchAddOnServer(schemaName, spec.value, tables, existing, rejected, recs, reply);
    }

    method BatchAddOnServer(schemaName: string, spec: FieldSpec, tables: seq<string>, existing: seq<string>,
                            rejected: map<string, string>, recs: seq<ColumnRecord>, reply: SchemaReply)
      requires Valid() && Distinct(reply.schemaNames) && Connected()
      modifies this
      ensures State() == AfterBatchAddOnServer(old(State()), store.LoadFieldConfigs(), schemaName, spec, tables, existing, rejected, recs, reply)
    {
      isLoading := true;
      if tables == [] {
        isLoading, status := false, SchemaNoTables(schemaName);
        return;
      }
      var ran, error, added, skipped := RunBatch(schemaName, tables, existing, spec, rejected);
      executed := executed + ran;
      if error.Some? {
        isLoading, status := false, FieldCreateError(error.value);
        return;
      }
      FinishBatch(spec.name, added, skipped, recs, reply);
    }

    /** DeleteFieldAsync. `confirmed` is the answer to the confirmation dialog. */
    method DeleteField(confirmed: bool, rejected: map<string, string>, recs: seq<ColumnRecord>)
      requires Valid()
      modifies this
      ensures State() == AfterDeleteField(old(State()), confirmed, Connected(), store.LoadFieldConfigs(), rejected, recs)
    {
      if selectedTable.None? {
        return;
      }
      if selectedColumn.None? {
        status := NoFieldSelected;
        return;
      }
      if !confirmed {
        return;
      }
      if db.currentConnection.None? {
        status := NoConnection;
        return;
      }
      DeleteFieldOnServer(rejected, recs);
    }

    method DeleteFieldOnServer(rejected: map<string, string>, recs: seq<ColumnRecord>)
      requires Valid() && selectedTable.Some? && selectedColumn.Some?
      modifies this
      ensures State() == AfterDeleteFieldOnServer(old(State()), store.LoadFieldConfigs(), rejected, recs)
    {
      var fieldName := selectedColumn.value.columnName;
      var p := selectedTable.value;
      var t := schemas[p.0].tables[p.1];
      isLoading := true;
      var sql := DropColumnSql(t.schema, t.name, fieldName);
      if sql in rejected {
        isLoading, status := false, FieldDeleteError(rejected[sql]);
        return;
      }
      executed := executed + [sql];
      ReloadSelectedTableColumns(t.schema, t.name, None, recs);
      selectedColumn, isLoading, status := None, false, FieldDeleted(fieldName);
    }

    /** AddSchemaAsync. */
    method AddSchema(schemaExists: bool, rejected: map<string, string>)
      requires Valid()
      modifies this
      ensures State() == AfterAddSchema(old(State()), Connected(), schemaExists, rejected)
    {
      if db.currentConnection.None? {
        status := NoConnection;
        return;
      }
      if IsNullOrWhiteSpace(newSchemaName) {
        status := SchemaNameRequired;
        return;
      }
      AddSchemaOnServer(Trim(newSchemaName.value), schemaExists, rejected);
    }

    method AddSchemaOnServer(schemaName: string, schemaExists: bool, rejected: map<string, string>)
      requires Valid()
      modifies this
      ensures State() == AfterAddSchemaOnServer(old(State()), schemaName, schemaExists, rejected)
    {
      isLoading := true;
      if schemaExists {
        isLoading, status := false, SchemaExists(schemaName);
        return;
      }
      var sql := CreateSchemaSql(schemaName);
      if sql in rejected {
        isLoading, status := false, CreateError(rejected[sql]);
        return;
      }
      executed := executed + [sql];
      if !HasSchemaNamed(schemas, schemaName) {
        schemas := schemas + [Schema(schemaName, [])];
      }
      newSchemaName, isLoading, status := Some(""), false, SchemaCreated(schemaName);
    }
  }
}
