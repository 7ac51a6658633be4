/** What the schema browser's commands promise, stated over the transitions of
    SchemaBrowser: which checks come before the server is asked, which statements reach
    the server, and what the tree and the selection look like afterwards. */
module SchemaLaws {
  import opened Wrappers
  import opened Text
  import opened AppConfigModels
  import opened SchemaModels
  import opened FieldOverlay
  import opened MetadataTree
  import opened Ddl
  import opened SchemaBrowser

  /** The statements a command has sent are appended to those sent before it. */
  predicate SentAfter(v: ViewState, r: ViewState, stmts: seq<string>) {
    |v.executed| <= |r.executed| && r.executed[..|v.executed|] == v.executed && r.executed[|v.executed|..] == stmts
  }

  // ---------------------------------------------------------------------------
  // The command guards.

  /** The add-field button is enabled only with a name typed in, so a command it starts
      never ends on the missing-name status. */
  lemma GuardedAddHasName(v: ViewState, connected: bool, configs: seq<FieldConfig>, columnExists: bool,
                          rejected: map<string, string>, recs: seq<ColumnRecord>)
    requires ValidState(v) && CanAddField(v)
    ensures FieldSpecification(v.newFieldName, v.newFieldType, v.newFieldLength) != Err(NameRequired)
    ensures AfterAddField(v, connected, configs, columnExists, rejected, recs).status != FieldNameRequired
  {
    FieldSpecificationErrors(v.newFieldName, v.newFieldType, v.newFieldLength);
    var f := FieldSpecification(v.newFieldName, v.newFieldType, v.newFieldLength);
    if f.Ok? && !HasColumnNamed(SelectedTableOf(v).columns, f.value.name) && connected {
      AddFieldServerStatus(v, configs, f.value, columnExists, rejected, recs);
    }
  }

  /** The server part of an add-field command ends on an exists, an error or an added
      status. */
  lemma AddFieldServerStatus(v: ViewState, configs: seq<FieldConfig>, spec: FieldSpec, columnExists: bool,
                             rejected: map<string, string>, recs: seq<ColumnRecord>)
    requires ValidState(v) && v.selectedTable.Some?
    ensures var r := AfterAddFieldOnServer(v, configs, spec, columnExists, rejected, recs);
      r.status == FieldExists(spec.name) || r.status.FieldCreateError? || r.status == FieldAdded(spec.name)
  {
  }

  /** A batch add started from its enabled button does not stop on a missing name either. */
  lemma GuardedBatchHasName(v: ViewState)
    requires CanBatchAddField(v)
    ensures FieldSpecification(v.newFieldName, v.newFieldType, v.newFieldLength) != Err(NameRequired)
  {
    FieldSpecificationErrors(v.newFieldName, v.newFieldType, v.newFieldLength);
  }

  // ---------------------------------------------------------------------------
  // AddFieldAsync.

  /** The in-memory check for an existing column comes before the connection check: when the
      selected table already lists a column of that name (ignoring case), the command only
      says so, connected or not, and nothing reaches the server. */
  lemma AddFieldChecksMemoryFirst(v: ViewState, connected: bool, configs: seq<FieldConfig>, columnExists: bool,
                                  rejected: map<string, string>, recs: seq<ColumnRecord>, spec: FieldSpec)
    requires ValidState(v) && v.selectedTable.Some?
    requires FieldSpecification(v.newFieldName, v.newFieldType, v.newFieldLength) == Ok(spec)
    requires HasColumnNamed(SelectedTableOf(v).columns, spec.name)
    ensures AfterAddField(v, connected, configs, columnExists, rejected, recs) == v.(status := FieldExists(spec.name))
  {
  }

  /** An add-field command sends at most one statement: the ADD COLUMN for the selected table
      and the requested field, and only when the request is valid, the table in memory has no
      such column, a connection is set and the server reports no such column either. */
  lemma AddFieldSendsAtMostOne(v: ViewState, connected: bool, configs: seq<FieldConfig>, columnExists: bool,
                               rejected: map<string, string>, recs: seq<ColumnRecord>)
    requires ValidState(v)
    ensures var r := AfterAddField(v, connected, configs, columnExists, rejected, recs);
      var f := FieldSpecification(v.newFieldName, v.newFieldType, v.newFieldLength);
      || r.executed == v.executed
      || (&& v.selectedTable.Some? && f.Ok? && connected && !columnExists
          && !HasColumnNamed(SelectedTableOf(v).columns, f.value.name)
          && r.executed == v.executed + [AddColumnSql(SelectedTableOf(v).schema, SelectedTableOf(v).name, f.value)]
          && r.status == FieldAdded(f.value.name))
  {
    if v.selectedTable.Some? {
      var f := FieldSpecification(v.newFieldName, v.newFieldType, v.newFieldLength);
      if f.Ok? && !HasColumnNamed(SelectedTableOf(v).columns, f.value.name) && connected {
        AddFieldServerSends(v, configs, f.value, columnExists, rejected, recs);
      }
    }
  }

  lemma AddFieldServerSends(v: ViewState, configs: seq<FieldConfig>, spec: FieldSpec, columnExists: bool,
                            rejected: map<string, string>, recs: seq<ColumnRecord>)
    requires ValidState(v) && v.selectedTable.Some?
    ensures var r := AfterAddFieldOnServer(v, configs, spec, columnExists, rejected, recs);
      var sql := AddColumnSql(SelectedTableOf(v).schema, SelectedTableOf(v).name, spec);
      || (r.executed == v.executed && r.schemas == v.schemas)
      || (!columnExists && sql !in rejected && r.executed == v.executed + [sql] && r.status == FieldAdded(spec.name))
  {
  }

  /** A field the server adds is shown at once: the selected table's columns become those the
      reload reads, with the stored overrides laid over them; the new column is selected when
      the reload lists it (its name compared ignoring case) and otherwise no column is; the
      form is reset; and nothing else in the tree changes. */
  lemma AddFieldSuccess(v: ViewState, configs: seq<FieldConfig>, spec: FieldSpec,
                        rejected: map<string, string>, recs: seq<ColumnRecord>)
    requires ValidState(v) && v.selectedTable.Some?
    requires FieldSpecification(v.newFieldName, v.newFieldType, v.newFieldLength) == Ok(spec)
    requires !HasColumnNamed(SelectedTableOf(v).columns, spec.name)
    requires AddColumnSql(SelectedTableOf(v).schema, SelectedTableOf(v).name, spec) !in rejected
    ensures var r := AfterAddField(v, true, configs, false, rejected, recs);
      var t := SelectedTableOf(v);
      var cols := ReloadColumns(BuildIndex(configs), t.schema, t.name, recs);
      && r.selectedTable == v.selectedTable && ValidState(r)
      && SelectedTableOf(r) == t.(columns := cols)
      && (r.selectedColumn.Some? <==> HasColumnNamed(cols, spec.name))
      && (r.selectedColumn.Some? ==> r.selectedColumn.value in cols && EqualsIgnoreCase(r.selectedColumn.value.columnName, spec.name))
      && r.newFieldName == Some("") && r.newFieldType == Some("text") && r.newFieldLength == Some("")
      && r.fieldConfigMap == BuildIndex(configs) && !r.isLoading && r.status == FieldAdded(spec.name)
      && |r.schemas| == |v.schemas|
      && (forall i :: 0 <= i < |v.schemas| && i != v.selectedTable.value.0 ==> r.schemas[i] == v.schemas[i])
  {
    var t := SelectedTableOf(v);
    var cols := ReloadColumns(BuildIndex(configs), t.schema, t.name, recs);
    AcceptedName(v.newFieldName, v.newFieldType, v.newFieldLength);
    FirstNamedFacts(cols, spec.name);
  }

  // ---------------------------------------------------------------------------
  // ReloadSelectedTableColumnsAsync.

  /** A reload rebuilds the override map and changes nothing but the selected table's column
      list and, when a name is given, the selected column; without a selected table only the
      map changes. */
  lemma ReloadFrame(v: ViewState, configs: seq<FieldConfig>, schema: string, table: string, select: Option<string>, recs: seq<ColumnRecord>)
    requires ValidState(v)
    ensures var r := AfterReload(v, configs, schema, table, select, recs);
      && r.(fieldConfigMap := v.fieldConfigMap, schemas := v.schemas, selectedColumn := v.selectedColumn) == v
      && r.fieldConfigMap == BuildIndex(configs)
      && (IsNullOrWhiteSpace(select) || v.selectedTable.None? ==> r.selectedColumn == v.selectedColumn)
      && (v.selectedTable.None? ==> r.schemas == v.schemas)
      && (v.selectedTable.Some? ==>
            && |r.schemas| == |v.schemas|
            && SelectedTableOf(r) == SelectedTableOf(v).(columns := ReloadColumns(BuildIndex(configs), schema, table, recs))
            && forall p: (nat, nat) :: ValidPos(v.schemas, p) && p != v.selectedTable.value ==>
                 ValidPos(r.schemas, p) && r.schemas[p.0].tables[p.1] == v.schemas[p.0].tables[p.1])
  {
    if v.selectedTable.Some? {
      var p := v.selectedTable.value;
      var cols := ReloadColumns(BuildIndex(configs), schema, table, recs);
      var tree := WithColumns(v.schemas, p.0, p.1, cols);
      forall q: (nat, nat) | ValidPos(v.schemas, q) && q != p
        ensures ValidPos(tree, q) && tree[q.0].tables[q.1] == v.schemas[q.0].tables[q.1]
      {
        if q.0 != p.0 {
          assert tree[q.0] == v.schemas[q.0];
        }
      }
    }
  }

  // ---------------------------------------------------------------------------
  // ConvertCoordinateSystemAsync.

  /** With no spatial column on the selected table the command sets a status of its own
      and stops: no statement, no reload. */
  lemma ConvertNoSpatialColumns(v: ViewState, configs: seq<FieldConfig>, rejected: map<string, string>, recs: seq<ColumnRecord>)
    requires ValidState(v) && v.selectedTable.Some? && v.selectedCoordinateSystem.Some?
    ensures AfterConvert(v, true, configs, [], rejected, recs) == v.(isLoading := false, status := NoSpatialColumns)
  {
  }

  /** A conversion sends, in column order, a prefix of the ALTER statements for the spatial
      columns whose SRID is not the target, and ends with one of its own two statuses. */
  lemma ConvertSends(v: ViewState, configs: seq<FieldConfig>, spatial: seq<SpatialColumn>, rejected: map<string, string>, recs: seq<ColumnRecord>)
    requires ValidState(v) && v.selectedTable.Some? && v.selectedCoordinateSystem.Some? && spatial != []
    ensures var r := AfterConvertOnServer(v, configs, spatial, rejected, recs);
      var t := SelectedTableOf(v);
      var target := v.selectedCoordinateSystem.value.srid;
      var stmts := ConvertStatements(t.schema, t.name, ConvertTargets(spatial, target), target);
      && SentAfter(v, r, Run(stmts, rejected).ran) && Run(stmts, rejected).ran <= stmts
      && !r.isLoading && (r.status.CoordinateConverted? || r.status.CoordinateConvertError?)
      && (r.status.CoordinateConverted? <==> forall q :: q in stmts ==> q !in rejected)
  {
    var t := SelectedTableOf(v);
    var target := v.selectedCoordinateSystem.value.srid;
    var stmts := ConvertStatements(t.schema, t.name, ConvertTargets(spatial, target), target);
    var r := AfterConvertOnServer(v, configs, spatial, rejected, recs);
    RunFacts(stmts, rejected);
    assert r.executed == v.executed + Run(stmts, rejected).ran;
    assert r.executed[..|v.executed|] == v.executed;
  }

  /** When the server runs every statement, the counts shown add up to the number of spatial
      columns, every statement was sent and the selected table is reloaded. */
  lemma ConvertSucceeds(v: ViewState, configs: seq<FieldConfig>, spatial: seq<SpatialColumn>, rejected: map<string, string>, recs: seq<ColumnRecord>)
    requires ValidState(v) && v.selectedTable.Some? && v.selectedCoordinateSystem.Some? && spatial != []
    requires var t := SelectedTableOf(v);
      var target := v.selectedCoordinateSystem.value.srid;
      forall q :: q in ConvertStatements(t.schema, t.name, ConvertTargets(spatial, target), target) ==> q !in rejected
    ensures var r := AfterConvertOnServer(v, configs, spatial, rejected, recs);
      var t := SelectedTableOf(v);
      var target := v.selectedCoordinateSystem.value.srid;
      && r.status.CoordinateConverted?
      && r.status.converted + r.status.skipped == |spatial|
      && r.status.converted == |ConvertTargets(spatial, target)|
      && r.executed == v.executed + ConvertStatements(t.schema, t.name, ConvertTargets(spatial, target), target)
      && r.selectedTable == v.selectedTable && ValidState(r)
      && SelectedTableOf(r) == t.(columns := ReloadColumns(BuildIndex(configs), t.schema, t.name, recs))
  {
    var t := SelectedTableOf(v);
    var target := v.selectedCoordinateSystem.value.srid;
    RunFacts(ConvertStatements(t.schema, t.name, ConvertTargets(spatial, target), target), rejected);
    ConvertConservation(spatial, target);
  }

  /** When the server refuses a statement, its error is shown, the statements after it are
      not sent and the tree is left as it was. */
  lemma ConvertFails(v: ViewState, configs: seq<FieldConfig>, spatial: seq<SpatialColumn>, rejected: map<string, string>, recs: seq<ColumnRecord>)
    requires ValidState(v) && v.selectedTable.Some? && v.selectedCoordinateSystem.Some? && spatial != []
    requires var t := SelectedTableOf(v);
      var target := v.selectedCoordinateSystem.value.srid;
      exists q :: q in ConvertStatements(t.schema, t.name, ConvertTargets(spatial, target), target) && q in rejected
    ensures var r := AfterConvertOnServer(v, configs, spatial, rejected, recs);
      var t := SelectedTableOf(v);
      var target := v.selectedCoordinateSystem.value.srid;
      var stmts := ConvertStatements(t.schema, t.name, ConvertTargets(spatial, target), target);
      var k := |Run(stmts, rejected).ran|;
      && r.status.CoordinateConvertError? && r.schemas == v.schemas && r.selectedColumn == v.selectedColumn
      && k < |stmts| && stmts[k] in rejected && r.status.message == rejected[stmts[k]]
      && r.executed == v.executed + stmts[..k]
  {
    var t := SelectedTableOf(v);
    var target := v.selectedCoordinateSystem.value.srid;
    RunFacts(ConvertStatements(t.schema, t.name, ConvertTargets(spatial, target), target), rejected);
  }

  /** A geography column is converted through geometry and cast back to geography; a geometry
      column is transformed directly. */
  lemma ConvertStatementShape(schema: string, table: string, columns: seq<SpatialColumn>, target: Int32, k: nat)
    requires k < |ConvertTargets(columns, target)|
    ensures var c := ConvertTargets(columns, target)[k];
      var sql := ConvertStatements(schema, table, ConvertTargets(columns, target), target)[k];
      var u := if c.isGeography then "ST_Transform(" + QuoteIdentifier(c.name) + "::geometry, " + IntToString(target as int) + ")::geography"
               else "ST_Transform(" + QuoteIdentifier(c.name) + ", " + IntToString(target as int) + ")";
      c.srid != target && |sql| >= |u| && sql[|sql| - |u|..] == u
  {
    var c := ConvertTargets(columns, target)[k];
    ConvertTargetsMembers(columns, target, c);
    AlterSridShape(schema, table, c, target);
  }

  // ---------------------------------------------------------------------------
  // BatchAddFieldAsync.

  /** A schema without base tables ends the batch with its own status and no statement. */
  lemma BatchNoTables(v: ViewState, configs: seq<FieldConfig>, schemaName: string, spec: FieldSpec, existing: seq<string>,
                      rejected: map<string, string>, recs: seq<ColumnRecord>, reply: SchemaReply)
    requires ValidState(v) && Distinct(reply.schemaNames)
    ensures AfterBatchAddOnServer(v, configs, schemaName, spec, [], existing, rejected, recs, reply)
         == v.(isLoading := false, status := SchemaNoTables(schemaName))
  {
  }

  /** A batch add sends, in table order, one ADD COLUMN per base table that does not already
      have the column (compared ignoring case), and none for a table that does, stopping at
      the first statement the server refuses. When all run, every table was either altered
      or skipped, and the tree is loaded again, which clears the selection and replaces the
      counts with the load's own status. */
  lemma BatchOutcome(v: ViewState, configs: seq<FieldConfig>, schemaName: string, spec: FieldSpec, tables: seq<string>,
                     existing: seq<string>, rejected: map<string, string>, recs: seq<ColumnRecord>, reply: SchemaReply)
    requires ValidState(v) && Distinct(reply.schemaNames) && tables != []
    ensures var r := AfterBatchAddOnServer(v, configs, schemaName, spec, tables, existing, rejected, recs, reply);
      var stmts := BatchStatements(schemaName, BatchTargets(tables, existing), spec);
      && |BatchTargets(tables, existing)| + BatchSkipped(tables, existing) == |tables|
      && (forall t :: ContainsIgnoreCase(existing, t) ==> AddColumnSql(schemaName, t, spec) !in stmts)
      && |r.executed| >= |v.executed| && r.executed[..|v.executed|] == v.executed
      && r.executed[|v.executed|..] <= stmts
      && !r.isLoading
      && ((forall q :: q in stmts ==> q !in rejected) ==>
            && r.executed == v.executed + stmts
            && r.schemas == Build(reply.schemaNames, BuildIndex(configs), reply.rows).tree
            && r.selectedSchema.None? && r.selectedTable.None? && r.selectedColumn.None?
            && r.newFieldName == Some("") && r.newFieldLength == Some("")
            && (r.status == Loaded || r.status.LoadError?))
      && (!(forall q :: q in stmts ==> q !in rejected) ==>
            && r.schemas == v.schemas && r.status.FieldCreateError?
            && var k := |r.executed| - |v.executed|; k < |stmts| && stmts[k] in rejected && r.status.message == rejected[stmts[k]])
  {
    var stmts := BatchStatements(schemaName, BatchTargets(tables, existing), spec);
    var run := Run(stmts, rejected);
    var r := AfterBatchAddOnServer(v, configs, schemaName, spec, tables, existing, rejected, recs, reply);
    BatchConservation(tables, existing);
    forall t | ContainsIgnoreCase(existing, t) ensures AddColumnSql(schemaName, t, spec) !in stmts {
      NoStatementForExisting(schemaName, tables, existing, spec, t);
    }
    RunFacts(stmts, rejected);
    assert r.executed == v.executed + run.ran;
    assert r.executed[..|v.executed|] == v.executed;
    assert r.executed[|v.executed|..] == run.ran;
  }

  // ---------------------------------------------------------------------------
  // DeleteFieldAsync.

  /** A field is dropped only after the user confirms and with a connection set: the one
      statement sent is the DROP COLUMN of the selected column in the selected table, after
      which the table is reloaded and no column is selected. Without the confirmation
      nothing at all changes. */
  lemma DeleteNeedsConfirmation(v: ViewState, confirmed: bool, connected: bool, configs: seq<FieldConfig>,
                                rejected: map<string, string>, recs: seq<ColumnRecord>)
    requires ValidState(v)
    ensures var r := AfterDeleteField(v, confirmed, connected, configs, rejected, recs);
      && (!confirmed && v.selectedColumn.Some? ==> r == v)
      && (r.executed == v.executed
          || (&& confirmed && connected && v.selectedTable.Some? && v.selectedColumn.Some?
              && var sql := DropColumnSql(SelectedTableOf(v).schema, SelectedTableOf(v).name, v.selectedColumn.value.columnName);
              && r.executed == v.executed + [sql]
              && r.selectedColumn.None? && r.selectedTable == v.selectedTable
              && r.status == FieldDeleted(v.selectedColumn.value.columnName)))
  {
  }

  // ---------------------------------------------------------------------------
  // AddSchemaAsync.

  /** Creating a schema never removes or alters a node: the tree either stays as it is or
      gains one empty schema node at the end, and only when no node has that name (ignoring
      case); after a success the tree has a node of that name. */
  lemma AddSchemaKeepsTree(v: ViewState, connected: bool, schemaExists: bool, rejected: map<string, string>)
    requires ValidState(v)
    ensures var r := AfterAddSchema(v, connected, schemaExists, rejected);
      && r.schemas[..|v.schemas|] == v.schemas
      && (r.schemas == v.schemas || r.schemas == v.schemas + [Schema(r.schemas[|v.schemas|].name, [])])
      && (r.schemas != v.schemas ==> !HasSchemaNamed(v.schemas, r.schemas[|v.schemas|].name))
      && (r.status.SchemaCreated? ==>
            && HasSchemaNamed(r.schemas, r.status.schema)
            && r.executed == v.executed + [CreateSchemaSql(r.status.schema)]
            && !IsBlank(r.status.schema) && r.newSchemaName == Some(""))
      && (!r.status.SchemaCreated? ==> r.schemas == v.schemas && r.executed == v.executed)
  {
    var r := AfterAddSchema(v, connected, schemaExists, rejected);
    if v.newSchemaName.Some? {
      TrimKeepsBlankness(v.newSchemaName.value);
    }
    if r.status.SchemaCreated? {
      var name := r.status.schema;
      if HasSchemaNamed(v.schemas, name) {
        var k :| 0 <= k < |v.schemas| && EqualsIgnoreCase(v.schemas[k].name, name);
        assert EqualsIgnoreCase(r.schemas[k].name, name);
      } else {
        assert r.schemas[|v.schemas|].name == name;
        assert EqualsIgnoreCase(r.schemas[|v.schemas|].name, name);
      }
    }
    if r.schemas != v.schemas {
      assert r.schemas == v.schemas + [Schema(r.schemas[|v.schemas|].name, [])];
    }
  }

  // ---------------------------------------------------------------------------
  // LoadSchemaAsync.

  /** Loading twice from the same catalog and the same stored overrides is loading once, and
      a load leaves nothing selected and the tree built from the reply. */
  lemma LoadRefreshIdempotent(v: ViewState, configs: seq<FieldConfig>, reply: SchemaReply)
    requires Distinct(reply.schemaNames)
    ensures var r := AfterLoad(v, true, configs, reply);
      && AfterLoad(r, true, configs, reply) == r
      && r.schemas == Build(reply.schemaNames, BuildIndex(configs), reply.rows).tree
      && r.selectedSchema.None? && r.selectedTable.None? && r.selectedColumn.None?
      && r.executed == v.executed
  {
  }

  /** Without a connection a load only says so. */
  lemma LoadNeedsConnection(v: ViewState, configs: seq<FieldConfig>, reply: SchemaReply)
    requires Distinct(reply.schemaNames)
    ensures AfterLoad(v, false, configs, reply) == v.(status := NoConnection)
  {
  }
}
