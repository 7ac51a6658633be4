/** Persisted display overrides: the "schema.table.column" key, the key → override map
    built from the saved records, how an override is laid over a column loaded from the
    database, and how the tree is flattened back into records for saving. */
module FieldOverlay {
  import opened Wrappers
  import opened Text
  import opened AppConfigModels
  import opened SchemaModels

  /** The key under which a column's override is stored. */
  function MakeFieldKey(schema: string, table: string, column: string): string {
    schema + "." + table + "." + column
  }

  function KeyOf(cfg: FieldConfig): string {
    MakeFieldKey(cfg.schema, cfg.table, cfg.column)
  }

  /** The override map: every record is stored under its key, later records replacing
      earlier ones with the same key. */
  function BuildIndex(configs: seq<FieldConfig>): map<string, FieldConfig>
    decreases |configs|
  {
    if configs == [] then map[]
    else
      var last := configs[|configs| - 1];
      BuildIndex(configs[..|configs| - 1])[KeyOf(last) := last]
  }

  /** A key is in the map exactly when some record has it, and it maps to the last
      record that has it. */
  lemma {:induction false} BuildIndexLastWins(configs: seq<FieldConfig>, key: string)
    ensures key in BuildIndex(configs) <==> exists i :: 0 <= i < |configs| && KeyOf(configs[i]) == key
    ensures forall i :: 0 <= i < |configs| && KeyOf(configs[i]) == key
                        && (forall j :: i < j < |configs| ==> KeyOf(configs[j]) != key)
                        ==> BuildIndex(configs)[key] == configs[i]
    decreases |configs|
  {
    if configs != [] {
      var n := |configs| - 1;
      var init := configs[..n];
      BuildIndexLastWins(init, key);
      assert forall i :: 0 <= i < n ==> init[i] == configs[i];
      if KeyOf(configs[n]) != key {
        forall i | 0 <= i < |configs| && KeyOf(configs[i]) == key
          && (forall j :: i < j < |configs| ==> KeyOf(configs[j]) != key)
          ensures BuildIndex(configs)[key] == configs[i]
        {
          assert i < n;
          assert forall j :: i < j < n ==> KeyOf(init[j]) != key;
        }
      }
    }
  }

  /** When no two records share a key, each record is found under its own key. */
  lemma BuildIndexDistinct(configs: seq<FieldConfig>, p: nat)
    requires forall a, b :: 0 <= a < b < |configs| ==> KeyOf(configs[a]) != KeyOf(configs[b])
    requires p < |configs|
    ensures KeyOf(configs[p]) in BuildIndex(configs) && BuildIndex(configs)[KeyOf(configs[p])] == configs[p]
  {
    BuildIndexLastWins(configs, KeyOf(configs[p]));
  }

  /** ApplyFieldConfig: lays the override stored for the column, if any, over it. */
  function Apply(index: map<string, FieldConfig>, schema: string, table: string, col: Column): Column {
    var key := MakeFieldKey(schema, table, col.columnName);
    if key !in index then col
    else
      var cfg := index[key];
      col.(isVisible := cfg.isVisible,
           alias := if IsBlank(cfg.alias) then col.columnName else cfg.alias,
           localType := if IsBlank(cfg.localType) then col.localType else cfg.localType,
           localLength := if cfg.localLength.Some? then cfg.localLength else col.localLength,
           localDefault := cfg.localDefault.GetOr(col.localDefault))
  }

  /** A column without a stored override is left as it is. */
  lemma ApplyWithoutOverride(index: map<string, FieldConfig>, schema: string, table: string, col: Column)
    requires MakeFieldKey(schema, table, col.columnName) !in index
    ensures Apply(index, schema, table, col) == col
  {
  }

  /** An override never touches what the database reports: the name, the database type,
      the nullability and the maximum length are kept. */
  lemma ApplyKeepsDatabaseFacts(index: map<string, FieldConfig>, schema: string, table: string, col: Column)
    ensures var r := Apply(index, schema, table, col);
      r.columnName == col.columnName && r.dbType == col.dbType
      && r.isNullable == col.isNullable && r.characterMaximumLength == col.characterMaximumLength
  {
  }

  /** The fall-back rules of an override: visibility is always taken; a blank alias falls
      back to the column name; a blank type and a missing length keep the column's own;
      a present default is taken even when it is empty. */
  lemma ApplyFallbacks(index: map<string, FieldConfig>, schema: string, table: string, col: Column)
    requires MakeFieldKey(schema, table, col.columnName) in index
    ensures var cfg := index[MakeFieldKey(schema, table, col.columnName)];
      var r := Apply(index, schema, table, col);
      && r.isVisible == cfg.isVisible
      && (IsBlank(cfg.alias) ==> r.alias == col.columnName)
      && (!IsBlank(cfg.alias) ==> r.alias == cfg.alias)
      && (IsBlank(cfg.localType) ==> r.localType == col.localType)
      && (!IsBlank(cfg.localType) ==> r.localType == cfg.localType)
      && (cfg.localLength.None? ==> r.localLength == col.localLength)
      && (cfg.localLength.Some? ==> r.localLength == cfg.localLength)
      && (cfg.localDefault.Some? ==> r.localDefault == cfg.localDefault.value)
      && (cfg.localDefault == Some("") ==> r.localDefault == "")
      && (cfg.localDefault.None? ==> r.localDefault == col.localDefault)
  {
  }

  /** Laying the same overrides over a column twice changes nothing the second time. */
  lemma ApplyIdempotent(index: map<string, FieldConfig>, schema: string, table: string, col: Column)
    ensures Apply(index, schema, table, Apply(index, schema, table, col)) == Apply(index, schema, table, col)
  {
  }

  /** The five display attributes that an override carries. */
  datatype Display = Display(isVisible: bool, alias: string, localType: string, localLength: Option<Int32>, localDefault: string)

  function DisplayOf(c: Column): Display {
    Display(c.isVisible, c.alias, c.localType, c.localLength, c.localDefault)
  }

  /** The record that SaveFieldConfigs writes for a column of `schema.table`. */
  function Record(schema: string, table: string, c: Column): FieldConfig {
    FieldConfig(schema, table, c.columnName, c.isVisible, c.alias, c.localType, c.localLength, Some(c.localDefault))
  }

  /** Records for the columns of one table; columns with a blank name are skipped. */
  function ProjectColumns(schema: string, table: string, cols: seq<Column>): seq<FieldConfig>
    decreases |cols|
  {
    if cols == [] then []
    else
      var c := cols[|cols| - 1];
      ProjectColumns(schema, table, cols[..|cols| - 1])
        + (if IsBlank(c.columnName) then [] else [Record(schema, table, c)])
  }

  /** Records for the tables of one schema; tables with a blank name are skipped. */
  function ProjectTables(schema: string, tables: seq<Table>): seq<FieldConfig>
    decreases |tables|
  {
    if tables == [] then []
    else
      var t := tables[|tables| - 1];
      ProjectTables(schema, tables[..|tables| - 1])
        + (if IsBlank(t.name) then [] else ProjectColumns(schema, t.name, t.columns))
  }

  /** SaveFieldConfigs: the records for the whole tree, in tree order; schemas with a blank
      name are skipped. The table's own name and its schema's name form the key. */
  function ProjectTree(tree: seq<Schema>): seq<FieldConfig>
    decreases |tree|
  {
    if tree == [] then []
    else
      var s := tree[|tree| - 1];
      ProjectTree(tree[..|tree| - 1]) + (if IsBlank(s.name) then [] else ProjectTables(s.name, s.tables))
  }

  /** Appending records to a record list in two steps is appending their concatenation. */
  lemma AppendAssoc(a: seq<FieldConfig>, b: seq<FieldConfig>, c: seq<FieldConfig>)
    ensures a + b + c == a + (b + c)
  {
    assert |a + b + c| == |a + (b + c)|;
    forall i | 0 <= i < |a + b + c|
      ensures (a + b + c)[i] == (a + (b + c))[i]
    {
    }
  }

  /** A column position whose schema, table and column names are all non-blank. */
  ghost predicate Eligible(tree: seq<Schema>, i: int, j: int, k: int) {
    && 0 <= i < |tree| && 0 <= j < |tree[i].tables| && 0 <= k < |tree[i].tables[j].columns|
    && !IsBlank(tree[i].name) && !IsBlank(tree[i].tables[j].name)
    && !IsBlank(tree[i].tables[j].columns[k].columnName)
  }

  lemma {:induction false} ProjectColumnsMembers(schema: string, table: string, cols: seq<Column>, cfg: FieldConfig)
    ensures cfg in ProjectColumns(schema, table, cols)
        <==> exists k :: 0 <= k < |cols| && !IsBlank(cols[k].columnName) && cfg == Record(schema, table, cols[k])
    decreases |cols|
  {
    if cols != [] {
      var n := |cols| - 1;
      var tail := if IsBlank(cols[n].columnName) then [] else [Record(schema, table, cols[n])];
      assert ProjectColumns(schema, table, cols) == ProjectColumns(schema, table, cols[..n]) + tail;
      ProjectColumnsMembers(schema, table, cols[..n], cfg);
      assert forall k :: 0 <= k < n ==> cols[..n][k] == cols[k];
    }
  }

  /** A column position of a table sequence whose table and column names are non-blank. */
  ghost predicate EligibleIn(tables: seq<Table>, j: int, k: int) {
    && 0 <= j < |tables| && 0 <= k < |tables[j].columns|
    && !IsBlank(tables[j].name) && !IsBlank(tables[j].columns[k].columnName)
  }

  lemma {:induction false} ProjectColumnsComplete(schema: string, table: string, cols: seq<Column>, k: nat)
    requires k < |cols| && !IsBlank(cols[k].columnName)
    ensures Record(schema, table, cols[k]) in ProjectColumns(schema, table, cols)
    decreases |cols|
  {
    var n := |cols| - 1;
    var tail := if IsBlank(cols[n].columnName) then [] else [Record(schema, table, cols[n])];
    assert ProjectColumns(schema, table, cols) == ProjectColumns(schema, table, cols[..n]) + tail;
    if k < n {
      assert cols[..n][k] == cols[k];
      ProjectColumnsComplete(schema, table, cols[..n], k);
    }
  }

  lemma {:induction false} ProjectTablesComplete(schema: string, tables: seq<Table>, j: nat, k: nat)
    requires EligibleIn(tables, j, k)
    ensures Record(schema, tables[j].name, tables[j].columns[k]) in ProjectTables(schema, tables)
    decreases |tables|
  {
    var n := |tables| - 1;
    var init := tables[..n];
    var tail := if IsBlank(tables[n].name) then [] else ProjectColumns(schema, tables[n].name, tables[n].columns);
    assert ProjectTables(schema, tables) == ProjectTables(schema, init) + tail;
    if j < n {
      assert init[j] == tables[j];
      ProjectTablesComplete(schema, init, j, k);
    } else {
      ProjectColumnsComplete(schema, tables[j].name, tables[j].columns, k);
      assert tail == ProjectColumns(schema, tables[j].name, tables[j].columns);
    }
  }

  lemma {:induction false} ProjectTablesSound(schema: string, tables: seq<Table>, cfg: FieldConfig) returns (j: nat, k: nat)
    requires cfg in ProjectTables(schema, tables)
    ensures EligibleIn(tables, j, k) && cfg == Record(schema, tables[j].name, tables[j].columns[k])
    decreases |tables|
  {
    var n := |tables| - 1;
    var init := tables[..n];
    var last := tables[n];
    if cfg in ProjectTables(schema, init) {
      j, k := ProjectTablesSound(schema, init, cfg);
      assert init[j] == tables[j];
    } else {
      ProjectColumnsMembers(schema, last.name, last.columns, cfg);
      j := n;
      k :| 0 <= k < |last.columns| && !IsBlank(last.columns[k].columnName) && cfg == Record(schema, last.name, last.columns[k]);
    }
  }

  /** SaveFieldConfigs writes a record for a column exactly when the column's schema,
      table and column names are all non-blank, and the record carries the column's
      current display attributes. */
  lemma {:induction false} ProjectTreeMembers(tree: seq<Schema>, cfg: FieldConfig)
    ensures cfg in ProjectTree(tree)
        <==> exists i, j, k :: Eligible(tree, i, j, k)
               && cfg == Record(tree[i].name, tree[i].tables[j].name, tree[i].tables[j].columns[k])
  {
    if cfg in ProjectTree(tree) {
      var i, j, k := ProjectTreeSound(tree, cfg);
    }
    if exists i, j, k :: Eligible(tree, i, j, k)
         && cfg == Record(tree[i].name, tree[i].tables[j].name, tree[i].tables[j].columns[k]) {
      var i, j, k :| Eligible(tree, i, j, k)
        && cfg == Record(tree[i].name, tree[i].tables[j].name, tree[i].tables[j].columns[k]);
      ProjectTreeComplete(tree, i, j, k);
    }
  }

  lemma {:induction false} ProjectTreeSound(tree: seq<Schema>, cfg: FieldConfig) returns (i: nat, j: nat, k: nat)
    requires cfg in ProjectTree(tree)
    ensures Eligible(tree, i, j, k) && cfg == Record(tree[i].name, tree[i].tables[j].name, tree[i].tables[j].columns[k])
    decreases |tree|
  {
    var n := |tree| - 1;
    var init := tree[..n];
    var last := tree[n];
    var tail := if IsBlank(last.name) then [] else ProjectTables(last.name, last.tables);
    assert ProjectTree(tree) == ProjectTree(init) + tail;
    if cfg in ProjectTree(init) {
      i, j, k := ProjectTreeSound(init, cfg);
      assert init[i] == tree[i];
    } else {
      assert cfg in tail;
      i := n;
      j, k := ProjectTablesSound(last.name, last.tables, cfg);
    }
  }

  lemma {:induction false} ProjectTreeComplete(tree: seq<Schema>, i: nat, j: nat, k: nat)
    requires Eligible(tree, i, j, k)
    ensures Record(tree[i].name, tree[i].tables[j].name, tree[i].tables[j].columns[k]) in ProjectTree(tree)
    decreases |tree|
  {
    var n := |tree| - 1;
    var init := tree[..n];
    var last := tree[n];
    var tail := if IsBlank(last.name) then [] else ProjectTables(last.name, last.tables);
    var rec := Record(tree[i].name, tree[i].tables[j].name, tree[i].tables[j].columns[k]);
    assert ProjectTree(tree) == ProjectTree(init) + tail;
    if i < n {
      assert init[i] == tree[i];
      ProjectTreeComplete(init, i, j, k);
      assert rec in ProjectTree(init);
    } else {
      ProjectTablesComplete(last.name, last.tables, j, k);
      assert rec in tail;
    }
  }

  /** Where a saved record comes from: schema, table and column positions in the tree. */
  datatype Position = Position(schema: nat, table: nat, column: nat)

  /** Tree order: by schema, then by table, then by column. */
  predicate Precedes(p: Position, q: Position) {
    || p.schema < q.schema
    || (p.schema == q.schema && (p.table < q.table || (p.table == q.table && p.column < q.column)))
  }

  /** The positions of the named columns, in column order. */
  ghost function ColumnPositions(cols: seq<Column>): seq<nat>
    decreases |cols|
  {
    if cols == [] then []
    else ColumnPositions(cols[..|cols| - 1]) + (if IsBlank(cols[|cols| - 1].columnName) then [] else [|cols| - 1])
  }

  /** The named columns of the named tables, as (table, column) positions, in order. */
  ghost function TablePositions(tables: seq<Table>): seq<(nat, nat)>
    decreases |tables|
  {
    if tables == [] then []
    else
      var n := |tables| - 1;
      var ks := if IsBlank(tables[n].name) then [] else ColumnPositions(tables[n].columns);
      TablePositions(tables[..n]) + seq(|ks|, m requires 0 <= m < |ks| => (n, ks[m]))
  }

  /** The eligible positions of the tree, in tree order. */
  ghost function TreePositions(tree: seq<Schema>): seq<Position>
    decreases |tree|
  {
    if tree == [] then []
    else
      var n := |tree| - 1;
      var qs := if IsBlank(tree[n].name) then [] else TablePositions(tree[n].tables);
      TreePositions(tree[..n]) + seq(|qs|, m requires 0 <= m < |qs| => Position(n, qs[m].0, qs[m].1))
  }

  lemma {:induction false} ColumnPositionsRecords(schema: string, table: string, cols: seq<Column>)
    ensures var ks, rs := ColumnPositions(cols), ProjectColumns(schema, table, cols);
      && |ks| == |rs|
      && forall m :: 0 <= m < |ks| ==>
           ks[m] < |cols| && !IsBlank(cols[ks[m]].columnName) && rs[m] == Record(schema, table, cols[ks[m]])
    decreases |cols|
  {
    if cols != [] {
      var n := |cols| - 1;
      var init := cols[..n];
      ColumnPositionsRecords(schema, table, init);
      var tail := if IsBlank(cols[n].columnName) then [] else [Record(schema, table, cols[n])];
      assert ProjectColumns(schema, table, cols) == ProjectColumns(schema, table, init) + tail;
      var prev := ColumnPositions(init);
      forall m | 0 <= m < |prev|
        ensures init[prev[m]] == cols[prev[m]]
      {
      }
    }
  }

  lemma {:induction false} ColumnPositionsIncreasing(cols: seq<Column>)
    ensures forall a, b :: 0 <= a < b < |ColumnPositions(cols)| ==> ColumnPositions(cols)[a] < ColumnPositions(cols)[b]
    ensures forall m :: 0 <= m < |ColumnPositions(cols)| ==> ColumnPositions(cols)[m] < |cols|
    decreases |cols|
  {
    if cols != [] {
      var n := |cols| - 1;
      var prev := ColumnPositions(cols[..n]);
      ColumnPositionsIncreasing(cols[..n]);
      var ks := ColumnPositions(cols);
      assert ks == prev + (if IsBlank(cols[n].columnName) then [] else [n]);
      forall a, b | 0 <= a < b < |ks|
        ensures ks[a] < ks[b]
      {
        if b < |prev| {
          assert ks[a] == prev[a] && ks[b] == prev[b];
          assert prev[a] < prev[b];
        } else {
          assert ks[a] == prev[a] && ks[b] == n;
          assert prev[a] < n;
        }
      }
    }
  }

  lemma {:induction false} ColumnPositionsComplete(cols: seq<Column>, k: nat)
    requires k < |cols| && !IsBlank(cols[k].columnName)
    ensures k in ColumnPositions(cols)
    decreases |cols|
  {
    var n := |cols| - 1;
    if k < n {
      assert cols[..n][k] == cols[k];
      ColumnPositionsComplete(cols[..n], k);
    } else {
      assert ColumnPositions(cols)[|ColumnPositions(cols[..n])|] == k;
    }
  }

  lemma {:induction false} TablePositionsRecords(schema: string, tables: seq<Table>)
    ensures var ps, rs := TablePositions(tables), ProjectTables(schema, tables);
      && |ps| == |rs|
      && forall m :: 0 <= m < |ps| ==>
           EligibleIn(tables, ps[m].0, ps[m].1)
           && rs[m] == Record(schema, tables[ps[m].0].name, tables[ps[m].0].columns[ps[m].1])
    decreases |tables|
  {
    if tables != [] {
      var n := |tables| - 1;
      var init := tables[..n];
      var last := tables[n];
      TablePositionsRecords(schema, init);
      var tail := if IsBlank(last.name) then [] else ProjectColumns(schema, last.name, last.columns);
      assert ProjectTables(schema, tables) == ProjectTables(schema, init) + tail;
      var ks := if IsBlank(last.name) then [] else ColumnPositions(last.columns);
      ColumnPositionsRecords(schema, last.name, last.columns);
      var prev := TablePositions(init);
      var ps := TablePositions(tables);
      var rs := ProjectTables(schema, tables);
      assert ps == prev + seq(|ks|, m requires 0 <= m < |ks| => (n, ks[m]));
      forall m | 0 <= m < |ps|
        ensures EligibleIn(tables, ps[m].0, ps[m].1)
        ensures rs[m] == Record(schema, tables[ps[m].0].name, tables[ps[m].0].columns[ps[m].1])
      {
        if m < |prev| {
          assert ps[m] == prev[m] && rs[m] == ProjectTables(schema, init)[m];
          assert init[prev[m].0] == tables[prev[m].0];
        } else {
          assert ps[m] == (n, ks[m - |prev|]) && rs[m] == tail[m - |prev|];
        }
      }
    }
  }

  lemma {:induction false} TablePositionsIncreasing(tables: seq<Table>)
    ensures forall a, b :: 0 <= a < b < |TablePositions(tables)| ==>
              var p, q := TablePositions(tables)[a], TablePositions(tables)[b];
              p.0 < q.0 || (p.0 == q.0 && p.1 < q.1)
    ensures forall m :: 0 <= m < |TablePositions(tables)| ==> TablePositions(tables)[m].0 < |tables|
    decreases |tables|
  {
    if tables != [] {
      var n := |tables| - 1;
      var prev := TablePositions(tables[..n]);
      TablePositionsIncreasing(tables[..n]);
      var ks := if IsBlank(tables[n].name) then [] else ColumnPositions(tables[n].columns);
      ColumnPositionsIncreasing(tables[n].columns);
      var ps := TablePositions(tables);
      assert ps == prev + seq(|ks|, m requires 0 <= m < |ks| => (n, ks[m]));
      forall a, b | 0 <= a < b < |ps|
        ensures ps[a].0 < ps[b].0 || (ps[a].0 == ps[b].0 && ps[a].1 < ps[b].1)
      {
        if b < |prev| {
          assert ps[a] == prev[a] && ps[b] == prev[b];
        } else if a < |prev| {
          assert ps[a] == prev[a] && ps[b].0 == n;
        } else {
          assert !IsBlank(tables[n].name) && ks == ColumnPositions(tables[n].columns);
          assert ks[a - |prev|] < ks[b - |prev|];
          assert ps[a] == (n, ks[a - |prev|]) && ps[b] == (n, ks[b - |prev|]);
        }
      }
    }
  }

  lemma {:induction false} TablePositionsComplete(tables: seq<Table>, j: nat, k: nat)
    requires EligibleIn(tables, j, k)
    ensures (j, k) in TablePositions(tables)
    decreases |tables|
  {
    var n := |tables| - 1;
    var init := tables[..n];
    var prev := TablePositions(init);
    if j < n {
      assert init[j] == tables[j];
      TablePositionsComplete(init, j, k);
    } else {
      var ks := ColumnPositions(tables[n].columns);
      ColumnPositionsComplete(tables[n].columns, k);
      var m :| 0 <= m < |ks| && ks[m] == k;
      assert TablePositions(tables)[|prev| + m] == (j, k);
    }
  }

  lemma {:induction false} TreePositionsRecords(tree: seq<Schema>)
    ensures var ps, rs := TreePositions(tree), ProjectTree(tree);
      && |ps| == |rs|
      && forall m :: 0 <= m < |ps| ==>
           Eligible(tree, ps[m].schema, ps[m].table, ps[m].column)
           && rs[m] == Record(tree[ps[m].schema].name, tree[ps[m].schema].tables[ps[m].table].name,
                              tree[ps[m].schema].tables[ps[m].table].columns[ps[m].column])
    decreases |tree|
  {
    if tree != [] {
      var n := |tree| - 1;
      var init := tree[..n];
      var last := tree[n];
      TreePositionsRecords(init);
      var tail := if IsBlank(last.name) then [] else ProjectTables(last.name, last.tables);
      assert ProjectTree(tree) == ProjectTree(init) + tail;
      var qs := if IsBlank(last.name) then [] else TablePositions(last.tables);
      TablePositionsRecords(last.name, last.tables);
      var prev := TreePositions(init);
      var ps := TreePositions(tree);
      var rs := ProjectTree(tree);
      assert ps == prev + seq(|qs|, m requires 0 <= m < |qs| => Position(n, qs[m].0, qs[m].1));
      forall m | 0 <= m < |ps|
        ensures Eligible(tree, ps[m].schema, ps[m].table, ps[m].column)
        ensures rs[m] == Record(tree[ps[m].schema].name, tree[ps[m].schema].tables[ps[m].table].name,
                                tree[ps[m].schema].tables[ps[m].table].columns[ps[m].column])
      {
        if m < |prev| {
          assert ps[m] == prev[m] && rs[m] == ProjectTree(init)[m];
          assert init[prev[m].schema] == tree[prev[m].schema];
        } else {
          var q := qs[m - |prev|];
          assert ps[m] == Position(n, q.0, q.1) && rs[m] == tail[m - |prev|];
        }
      }
    }
  }

  lemma {:induction false} TreePositionsIncreasing(tree: seq<Schema>)
    ensures forall a, b :: 0 <= a < b < |TreePositions(tree)| ==> Precedes(TreePositions(tree)[a], TreePositions(tree)[b])
    ensures forall m :: 0 <= m < |TreePositions(tree)| ==> TreePositions(tree)[m].schema < |tree|
    decreases |tree|
  {
    if tree != [] {
      var n := |tree| - 1;
      TreePositionsIncreasing(tree[..n]);
      var qs := if IsBlank(tree[n].name) then [] else TablePositions(tree[n].tables);
      TablePositionsIncreasing(tree[n].tables);
      AppendSchemaPositions(TreePositions(tree[..n]), n, qs);
    }
  }

  /** Appending the positions of schema `n` after those of earlier schemas keeps tree order. */
  lemma AppendSchemaPositions(prev: seq<Position>, n: nat, qs: seq<(nat, nat)>)
    requires forall a, b :: 0 <= a < b < |prev| ==> Precedes(prev[a], prev[b])
    requires forall m :: 0 <= m < |prev| ==> prev[m].schema < n
    requires forall a, b :: 0 <= a < b < |qs| ==> qs[a].0 < qs[b].0 || (qs[a].0 == qs[b].0 && qs[a].1 < qs[b].1)
    ensures var ps := prev + seq(|qs|, m requires 0 <= m < |qs| => Position(n, qs[m].0, qs[m].1));
      forall a, b :: 0 <= a < b < |ps| ==> Precedes(ps[a], ps[b])
  {
    var ps := prev + seq(|qs|, m requires 0 <= m < |qs| => Position(n, qs[m].0, qs[m].1));
    forall a, b | 0 <= a < b < |ps|
      ensures Precedes(ps[a], ps[b])
    {
      if b < |prev| {
        assert ps[a] == prev[a] && ps[b] == prev[b];
      } else if a < |prev| {
        assert ps[a] == prev[a] && ps[b].schema == n;
      } else {
        var qa, qb := qs[a - |prev|], qs[b - |prev|];
        assert ps[a] == Position(n, qa.0, qa.1) && ps[b] == Position(n, qb.0, qb.1);
      }
    }
  }

  lemma {:induction false} TreePositionsComplete(tree: seq<Schema>, i: nat, j: nat, k: nat)
    requires Eligible(tree, i, j, k)
    ensures Position(i, j, k) in TreePositions(tree)
    decreases |tree|
  {
    var n := |tree| - 1;
    var init := tree[..n];
    var prev := TreePositions(init);
    if i < n {
      assert init[i] == tree[i];
      TreePositionsComplete(init, i, j, k);
    } else {
      var qs := TablePositions(tree[n].tables);
      TablePositionsComplete(tree[n].tables, j, k);
      var m :| 0 <= m < |qs| && qs[m] == (j, k);
      assert TreePositions(tree)[|prev| + m] == Position(i, j, k);
    }
  }

  /** SaveFieldConfigs writes one record per eligible column and no more, in tree order:
      the records are in one-to-one, order-keeping correspondence with the eligible
      positions, so their number (the count the status reports) is the number of eligible
      columns, and of two records with the same key the one from later in the tree comes
      later in the list. */
  lemma ProjectTreeOrder(tree: seq<Schema>)
    ensures var ps, rs := TreePositions(tree), ProjectTree(tree);
      && |ps| == |rs|
      && (forall m :: 0 <= m < |ps| ==>
            (&& Eligible(tree, ps[m].schema, ps[m].table, ps[m].column)
             && rs[m] == Record(tree[ps[m].schema].name, tree[ps[m].schema].tables[ps[m].table].name,
                                tree[ps[m].schema].tables[ps[m].table].columns[ps[m].column])))
      && (forall a, b :: 0 <= a < b < |ps| ==> Precedes(ps[a], ps[b]))
      && (forall i, j, k :: Eligible(tree, i, j, k) ==> Position(i, j, k) in ps)
  {
    TreePositionsRecords(tree);
    TreePositionsIncreasing(tree);
    forall i, j, k | Eligible(tree, i, j, k)
      ensures Position(i, j, k) in TreePositions(tree)
    {
      TreePositionsComplete(tree, i, j, k);
    }
  }

  /** Overlaying the record saved for column `c` onto a column `d` with the same name
      restores `c`'s display attributes, provided the saved alias and type are non-blank
      and a length was saved (otherwise the fall-backs take over). */
  lemma ApplyRestores(index: map<string, FieldConfig>, schema: string, table: string, c: Column, d: Column)
    requires d.columnName == c.columnName
    requires MakeFieldKey(schema, table, c.columnName) in index
    requires index[MakeFieldKey(schema, table, c.columnName)] == Record(schema, table, c)
    requires !IsBlank(c.alias) && !IsBlank(c.localType) && c.localLength.Some?
    ensures DisplayOf(Apply(index, schema, table, d)) == DisplayOf(c)
  {
  }

  /** Save, then load: when no two saved records share a key, a column reloaded from the
      database (any column value with the same name) gets back the display attributes
      that were saved for it. */
  lemma SaveLoadRoundTrip(tree: seq<Schema>, i: nat, j: nat, k: nat, d: Column)
    requires var cs := ProjectTree(tree); forall a, b :: 0 <= a < b < |cs| ==> KeyOf(cs[a]) != KeyOf(cs[b])
    requires Eligible(tree, i, j, k)
    requires var c := tree[i].tables[j].columns[k];
      !IsBlank(c.alias) && !IsBlank(c.localType) && c.localLength.Some? && d.columnName == c.columnName
    ensures DisplayOf(Apply(BuildIndex(ProjectTree(tree)), tree[i].name, tree[i].tables[j].name, d))
         == DisplayOf(tree[i].tables[j].columns[k])
  {
    var cs := ProjectTree(tree);
    var c := tree[i].tables[j].columns[k];
    var rec := Record(tree[i].name, tree[i].tables[j].name, c);
    ProjectTreeMembers(tree, rec);
    var p :| 0 <= p < |cs| && cs[p] == rec;
    BuildIndexDistinct(cs, p);
    ApplyRestores(BuildIndex(cs), tree[i].name, tree[i].tables[j].name, c, d);
  }

  /** The key joins its parts with '.', so two different columns can share a key: column
      x of table "c" in schema "a.b" and column x of table "b.c" in schema "a". */
  lemma KeysCanCollide()
    ensures MakeFieldKey("a.b", "c", "x") == MakeFieldKey("a", "b.c", "x")
  {
  }
}
