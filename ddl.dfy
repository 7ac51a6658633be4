/** The statements the schema browser sends: identifier quoting, the add-field
    specification check, and the plans of the batch add and the coordinate conversion. */
module Ddl {
  import opened Wrappers
  import opened Text

  /** The identifier with every '"' doubled. */
  function DoubleQuotes(s: string): string
    decreases |s|
  {
    if s == [] then [] else (if s[0] == '"' then "\"\"" else [s[0]]) + DoubleQuotes(s[1..])
  }

  /** QuoteIdentifier: the identifier between double quotes, inner quotes doubled. */
  function QuoteIdentifier(identifier: string): (r: string)
    ensures |r| >= 2 && r[0] == '"' && r[|r| - 1] == '"'
  {
    "\"" + DoubleQuotes(identifier) + "\""
  }

  /** Reads a quoted body back: a doubled quote stands for one quote. */
  function UndoubleQuotes(t: string): string
    decreases |t|
  {
    if t == [] then []
    else if |t| >= 2 && t[0] == '"' && t[1] == '"' then "\"" + UndoubleQuotes(t[2..])
    else [t[0]] + UndoubleQuotes(t[1..])
  }

  /** A quoted body in which every quote is one half of a doubled pair. */
  predicate QuotesPaired(t: string)
    decreases |t|
  {
    t == [] || (if t[0] == '"' then |t| >= 2 && t[1] == '"' && QuotesPaired(t[2..]) else QuotesPaired(t[1..]))
  }

  /** The identifier a quoted identifier stands for; `None` when it is not quoted. */
  function Unquote(q: string): Option<string> {
    if |q| >= 2 && q[0] == '"' && q[|q| - 1] == '"' && QuotesPaired(q[1..|q| - 1]) then Some(UndoubleQuotes(q[1..|q| - 1]))
    else None
  }

  function CountQuotes(s: string): nat
    decreases |s|
  {
    if s == [] then 0 else (if s[0] == '"' then 1 else 0) + CountQuotes(s[1..])
  }

  /** Doubling keeps every character, adds one quote per quote, and leaves only paired
      quotes; undoubling gives the identifier back. */
  lemma {:induction false} DoubleQuotesFacts(s: string)
    ensures |DoubleQuotes(s)| == |s| + CountQuotes(s)
    ensures QuotesPaired(DoubleQuotes(s))
    ensures UndoubleQuotes(DoubleQuotes(s)) == s
    decreases |s|
  {
    if s != [] {
      DoubleQuotesFacts(s[1..]);
      var d := DoubleQuotes(s);
      var rest := DoubleQuotes(s[1..]);
      if s[0] == '"' {
        assert d == "\"\"" + rest && d[2..] == rest;
      } else {
        assert d == [s[0]] + rest && d[1..] == rest;
      }
    }
  }

  /** Unquoting a quoted identifier gives the identifier back. */
  lemma QuoteRoundTrip(identifier: string)
    ensures Unquote(QuoteIdentifier(identifier)) == Some(identifier)
  {
    DoubleQuotesFacts(identifier);
    var q := QuoteIdentifier(identifier);
    assert q[1..|q| - 1] == DoubleQuotes(identifier);
  }

  /** Different identifiers are quoted differently. */
  lemma QuoteInjective(a: string, b: string)
    requires QuoteIdentifier(a) == QuoteIdentifier(b)
    ensures a == b
  {
    QuoteRoundTrip(a);
    QuoteRoundTrip(b);
  }

  /** `"schema"."table"`. */
  function FullTableName(schema: string, table: string): string {
    QuoteIdentifier(schema) + "." + QuoteIdentifier(table)
  }

  /** The type names the add-field form offers. */
  const FieldTypes: seq<string> := ["text", "varchar", "int", "bigint", "numeric", "boolean", "date", "timestamp"]

  /** A checked add-field request: trimmed name, trimmed type, optional positive length. */
  datatype FieldSpec = FieldSpec(name: string, fieldType: string, length: Option<Int32>)

  datatype SpecError = NameRequired | InvalidLength | InvalidType

  /** The type the form asks for: "text" when the type box is blank. */
  function RequestedType(newType: Option<string>): string {
    if IsNullOrWhiteSpace(newType) then "text" else Trim(newType.value)
  }

  /** The length box is blank, or holds a 32-bit integer above zero. */
  predicate LengthAccepted(newLength: Option<string>) {
    IsNullOrWhiteSpace(newLength)
    || (ParseInt32(newLength.value).Some? && ParseInt32(newLength.value).value > 0)
  }

  /** TryGetFieldSpecification over the three text boxes. The checks come in order: the
      trimmed name, then a non-blank length, then the type against the list ignoring case. */
  function FieldSpecification(newName: Option<string>, newType: Option<string>, newLength: Option<string>): Result<FieldSpec, SpecError> {
    var name := if newName.Some? then Trim(newName.value) else "";
    var fieldType := RequestedType(newType);
    if IsBlank(name) then Err(NameRequired)
    else if !IsNullOrWhiteSpace(newLength)
         && (ParseInt32(newLength.value).None? || ParseInt32(newLength.value).value <= 0) then Err(InvalidLength)
    else if !ContainsIgnoreCase(FieldTypes, fieldType) then Err(InvalidType)
    else Ok(FieldSpec(name, fieldType, if IsNullOrWhiteSpace(newLength) then None else ParseInt32(newLength.value)))
  }

  /** Blankness survives trimming. */
  lemma TrimKeepsBlankness(s: string)
    ensures IsBlank(Trim(s)) <==> IsBlank(s)
  {
    TrimEmptyIffBlank(s);
    TrimShape(s);
  }

  /** Which error the check reports, in terms of the untrimmed boxes: the name error exactly
      when the name box is blank, the length error exactly when the name is given and the
      length is not accepted, the type error exactly when both are fine and the type is not
      in the list; and success exactly when all three pass. */
  lemma FieldSpecificationErrors(newName: Option<string>, newType: Option<string>, newLength: Option<string>)
    ensures var r := FieldSpecification(newName, newType, newLength);
      && (r == Err(NameRequired) <==> IsNullOrWhiteSpace(newName))
      && (r == Err(InvalidLength) <==> !IsNullOrWhiteSpace(newName) && !LengthAccepted(newLength))
      && (r == Err(InvalidType) <==> !IsNullOrWhiteSpace(newName) && LengthAccepted(newLength)
                                      && !ContainsIgnoreCase(FieldTypes, RequestedType(newType)))
      && (r.Ok? <==> !IsNullOrWhiteSpace(newName) && LengthAccepted(newLength)
                     && ContainsIgnoreCase(FieldTypes, RequestedType(newType)))
  {
    if newName.Some? {
      TrimKeepsBlankness(newName.value);
    }
  }

  /** An accepted request has a non-blank name with no white space at either end, a type
      from the list (ignoring case), "text" when no type was given, and a length above zero
      exactly when a length was given, equal to the parsed box. */
  lemma FieldSpecificationAccepted(newName: Option<string>, newType: Option<string>, newLength: Option<string>)
    requires FieldSpecification(newName, newType, newLength).Ok?
    ensures var spec := FieldSpecification(newName, newType, newLength).value;
      && !IsBlank(spec.name) && !IsWhiteSpace(spec.name[0]) && !IsWhiteSpace(spec.name[|spec.name| - 1])
      && ContainsIgnoreCase(FieldTypes, spec.fieldType)
      && (IsNullOrWhiteSpace(newType) ==> spec.fieldType == "text")
      && (spec.length.Some? <==> !IsNullOrWhiteSpace(newLength))
      && (spec.length.Some? ==> spec.length.value > 0 && ParseInt32(newLength.value) == spec.length)
  {
    AcceptedName(newName, newType, newLength);
    AcceptedType(newName, newType, newLength);
    AcceptedLength(newName, newType, newLength);
  }

  lemma AcceptedName(newName: Option<string>, newType: Option<string>, newLength: Option<string>)
    requires FieldSpecification(newName, newType, newLength).Ok?
    ensures var n := FieldSpecification(newName, newType, newLength).value.name;
      !IsBlank(n) && n != [] && !IsWhiteSpace(n[0]) && !IsWhiteSpace(n[|n| - 1])
  {
    AcceptedValue(newName, newType, newLength);
    TrimNonBlank(newName.value);
  }

  lemma AcceptedType(newName: Option<string>, newType: Option<string>, newLength: Option<string>)
    requires FieldSpecification(newName, newType, newLength).Ok?
    ensures var t := FieldSpecification(newName, newType, newLength).value.fieldType;
      ContainsIgnoreCase(FieldTypes, t) && (IsNullOrWhiteSpace(newType) ==> t == "text")
  {
    AcceptedValue(newName, newType, newLength);
    FieldSpecificationErrors(newName, newType, newLength);
  }

  lemma AcceptedLength(newName: Option<string>, newType: Option<string>, newLength: Option<string>)
    requires FieldSpecification(newName, newType, newLength).Ok?
    ensures var l := FieldSpecification(newName, newType, newLength).value.length;
      && (l.Some? <==> !IsNullOrWhiteSpace(newLength))
      && (l.Some? ==> l.value > 0 && ParseInt32(newLength.value) == l)
  {
    AcceptedValue(newName, newType, newLength);
    FieldSpecificationErrors(newName, newType, newLength);
  }

  /** The value of an accepted request, piece by piece. */
  lemma AcceptedValue(newName: Option<string>, newType: Option<string>, newLength: Option<string>)
    requires FieldSpecification(newName, newType, newLength).Ok?
    ensures newName.Some?
    ensures FieldSpecification(newName, newType, newLength).value
      == FieldSpec(Trim(newName.value), RequestedType(newType),
                   if IsNullOrWhiteSpace(newLength) then None else ParseInt32(newLength.value))
  {
  }

  /** The type list is compared ignoring case: two type boxes that, trimmed, differ only
      in letter case are accepted or refused alike, with the same name and length, and an
      accepted type is kept as it was typed (trimmed), not as the list spells it. */
  lemma TypeCheckIgnoresCase(newName: Option<string>, t1: string, t2: string, newLength: Option<string>)
    requires EqualsIgnoreCase(Trim(t1), Trim(t2))
    ensures var r1 := FieldSpecification(newName, Some(t1), newLength);
      var r2 := FieldSpecification(newName, Some(t2), newLength);
      && (r1.Ok? <==> r2.Ok?)
      && (r1.Err? ==> r1 == r2)
      && (r1.Ok? ==> r1.value == r2.value.(fieldType := r1.value.fieldType)
                     && r1.value.fieldType == RequestedType(Some(t1)))
  {
    TrimEmptyIffBlank(t1);
    TrimEmptyIffBlank(t2);
    if !IsBlank(t1) {
      ContainsRespectsCase(FieldTypes, Trim(t1), Trim(t2));
    }
  }


  /** `type(length)` when a length was given, else the type alone. */
  function TypeDefinition(spec: FieldSpec): string {
    if spec.length.Some? then spec.fieldType + "(" + IntToString(spec.length.value as int) + ")" else spec.fieldType
  }

  function AddColumnSql(schema: string, table: string, spec: FieldSpec): string {
    "ALTER TABLE " + FullTableName(schema, table) + " ADD COLUMN " + QuoteIdentifier(spec.name) + " " + TypeDefinition(spec)
  }

  function DropColumnSql(schema: string, table: string, column: string): string {
    "ALTER TABLE " + FullTableName(schema, table) + " DROP COLUMN " + QuoteIdentifier(column)
  }

  function CreateSchemaSql(schema: string): string {
    "CREATE SCHEMA " + QuoteIdentifier(schema)
  }

  /** `p + a + x == p + b + x` only when `a == b`. */
  lemma CancelAround(p: string, a: string, b: string, x: string)
    requires p + a + x == p + b + x
    ensures a == b
  {
    assert |a| == |b|;
    assert forall i :: 0 <= i < |a| ==> a[i] == (p + a + x)[|p| + i] == (p + b + x)[|p| + i] == b[i];
  }

  /** Two ADD COLUMN statements for the same schema and field name are equal only when the
      table is the same. */
  lemma AddColumnSqlInjective(schema: string, t1: string, t2: string, spec: FieldSpec)
    requires AddColumnSql(schema, t1, spec) == AddColumnSql(schema, t2, spec)
    ensures t1 == t2
  {
    var p := "ALTER TABLE " + QuoteIdentifier(schema) + ".";
    var x := " ADD COLUMN " + QuoteIdentifier(spec.name) + " " + TypeDefinition(spec);
    AddColumnSqlSplit(schema, t1, spec);
    AddColumnSqlSplit(schema, t2, spec);
    CancelAround(p, QuoteIdentifier(t1), QuoteIdentifier(t2), x);
    QuoteInjective(t1, t2);
  }

  /** The ADD COLUMN statement is a fixed prefix, the quoted table, and a fixed suffix. */
  lemma AddColumnSqlSplit(schema: string, table: string, spec: FieldSpec)
    ensures AddColumnSql(schema, table, spec)
         == ("ALTER TABLE " + QuoteIdentifier(schema) + ".") + QuoteIdentifier(table)
            + (" ADD COLUMN " + QuoteIdentifier(spec.name) + " " + TypeDefinition(spec))
  {
    Regroup("ALTER TABLE ", QuoteIdentifier(schema), ".", QuoteIdentifier(table),
            " ADD COLUMN ", QuoteIdentifier(spec.name), " ", TypeDefinition(spec));
  }

  lemma Regroup(a: string, b: string, c: string, d: string, x1: string, x2: string, x3: string, x4: string)
    ensures a + (b + c + d) + x1 + x2 + x3 + x4 == (a + b + c) + d + (x1 + x2 + x3 + x4)
  {
  }

  /** The tables a batch add alters: those the existing set does not hold (ignoring case),
      in table order. */
  function BatchTargets(tables: seq<string>, existing: seq<string>): (r: seq<string>)
    ensures |r| <= |tables|
    decreases |tables|
  {
    if tables == [] then []
    else
      var t := tables[|tables| - 1];
      BatchTargets(tables[..|tables| - 1], existing) + (if ContainsIgnoreCase(existing, t) then [] else [t])
  }

  /** The number of tables a batch add skips. */
  function BatchSkipped(tables: seq<string>, existing: seq<string>): nat
    decreases |tables|
  {
    if tables == [] then 0
    else
      BatchSkipped(tables[..|tables| - 1], existing) + (if ContainsIgnoreCase(existing, tables[|tables| - 1]) then 1 else 0)
  }

  /** The statements of a batch add, one per target table, in table order. */
  function BatchStatements(schema: string, targets: seq<string>, spec: FieldSpec): (r: seq<string>)
    ensures |r| == |targets|
  {
    seq(|targets|, i requires 0 <= i < |targets| => AddColumnSql(schema, targets[i], spec))
  }

  /** Every table is either altered or skipped. */
  lemma {:induction false} BatchConservation(tables: seq<string>, existing: seq<string>)
    ensures |BatchTargets(tables, existing)| + BatchSkipped(tables, existing) == |tables|
    decreases |tables|
  {
    if tables != [] {
      BatchConservation(tables[..|tables| - 1], existing);
    }
  }

  /** A table is altered exactly when it is listed and not in the existing set. */
  lemma {:induction false} BatchTargetsMembers(tables: seq<string>, existing: seq<string>, t: string)
    ensures t in BatchTargets(tables, existing) <==> t in tables && !ContainsIgnoreCase(existing, t)
    decreases |tables|
  {
    if tables != [] {
      var init := tables[..|tables| - 1];
      BatchTargetsMembers(init, existing, t);
      assert tables == init + [tables[|tables| - 1]];
    }
  }

  /** The targets keep table order: when the tables are listed once each, a target that
      comes earlier names a table that comes earlier. */
  lemma {:induction false} BatchTargetsInOrder(tables: seq<string>, existing: seq<string>, a: nat, b: nat)
    requires forall i, j :: 0 <= i < j < |tables| ==> tables[i] != tables[j]
    requires a < b < |BatchTargets(tables, existing)|
    ensures exists i, j :: 0 <= i < j < |tables| && tables[i] == BatchTargets(tables, existing)[a]
                                                && tables[j] == BatchTargets(tables, existing)[b]
    decreases |tables|
  {
    var init := tables[..|tables| - 1];
    var last := tables[|tables| - 1];
    var prev := BatchTargets(init, existing);
    var r := BatchTargets(tables, existing);
    assert r == prev + (if ContainsIgnoreCase(existing, last) then [] else [last]);
    if b < |prev| {
      BatchTargetsInOrder(init, existing, a, b);
      var i, j :| 0 <= i < j < |init| && init[i] == prev[a] && init[j] == prev[b];
      assert tables[i] == r[a] && tables[j] == r[b];
    } else {
      assert r[b] == last;
      BatchTargetsMembers(init, existing, prev[a]);
      var i :| 0 <= i < |init| && init[i] == prev[a];
      assert tables[i] == r[a] && tables[|tables| - 1] == r[b];
    }
  }

  /** No ADD COLUMN is sent for a table that already has the field, in any letter case. */
  lemma NoStatementForExisting(schema: string, tables: seq<string>, existing: seq<string>, spec: FieldSpec, t: string)
    requires ContainsIgnoreCase(existing, t)
    ensures AddColumnSql(schema, t, spec) !in BatchStatements(schema, BatchTargets(tables, existing), spec)
  {
    var targets := BatchTargets(tables, existing);
    if AddColumnSql(schema, t, spec) in BatchStatements(schema, targets, spec) {
      var i :| 0 <= i < |targets| && BatchStatements(schema, targets, spec)[i] == AddColumnSql(schema, t, spec);
      AddColumnSqlInjective(schema, targets[i], t, spec);
      BatchTargetsMembers(tables, existing, t);
      assert false;
    }
  }

  /** The existing set is compared ignoring case: a reported name counts only up to its
      letter case, so replacing it by one that differs only in case changes no target. */
  lemma {:induction false} ExistingIgnoresCase(tables: seq<string>, existing: seq<string>, e1: string, e2: string)
    requires EqualsIgnoreCase(e1, e2)
    ensures BatchTargets(tables, existing + [e1]) == BatchTargets(tables, existing + [e2])
    decreases |tables|
  {
    if tables != [] {
      var t := tables[|tables| - 1];
      ExistingIgnoresCase(tables[..|tables| - 1], existing, e1, e2);
      if ContainsIgnoreCase(existing + [e1], t) {
        var i :| 0 <= i < |existing| + 1 && EqualsIgnoreCase((existing + [e1])[i], t);
        assert EqualsIgnoreCase((existing + [e2])[i], t);
      }
      if ContainsIgnoreCase(existing + [e2], t) {
        var i :| 0 <= i < |existing| + 1 && EqualsIgnoreCase((existing + [e2])[i], t);
        assert EqualsIgnoreCase((existing + [e1])[i], t);
      }
    }
  }

  /** A spatial column of the selected table, from `geometry_columns` or
      `geography_columns`. */
  datatype SpatialColumn = SpatialColumn(name: string, geomType: string, srid: Int32, isGeography: bool)

  /** The statement that moves a spatial column to SRID `target`, keeping its kind. */
  function AlterSridSql(schema: string, table: string, c: SpatialColumn, target: Int32): string {
    var column := QuoteIdentifier(c.name);
    var srid := IntToString(target as int);
    var typeDefinition :=
      if c.isGeography then "geography(" + c.geomType + ", " + srid + ")" else "geometry(" + c.geomType + ", " + srid + ")";
    var usingExpression :=
      if c.isGeography then "ST_Transform(" + column + "::geometry, " + srid + ")::geography"
      else "ST_Transform(" + column + ", " + srid + ")";
    "ALTER TABLE " + FullTableName(schema, table) + " ALTER COLUMN " + column + " TYPE " + typeDefinition + " USING " + usingExpression
  }

  /** The spatial columns a conversion alters: those whose SRID differs from the target,
      in column order. */
  function ConvertTargets(columns: seq<SpatialColumn>, target: Int32): (r: seq<SpatialColumn>)
    ensures |r| <= |columns|
    decreases |columns|
  {
    if columns == [] then []
    else
      var c := columns[|columns| - 1];
      ConvertTargets(columns[..|columns| - 1], target) + (if c.srid == target then [] else [c])
  }

  function ConvertSkipped(columns: seq<SpatialColumn>, target: Int32): nat
    decreases |columns|
  {
    if columns == [] then 0
    else ConvertSkipped(columns[..|columns| - 1], target) + (if columns[|columns| - 1].srid == target then 1 else 0)
  }

  function ConvertStatements(schema: string, table: string, targets: seq<SpatialColumn>, target: Int32): (r: seq<string>)
    ensures |r| == |targets|
  {
    seq(|targets|, i requires 0 <= i < |targets| => AlterSridSql(schema, table, targets[i], target))
  }

  /** Every spatial column is either converted or skipped. */
  lemma {:induction false} ConvertConservation(columns: seq<SpatialColumn>, target: Int32)
    ensures |ConvertTargets(columns, target)| + ConvertSkipped(columns, target) == |columns|
    decreases |columns|
  {
    if columns != [] {
      ConvertConservation(columns[..|columns| - 1], target);
    }
  }

  /** A column is converted exactly when it is listed with an SRID other than the target. */
  lemma {:induction false} ConvertTargetsMembers(columns: seq<SpatialColumn>, target: Int32, c: SpatialColumn)
    ensures c in ConvertTargets(columns, target) <==> c in columns && c.srid != target
    decreases |columns|
  {
    if columns != [] {
      var init := columns[..|columns| - 1];
      ConvertTargetsMembers(init, target, c);
      assert columns == init + [columns[|columns| - 1]];
    }
  }

  /** When every column already has the target SRID, nothing is altered and all are
      counted as skipped. */
  lemma ConvertNothingToDo(columns: seq<SpatialColumn>, target: Int32)
    requires forall i :: 0 <= i < |columns| ==> columns[i].srid == target
    ensures ConvertTargets(columns, target) == [] && ConvertSkipped(columns, target) == |columns|
  {
    ConvertConservation(columns, target);
    if ConvertTargets(columns, target) != [] {
      var c := ConvertTargets(columns, target)[0];
      ConvertTargetsMembers(columns, target, c);
      assert false;
    }
  }

  /** A geography column is altered through geometry and cast back: its statement uses
      `ST_Transform(col::geometry, srid)::geography`; a geometry column is transformed
      directly. */
  lemma AlterSridShape(schema: string, table: string, c: SpatialColumn, target: Int32)
    ensures var sql := AlterSridSql(schema, table, c, target);
      var u := if c.isGeography then "ST_Transform(" + QuoteIdentifier(c.name) + "::geometry, " + IntToString(target as int) + ")::geography"
               else "ST_Transform(" + QuoteIdentifier(c.name) + ", " + IntToString(target as int) + ")";
      |sql| >= |u| && sql[|sql| - |u|..] == u
  {
  }

  /** What the server does with statements sent one after another: `rejected` maps each
      statement the server refuses to the message of the error it raises. A refused
      statement ends the run; the statements before it have run. */
  datatype RunResult = RunResult(ran: seq<string>, error: Option<string>)

  function Run(stmts: seq<string>, rejected: map<string, string>): RunResult
    decreases |stmts|
  {
    if stmts == [] then RunResult([], None)
    else
      var r := Run(stmts[..|stmts| - 1], rejected);
      var q := stmts[|stmts| - 1];
      if r.error.Some? then r
      else if q in rejected then RunResult(r.ran, Some(rejected[q]))
      else RunResult(r.ran + [q], None)
  }

  /** A run executes the longest prefix of statements the server accepts; it succeeds
      exactly when the server accepts them all, and otherwise reports the error of the
      first refused statement. */
  lemma {:induction false} RunFacts(stmts: seq<string>, rejected: map<string, string>)
    ensures var r := Run(stmts, rejected);
      && r.ran <= stmts
      && (forall q :: q in r.ran ==> q !in rejected)
      && (r.error.None? <==> forall q :: q in stmts ==> q !in rejected)
      && (r.error.None? ==> r.ran == stmts)
      && (r.error.Some? ==> |r.ran| < |stmts| && stmts[|r.ran|] in rejected && r.error.value == rejected[stmts[|r.ran|]])
    decreases |stmts|
  {
    if stmts != [] {
      var init := stmts[..|stmts| - 1];
      RunFacts(init, rejected);
      assert stmts == init + [stmts[|stmts| - 1]];
      var r0 := Run(init, rejected);
      if r0.error.Some? {
        assert init[|r0.ran|] == stmts[|r0.ran|];
        assert init[|r0.ran|] in stmts;
      }
    }
  }

  /** Nothing after a refused statement is sent. */
  lemma {:induction false} RunStops(a: seq<string>, b: seq<string>, rejected: map<string, string>)
    requires Run(a, rejected).error.Some?
    ensures Run(a + b, rejected) == Run(a, rejected)
    decreases |b|
  {
    if b != [] {
      var b0 := b[..|b| - 1];
      assert (a + b)[..|a + b| - 1] == a + b0;
      RunStops(a, b0, rejected);
    } else {
      assert a + b == a;
    }
  }

  /** The targets of a batch over two lists of tables are those of the first list, then
      those of the second. */
  lemma {:induction false} BatchTargetsAppend(a: seq<string>, b: seq<string>, existing: seq<string>)
    ensures BatchTargets(a + b, existing) == BatchTargets(a, existing) + BatchTargets(b, existing)
    decreases |b|
  {
    if b == [] {
      assert a + b == a;
    } else {
      var b0 := b[..|b| - 1];
      assert (a + b)[..|a + b| - 1] == a + b0;
      BatchTargetsAppend(a, b0, existing);
    }
  }

  lemma BatchStatementsAppend(schema: string, a: seq<string>, b: seq<string>, spec: FieldSpec)
    ensures BatchStatements(schema, a + b, spec) == BatchStatements(schema, a, spec) + BatchStatements(schema, b, spec)
  {
    var l, r := BatchStatements(schema, a + b, spec), BatchStatements(schema, a, spec) + BatchStatements(schema, b, spec);
    forall i | 0 <= i < |l|
      ensures l[i] == r[i]
    {
      if i < |a| { assert (a + b)[i] == a[i]; } else { assert (a + b)[i] == b[i - |a|]; }
    }
  }

  /** The columns a conversion over two lists alters are those of the first, then those
      of the second. */
  lemma {:induction false} ConvertTargetsAppend(a: seq<SpatialColumn>, b: seq<SpatialColumn>, target: Int32)
    ensures ConvertTargets(a + b, target) == ConvertTargets(a, target) + ConvertTargets(b, target)
    decreases |b|
  {
    if b == [] {
      assert a + b == a;
    } else {
      var b0 := b[..|b| - 1];
      assert (a + b)[..|a + b| - 1] == a + b0;
      ConvertTargetsAppend(a, b0, target);
    }
  }

  lemma ConvertStatementsAppend(schema: string, table: string, a: seq<SpatialColumn>, b: seq<SpatialColumn>, target: Int32)
    ensures ConvertStatements(schema, table, a + b, target) == ConvertStatements(schema, table, a, target) + ConvertStatements(schema, table, b, target)
  {
    var l, r := ConvertStatements(schema, table, a + b, target), ConvertStatements(schema, table, a, target) + ConvertStatements(schema, table, b, target);
    forall i | 0 <= i < |l|
      ensures l[i] == r[i]
    {
      if i < |a| { assert (a + b)[i] == a[i]; } else { assert (a + b)[i] == b[i - |a|]; }
    }
  }

  /** One more statement: it is sent only if every earlier statement was accepted. */
  lemma RunSnoc(stmts: seq<string>, q: string, rejected: map<string, string>)
    ensures var r := Run(stmts, rejected);
      Run(stmts + [q], rejected)
        == if r.error.Some? then r else if q in rejected then RunResult(r.ran, Some(rejected[q])) else RunResult(r.ran + [q], None)
  {
    assert (stmts + [q])[..|stmts|] == stmts;
  }

  /** One more table for a batch add: it is skipped or gets one more statement. */
  lemma BatchStep(schema: string, tables: seq<string>, k: nat, existing: seq<string>, spec: FieldSpec, rejected: map<string, string>)
    requires k < |tables|
    ensures BatchTargets(tables[..k + 1], existing)
         == BatchTargets(tables[..k], existing) + (if ContainsIgnoreCase(existing, tables[k]) then [] else [tables[k]])
    ensures BatchSkipped(tables[..k + 1], existing)
         == BatchSkipped(tables[..k], existing) + (if ContainsIgnoreCase(existing, tables[k]) then 1 else 0)
    ensures var r := Run(BatchStatements(schema, BatchTargets(tables[..k], existing), spec), rejected);
      var q := AddColumnSql(schema, tables[k], spec);
      Run(BatchStatements(schema, BatchTargets(tables[..k + 1], existing), spec), rejected)
        == if r.error.Some? || ContainsIgnoreCase(existing, tables[k]) then r
           else if q in rejected then RunResult(r.ran, Some(rejected[q])) else RunResult(r.ran + [q], None)
  {
    assert tables[..k + 1][..k] == tables[..k];
    var ts := BatchTargets(tables[..k], existing);
    if ContainsIgnoreCase(existing, tables[k]) {
      assert ts + [] == ts;
    } else {
      BatchStatementsAppend(schema, ts, [tables[k]], spec);
      RunSnoc(BatchStatements(schema, ts, spec), AddColumnSql(schema, tables[k], spec), rejected);
    }
  }

  /** A batch add that fails on a prefix of the tables fails the same way on all of them. */
  lemma BatchStops(schema: string, tables: seq<string>, k: nat, existing: seq<string>, spec: FieldSpec, rejected: map<string, string>)
    requires k <= |tables|
    requires Run(BatchStatements(schema, BatchTargets(tables[..k], existing), spec), rejected).error.Some?
    ensures Run(BatchStatements(schema, BatchTargets(tables, existing), spec), rejected)
         == Run(BatchStatements(schema, BatchTargets(tables[..k], existing), spec), rejected)
  {
    var a, b := tables[..k], tables[k..];
    assert a + b == tables;
    BatchTargetsAppend(a, b, existing);
    var ta, tb := BatchTargets(a, existing), BatchTargets(b, existing);
    BatchStatementsAppend(schema, ta, tb, spec);
    RunStops(BatchStatements(schema, ta, spec), BatchStatements(schema, tb, spec), rejected);
  }

  /** One more spatial column for a conversion: it is skipped or gets one more statement. */
  lemma ConvertStep(schema: string, table: string, columns: seq<SpatialColumn>, k: nat, target: Int32, rejected: map<string, string>)
    requires k < |columns|
    ensures ConvertTargets(columns[..k + 1], target)
         == ConvertTargets(columns[..k], target) + (if columns[k].srid == target then [] else [columns[k]])
    ensures ConvertSkipped(columns[..k + 1], target)
         == ConvertSkipped(columns[..k], target) + (if columns[k].srid == target then 1 else 0)
    ensures var r := Run(ConvertStatements(schema, table, ConvertTargets(columns[..k], target), target), rejected);
      var q := AlterSridSql(schema, table, columns[k], target);
      Run(ConvertStatements(schema, table, ConvertTargets(columns[..k + 1], target), target), rejected)
        == if r.error.Some? || columns[k].srid == target then r
           else if q in rejected then RunResult(r.ran, Some(rejected[q])) else RunResult(r.ran + [q], None)
  {
    assert columns[..k + 1][..k] == columns[..k];
    var ts := ConvertTargets(columns[..k], target);
    if columns[k].srid == target {
      assert ts + [] == ts;
    } else {
      ConvertStatementsAppend(schema, table, ts, [columns[k]], target);
      RunSnoc(ConvertStatements(schema, table, ts, target), AlterSridSql(schema, table, columns[k], target), rejected);
    }
  }

  /** A conversion that fails on a prefix of the columns fails the same way on all of them. */
  lemma ConvertStops(schema: string, table: string, columns: seq<SpatialColumn>, k: nat, target: Int32, rejected: map<string, string>)
    requires k <= |columns|
    requires Run(ConvertStatements(schema, table, ConvertTargets(columns[..k], target), target), rejected).error.Some?
    ensures Run(ConvertStatements(schema, table, ConvertTargets(columns, target), target), rejected)
         == Run(ConvertStatements(schema, table, ConvertTargets(columns[..k], target), target), rejected)
  {
    var a, b := columns[..k], columns[k..];
    assert a + b == columns;
    ConvertTargetsAppend(a, b, target);
    var ta, tb := ConvertTargets(a, target), ConvertTargets(b, target);
    ConvertStatementsAppend(schema, table, ta, tb, target);
    RunStops(ConvertStatements(schema, table, ta, target), ConvertStatements(schema, table, tb, target), rejected);
  }

  /** What the statement loop of a conversion or a batch add has done so far: the
      statements the server ran, the error that ended the loop, and the two counts. */
  datatype LoopState = LoopState(ran: seq<string>, error: Option<string>, done: nat, skipped: nat)

  /** The statement loop of ConvertCoordinateSystemAsync, one column at a time: a column
      already at the target SRID is counted as skipped; for any other the statement is
      sent, and a refusal ends the loop. */
  function ConvertLoop(schema: string, table: string, columns: seq<SpatialColumn>, target: Int32, rejected: map<string, string>): LoopState
    decreases |columns|
  {
    if columns == [] then LoopState([], None, 0, 0)
    else
      var o := ConvertLoop(schema, table, columns[..|columns| - 1], target, rejected);
      var c := columns[|columns| - 1];
      var q := AlterSridSql(schema, table, c, target);
      if o.error.Some? then o
      else if c.srid == target then o.(skipped := o.skipped + 1)
      else if q in rejected then o.(error := Some(rejected[q]))
      else o.(ran := o.ran + [q], done := o.done + 1)
  }

  /** The loop runs the statements for the columns to convert as `Run` does, and when no
      statement is refused its counts are those of the targets and of the skipped columns. */
  lemma {:induction false} ConvertLoopRuns(schema: string, table: string, columns: seq<SpatialColumn>, target: Int32, rejected: map<string, string>)
    ensures var o := ConvertLoop(schema, table, columns, target, rejected);
      && RunResult(o.ran, o.error) == Run(ConvertStatements(schema, table, ConvertTargets(columns, target), target), rejected)
      && (o.error.None? ==> o.done == |ConvertTargets(columns, target)| && o.skipped == ConvertSkipped(columns, target))
    decreases |columns|
  {
    if columns != [] {
      var n := |columns| - 1;
      ConvertLoopRuns(schema, table, columns[..n], target, rejected);
      ConvertStep(schema, table, columns, n, target, rejected);
      assert columns[..n + 1] == columns;
    }
  }

  /** The statement loop of ConvertCoordinateSystemAsync. */
  method RunConversion(schema: string, table: string, columns: seq<SpatialColumn>, target: Int32, rejected: map<string, string>)
    returns (ran: seq<string>, error: Option<string>, converted: nat, skipped: nat)
    ensures RunResult(ran, error) == Run(ConvertStatements(schema, table, ConvertTargets(columns, target), target), rejected)
    ensures error.None? ==> converted == |ConvertTargets(columns, target)| && skipped == ConvertSkipped(columns, target)
  {
    ran, error, converted, skipped := [], None, 0, 0;
    var k := 0;
    while k < |columns| && error.None?
      invariant 0 <= k <= |columns|
      invariant LoopState(ran, error, converted, skipped) == ConvertLoop(schema, table, columns[..k], target, rejected)
    {
      var column := columns[k];
      assert columns[..k + 1][..k] == columns[..k];
      if column.srid == target {
        skipped := skipped + 1;
      } else {
        var sql := AlterSridSql(schema, table, column, target);
        if sql in rejected {
          error := Some(rejected[sql]);
        } else {
          ran, converted := ran + [sql], converted + 1;
        }
      }
      k := k + 1;
    }
    ConvertLoopRuns(schema, table, columns[..k], target, rejected);
    if k < |columns| {
      ConvertStops(schema, table, columns, k, target, rejected);
    } else {
      assert columns[..k] == columns;
    }
  }

  /** The statement loop of BatchAddFieldAsync, one table at a time: a table that already
      has the column is counted as skipped; for any other the statement is sent, and a
      refusal ends the loop. */
  function BatchLoop(schema: string, tables: seq<string>, existing: seq<string>, spec: FieldSpec, rejected: map<string, string>): LoopState
    decreases |tables|
  {
    if tables == [] then LoopState([], None, 0, 0)
    else
      var o := BatchLoop(schema, tables[..|tables| - 1], existing, spec, rejected);
      var t := tables[|tables| - 1];
      var q := AddColumnSql(schema, t, spec);
      if o.error.Some? then o
      else if ContainsIgnoreCase(existing, t) then o.(skipped := o.skipped + 1)
      else if q in rejected then o.(error := Some(rejected[q]))
      else o.(ran := o.ran + [q], done := o.done + 1)
  }

  lemma {:induction false} BatchLoopRuns(schema: string, tables: seq<string>, existing: seq<string>, spec: FieldSpec, rejected: map<string, string>)
    ensures var o := BatchLoop(schema, tables, existing, spec, rejected);
      && RunResult(o.ran, o.error) == Run(BatchStatements(schema, BatchTargets(tables, existing), spec), rejected)
      && (o.error.None? ==> o.done == |BatchTargets(tables, existing)| && o.skipped == BatchSkipped(tables, existing))
    decreases |tables|
  {
    if tables != [] {
      var n := |tables| - 1;
      BatchLoopRuns(schema, tables[..n], existing, spec, rejected);
      BatchStep(schema, tables, n, existing, spec, rejected);
      assert tables[..n + 1] == tables;
    }
  }

  /** The statement loop of BatchAddFieldAsync. */
  method RunBatch(schema: string, tables: seq<string>, existing: seq<string>, spec: FieldSpec, rejected: map<string, string>)
    returns (ran: seq<string>, error: Option<string>, added: nat, skipped: nat)
    ensures RunResult(ran, error) == Run(BatchStatements(schema, BatchTargets(tables, existing), spec), rejected)
    ensures error.None? ==> added == |BatchTargets(tables, existing)| && skipped == BatchSkipped(tables, existing)
  {
    ran, error, added, skipped := [], None, 0, 0;
    var k := 0;
    while k < |tables| && error.None?
      invariant 0 <= k <= |tables|
      invariant LoopState(ran, error, added, skipped) == BatchLoop(schema, tables[..k], existing, spec, rejected)
    {
      var table := tables[k];
      assert tables[..k + 1][..k] == tables[..k];
      if ContainsIgnoreCase(existing, table) {
        skipped := skipped + 1;
      } else {
        var sql := AddColumnSql(schema, table, spec);
        if sql in rejected {
          error := Some(rejected[sql]);
        } else {
          ran, added := ran + [sql], added + 1;
        }
      }
      k := k + 1;
    }
    BatchLoopRuns(schema, tables[..k], existing, spec, rejected);
    if k < |tables| {
      BatchStops(schema, tables, k, existing, spec, rejected);
    } else {
      assert tables[..k] == tables;
    }
  }
}
