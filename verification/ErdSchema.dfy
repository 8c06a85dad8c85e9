/** figura/scripts/erd-model.mjs: the model and the problems of a schema, told field by
    field and problem by problem. */
module ErdSchema {
  import opened Optional
  import opened Names
  import opened ErdTypes
  import opened ErdModel

  // ----- the tables

  predicate ColumnIsWritten(column: Column, raw: RawColumn) {
    && column.name == raw.name && column.typ == raw.typ
    && column.primaryKey == raw.primaryKey && column.unique == raw.unique && column.nullable == raw.nullable
  }

  predicate TableIsWritten(table: Table, raw: RawTable) {
    && table.name == raw.name
    && (raw.domain == "" ==> table.domain == None) && (raw.domain != "" ==> table.domain == Some(raw.domain))
    && |table.columns| == |raw.columns|
    && forall j | 0 <= j < |raw.columns| :: ColumnIsWritten(table.columns[j], raw.columns[j])
  }

  // The first declaration of its name.
  predicate IsFirst(raw: seq<RawTable>, i: nat) {
    i < |raw| && raw[i].name != "" && forall k | 0 <= k < i :: raw[k].name != raw[i].name
  }

  // The tables are the first declarations, in their order.
  ghost predicate WrittenFrom(tables: seq<Table>, raw: seq<RawTable>, places: seq<nat>) {
    && |places| == |tables| && (forall k, l | 0 <= k < l < |places| :: places[k] < places[l])
    && (forall k | 0 <= k < |places| :: IsFirst(raw, places[k]) && TableIsWritten(tables[k], raw[places[k]]))
    && (forall i: nat | IsFirst(raw, i) :: i in places)
  }

  lemma FirstInFront(raw: seq<RawTable>, i: nat)
    requires raw != [] && i < |raw| - 1
    ensures IsFirst(raw, i) <==> IsFirst(raw[..|raw| - 1], i)
  {
    var front := raw[..|raw| - 1];
    assert forall k | 0 <= k < |front| :: front[k] == raw[k];
  }

  lemma LastIsFirst(raw: seq<RawTable>)
    requires raw != []
    ensures IsFirst(raw, |raw| - 1) <==> raw[|raw| - 1].name != "" && !RawHas(raw[..|raw| - 1], raw[|raw| - 1].name)
  {
    var front := raw[..|raw| - 1];
    assert forall k | 0 <= k < |front| :: front[k] == raw[k];
  }

  lemma OneMoreWritten(tables: seq<Table>, raw: seq<RawTable>, places: seq<nat>)
    requires raw != [] && WrittenFrom(tables, raw[..|raw| - 1], places)
    ensures var n := |raw| - 1;
            if IsFirst(raw, n) then WrittenFrom(tables + [ModelTable(raw[n])], raw, places + [n]) else WrittenFrom(tables, raw, places)
  {
    var n := |raw| - 1;
    forall i: nat | i < n ensures IsFirst(raw, i) <==> IsFirst(raw[..n], i) {
      FirstInFront(raw, i);
    }
    forall k | 0 <= k < |places| ensures IsFirst(raw, places[k]) && TableIsWritten(tables[k], raw[places[k]]) {
      assert IsFirst(raw[..n], places[k]);
    }
    assert TableIsWritten(ModelTable(raw[n]), raw[n]);
  }

  lemma {:induction false} KeptAreWritten(raw: seq<RawTable>) returns (places: seq<nat>)
    ensures WrittenFrom(Kept(raw), raw, places)
  {
    places := [];
    if raw != [] {
      var n := |raw| - 1;
      places := KeptAreWritten(raw[..n]);
      OneMoreWritten(Kept(raw[..n]), raw, places);
      KeptNames(raw[..n], raw[n].name);
      LastIsFirst(raw);
      if IsFirst(raw, n) {
        places := places + [n];
      }
    }
  }

  // The references added to columns leave what was written.
  lemma WithoutReferencesWritten(table: Table, plain: Table, raw: RawTable)
    requires plain == table.(columns := PlainColumns(table.columns)) && TableIsWritten(plain, raw)
    ensures TableIsWritten(table, raw)
  {
    assert forall j | 0 <= j < |table.columns| :: plain.columns[j] == table.columns[j].(references := []);
  }

  // The model of a schema holds the first declaration of every named table, in the order
  // of the schema and field by field as it is written.
  lemma ModelIsWritten(raw: seq<RawTable>, tables: seq<Table>) returns (places: seq<nat>)
    requires WithoutReferences(tables) == Kept(raw)
    ensures WrittenFrom(tables, raw, places)
  {
    places := KeptAreWritten(raw);
    forall k | 0 <= k < |places| ensures TableIsWritten(tables[k], raw[places[k]]) {
      assert WithoutReferences(tables)[k] == Kept(raw)[k];
      WithoutReferencesWritten(tables[k], Kept(raw)[k], raw[places[k]]);
    }
  }

  // ----- the problems

  // Who declares a name twice, a column without name or type, an end that is not there.
  ghost predicate HasProblem(schema: Schema, problem: SchemaProblem) {
    match problem
    case TableWithoutName => exists i :: 0 <= i < |schema.tables| && schema.tables[i].name == ""
    case ColumnWithoutNameOrType(table) =>
      table != "" && exists i :: 0 <= i < |schema.tables| && schema.tables[i].name == table && !AllNamed(schema.tables[i].columns)
    case DeclaredTwice(table) => table != "" && IsTwice(schema.tables, table)
    case UnknownTable(relation, end) =>
      relation in schema.relations && (end == relation.source || end == relation.target) && !NamesTable(schema.tables, end.table)
    case UnknownColumn(relation, end) =>
      relation in schema.relations && (end == relation.source || end == relation.target)
      && NamesTable(schema.tables, end.table) && !FirstHas(schema.tables, end)
    case BadCardinality(relation) =>
      relation in schema.relations && relation.cardinality != "many-to-one" && relation.cardinality != "one-to-one"
  }

  ghost predicate IsTwice(raw: seq<RawTable>, name: string) {
    exists i, j :: 0 <= i < j < |raw| && raw[i].name == name && raw[j].name == name
  }

  ghost predicate NamesTable(raw: seq<RawTable>, name: string) {
    name != "" && RawHas(raw, name)
  }

  // The first declaration of the table has the column.
  ghost predicate FirstHas(raw: seq<RawTable>, end: End) {
    exists i: nat, j :: IsFirst(raw, i) && raw[i].name == end.table && 0 <= j < |raw[i].columns| && raw[i].columns[j].name == end.column
  }

  lemma {:induction false} ColumnProblemsAre(table: Name, columns: seq<RawColumn>)
    ensures forall problem | problem in ColumnProblems(table, columns) :: problem == ColumnWithoutNameOrType(table)
    ensures ColumnWithoutNameOrType(table) in ColumnProblems(table, columns) <==> !AllNamed(columns)
  {
    NoColumnProblems(table, columns);
    if columns != [] {
      ColumnProblemsAre(table, columns[..|columns| - 1]);
      NoColumnProblems(table, columns[..|columns| - 1]);
    }
  }

  // What the last table adds to the problems there were before it.
  ghost predicate TableHas(raw: seq<RawTable>, table: RawTable, problem: SchemaProblem) {
    match problem
    case TableWithoutName => table.name == ""
    case ColumnWithoutNameOrType(name) => name != "" && table.name == name && !AllNamed(table.columns)
    case DeclaredTwice(name) => name != "" && table.name == name && RawHas(raw, name)
    case _ => false
  }

  lemma TableProblemsAre(raw: seq<RawTable>, table: RawTable, problem: SchemaProblem)
    ensures problem in TableProblems(Kept(raw), table) <==> TableHas(raw, table, problem)
  {
    KeptNames(raw, table.name);
    ColumnProblemsAre(table.name, table.columns);
    if table.name != "" {
      assert problem in TableProblems(Kept(raw), table)
             <==> problem in ColumnProblems(table.name, table.columns) || (Redeclared(Kept(raw), table) && problem == DeclaredTwice(table.name));
    }
  }

  ghost predicate TablesHave(raw: seq<RawTable>, problem: SchemaProblem) {
    exists i :: 0 <= i < |raw| && TableHas(raw[..i], raw[i], problem)
  }

  lemma TablesHaveMore(raw: seq<RawTable>, problem: SchemaProblem)
    requires raw != []
    ensures var n := |raw| - 1;
            TablesHave(raw, problem) <==> TablesHave(raw[..n], problem) || TableHas(raw[..n], raw[n], problem)
  {
    var n := |raw| - 1;
    assert forall i | 0 <= i < n :: raw[..n][..i] == raw[..i] && raw[..n][i] == raw[i];
    if TablesHave(raw[..n], problem) {
      var i :| 0 <= i < n && TableHas(raw[..n][..i], raw[..n][i], problem);
      assert TableHas(raw[..i], raw[i], problem);
    }
    if TablesHave(raw, problem) {
      var i :| 0 <= i < |raw| && TableHas(raw[..i], raw[i], problem);
      assert i < n ==> TableHas(raw[..n][..i], raw[..n][i], problem);
    }
  }

  lemma {:induction false} AllTableProblemsAre(raw: seq<RawTable>, problem: SchemaProblem)
    ensures problem in AllTableProblems(raw) <==> TablesHave(raw, problem)
  {
    if raw != [] {
      var n := |raw| - 1;
      AllTableProblemsAre(raw[..n], problem);
      TableProblemsAre(raw[..n], raw[n], problem);
      TablesHaveMore(raw, problem);
    }
  }

  lemma TablesHaveIs(schema: Schema, problem: SchemaProblem)
    requires problem.TableWithoutName? || problem.ColumnWithoutNameOrType? || problem.DeclaredTwice?
    ensures TablesHave(schema.tables, problem) <==> HasProblem(schema, problem)
  {
    var raw := schema.tables;
    if TablesHave(raw, problem) {
      var i :| 0 <= i < |raw| && TableHas(raw[..i], raw[i], problem);
      if problem.DeclaredTwice? {
        var k :| 0 <= k < i && raw[..i][k].name == problem.table;
        assert raw[k].name == problem.table;
      }
    }
    if HasProblem(schema, problem) {
      if problem.DeclaredTwice? {
        var i, j :| 0 <= i < j < |raw| && raw[i].name == problem.table && raw[j].name == problem.table;
        assert raw[..j][i].name == problem.table;
        assert TableHas(raw[..j], raw[j], problem);
      } else if problem.TableWithoutName? {
        var i :| 0 <= i < |raw| && raw[i].name == "";
        assert TableHas(raw[..i], raw[i], problem);
      } else {
        var i :| 0 <= i < |raw| && raw[i].name == problem.table && !AllNamed(raw[i].columns);
        assert TableHas(raw[..i], raw[i], problem);
      }
    }
  }

  lemma EndExistsFirst(raw: seq<RawTable>, end: End)
    ensures EndExists(Kept(raw), end) <==> FirstHas(raw, end)
  {
    var tables := Kept(raw);
    var places := KeptAreWritten(raw);
    if EndExists(tables, end) {
      var k :| 0 <= k < |tables| && tables[k].name == end.table && HasColumn(tables[k], end.column);
      var j :| 0 <= j < |tables[k].columns| && tables[k].columns[j].name == end.column;
      assert IsFirst(raw, places[k]) && TableIsWritten(tables[k], raw[places[k]]);
      assert ColumnIsWritten(tables[k].columns[j], raw[places[k]].columns[j]);
    }
    if FirstHas(raw, end) {
      var i: nat, j :| IsFirst(raw, i) && raw[i].name == end.table && 0 <= j < |raw[i].columns| && raw[i].columns[j].name == end.column;
      var k :| 0 <= k < |places| && places[k] == i;
      assert TableIsWritten(tables[k], raw[i]);
      assert ColumnIsWritten(tables[k].columns[j], raw[i].columns[j]);
      assert HasColumn(tables[k], end.column);
    }
  }

  // What is reported of one relation.
  ghost predicate RelationHas(raw: seq<RawTable>, relation: Relation, problem: SchemaProblem) {
    match problem
    case UnknownTable(r, end) => r == relation && (end == r.source || end == r.target) && !NamesTable(raw, end.table)
    case UnknownColumn(r, end) =>
      r == relation && (end == r.source || end == r.target) && NamesTable(raw, end.table) && !FirstHas(raw, end)
    case BadCardinality(r) => r == relation && r.cardinality != "many-to-one" && r.cardinality != "one-to-one"
    case _ => false
  }

  lemma EndProblemsAre(raw: seq<RawTable>, relation: Relation, end: End, problem: SchemaProblem)
    ensures problem in EndProblems(Kept(raw), relation, end)
            <==> (problem == UnknownTable(relation, end) && !NamesTable(raw, end.table))
                 || (problem == UnknownColumn(relation, end) && NamesTable(raw, end.table) && !FirstHas(raw, end))
  {
    KeptNames(raw, end.table);
    EndExistsFirst(raw, end);
  }

  lemma RelationProblemsAre(raw: seq<RawTable>, relation: Relation, problem: SchemaProblem)
    ensures problem in RelationProblems(Kept(raw), relation) <==> RelationHas(raw, relation, problem)
  {
    EndProblemsAre(raw, relation, relation.source, problem);
    EndProblemsAre(raw, relation, relation.target, problem);
    var a, b := EndProblems(Kept(raw), relation, relation.source), EndProblems(Kept(raw), relation, relation.target);
    var c := if AllowedCardinality(relation.cardinality) then [] else [BadCardinality(relation)];
    assert problem in a + b + c <==> problem in a || problem in b || problem in c;
  }

  lemma {:induction false} GatheredAre<T, U>(check: T -> seq<U>, items: seq<T>, x: U)
    ensures x in Gathered(check, items) <==> exists i :: 0 <= i < |items| && x in check(items[i])
  {
    if items != [] {
      var last := |items| - 1;
      GatheredAre(check, items[..last], x);
      assert forall i | 0 <= i < last :: items[..last][i] == items[i];
    }
  }

  lemma AllRelationProblemsAre(raw: seq<RawTable>, relations: seq<Relation>, problem: SchemaProblem)
    ensures problem in AllRelationProblems(Kept(raw), relations) <==> exists r :: r in relations && RelationHas(raw, r, problem)
  {
    GatheredAre(ProblemsBy(Kept(raw)), relations, problem);
    forall i | 0 <= i < |relations| ensures problem in ProblemsBy(Kept(raw))(relations[i]) <==> RelationHas(raw, relations[i], problem) {
      RelationProblemsAre(raw, relations[i], problem);
    }
  }

  // Each problem is reported exactly when the schema has it.
  lemma ProblemsAreThose(schema: Schema, problems: seq<SchemaProblem>, problem: SchemaProblem)
    requires problems == AllTableProblems(schema.tables) + AllRelationProblems(Kept(schema.tables), schema.relations)
    ensures problem in problems <==> HasProblem(schema, problem)
  {
    AllTableProblemsAre(schema.tables, problem);
    AllRelationProblemsAre(schema.tables, schema.relations, problem);
    if problem.TableWithoutName? || problem.ColumnWithoutNameOrType? || problem.DeclaredTwice? {
      TablesHaveIs(schema, problem);
      assert forall r :: !RelationHas(schema.tables, r, problem);
    } else {
      assert forall i | 0 <= i < |schema.tables| :: !TableHas(schema.tables[..i], schema.tables[i], problem);
      assert (exists r :: r in schema.relations && RelationHas(schema.tables, r, problem)) <==> HasProblem(schema, problem);
    }
  }
}
