/** figura/scripts/erd-model.mjs: checks a schema and makes the model the splitter and
    the drawing rely on. A missing, non-string or empty name, type or domain of the
    schema is the empty string here. */
module ErdModel {
  import opened Optional
  import opened Names
  import opened ErdTypes

  datatype RawColumn = RawColumn(name: string, typ: string, primaryKey: bool, unique: bool, nullable: bool)

  datatype RawTable = RawTable(name: string, domain: string, columns: seq<RawColumn>)

  datatype Schema = Schema(tables: seq<RawTable>, relations: seq<Relation>)

  datatype SchemaProblem =
    | TableWithoutName
    | ColumnWithoutNameOrType(table: Name)
    | DeclaredTwice(table: Name)
    | UnknownTable(relation: Relation, end: End)
    | UnknownColumn(relation: Relation, end: End)
    | BadCardinality(relation: Relation)

  const MANY_TO_ONE := "many-to-one"
  const ONE_TO_ONE := "one-to-one"

  predicate AllowedCardinality(cardinality: string) {
    cardinality == MANY_TO_ONE || cardinality == ONE_TO_ONE
  }

  // ----- what the schema must hold for the model to report nothing

  predicate NamedColumn(column: RawColumn) {
    column.name != "" && column.typ != ""
  }

  predicate NamedTable(table: RawTable) {
    table.name != "" && AllNamed(table.columns)
  }

  predicate AllNamed(columns: seq<RawColumn>) {
    forall i | 0 <= i < |columns| :: NamedColumn(columns[i])
  }

  predicate SchemaHas(tables: seq<RawTable>, end: End) {
    exists i, j :: 0 <= i < |tables| && 0 <= j < |tables[i].columns|
                   && tables[i].name == end.table && tables[i].columns[j].name == end.column
  }

  predicate SoundSchema(schema: Schema) {
    SoundTables(schema.tables) && forall i | 0 <= i < |schema.relations| :: SoundRelation(schema.tables, schema.relations[i])
  }

  predicate SoundRelation(tables: seq<RawTable>, relation: Relation) {
    SchemaHas(tables, relation.source) && SchemaHas(tables, relation.target) && AllowedCardinality(relation.cardinality)
  }

  // ----- tables

  function ModelColumn(column: RawColumn): Column {
    Column(column.name, column.typ, column.primaryKey, column.unique, column.nullable, [])
  }

  function ModelTable(table: RawTable): Table {
    Table(table.name,
          if table.domain != "" then Some(table.domain) else None,
          seq(|table.columns|, i requires 0 <= i < |table.columns| => ModelColumn(table.columns[i])))
  }

  function ColumnProblems(table: Name, columns: seq<RawColumn>): seq<SchemaProblem> {
    if columns == [] then []
    else
      var last := |columns| - 1;
      ColumnProblems(table, columns[..last]) + if NamedColumn(columns[last]) then [] else [ColumnWithoutNameOrType(table)]
  }

  predicate HasTable(tables: seq<Table>, name: Name) {
    exists i :: 0 <= i < |tables| && tables[i].name == name
  }

  predicate Redeclared(tables: seq<Table>, table: RawTable) {
    table.name != "" && HasTable(tables, table.name)
  }

  // The first declaration of every named table, in the order of the schema.
  function Kept(raw: seq<RawTable>): seq<Table> {
    if raw == [] then []
    else
      var last := raw[|raw| - 1];
      var before := Kept(raw[..|raw| - 1]);
      if last.name == "" || Redeclared(before, last) then before else before + [ModelTable(last)]
  }

  function TableProblems(tables: seq<Table>, table: RawTable): seq<SchemaProblem> {
    if table.name == "" then [TableWithoutName]
    else ColumnProblems(table.name, table.columns) + if Redeclared(tables, table) then [DeclaredTwice(table.name)] else []
  }

  // What is reported of the tables, and of the relations between the tables kept.
  function AllTableProblems(raw: seq<RawTable>): seq<SchemaProblem> {
    if raw == [] then []
    else AllTableProblems(raw[..|raw| - 1]) + TableProblems(Kept(raw[..|raw| - 1]), raw[|raw| - 1])
  }

  lemma OneMoreTable(raw: seq<RawTable>, i: nat)
    requires i < |raw|
    ensures var before, last := Kept(raw[..i]), raw[i];
            Kept(raw[..i + 1]) == if last.name == "" || Redeclared(before, last) then before else before + [ModelTable(last)]
    ensures AllTableProblems(raw[..i + 1]) == AllTableProblems(raw[..i]) + TableProblems(Kept(raw[..i]), raw[i])
    ensures SoundTables(raw[..i + 1]) <==> SoundTables(raw[..i]) && TableProblems(Kept(raw[..i]), raw[i]) == []
  {
    assert raw[..i + 1] == raw[..i] + [raw[i]];
    assert raw[..i + 1][..i] == raw[..i];
    SoundTablesGrow(raw[..i], raw[i]);
  }

  // `for (const table of schema.tables)`.
  method ReadTables(raw: seq<RawTable>) returns (tables: seq<Table>, problems: seq<SchemaProblem>)
    ensures tables == Kept(raw) && problems == AllTableProblems(raw)
    ensures problems == [] <==> SoundTables(raw)
  {
    tables, problems := [], [];
    for i := 0 to |raw|
      invariant tables == Kept(raw[..i]) && problems == AllTableProblems(raw[..i])
      invariant problems == [] <==> SoundTables(raw[..i])
    {
      OneMoreTable(raw, i);
      problems := problems + TableProblems(tables, raw[i]);
      if raw[i].name != "" && !Redeclared(tables, raw[i]) {
        tables := tables + [ModelTable(raw[i])];
      }
    }
    assert raw[..|raw|] == raw;
  }

  predicate SoundTables(raw: seq<RawTable>) {
    && (forall i | 0 <= i < |raw| :: NamedTable(raw[i]))
    && (forall i, j | 0 <= i < j < |raw| :: raw[i].name != raw[j].name)
  }

  predicate RawHas(raw: seq<RawTable>, name: string) {
    exists i :: 0 <= i < |raw| && raw[i].name == name
  }

  lemma {:induction false} KeptNames(raw: seq<RawTable>, name: string)
    ensures HasTable(Kept(raw), name) <==> name != "" && RawHas(raw, name)
  {
    if raw != [] {
      var last := raw[|raw| - 1];
      var before := raw[..|raw| - 1];
      KeptNames(before, name);
      assert raw == before + [last];
      RawHasGrows(before, last, name);
      HasTableGrows(Kept(before), ModelTable(last), name);
    }
  }

  lemma RawHasGrows(raw: seq<RawTable>, table: RawTable, name: string)
    ensures RawHas(raw + [table], name) <==> name == table.name || RawHas(raw, name)
  {
    if RawHas(raw, name) {
      var i :| 0 <= i < |raw| && raw[i].name == name;
      assert (raw + [table])[i].name == name;
    }
    assert (raw + [table])[|raw|].name == table.name;
  }

  lemma HasTableGrows(tables: seq<Table>, table: Table, name: Name)
    ensures HasTable(tables + [table], name) <==> name == table.name || HasTable(tables, name)
  {
    if HasTable(tables, name) {
      var i :| 0 <= i < |tables| && tables[i].name == name;
      assert (tables + [table])[i].name == name;
    }
    assert (tables + [table])[|tables|].name == table.name;
  }

  lemma SoundTablesGrow(raw: seq<RawTable>, table: RawTable)
    ensures SoundTables(raw + [table]) <==> SoundTables(raw) && TableProblems(Kept(raw), table) == []
  {
    var grown := raw + [table];
    KeptNames(raw, table.name);
    NoColumnProblems(table.name, table.columns);
    assert grown[..|raw|] == raw && grown[|raw|] == table;
    assert SoundTables(grown) ==> SoundTables(raw) by {
      assert forall i | 0 <= i < |raw| :: grown[i] == raw[i];
    }
  }

  lemma {:induction false} KeptAreDistinct(raw: seq<RawTable>)
    ensures DistinctTables(Kept(raw))
    ensures SoundTables(raw) ==> Kept(raw) == AllTables(raw)
  {
    if raw != [] {
      var before, last := raw[..|raw| - 1], raw[|raw| - 1];
      KeptAreDistinct(before);
      SoundTablesGrow(before, last);
      assert raw == before + [last];
    }
  }

  function AllTables(raw: seq<RawTable>): seq<Table> {
    seq(|raw|, i requires 0 <= i < |raw| => ModelTable(raw[i]))
  }

  lemma {:induction false} NoColumnProblems(table: Name, columns: seq<RawColumn>)
    ensures ColumnProblems(table, columns) == [] <==> AllNamed(columns)
  {
    if columns != [] {
      var last := |columns| - 1;
      NoColumnProblems(table, columns[..last]);
      assert AllNamed(columns) <==> AllNamed(columns[..last]) && NamedColumn(columns[last]) by {
        assert columns == columns[..last] + [columns[last]];
      }
    }
  }

  // ----- relations

  function EndProblems(tables: seq<Table>, relation: Relation, end: End): seq<SchemaProblem> {
    if !HasTable(tables, end.table) then [UnknownTable(relation, end)]
    else if !EndExists(tables, end) then [UnknownColumn(relation, end)]
    else []
  }

  function RelationProblems(tables: seq<Table>, relation: Relation): seq<SchemaProblem> {
    EndProblems(tables, relation, relation.source) + EndProblems(tables, relation, relation.target)
    + if AllowedCardinality(relation.cardinality) then [] else [BadCardinality(relation)]
  }

  predicate Accepted(tables: seq<Table>, relation: Relation) {
    EndExists(tables, relation.source) && EndExists(tables, relation.target) && AllowedCardinality(relation.cardinality)
  }

  // What a check finds in each of the items, one after the other.
  function Gathered<T, U>(check: T -> seq<U>, items: seq<T>): seq<U> {
    if items == [] then [] else Gathered(check, items[..|items| - 1]) + check(items[|items| - 1])
  }

  function ProblemsBy(tables: seq<Table>): Relation -> seq<SchemaProblem> {
    (relation: Relation) => RelationProblems(tables, relation)
  }

  function AllRelationProblems(tables: seq<Table>, raw: seq<Relation>): seq<SchemaProblem> {
    Gathered(ProblemsBy(tables), raw)
  }

  lemma {:induction false} NothingGathered<T, U>(check: T -> seq<U>, items: seq<T>)
    ensures Gathered(check, items) == [] <==> forall i | 0 <= i < |items| :: check(items[i]) == []
  {
    if items != [] {
      var last := |items| - 1;
      NothingGathered(check, items[..last]);
      assert |Gathered(check, items)| == |Gathered(check, items[..last])| + |check(items[last])|;
      assert forall i | 0 <= i < last :: items[..last][i] == items[i];
    }
  }

  lemma NoneReportedIff(tables: seq<Table>, raw: seq<Relation>)
    ensures AllRelationProblems(tables, raw) == [] <==> forall i | 0 <= i < |raw| :: Accepted(tables, raw[i])
  {
    NothingGathered(ProblemsBy(tables), raw);
    forall i | 0 <= i < |raw| ensures ProblemsBy(tables)(raw[i]) == [] <==> Accepted(tables, raw[i]) {
      NoRelationProblems(tables, raw[i]);
    }
  }

  lemma OneMoreChecked(tables: seq<Table>, raw: seq<Relation>, i: nat)
    requires i < |raw|
    ensures AllRelationProblems(tables, raw[..i + 1]) == AllRelationProblems(tables, raw[..i]) + RelationProblems(tables, raw[i])
    ensures AcceptedRelations(tables, raw[..i + 1])
            == AcceptedRelations(tables, raw[..i]) + if RelationProblems(tables, raw[i]) == [] then [raw[i]] else []
  {
    assert raw[..i + 1][..i] == raw[..i];
    NoRelationProblems(tables, raw[i]);
  }

  // A relation enters the model when checking it added no problem.
  method ReadRelations(tables: seq<Table>, raw: seq<Relation>) returns (relations: seq<Relation>, problems: seq<SchemaProblem>)
    ensures relations == AcceptedRelations(tables, raw) && problems == AllRelationProblems(tables, raw)
    ensures problems == [] <==> forall i | 0 <= i < |raw| :: Accepted(tables, raw[i])
  {
    relations, problems := [], [];
    for i := 0 to |raw|
      invariant relations == AcceptedRelations(tables, raw[..i]) && problems == AllRelationProblems(tables, raw[..i])
    {
      OneMoreChecked(tables, raw, i);
      var found := RelationProblems(tables, raw[i]);
      problems := problems + found;
      if |found| == 0 {
        relations := relations + [raw[i]];
      }
    }
    assert raw[..|raw|] == raw;
    NoneReportedIff(tables, raw);
  }

  function AcceptedRelations(tables: seq<Table>, raw: seq<Relation>): seq<Relation> {
    if raw == [] then []
    else
      var last := |raw| - 1;
      AcceptedRelations(tables, raw[..last]) + if Accepted(tables, raw[last]) then [raw[last]] else []
  }

  lemma NoRelationProblems(tables: seq<Table>, relation: Relation)
    ensures RelationProblems(tables, relation) == [] <==> Accepted(tables, relation)
  {
    EndExistsNeedsTable(tables, relation.source);
    EndExistsNeedsTable(tables, relation.target);
  }

  lemma EndExistsNeedsTable(tables: seq<Table>, end: End)
    ensures EndExists(tables, end) ==> HasTable(tables, end.table)
  {
  }

  lemma {:induction false} AcceptedHolds(tables: seq<Table>, raw: seq<Relation>, r: Relation)
    ensures r in AcceptedRelations(tables, raw) <==> r in raw && Accepted(tables, r)
  {
    if raw != [] {
      var last := |raw| - 1;
      AcceptedHolds(tables, raw[..last], r);
      assert raw == raw[..last] + [raw[last]];
    }
  }

  lemma {:induction false} AllAreAccepted(tables: seq<Table>, raw: seq<Relation>)
    requires forall i | 0 <= i < |raw| :: Accepted(tables, raw[i])
    ensures AcceptedRelations(tables, raw) == raw
  {
    if raw != [] {
      var last := |raw| - 1;
      AllAreAccepted(tables, raw[..last]);
      assert raw == raw[..last] + [raw[last]];
    }
  }

  lemma AcceptedAreAccepted(tables: seq<Table>, raw: seq<Relation>)
    ensures forall r :: r in AcceptedRelations(tables, raw) <==> r in raw && Accepted(tables, r)
    ensures (forall i | 0 <= i < |raw| :: Accepted(tables, raw[i])) ==> AcceptedRelations(tables, raw) == raw
  {
    forall r ensures r in AcceptedRelations(tables, raw) <==> r in raw && Accepted(tables, r) {
      AcceptedHolds(tables, raw, r);
    }
    if forall i | 0 <= i < |raw| :: Accepted(tables, raw[i]) {
      AllAreAccepted(tables, raw);
    }
  }

  // ----- references

  const DOT: char := '.'

  function ColumnKey(end: End): string {
    end.table + [DOT] + end.column
  }

  // The table of b is the table of a, a dot and the first part of the column of a.
  ghost predicate Extends(a: End, b: End) {
    exists x: string :: b.table == a.table + ['.'] + x && a.column == x + ['.'] + b.column
  }

  // Two columns that differ share a key exactly when one extends the other.
  ghost predicate Clash(a: End, b: End) {
    Extends(a, b) || Extends(b, a)
  }

  lemma ColumnKeyTellsIff(a: End, b: End)
    ensures ColumnKey(a) == ColumnKey(b) <==> a == b || Clash(a, b)
  {
    if ColumnKey(a) == ColumnKey(b) {
      if |a.table| < |b.table| {
        SameKeys(a, b);
      } else if |b.table| < |a.table| {
        SameKeys(b, a);
      } else {
        assert a.table == ColumnKey(a)[..|a.table|] == b.table;
        assert a.column == ColumnKey(a)[|a.table| + 1..] == b.column;
      }
    }
    if Extends(a, b) { ExtendedSharesKey(a, b); }
    if Extends(b, a) { ExtendedSharesKey(b, a); }
  }

  lemma SameKeys(a: End, b: End)
    requires ColumnKey(a) == ColumnKey(b) && |a.table| < |b.table|
    ensures Extends(a, b)
  {
    var key := ColumnKey(a);
    var x := b.table[|a.table| + 1..];
    assert b.table == key[..|b.table|] && a.table == key[..|a.table|] && key[|a.table|] == DOT;
    assert b.table == a.table + [DOT] + x;
    assert b.column == key[|b.table| + 1..] && a.column == key[|a.table| + 1..];
    assert a.column == key[|a.table| + 1..|b.table|] + [key[|b.table|]] + key[|b.table| + 1..];
    assert x == key[|a.table| + 1..|b.table|];
  }

  lemma ExtendedSharesKey(a: End, b: End)
    requires Extends(a, b)
    ensures ColumnKey(a) == ColumnKey(b) && a != b
  {
    var x: string :| b.table == a.table + [DOT] + x && a.column == x + [DOT] + b.column;
    assert ColumnKey(b) == a.table + [DOT] + x + [DOT] + b.column == ColumnKey(a);
    assert |b.table| > |a.table|;
  }

  type Targets = map<string, set<Name>>

  method TargetsOfColumn(relations: seq<Relation>) returns (targets: Targets)
    ensures forall key :: TargetsAt(targets, key) == KeyTargets(relations, key)
  {
    targets := map[];
    for i := 0 to |relations|
      invariant forall key :: TargetsAt(targets, key) == KeyTargets(relations[..i], key)
    {
      assert relations[..i + 1] == relations[..i] + [relations[i]];
      KeyTargetsGrow(relations[..i], relations[i]);
      var key := ColumnKey(relations[i].source);
      targets := targets[key := TargetsAt(targets, key) + {relations[i].target.table}];
    }
    assert relations[..|relations|] == relations;
  }

  ghost function KeyTargets(relations: seq<Relation>, key: string): set<Name> {
    set r | r in relations && ColumnKey(r.source) == key :: r.target.table
  }

  lemma KeyTargetsGrow(relations: seq<Relation>, relation: Relation)
    ensures forall key :: KeyTargets(relations + [relation], key)
                          == KeyTargets(relations, key) + if key == ColumnKey(relation.source) then {relation.target.table} else {}
  {
  }

  function TargetsAt(targets: Targets, key: string): set<Name> {
    if key in targets then targets[key] else {}
  }

  function WithTargets(tables: seq<Table>, targets: Targets): seq<Table> {
    seq(|tables|, i requires 0 <= i < |tables| => TableWithTargets(tables[i], targets))
  }

  function TableWithTargets(table: Table, targets: Targets): Table {
    table.(columns := seq(|table.columns|, i requires 0 <= i < |table.columns| =>
      table.columns[i].(references := Sort(TargetsAt(targets, ColumnKey(End(table.name, table.columns[i].name)))))))
  }

  // The tables the relations of one column point at.
  ghost function Referenced(relations: seq<Relation>, end: End): set<Name> {
    set r | r in relations && r.source == end :: r.target.table
  }

  ghost predicate ReferencesAreExact(model: Model) {
    forall i, j | 0 <= i < |model.tables| && 0 <= j < |model.tables[i].columns| ::
      model.tables[i].columns[j].references == Sort(Referenced(model.relations, End(model.tables[i].name, model.tables[i].columns[j].name)))
  }

  // The tables as they were, each column with the targets of its key.
  ghost predicate ReferencesByKey(model: Model) {
    forall i, j | 0 <= i < |model.tables| && 0 <= j < |model.tables[i].columns| ::
      model.tables[i].columns[j].references
      == Sort(KeyTargets(model.relations, ColumnKey(End(model.tables[i].name, model.tables[i].columns[j].name))))
  }

  method WithReferences(tables: seq<Table>, relations: seq<Relation>) returns (referenced: seq<Table>, ghost targets: Targets)
    ensures referenced == WithTargets(tables, targets)
    ensures forall key :: TargetsAt(targets, key) == KeyTargets(relations, key)
  {
    var targetsOfColumn := TargetsOfColumn(relations);
    referenced, targets := WithTargets(tables, targetsOfColumn), targetsOfColumn;
  }

  lemma WithTargetsAreByKey(tables: seq<Table>, relations: seq<Relation>, targets: Targets)
    requires forall key :: TargetsAt(targets, key) == KeyTargets(relations, key)
    ensures ReferencesByKey(Model(WithTargets(tables, targets), relations))
  {
  }

  // Where a column shares its key with a column of another table that points at a table,
  // it points at that table too.
  ghost predicate ClashesAgree(model: Model) {
    forall i, j, r | 0 <= i < |model.tables| && 0 <= j < |model.tables[i].columns| && r in model.relations ::
      Clash(End(model.tables[i].name, model.tables[i].columns[j].name), r.source) ==>
        r.target.table in Referenced(model.relations, End(model.tables[i].name, model.tables[i].columns[j].name))
  }

  lemma KeyTargetsAreReferencedIff(relations: seq<Relation>, end: End)
    ensures KeyTargets(relations, ColumnKey(end)) == Referenced(relations, end)
            <==> forall r | r in relations && Clash(end, r.source) :: r.target.table in Referenced(relations, end)
  {
    forall r | r in relations ensures ColumnKey(r.source) == ColumnKey(end) <==> r.source == end || Clash(end, r.source) {
      ColumnKeyTellsIff(end, r.source);
    }
    assert Referenced(relations, end) <= KeyTargets(relations, ColumnKey(end));
    forall r | r in relations && Clash(end, r.source) ensures r.target.table in KeyTargets(relations, ColumnKey(end)) {
      assert ColumnKey(r.source) == ColumnKey(end);
    }
  }

  lemma SortTellsTheSet(a: set<Name>, b: set<Name>)
    ensures Sort(a) == Sort(b) <==> a == b
  {
    assert Elements(Sort(a)) == a && Elements(Sort(b)) == b;
  }

  // Every column lists exactly the tables its own relations point at, if and only if the
  // columns that share a key agree on them.
  lemma ReferencesAreExactIff(model: Model)
    requires ReferencesByKey(model)
    ensures ReferencesAreExact(model) <==> ClashesAgree(model)
  {
    forall i, j | 0 <= i < |model.tables| && 0 <= j < |model.tables[i].columns|
      ensures var end := End(model.tables[i].name, model.tables[i].columns[j].name);
              model.tables[i].columns[j].references == Sort(Referenced(model.relations, end))
              <==> forall r | r in model.relations && Clash(end, r.source) :: r.target.table in Referenced(model.relations, end)
    {
      var end := End(model.tables[i].name, model.tables[i].columns[j].name);
      KeyTargetsAreReferencedIff(model.relations, end);
      SortTellsTheSet(KeyTargets(model.relations, ColumnKey(end)), Referenced(model.relations, end));
    }
  }

  // No table name is another one with a dot and more behind it.
  ghost predicate NoDottedExtension(names: set<Name>) {
    forall a, b | a in names && b in names :: !(|a| < |b| && b[..|a|] == a && b[|a|] == DOT)
  }

  lemma PlainNamesAgree(model: Model)
    requires EndsDeclared(model) && NoDottedExtension(TableNames(model.tables))
    ensures ClashesAgree(model)
  {
    forall i, j, r | 0 <= i < |model.tables| && 0 <= j < |model.tables[i].columns| && r in model.relations
      ensures !Clash(End(model.tables[i].name, model.tables[i].columns[j].name), r.source)
    {
      var end := End(model.tables[i].name, model.tables[i].columns[j].name);
      assert end.table in TableNames(model.tables) && r.source.table in TableNames(model.tables);
      NotExtended(end, r.source);
      NotExtended(r.source, end);
    }
  }

  lemma NotExtended(a: End, b: End)
    requires !(|a.table| < |b.table| && b.table[..|a.table|] == a.table && b.table[|a.table|] == DOT)
    ensures !Extends(a, b)
  {
  }

  // The tables without what references were added to their columns.
  function WithoutReferences(tables: seq<Table>): seq<Table> {
    seq(|tables|, i requires 0 <= i < |tables| => tables[i].(columns := PlainColumns(tables[i].columns)))
  }

  function PlainColumns(columns: seq<Column>): seq<Column> {
    seq(|columns|, j requires 0 <= j < |columns| => columns[j].(references := []))
  }

  lemma {:induction false} KeptArePlain(raw: seq<RawTable>)
    ensures forall i | 0 <= i < |Kept(raw)| :: PlainColumns(Kept(raw)[i].columns) == Kept(raw)[i].columns
  {
    if raw != [] {
      KeptArePlain(raw[..|raw| - 1]);
    }
  }

  lemma TargetsAreAllThatIsAdded(raw: seq<RawTable>, targets: Targets)
    ensures WithoutReferences(WithTargets(Kept(raw), targets)) == Kept(raw)
  {
    var tables := Kept(raw);
    KeptArePlain(raw);
    forall i | 0 <= i < |tables| ensures WithoutReferences(WithTargets(tables, targets))[i] == tables[i] {
      assert PlainColumns(TableWithTargets(tables[i], targets).columns) == PlainColumns(tables[i].columns);
    }
  }

  lemma EndsSurviveTargets(tables: seq<Table>, targets: Targets, end: End)
    ensures EndExists(tables, end) <==> EndExists(WithTargets(tables, targets), end)
  {
    var referenced := WithTargets(tables, targets);
    forall i | 0 <= i < |tables| ensures HasColumn(tables[i], end.column) <==> HasColumn(referenced[i], end.column) {
      assert forall j | 0 <= j < |tables[i].columns| :: referenced[i].columns[j].name == tables[i].columns[j].name;
    }
    assert forall i | 0 <= i < |tables| :: referenced[i].name == tables[i].name;
  }

  lemma EndExistsInSchema(raw: seq<RawTable>, end: End)
    requires SoundTables(raw)
    ensures EndExists(AllTables(raw), end) <==> SchemaHas(raw, end)
  {
    var tables := AllTables(raw);
    forall i | 0 <= i < |raw| ensures tables[i].name == raw[i].name {
    }
    if EndExists(tables, end) {
      var i :| 0 <= i < |tables| && tables[i].name == end.table && HasColumn(tables[i], end.column);
      var j :| 0 <= j < |tables[i].columns| && tables[i].columns[j].name == end.column;
      assert raw[i].columns[j].name == end.column;
    }
    if SchemaHas(raw, end) {
      var i, j :| 0 <= i < |raw| && 0 <= j < |raw[i].columns| && raw[i].name == end.table && raw[i].columns[j].name == end.column;
      assert tables[i].columns[j].name == end.column;
      assert HasColumn(tables[i], end.column);
    }
  }

  // Nothing is reported exactly when the schema is sound. Whatever is reported, the model
  // holds the first declaration of every named table as it is written and the accepted
  // relations, it is closed, and the references come from the relations of the column's key.
  method SchemaModel(schema: Schema) returns (model: Model, problems: seq<SchemaProblem>)
    ensures problems == [] <==> SoundSchema(schema)
    ensures problems == AllTableProblems(schema.tables) + AllRelationProblems(Kept(schema.tables), schema.relations)
    ensures Closed(model)
    ensures WithoutReferences(model.tables) == Kept(schema.tables)
    ensures model.relations == AcceptedRelations(Kept(schema.tables), schema.relations)
    ensures problems == [] ==> WithoutReferences(model.tables) == AllTables(schema.tables) && model.relations == schema.relations
    ensures ReferencesByKey(model)
  {
    var tables, tableProblems := ReadTables(schema.tables);
    var relations, relationProblems := ReadRelations(tables, schema.relations);
    var referenced, targets := WithReferences(tables, relations);
    model, problems := Model(referenced, relations), tableProblems + relationProblems;
    KeptAreDistinct(schema.tables);
    AcceptedAreAccepted(tables, schema.relations);
    ModelIsClosed(tables, relations, targets);
    TargetsAreAllThatIsAdded(schema.tables, targets);
    WithTargetsAreByKey(tables, relations, targets);
    if SoundTables(schema.tables) {
      SoundRelationsAreAccepted(schema);
    }
  }

  lemma ModelIsClosed(tables: seq<Table>, relations: seq<Relation>, targets: Targets)
    requires DistinctTables(tables) && forall r | r in relations :: Accepted(tables, r)
    ensures Closed(Model(WithTargets(tables, targets), relations))
  {
    forall r | r in relations
      ensures EndExists(WithTargets(tables, targets), r.source) && EndExists(WithTargets(tables, targets), r.target)
    {
      EndsSurviveTargets(tables, targets, r.source);
      EndsSurviveTargets(tables, targets, r.target);
    }
  }

  lemma SoundRelationsAreAccepted(schema: Schema)
    requires SoundTables(schema.tables)
    ensures Kept(schema.tables) == AllTables(schema.tables)
    ensures (forall i | 0 <= i < |schema.relations| :: Accepted(Kept(schema.tables), schema.relations[i]))
            <==> (forall i | 0 <= i < |schema.relations| :: SoundRelation(schema.tables, schema.relations[i]))
  {
    KeptAreDistinct(schema.tables);
    forall i | 0 <= i < |schema.relations|
      ensures Accepted(Kept(schema.tables), schema.relations[i]) <==> SoundRelation(schema.tables, schema.relations[i])
    {
      EndExistsInSchema(schema.tables, schema.relations[i].source);
      EndExistsInSchema(schema.tables, schema.relations[i].target);
    }
  }

  // ----- subsets and cardinality

  function KeptTables(tables: seq<Table>, kept: set<Name>): seq<Table> {
    if tables == [] then []
    else
      var last := |tables| - 1;
      KeptTables(tables[..last], kept) + if tables[last].name in kept then [tables[last]] else []
  }

  function KeptRelations(relations: seq<Relation>, kept: set<Name>): seq<Relation> {
    if relations == [] then []
    else
      var last := |relations| - 1;
      KeptRelations(relations[..last], kept)
      + if relations[last].source.table in kept && relations[last].target.table in kept then [relations[last]] else []
  }

  function ModelSubset(model: Model, tableNames: seq<Name>): Model {
    Model(KeptTables(model.tables, Elements(tableNames)), KeptRelations(model.relations, Elements(tableNames)))
  }

  lemma {:induction false} KeptTablesAreThoseNamed(tables: seq<Table>, kept: set<Name>)
    ensures forall table :: table in KeptTables(tables, kept) <==> table in tables && table.name in kept
    ensures DistinctTables(tables) ==> DistinctTables(KeptTables(tables, kept))
  {
    if tables != [] {
      var last := |tables| - 1;
      KeptTablesAreThoseNamed(tables[..last], kept);
      assert tables == tables[..last] + [tables[last]];
      forall i | 0 <= i < |KeptTables(tables[..last], kept)| && DistinctTables(tables)
        ensures KeptTables(tables[..last], kept)[i].name != tables[last].name
      {
        assert KeptTables(tables[..last], kept)[i] in tables[..last];
      }
    }
  }

  lemma {:induction false} KeptRelationsAreInside(relations: seq<Relation>, kept: set<Name>)
    ensures forall r :: r in KeptRelations(relations, kept)
                        <==> r in relations && r.source.table in kept && r.target.table in kept
  {
    if relations != [] {
      var last := |relations| - 1;
      KeptRelationsAreInside(relations[..last], kept);
      assert relations == relations[..last] + [relations[last]];
    }
  }

  // A subset of a closed model is closed. Its tables are the named ones with every column
  // as it was, so a column keeps its references to tables the subset drops.
  lemma SubsetIsClosed(model: Model, tableNames: seq<Name>)
    requires Closed(model)
    ensures Closed(ModelSubset(model, tableNames))
    ensures forall table :: table in ModelSubset(model, tableNames).tables <==> table in model.tables && table.name in tableNames
    ensures forall r :: r in ModelSubset(model, tableNames).relations
                        <==> r in model.relations && r.source.table in tableNames && r.target.table in tableNames
  {
    var kept := Elements(tableNames);
    KeptTablesAreThoseNamed(model.tables, kept);
    KeptRelationsAreInside(model.relations, kept);
    forall end: End | EndExists(model.tables, end) && end.table in kept
      ensures EndExists(KeptTables(model.tables, kept), end)
    {
      var i :| 0 <= i < |model.tables| && model.tables[i].name == end.table && HasColumn(model.tables[i], end.column);
      assert model.tables[i] in KeptTables(model.tables, kept);
    }
  }

  function FirstNamed(columns: seq<RawColumn>, name: string): (first: Option<nat>)
    ensures first.Some? ==> first.value < |columns| && columns[first.value].name == name
    ensures first.Some? ==> forall i | 0 <= i < first.value :: columns[i].name != name
    ensures first == None <==> forall i | 0 <= i < |columns| :: columns[i].name != name
  {
    if columns == [] then None
    else if columns[0].name == name then Some(0)
    else
      match FirstNamed(columns[1..], name)
      case None => None
      case Some(i) => Some(i + 1)
  }

  function PrimaryKeys(columns: seq<RawColumn>): nat {
    if columns == [] then 0 else PrimaryKeys(columns[..|columns| - 1]) + if columns[|columns| - 1].primaryKey then 1 else 0
  }

  function ForeignKeyCardinality(columns: seq<RawColumn>, name: string): string {
    match FirstNamed(columns, name)
    case None => MANY_TO_ONE
    case Some(i) =>
      if columns[i].unique || (columns[i].primaryKey && PrimaryKeys(columns) == 1) then ONE_TO_ONE else MANY_TO_ONE
  }

  // The column is a key of the table by itself: no two rows share its value.
  predicate IsKeyAlone(columns: seq<RawColumn>, i: nat)
    requires i < |columns|
  {
    columns[i].unique || (columns[i].primaryKey && forall j | 0 <= j < |columns| && j != i :: !columns[j].primaryKey)
  }

  lemma {:induction false} PrimaryKeysCount(columns: seq<RawColumn>, i: nat)
    requires i < |columns| && columns[i].primaryKey
    ensures PrimaryKeys(columns) >= 1
    ensures PrimaryKeys(columns) == 1 <==> forall j | 0 <= j < |columns| && j != i :: !columns[j].primaryKey
  {
    var n := |columns| - 1;
    if i < n {
      PrimaryKeysCount(columns[..n], i);
    } else {
      NoPrimaryKeys(columns[..n]);
    }
  }

  lemma {:induction false} NoPrimaryKeys(columns: seq<RawColumn>)
    ensures PrimaryKeys(columns) == 0 <==> forall j | 0 <= j < |columns| :: !columns[j].primaryKey
  {
    if columns != [] {
      NoPrimaryKeys(columns[..|columns| - 1]);
    }
  }

  // A foreign key is one-to-one exactly when its column alone is a key of its table.
  lemma CardinalityIsKey(columns: seq<RawColumn>, name: string)
    ensures AllowedCardinality(ForeignKeyCardinality(columns, name))
    ensures ForeignKeyCardinality(columns, name) == ONE_TO_ONE
            <==> FirstNamed(columns, name).Some? && IsKeyAlone(columns, FirstNamed(columns, name).value)
  {
    assert MANY_TO_ONE[0] != ONE_TO_ONE[0];
    var first := FirstNamed(columns, name);
    if first.Some? && columns[first.value].primaryKey {
      PrimaryKeysCount(columns, first.value);
    }
  }
}
