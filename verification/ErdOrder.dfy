/** figura/scripts/erd-split.mjs, planErdDiagrams: when the order in which a schema lists its
    tables and relations does not show in the diagrams, and when it does. */
module ErdOrder {
  import opened Optional
  import opened Names
  import opened ErdTypes
  import opened ErdComponents
  import opened ErdModel
  import opened ErdGrowth
  import opened ErdSplitLaws
  import opened ErdSplitOrder
  import opened ErdDraw
  import opened ErdPlan

  lemma CountPush<T>(items: seq<T>, x: T)
    requires items != []
    ensures multiset(items)[x] == multiset(items[..|items| - 1])[x] + if items[|items| - 1] == x then 1 else 0
  {
    assert items == items[..|items| - 1] + [items[|items| - 1]];
  }

  lemma {:induction false} KeptTablesCount(tables: seq<Table>, kept: set<Name>, table: Table)
    ensures multiset(KeptTables(tables, kept))[table] == if table.name in kept then multiset(tables)[table] else 0
  {
    if tables != [] {
      var front, last := tables[..|tables| - 1], tables[|tables| - 1];
      KeptTablesCount(front, kept, table);
      CountPush(tables, table);
      if last.name in kept {
        assert KeptTables(tables, kept) == KeptTables(front, kept) + [last];
      } else {
        assert KeptTables(tables, kept) == KeptTables(front, kept);
      }
    }
  }

  // A relation is told by the ends it sorts by.
  ghost predicate KeysTellRelations(relations: seq<Relation>) {
    forall x, y | x in relations && y in relations && RelationSortKey(x) == RelationSortKey(y) :: x == y
  }

  lemma SameSorted<T>(key: T -> Name, one: seq<T>, other: seq<T>)
    requires multiset(one) == multiset(other) && forall x, y | x in one && y in one && key(x) == key(y) :: x == y
    ensures SortBy(key, one) == SortBy(key, other)
  {
    var sorted := SortBy(key, one);
    SortByKeeps(key, one);
    SortByKeeps(key, other);
    forall x, y | x in sorted && y in sorted && key(x) == key(y) ensures x == y {
      SameMembers(sorted, one, x);
      SameMembers(sorted, one, y);
    }
    AscendingIsUnique(key, sorted, SortBy(key, other));
  }

  lemma PartTablesIgnoreOrder(one: Model, other: Model, part: seq<Name>)
    requires multiset(one.tables) == multiset(other.tables) && DistinctTables(one.tables)
    ensures PartTables(one, part) == PartTables(other, part)
  {
    var kept := Elements(part);
    var a, b := KeptTables(one.tables, kept), KeptTables(other.tables, kept);
    forall table ensures multiset(a)[table] == multiset(b)[table] {
      KeptTablesCount(one.tables, kept, table);
      KeptTablesCount(other.tables, kept, table);
    }
    assert multiset(a) == multiset(b);
    KeptTablesAreThoseNamed(one.tables, kept);
    forall x, y | x in a && y in a && NameOf(x) == NameOf(y) ensures x == y {
      NamesakesAreOne(a, x, y);
    }
    SameSorted(NameOf, a, b);
  }

  lemma {:induction false} InsideMembers(relations: seq<Relation>, part: set<Name>, r: Relation)
    ensures r in Inside(relations, part) <==> r in relations && IsInside(r, part)
  {
    if relations != [] {
      var last := |relations| - 1;
      InsideMembers(relations[..last], part, r);
      assert relations == relations[..last] + [relations[last]];
    }
  }

  lemma InsideIgnoresOrder(one: seq<Relation>, other: seq<Relation>, part: set<Name>)
    requires multiset(one) == multiset(other) && KeysTellRelations(Inside(one, part))
    ensures SortBy(RelationSortKey, Inside(one, part)) == SortBy(RelationSortKey, Inside(other, part))
  {
    var a, b := Inside(one, part), Inside(other, part);
    forall r ensures multiset(a)[r] == multiset(b)[r] {
      InsideHolds(one, part, r);
      InsideHolds(other, part, r);
    }
    assert multiset(a) == multiset(b);
    SameSorted(RelationSortKey, a, b);
  }

  lemma EdgeLinesIgnoreOrder(one: Model, other: Model, relations: seq<Relation>)
    requires multiset(one.tables) == multiset(other.tables) && DistinctTables(one.tables) && DistinctTables(other.tables)
    requires forall r | r in relations :: r.source.table in TableNames(one.tables) && r.target.table in TableNames(one.tables)
    ensures EdgeLines(one.tables, relations) == EdgeLines(other.tables, relations)
  {
    forall r | r in relations ensures EdgeLine(one.tables, r) == EdgeLine(other.tables, r) {
      TableKeyIgnoresOrder(one.tables, other.tables, r.source.table);
      TableKeyIgnoresOrder(one.tables, other.tables, r.target.table);
    }
  }

  lemma TableKeyIgnoresOrder(one: seq<Table>, other: seq<Table>, name: Name)
    requires multiset(one) == multiset(other) && DistinctTables(one) && DistinctTables(other) && name in TableNames(one)
    ensures TableKey(one, name) == TableKey(other, name)
  {
    var i :| 0 <= i < |one| && one[i].name == name;
    SameMembers(one, other, one[i]);
    TableKeyIsPath(one, one[i]);
    TableKeyIsPath(other, one[i]);
  }

  lemma EndsIgnoreOrder(one: seq<Relation>, other: seq<Relation>)
    requires multiset(one) == multiset(other)
    ensures RelationEndColumns(one) == RelationEndColumns(other)
  {
    forall r ensures r in one <==> r in other {
      SameMembers(one, other, r);
    }
  }

  lemma {:induction false} ReorderedIsDistinct(one: seq<Table>, other: seq<Table>)
    requires multiset(one) == multiset(other) && DistinctTables(one)
    ensures DistinctTables(other)
  {
    forall i, j | 0 <= i < j < |other| ensures other[i].name != other[j].name {
      if other[i].name == other[j].name {
        assert other[i] in multiset(one) && other[j] in multiset(one) by {
          assert other[i] in multiset(other) && other[j] in multiset(other);
        }
        NamesakesAreOne(one, other[i], other[j]);
        TwiceInSequence(other, i, j);
        OnceInDistinct(one, other[i]);
      }
    }
  }

  // A diagram is the same for every order of tables and relations when the relations it
  // draws are told by the ends they sort by.
  lemma DrawingIgnoresOrder(one: Model, other: Model, part: seq<Name>, options: Options)
    requires Reorders(one, other) && DistinctTables(one.tables) && EndsDeclared(one)
    requires KeysTellRelations(Inside(one.relations, Elements(part)))
    ensures Drawing(one, part, options) == Drawing(other, part, options)
  {
    var inside := Inside(one.relations, Elements(part));
    var edges := SortBy(RelationSortKey, inside);
    ReorderedIsDistinct(one.tables, other.tables);
    PartTablesIgnoreOrder(one, other, part);
    EndsIgnoreOrder(one.relations, other.relations);
    InsideIgnoresOrder(one.relations, other.relations, Elements(part));
    forall r | r in edges ensures r in one.relations {
      SortByKeeps(RelationSortKey, inside);
      SameMembers(edges, inside, r);
      InsideMembers(one.relations, Elements(part), r);
    }
    EdgeLinesIgnoreOrder(one, other, edges);
  }

  // ----- an order that shows

  lemma InsertBeforeAll<T>(key: T -> Name, x: T, y: T, sorted: seq<T>)
    requires key(x) == key(y) && (sorted == [] || Less(key(x), key(sorted[0])))
    ensures InsertBy(key, y, InsertBy(key, x, sorted)) == [x, y] + sorted
  {
    LessIsStrict(key(x), key(y));
    assert InsertBy(key, x, sorted) == [x] + sorted && ([x] + sorted)[1..] == sorted;
    assert InsertBy(key, y, [x] + sorted) == [x] + InsertBy(key, y, sorted);
    assert InsertBy(key, y, sorted) == [y] + sorted;
  }

  // Two items of one key stay in the order they came in.
  lemma {:induction false} InsertTwoDiffer<T>(key: T -> Name, x: T, y: T, sorted: seq<T>)
    requires x != y && key(x) == key(y)
    ensures InsertBy(key, y, InsertBy(key, x, sorted)) != InsertBy(key, x, InsertBy(key, y, sorted))
  {
    if sorted == [] || Less(key(x), key(sorted[0])) {
      InsertBeforeAll(key, x, y, sorted);
      InsertBeforeAll(key, y, x, sorted);
      assert ([x, y] + sorted)[0] == x && ([y, x] + sorted)[0] == y;
    } else {
      InsertTwoDiffer(key, x, y, sorted[1..]);
      InsertBehind(key, x, y, sorted);
      InsertBehind(key, y, x, sorted);
      var a, b := InsertBy(key, y, InsertBy(key, x, sorted[1..])), InsertBy(key, x, InsertBy(key, y, sorted[1..]));
      if [sorted[0]] + a == [sorted[0]] + b {
        SameFront([sorted[0]], a, b);
      }
    }
  }

  lemma InsertBehind<T>(key: T -> Name, x: T, y: T, sorted: seq<T>)
    requires sorted != [] && !Less(key(x), key(sorted[0])) && !Less(key(y), key(sorted[0]))
    ensures InsertBy(key, y, InsertBy(key, x, sorted)) == [sorted[0]] + InsertBy(key, y, InsertBy(key, x, sorted[1..]))
  {
    var first := InsertBy(key, x, sorted);
    assert first == [sorted[0]] + InsertBy(key, x, sorted[1..]);
    assert first[1..] == InsertBy(key, x, sorted[1..]);
  }

  lemma SortLastTwo<T>(key: T -> Name, items: seq<T>, x: T, y: T)
    ensures SortBy(key, items + [x, y]) == InsertBy(key, y, InsertBy(key, x, SortBy(key, items)))
  {
    var all := items + [x, y];
    assert all[..|all| - 1] == items + [x] && (items + [x])[..|items|] == items;
  }

  lemma InsideLastTwo(relations: seq<Relation>, part: set<Name>, x: Relation, y: Relation)
    requires IsInside(x, part) && IsInside(y, part)
    ensures Inside(relations + [x, y], part) == Inside(relations, part) + [x, y]
  {
    var all := relations + [x, y];
    assert all[..|all| - 1] == relations + [x] && (relations + [x])[..|relations|] == relations;
  }

  lemma SameEdges(tables: seq<Table>, a: seq<Relation>, b: seq<Relation>)
    requires EdgeLines(tables, a) == EdgeLines(tables, b)
    ensures a == b
  {
    assert |a| == |b|;
    forall i | 0 <= i < |a| ensures a[i] == b[i] {
      assert EdgeLines(tables, a)[i].relation == EdgeLines(tables, b)[i].relation;
    }
  }

  lemma SameFront<T>(front: seq<T>, a: seq<T>, b: seq<T>)
    requires front + a == front + b
    ensures a == b
  {
    assert a == (front + a)[|front|..] && b == (front + b)[|front|..];
  }

  lemma SwappedSorts(rest: seq<Relation>, names: set<Name>, x: Relation, y: Relation)
    requires x != y && IsInside(x, names) && IsInside(y, names) && RelationSortKey(x) == RelationSortKey(y)
    ensures SortBy(RelationSortKey, Inside(rest + [x, y], names)) != SortBy(RelationSortKey, Inside(rest + [y, x], names))
  {
    InsideLastTwo(rest, names, x, y);
    InsideLastTwo(rest, names, y, x);
    SortLastTwo(RelationSortKey, Inside(rest, names), x, y);
    SortLastTwo(RelationSortKey, Inside(rest, names), y, x);
    InsertTwoDiffer(RelationSortKey, x, y, SortBy(RelationSortKey, Inside(rest, names)));
  }

  lemma OtherEdgesShow(one: Model, other: Model, part: seq<Name>, options: Options)
    requires one.tables == other.tables && RelationEndColumns(one.relations) == RelationEndColumns(other.relations)
    requires SortBy(RelationSortKey, Inside(one.relations, Elements(part))) != SortBy(RelationSortKey, Inside(other.relations, Elements(part)))
    ensures Drawing(one, part, options) != Drawing(other, part, options)
  {
    var a, b := SortBy(RelationSortKey, Inside(one.relations, Elements(part))), SortBy(RelationSortKey, Inside(other.relations, Elements(part)));
    DrawingInTwo(one, part, options);
    DrawingInTwo(other, part, options);
    if Drawing(one, part, options) == Drawing(other, part, options) {
      SameFront(TablesDrawn(one, part, options), EdgeLines(one.tables, a), EdgeLines(one.tables, b));
      SameEdges(one.tables, a, b);
    }
  }

  lemma SwappedEnds(rest: seq<Relation>, x: Relation, y: Relation)
    ensures RelationEndColumns(rest + [x, y]) == RelationEndColumns(rest + [y, x])
  {
    PushTwo(rest, x, y);
    PushTwo(rest, y, x);
    EndsIgnoreOrder(rest + [x, y], rest + [y, x]);
  }

  // Two relations inside the part that share a key: listed last in either order they are
  // drawn in that order.
  lemma SwappedShows(model: Model, part: seq<Name>, options: Options, rest: seq<Relation>, x: Relation, y: Relation)
    requires x != y && IsInside(x, Elements(part)) && IsInside(y, Elements(part)) && RelationSortKey(x) == RelationSortKey(y)
    ensures Drawing(model.(relations := rest + [x, y]), part, options) != Drawing(model.(relations := rest + [y, x]), part, options)
  {
    SwappedSorts(rest, Elements(part), x, y);
    SwappedEnds(rest, x, y);
    OtherEdgesShow(model.(relations := rest + [x, y]), model.(relations := rest + [y, x]), part, options);
  }

  ghost function TablesDrawn(model: Model, part: seq<Name>, options: Options): seq<Line> {
    var tables := PartTables(model, part);
    var ends := RelationEndColumns(model.relations);
    AllDomainLines(Sort(DomainNames(tables)), tables, ends, options) + AllTableLines(InDomain(tables, None), ends, options)
  }

  lemma DrawingInTwo(model: Model, part: seq<Name>, options: Options)
    ensures Drawing(model, part, options)
            == TablesDrawn(model, part, options) + EdgeLines(model.tables, SortBy(RelationSortKey, Inside(model.relations, Elements(part))))
  {
  }

  function WithoutOne<T(==)>(items: seq<T>, x: T): (rest: seq<T>)
    requires x in items
    ensures multiset(rest) == multiset(items) - multiset{x}
  {
    if items[0] == x then
      assert items == [items[0]] + items[1..];
      items[1..]
    else
      assert items == [items[0]] + items[1..];
      [items[0]] + WithoutOne(items[1..], x)
  }

  lemma PushTwo<T>(rest: seq<T>, x: T, y: T)
    ensures multiset(rest + [x, y]) == multiset(rest) + multiset{x} + multiset{y}
  {
  }

  lemma TwoAreLeft<T>(all: multiset<T>, x: T, y: T)
    requires x in all && y in all && x != y
    ensures y in all - multiset{x}
    ensures all - multiset{x} - multiset{y} + multiset{x} + multiset{y} == all
    ensures all - multiset{x} - multiset{y} + multiset{y} + multiset{x} == all
  {
    forall z ensures (all - multiset{x} - multiset{y} + multiset{x} + multiset{y})[z] == all[z] {
    }
    forall z ensures (all - multiset{x} - multiset{y} + multiset{y} + multiset{x})[z] == all[z] {
    }
  }

  // The rest of the relations, without two of them.
  lemma WithoutTwo(relations: seq<Relation>, x: Relation, y: Relation) returns (rest: seq<Relation>)
    requires x in relations && y in relations && x != y
    ensures multiset(rest + [x, y]) == multiset(relations) && multiset(rest + [y, x]) == multiset(relations)
  {
    var front := WithoutOne(relations, x);
    TwoAreLeft(multiset(relations), x, y);
    rest := WithoutOne(front, y);
    PushTwo(rest, x, y);
    PushTwo(rest, y, x);
  }

  ghost predicate SameDrawing(model: Model, relations: seq<Relation>, part: seq<Name>, options: Options) {
    Drawing(model.(relations := relations), part, options) == Drawing(model, part, options)
  }

  // A diagram does not show the order of the relations exactly when those it draws are told
  // by the ends they sort by.
  lemma DrawingIgnoresOrderIff(model: Model, part: seq<Name>, options: Options)
    requires DistinctTables(model.tables) && EndsDeclared(model)
    ensures (forall relations | multiset(relations) == multiset(model.relations) :: SameDrawing(model, relations, part, options))
            <==> KeysTellRelations(Inside(model.relations, Elements(part)))
  {
    var names := Elements(part);
    if KeysTellRelations(Inside(model.relations, names)) {
      forall relations | multiset(relations) == multiset(model.relations) ensures SameDrawing(model, relations, part, options) {
        DrawingIgnoresOrder(model, model.(relations := relations), part, options);
      }
    } else {
      var relations := OrderThatShows(model, part, options);
      assert !SameDrawing(model, relations, part, options);
    }
  }

  lemma OrderThatShows(model: Model, part: seq<Name>, options: Options) returns (relations: seq<Relation>)
    requires !KeysTellRelations(Inside(model.relations, Elements(part)))
    ensures multiset(relations) == multiset(model.relations) && !SameDrawing(model, relations, part, options)
  {
    var names := Elements(part);
    var x, y :| x in Inside(model.relations, names) && y in Inside(model.relations, names) && RelationSortKey(x) == RelationSortKey(y) && x != y;
    InsideMembers(model.relations, names, x);
    InsideMembers(model.relations, names, y);
    var rest := WithoutTwo(model.relations, x, y);
    SwappedShows(model, part, options, rest, x, y);
    relations := if SameDrawing(model, rest + [x, y], part, options) then rest + [y, x] else rest + [x, y];
  }

  // A relation between two tables of the part listed with both cardinalities is enough.
  lemma BothCardinalitiesShow(model: Model, part: seq<Name>, options: Options, many: Relation, one: Relation)
    requires IsInside(many, Elements(part)) && many.cardinality == MANY_TO_ONE && one == many.(cardinality := ONE_TO_ONE)
    ensures Drawing(model.(relations := [many, one]), part, options) != Drawing(model.(relations := [one, many]), part, options)
  {
    assert MANY_TO_ONE[0] != ONE_TO_ONE[0];
    SwappedShows(model, part, options, [], many, one);
    assert [] + [many, one] == [many, one] && [] + [one, many] == [one, many];
  }

  // A sound schema may list it so.
  lemma BothCardinalitiesAreSound(a: RawTable, b: RawTable, many: Relation, one: Relation)
    requires NamedTable(a) && NamedTable(b) && a.name != b.name
    requires SchemaHas([a, b], many.source) && SchemaHas([a, b], many.target)
    requires many.cardinality == MANY_TO_ONE && one == many.(cardinality := ONE_TO_ONE)
    ensures SoundSchema(Schema([a, b], [many, one]))
  {
    assert SoundTables([a, b]);
    assert SoundRelation([a, b], many) && SoundRelation([a, b], one);
  }

  // ----- the whole plan

  lemma {:induction false} PartIsStep(steps: seq<Step>, part: seq<Name>)
    requires part in PartsOf(steps)
    ensures exists step :: step in steps && !step.Refused? && step.part == part
  {
    if !steps[0].Refused? && steps[0].part == part {
      assert steps[0] in steps;
    } else {
      assert part in PartsOf(steps[1..]);
      PartIsStep(steps[1..], part);
      var step :| step in steps[1..] && !step.Refused? && step.part == part;
      assert step in steps;
    }
  }

  // Every part lies in one component.
  lemma PartIsInComponent(model: Model, measure: Measure, part: seq<Name>) returns (c: seq<Name>)
    requires EndsDeclared(model) && part in PartsOf(SplitSteps(model, measure))
    ensures c in ComponentsIn(model) && Elements(part) <= Elements(c)
  {
    SplitIsSound(model, measure);
    PartIsStep(SplitSteps(model, measure), part);
    var step :| step in SplitSteps(model, measure) && !step.Refused? && step.part == part;
    assert Placement(step, ComponentsIn(model), DomainsOf(model.tables));
    c :| c in ComponentsIn(model) && (step == Whole(c) || WithinOneDomain(step, Elements(c), DomainsOf(model.tables)));
  }

  // Within every component the relations are told by the ends they sort by.
  ghost predicate KeysTellInComponents(model: Model)
    requires EndsDeclared(model)
  {
    forall c | c in ComponentsIn(model) :: KeysTellRelations(Inside(model.relations, Elements(c)))
  }

  lemma KeysTellInside(relations: seq<Relation>, part: set<Name>, names: set<Name>)
    requires part <= names && KeysTellRelations(Inside(relations, names))
    ensures KeysTellRelations(Inside(relations, part))
  {
    forall r | r in Inside(relations, part) ensures r in Inside(relations, names) {
      InsideMembers(relations, part, r);
      InsideMembers(relations, names, r);
    }
  }

  lemma MeasuresAlike(one: Model, other: Model, render: Render, options: Options)
    requires Reorders(one, other) && DistinctTables(one.tables) && EndsDeclared(one) && KeysTellInComponents(one)
    ensures forall c | c in ComponentsIn(one) ::
              AnswerAlike(MeasureOf(one, render, options), MeasureOf(other, render, options), Elements(c))
  {
    forall c, list: seq<Name> | c in ComponentsIn(one) && Elements(list) <= Elements(c)
      ensures MeasureOf(one, render, options)(list) == MeasureOf(other, render, options)(list)
    {
      KeysTellInside(one.relations, Elements(list), Elements(c));
      DrawingIgnoresOrder(one, other, list, options);
    }
  }

  lemma SameDrawn(f: seq<Name> -> seq<Line>, g: seq<Name> -> seq<Line>, parts: seq<seq<Name>>)
    requires forall part | part in parts :: f(part) == g(part)
    ensures DrawnBy(f, parts) == DrawnBy(g, parts)
  {
  }

  lemma DiagramsIgnoreOrder(one: Model, other: Model, measure: Measure, options: Options)
    requires Reorders(one, other) && DistinctTables(one.tables) && EndsDeclared(one) && KeysTellInComponents(one)
    ensures DiagramsOf(one, PartsOf(SplitSteps(one, measure)), options) == DiagramsOf(other, PartsOf(SplitSteps(one, measure)), options)
  {
    var parts := PartsOf(SplitSteps(one, measure));
    forall part | part in parts ensures Drawing(one, part, options) == Drawing(other, part, options) {
      var c := PartIsInComponent(one, measure, part);
      KeysTellInside(one.relations, Elements(part), Elements(c));
      DrawingIgnoresOrder(one, other, part, options);
    }
    SameDrawn(part => Drawing(one, part, options), part => Drawing(other, part, options), parts);
  }

  ghost predicate SamePlan(one: Model, other: Model, render: Render, options: Options)
    requires EndsDeclared(one)
  {
    EndsDeclared(other) && PlanOf(one, render, options) == PlanOf(other, render, options)
  }

  // Two models that list the same tables and relations in different orders get the same
  // plan: the drawings are the same, so rendering finds the same, so the parts are.
  lemma PlanIgnoresOrder(one: Model, other: Model, render: Render, options: Options)
    requires Reorders(one, other) && DistinctTables(one.tables) && EndsDeclared(one) && KeysTellInComponents(one)
    ensures SamePlan(one, other, render, options)
  {
    var f, g := MeasureOf(one, render, options), MeasureOf(other, render, options);
    ReorderedIsDistinct(one.tables, other.tables);
    ComponentsIgnoreOrder(one, other);
    SplitIgnoresOrder(one, other, g);
    MeasuresAlike(one, other, render, options);
    StepsAlike(one, f, g);
    DiagramsIgnoreOrder(one, other, g, options);
  }

  lemma {:induction false} WholeComponents(components: seq<seq<Name>>, domains: Domains, counts: Counts, measure: Measure)
    requires forall c | c in components :: Fits(measure, c)
    ensures PartsOf(SplitComponents(components, domains, counts, measure)) == components
  {
    if components != [] {
      assert components[0] in components;
      WholeComponents(components[1..], domains, counts, measure);
      var first := SplitComponent(components[0], domains, counts, measure);
      assert first == [Whole(components[0])] && first[1..] == [];
      PartsOfConcat(first, SplitComponents(components[1..], domains, counts, measure));
      assert PartsOf(first) == [components[0]];
    }
  }

  // A plan that fits everything draws the components.
  lemma PlanOfFitting(model: Model, options: Options)
    requires EndsDeclared(model)
    ensures PlanOf(model, (names, lines) => [], options).0 == DiagramsOf(model, ComponentsIn(model), options)
  {
    var measure := MeasureOf(model, (names, lines) => [], options);
    WholeComponents(ComponentsIn(model), DomainsOf(model.tables), CountsOf(TableNames(model.tables), model.relations), measure);
  }

  lemma DrawnDiffer(f: seq<Name> -> seq<Line>, g: seq<Name> -> seq<Line>, parts: seq<seq<Name>>, part: seq<Name>)
    requires part in parts && f(part) != g(part)
    ensures DrawnBy(f, parts) != DrawnBy(g, parts)
  {
    var k :| 0 <= k < |parts| && parts[k] == part;
    assert DrawnBy(f, parts)[k].source != DrawnBy(g, parts)[k].source;
  }

  lemma PlanShowsOrder(model: Model, options: Options) returns (other: Model)
    requires EndsDeclared(model) && !KeysTellInComponents(model)
    ensures Reorders(model, other) && !SamePlan(model, other, (names, lines) => [], options)
  {
    var c :| c in ComponentsIn(model) && !KeysTellRelations(Inside(model.relations, Elements(c)));
    var relations := OrderThatShows(model, c, options);
    other := model.(relations := relations);
    ComponentsIgnoreOrder(model, other);
    PlanOfFitting(model, options);
    PlanOfFitting(other, options);
    DrawnDiffer(part => Drawing(model, part, options), part => Drawing(other, part, options), ComponentsIn(model), c);
  }

  // The order of the schema shows in no plan, whatever rendering finds, exactly when within
  // every component the relations are told by the ends they sort by.
  lemma PlanIgnoresOrderIff(model: Model, options: Options)
    requires DistinctTables(model.tables) && EndsDeclared(model)
    ensures (forall other, render | Reorders(model, other) :: SamePlan(model, other, render, options)) <==> KeysTellInComponents(model)
  {
    if KeysTellInComponents(model) {
      forall other, render | Reorders(model, other) ensures SamePlan(model, other, render, options) {
        PlanIgnoresOrder(model, other, render, options);
      }
    } else {
      var other := PlanShowsOrder(model, options);
    }
  }
}
