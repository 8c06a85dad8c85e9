/** The erd command of figura: figura/scripts/figura.mjs takes a schema to a model, the
    named tables and their domains, and planErdDiagrams of erd-split.mjs takes that to one
    diagram a part. Reading the schema and measuring a diagram are parameters. */
module ErdPlan {
  import opened Optional
  import opened Names
  import opened ErdTypes
  import opened ErdComponents
  import opened ErdModel
  import opened ErdGrowth
  import opened ErdSplitLaws
  import opened ErdSplit
  import opened ErdDraw

  // ----- domains by table name patterns

  const STAR: char := '*'

  // Patterns of table names by domain; a pattern that ends in a star stands for a prefix.
  type Patterns = map<Name, seq<string>>

  predicate MatchesPattern(table: Name, pattern: string) {
    if pattern != "" && pattern[|pattern| - 1] == STAR then
      var prefix := pattern[..|pattern| - 1]; |prefix| <= |table| && table[..|prefix|] == prefix
    else table == pattern
  }

  // A star at the end stands for any text; any other pattern is the name itself.
  lemma PatternMeans(table: Name, pattern: string)
    ensures MatchesPattern(table, pattern + [STAR]) <==> exists rest: string :: table == pattern + rest
    ensures pattern == "" || pattern[|pattern| - 1] != '*' ==> (MatchesPattern(table, pattern) <==> table == pattern)
    ensures STAR == '*'
  {
    assert (pattern + [STAR])[..|pattern|] == pattern;
    if MatchesPattern(table, pattern + [STAR]) {
      assert table == pattern + table[|pattern|..];
    }
  }

  predicate MatchesSome(table: Name, patterns: seq<string>) {
    exists i :: 0 <= i < |patterns| && MatchesPattern(table, patterns[i])
  }

  function FirstMatch(table: Name, domains: seq<Name>, patterns: Patterns): (found: Option<Name>)
    requires Elements(domains) <= patterns.Keys
  {
    if domains == [] then None
    else
      assert domains[0] in Elements(domains) && Elements(domains[1..]) <= Elements(domains);
      if MatchesSome(table, patterns[domains[0]]) then Some(domains[0]) else FirstMatch(table, domains[1..], patterns)
  }

  function WithDomain(table: Table, patterns: Patterns): Table {
    var domain := FirstMatch(table.name, Sort(patterns.Keys), patterns);
    if domain.Some? then table.(domain := domain) else table
  }

  function WithDomains(model: Model, patterns: Patterns): Model {
    model.(tables := seq(|model.tables|, i requires 0 <= i < |model.tables| => WithDomain(model.tables[i], patterns)))
  }

  lemma {:induction false} FirstMatchIsLeast(table: Name, domains: seq<Name>, patterns: Patterns)
    requires Increasing(domains) && Elements(domains) <= patterns.Keys
    ensures match FirstMatch(table, domains, patterns)
            case None => forall d | d in domains :: !MatchesSome(table, patterns[d])
            case Some(found) => found in domains && MatchesSome(table, patterns[found])
                                && forall d | d in domains && Less(d, found) :: !MatchesSome(table, patterns[d])
  {
    if domains != [] {
      var first, rest := domains[0], domains[1..];
      assert domains == [first] + rest;
      assert first in Elements(domains) && Elements(rest) <= Elements(domains);
      FirstMatchIsLeast(table, rest, patterns);
      forall d | d in domains ensures !Less(d, first) {
        var i :| 0 <= i < |domains| && domains[i] == d;
        LessIsStrict(first, d);
      }
    }
  }

  // A table goes to the least domain one of whose patterns it matches; one that matches
  // none keeps the domain it has.
  lemma DomainIsLeastMatch(table: Table, patterns: Patterns)
    ensures var after := WithDomain(table, patterns);
            after == table.(domain := after.domain)
            && ((forall d | d in patterns :: !MatchesSome(table.name, patterns[d])) ==> after == table)
            && forall d | d in patterns && MatchesSome(table.name, patterns[d]) ::
                 after.domain.Some? && after.domain.value in patterns && AtMost(after.domain.value, d)
                 && MatchesSome(table.name, patterns[after.domain.value])
  {
    var domains := Sort(patterns.Keys);
    assert forall d :: d in domains <==> d in Elements(domains);
    FirstMatchIsLeast(table.name, domains, patterns);
    var found := FirstMatch(table.name, domains, patterns);
    forall d | d in patterns && MatchesSome(table.name, patterns[d]) ensures found.Some? && AtMost(found.value, d) {
      assert d in domains;
      LessIsTotal(found.value, d);
    }
  }

  lemma DomainsKeepClosed(model: Model, patterns: Patterns)
    requires Closed(model)
    ensures Closed(WithDomains(model, patterns)) && TableNames(WithDomains(model, patterns).tables) == TableNames(model.tables)
  {
    var tables := WithDomains(model, patterns).tables;
    assert forall i | 0 <= i < |tables| :: tables[i].name == model.tables[i].name && tables[i].columns == model.tables[i].columns;
    forall end: End | EndExists(model.tables, end) ensures EndExists(tables, end) {
      var i :| 0 <= i < |model.tables| && model.tables[i].name == end.table && HasColumn(model.tables[i], end.column);
      assert tables[i].name == end.table && HasColumn(tables[i], end.column);
    }
  }

  // ----- the plan

  datatype Diagram = Diagram(tables: seq<Name>, source: seq<Line>)

  ghost function DrawnBy(draw: seq<Name> -> seq<Line>, parts: seq<seq<Name>>): seq<Diagram> {
    seq(|parts|, k requires 0 <= k < |parts| => Diagram(parts[k], draw(parts[k])))
  }

  ghost function DiagramsOf(model: Model, parts: seq<seq<Name>>, options: Options): seq<Diagram> {
    DrawnBy(part => Drawing(model, part, options), parts)
  }

  // `parts.map(...)`
  method DrawParts(model: Model, parts: seq<seq<Name>>, options: Options) returns (diagrams: seq<Diagram>)
    requires EndsDeclared(model)
    ensures diagrams == DiagramsOf(model, parts, options)
  {
    diagrams := [];
    for k := 0 to |parts|
      invariant diagrams == DiagramsOf(model, parts[..k], options)
    {
      var source := ErdD2(model, parts[k], options);
      OneMoreDiagram(model, parts, options, k);
      diagrams := diagrams + [Diagram(parts[k], source)];
    }
    assert parts[..|parts|] == parts;
  }

  lemma OneMoreDrawn(draw: seq<Name> -> seq<Line>, parts: seq<seq<Name>>, k: nat)
    requires k < |parts|
    ensures DrawnBy(draw, parts[..k + 1]) == DrawnBy(draw, parts[..k]) + [Diagram(parts[k], draw(parts[k]))]
  {
  }

  lemma OneMoreDiagram(model: Model, parts: seq<seq<Name>>, options: Options, k: nat)
    requires k < |parts|
    ensures DiagramsOf(model, parts[..k + 1], options)
            == DiagramsOf(model, parts[..k], options) + [Diagram(parts[k], Drawing(model, parts[k], options))]
  {
    OneMoreDrawn(part => Drawing(model, part, options), parts, k);
  }

  // What rendering the diagram source of some tables and checking its size finds.
  type Render = (seq<Name>, seq<Line>) -> seq<Problem>

  // sizeProblemsOfPart
  function MeasureOf(model: Model, render: Render, options: Options): Measure {
    (names: seq<Name>) => render(names, Drawing(model, names, options))
  }

  // What the plan is where the memo of the splitter can be trusted.
  ghost function PlanOf(model: Model, render: Render, options: Options): (plan: (seq<Diagram>, seq<Refusal>))
    requires EndsDeclared(model)
  {
    var steps := SplitSteps(model, MeasureOf(model, render, options));
    (DiagramsOf(model, PartsOf(steps), options), RefusalsOf(steps))
  }

  // Each diagram is the drawing of its tables and renders without a problem.
  ghost predicate DiagramsFit(diagrams: seq<Diagram>, model: Model, render: Render, options: Options) {
    forall k | 0 <= k < |diagrams| ::
      diagrams[k].source == Drawing(model, diagrams[k].tables, options) && render(diagrams[k].tables, diagrams[k].source) == []
  }

  // Each refused table has the problems of its own drawing.
  ghost predicate RefusalsFail(tooLarge: seq<Refusal>, model: Model, render: Render, options: Options) {
    forall k | 0 <= k < |tooLarge| ::
      tooLarge[k].problems == render([tooLarge[k].table], Drawing(model, [tooLarge[k].table], options)) != []
  }

  lemma DrawnPartsFit(model: Model, parts: seq<seq<Name>>, render: Render, options: Options)
    requires forall k | 0 <= k < |parts| :: Fits(MeasureOf(model, render, options), parts[k])
    ensures DiagramsFit(DiagramsOf(model, parts, options), model, render, options)
  {
    forall k | 0 <= k < |parts| ensures render(parts[k], Drawing(model, parts[k], options)) == [] {
      assert Fits(MeasureOf(model, render, options), parts[k]);
    }
  }

  // Every diagram of the plan is the drawing of its tables and renders without a problem;
  // every table refused has the problems of its own drawing.
  lemma PlanFits(model: Model, render: Render, options: Options)
    requires EndsDeclared(model)
    ensures DiagramsFit(PlanOf(model, render, options).0, model, render, options)
    ensures RefusalsFail(PlanOf(model, render, options).1, model, render, options)
  {
    var measure := MeasureOf(model, render, options);
    var steps := SplitSteps(model, measure);
    StepsFit(model, measure);
    DrawnPartsFit(model, PartsOf(steps), render, options);
  }

  lemma StepsFit(model: Model, measure: Measure)
    requires EndsDeclared(model)
    ensures forall k | 0 <= k < |PartsOf(SplitSteps(model, measure))| :: Fits(measure, PartsOf(SplitSteps(model, measure))[k])
    ensures forall k | 0 <= k < |RefusalsOf(SplitSteps(model, measure))| ::
              var refusal := RefusalsOf(SplitSteps(model, measure))[k];
              refusal.problems == measure([refusal.table]) != []
  {
    SplitIsSound(model, measure);
    PartsFit(SplitSteps(model, measure), CountsOf(TableNames(model.tables), model.relations), measure);
  }

  lemma {:induction false} PartsFit(steps: seq<Step>, counts: Counts, measure: Measure)
    requires forall step | step in steps :: StepOk(step, counts, measure)
    ensures forall k | 0 <= k < |PartsOf(steps)| :: Fits(measure, PartsOf(steps)[k])
    ensures forall k | 0 <= k < |RefusalsOf(steps)| :: RefusalsOf(steps)[k].problems == measure([RefusalsOf(steps)[k].table]) != []
  {
    if steps != [] {
      assert StepOk(steps[0], counts, measure);
      PartsFit(steps[1..], counts, measure);
    }
  }

  // Whatever rendering says, and even where the memo confuses two lists, the diagrams hold
  // every table and every relation as PlanDraws tells.
  method PlanErdDiagrams(model: Model, render: Render, options: Options) returns (diagrams: seq<Diagram>, tooLarge: seq<Refusal>)
    requires Closed(model)
    ensures EndsDeclared(model)
    ensures TellApart(TableNames(model.tables)) ==> (diagrams, tooLarge) == PlanOf(model, render, options)
    ensures PlanDraws(model, diagrams, tooLarge)
  {
    ClosedEndsDeclared(model);
    var parts, refusals, _ := SplitIntoParts(model, MeasureOf(model, render, options));
    diagrams := DrawParts(model, parts, options);
    tooLarge := refusals;
    AllArePlaced(model, parts, refusals);
    PartsDrawAll(model, parts, refusals, options);
  }

  lemma AllArePlaced(model: Model, parts: seq<seq<Name>>, tooLarge: seq<Refusal>)
    requires Flat(parts) + RefusedTables(tooLarge) == multiset(TableNames(model.tables))
    ensures PlacesAll(model, parts, tooLarge)
  {
    forall name ensures Flat(parts)[name] + RefusedTables(tooLarge)[name] == if name in TableNames(model.tables) then 1 else 0 {
      assert (Flat(parts) + RefusedTables(tooLarge))[name] == multiset(TableNames(model.tables))[name];
    }
  }

  ghost function OpenedAcross(diagrams: seq<Diagram>): multiset<Path> {
    if diagrams == [] then multiset{} else OpenedIn(None, diagrams[0].source) + OpenedAcross(diagrams[1..])
  }

  ghost function EdgesAcross(diagrams: seq<Diagram>): multiset<Relation> {
    if diagrams == [] then multiset{} else EdgesOf(diagrams[0].source) + EdgesAcross(diagrams[1..])
  }

  ghost predicate SharedIn(diagrams: seq<Diagram>, r: Relation) {
    exists k :: 0 <= k < |diagrams| && Shares(diagrams[k].tables, r)
  }

  // Every table is opened exactly once across the diagrams, at its own path, or was
  // refused, and nothing else is opened. A relation is drawn as often as the model lists
  // it when some diagram holds both its tables, and not at all otherwise; a self reference
  // is drawn nowhere.
  ghost predicate PlanDraws(model: Model, diagrams: seq<Diagram>, tooLarge: seq<Refusal>) {
    && (forall table | table in model.tables :: OpenedAcross(diagrams)[PathOf(table)] + RefusedTables(tooLarge)[table.name] == 1)
    && (forall path | path in OpenedAcross(diagrams) :: exists table :: table in model.tables && PathOf(table) == path)
    && (forall r :: EdgesAcross(diagrams)[r]
                    == if SharedIn(diagrams, r) && !IsSelfReference(r) then multiset(model.relations)[r] else 0)
  }

  lemma RestDrawn(draw: seq<Name> -> seq<Line>, parts: seq<seq<Name>>)
    requires parts != []
    ensures DrawnBy(draw, parts)[0] == Diagram(parts[0], draw(parts[0])) && DrawnBy(draw, parts)[1..] == DrawnBy(draw, parts[1..])
  {
  }

  lemma RestOfDiagrams(model: Model, parts: seq<seq<Name>>, options: Options)
    requires parts != []
    ensures var diagrams := DiagramsOf(model, parts, options);
            diagrams[0] == Diagram(parts[0], Drawing(model, parts[0], options)) && diagrams[1..] == DiagramsOf(model, parts[1..], options)
  {
    RestDrawn(part => Drawing(model, part, options), parts);
  }

  lemma OpenedInPart(model: Model, part: seq<Name>, options: Options, table: Table)
    requires DistinctTables(model.tables) && table in model.tables && multiset(part)[table.name] <= 1
    ensures OpenedIn(None, Drawing(model, part, options))[PathOf(table)] == multiset(part)[table.name]
  {
    PartIsOpenedOnce(model, part, options);
    assert table.name in part <==> table.name in multiset(part);
    if PathOf(table) in PartPaths(model, part) {
      var other :| other in model.tables && other.name in part && PathOf(other) == PathOf(table);
    } else {
      assert table.name !in part;
    }
  }

  lemma {:induction false} TableIsOpenedAcross(model: Model, parts: seq<seq<Name>>, options: Options, table: Table)
    requires DistinctTables(model.tables) && table in model.tables && Flat(parts)[table.name] <= 1
    ensures OpenedAcross(DiagramsOf(model, parts, options))[PathOf(table)] == Flat(parts)[table.name]
  {
    if parts != [] {
      RestOfDiagrams(model, parts, options);
      OpenedInPart(model, parts[0], options, table);
      TableIsOpenedAcross(model, parts[1..], options, table);
    }
  }

  lemma {:induction false} OnlyTablesAreOpened(model: Model, parts: seq<seq<Name>>, options: Options, path: Path)
    requires DistinctTables(model.tables) && path in OpenedAcross(DiagramsOf(model, parts, options))
    ensures exists table :: table in model.tables && PathOf(table) == path
  {
    RestOfDiagrams(model, parts, options);
    if path in OpenedIn(None, Drawing(model, parts[0], options)) {
      PartIsOpenedOnce(model, parts[0], options);
      assert path in PartPaths(model, parts[0]);
    } else {
      OnlyTablesAreOpened(model, parts[1..], options, path);
    }
  }

  ghost predicate SharedByPart(parts: seq<seq<Name>>, r: Relation) {
    exists k :: 0 <= k < |parts| && Shares(parts[k], r)
  }

  lemma SharedByFirst(parts: seq<seq<Name>>, r: Relation)
    requires parts != [] && Flat(parts)[r.source.table] <= 1
    ensures SharedByPart(parts, r) <==> Shares(parts[0], r) || SharedByPart(parts[1..], r)
    ensures Shares(parts[0], r) ==> !SharedByPart(parts[1..], r)
  {
    if SharedByPart(parts[1..], r) {
      var k :| 0 <= k < |parts[1..]| && Shares(parts[1..][k], r);
      assert Shares(parts[k + 1], r);
      if Shares(parts[0], r) {
        TwoPartsCountTwice(parts, 0, k + 1, r.source.table);
      }
    }
  }

  lemma {:induction false} RelationAcross(model: Model, parts: seq<seq<Name>>, options: Options, r: Relation)
    requires Flat(parts)[r.source.table] <= 1
    ensures EdgesAcross(DiagramsOf(model, parts, options))[r]
            == if SharedByPart(parts, r) && !IsSelfReference(r) then multiset(model.relations)[r] else 0
  {
    if parts != [] {
      RestOfDiagrams(model, parts, options);
      DrawingDraws(model, parts[0], options);
      InsideHolds(model.relations, Elements(parts[0]), r);
      RelationAcross(model, parts[1..], options, r);
      SharedByFirst(parts, r);
    }
  }

  // Parts and refused tables that hold every table of the model exactly once.
  ghost predicate PlacesAll(model: Model, parts: seq<seq<Name>>, tooLarge: seq<Refusal>) {
    forall name :: Flat(parts)[name] + RefusedTables(tooLarge)[name] == if name in TableNames(model.tables) then 1 else 0
  }

  lemma PartsDrawAll(model: Model, parts: seq<seq<Name>>, tooLarge: seq<Refusal>, options: Options)
    requires Closed(model) && PlacesAll(model, parts, tooLarge)
    ensures PlanDraws(model, DiagramsOf(model, parts, options), tooLarge)
  {
    var diagrams := DiagramsOf(model, parts, options);
    forall table | table in model.tables ensures OpenedAcross(diagrams)[PathOf(table)] + RefusedTables(tooLarge)[table.name] == 1 {
      TableIsOpenedAcross(model, parts, options, table);
      assert table.name in TableNames(model.tables);
    }
    forall path | path in OpenedAcross(diagrams) ensures exists table :: table in model.tables && PathOf(table) == path {
      OnlyTablesAreOpened(model, parts, options, path);
    }
    forall r ensures EdgesAcross(diagrams)[r] == if SharedIn(diagrams, r) && !IsSelfReference(r) then multiset(model.relations)[r] else 0 {
      RelationAcross(model, parts, options, r);
      SharedByDiagram(model, parts, options, r);
    }
  }

  lemma PlanIsComplete(model: Model, render: Render, options: Options)
    requires Closed(model)
    ensures EndsDeclared(model)
    ensures PlanDraws(model, PlanOf(model, render, options).0, PlanOf(model, render, options).1)
  {
    ClosedEndsDeclared(model);
    var measure := MeasureOf(model, render, options);
    SplitIsSound(model, measure);
    var steps := SplitSteps(model, measure);
    AllArePlaced(model, PartsOf(steps), RefusalsOf(steps));
    PartsDrawAll(model, PartsOf(steps), RefusalsOf(steps), options);
  }

  lemma SharedByDrawn(draw: seq<Name> -> seq<Line>, parts: seq<seq<Name>>, r: Relation)
    ensures SharedIn(DrawnBy(draw, parts), r) <==> SharedByPart(parts, r)
  {
    var diagrams := DrawnBy(draw, parts);
    if SharedByPart(parts, r) {
      var k :| 0 <= k < |parts| && Shares(parts[k], r);
      assert Shares(diagrams[k].tables, r);
    }
  }

  lemma SharedByDiagram(model: Model, parts: seq<seq<Name>>, options: Options, r: Relation)
    ensures SharedIn(DiagramsOf(model, parts, options), r) <==> SharedByPart(parts, r)
  {
    SharedByDrawn(part => Drawing(model, part, options), parts, r);
  }

  // ----- the command

  datatype ErdResult =
    | Reported(problems: seq<SchemaProblem>, unknown: seq<Name>)
    | TooLarge(refusals: seq<Refusal>)
    | Drawn(diagrams: seq<Diagram>)

  function UnknownNames(tables: seq<Table>, wanted: seq<Name>): seq<Name> {
    if wanted == [] then []
    else
      var last := |wanted| - 1;
      UnknownNames(tables, wanted[..last]) + if wanted[last] in TableNames(tables) then [] else [wanted[last]]
  }

  lemma {:induction false} UnknownAreThose(tables: seq<Table>, wanted: seq<Name>, name: Name)
    ensures name in UnknownNames(tables, wanted) <==> name in wanted && name !in TableNames(tables)
  {
    if wanted != [] {
      var last := |wanted| - 1;
      UnknownAreThose(tables, wanted[..last], name);
      assert wanted == wanted[..last] + [wanted[last]];
    }
  }

  lemma {:induction false} NoneUnknown(tables: seq<Table>, wanted: seq<Name>)
    ensures UnknownNames(tables, wanted) == [] <==> Elements(wanted) <= TableNames(tables)
  {
    if wanted != [] {
      var last := |wanted| - 1;
      NoneUnknown(tables, wanted[..last]);
      assert wanted == wanted[..last] + [wanted[last]];
      ElementsConcat(wanted[..last], [wanted[last]]);
      assert Elements([wanted[last]]) == {wanted[last]};
    }
  }

  // `--tables` and `--domains`
  function Planned(model: Model, wanted: Option<seq<Name>>, patterns: Patterns): Model {
    WithDomains(if wanted.Some? then ModelSubset(model, wanted.value) else model, patterns)
  }

  predicate IsWanted(name: Name, wanted: Option<seq<Name>>) {
    wanted.None? || name in wanted.value
  }

  // The table with the least domain that one of its patterns matches, or with its own.
  ghost predicate IsAssigned(table: Table, after: Table, patterns: Patterns) {
    && after.name == table.name && after.columns == table.columns
    && ((forall d | d in patterns :: !MatchesSome(table.name, patterns[d])) ==> after.domain == table.domain)
    && forall d | d in patterns && MatchesSome(table.name, patterns[d]) ::
         after.domain.Some? && after.domain.value in patterns && AtMost(after.domain.value, d)
         && MatchesSome(table.name, patterns[after.domain.value])
  }

  // The wanted tables, each with its domain, and the relations between them.
  ghost predicate IsPlanned(model: Model, planned: Model, wanted: Option<seq<Name>>, patterns: Patterns) {
    && (forall table | table in model.tables && IsWanted(table.name, wanted) ::
          exists after :: after in planned.tables && IsAssigned(table, after, patterns))
    && (forall after | after in planned.tables ::
          exists table :: table in model.tables && IsWanted(table.name, wanted) && IsAssigned(table, after, patterns))
    && (forall r :: r in planned.relations
                    <==> r in model.relations && IsWanted(r.source.table, wanted) && IsWanted(r.target.table, wanted))
  }

  lemma AssignedAt(model: Model, patterns: Patterns, i: nat)
    requires i < |model.tables|
    ensures var after := WithDomains(model, patterns).tables;
            |after| == |model.tables| && IsAssigned(model.tables[i], after[i], patterns)
  {
    DomainIsLeastMatch(model.tables[i], patterns);
  }

  ghost predicate EachAssigned(before: seq<Table>, after: seq<Table>, patterns: Patterns) {
    |after| == |before| && forall i | 0 <= i < |before| :: IsAssigned(before[i], after[i], patterns)
  }

  lemma AllAssigned(model: Model, patterns: Patterns)
    ensures EachAssigned(model.tables, WithDomains(model, patterns).tables, patterns)
  {
    forall i | 0 <= i < |model.tables| ensures IsAssigned(model.tables[i], WithDomains(model, patterns).tables[i], patterns) {
      AssignedAt(model, patterns, i);
    }
  }

  // The assigned tables are those of the tables before, one for one.
  lemma AssignedHold(before: seq<Table>, after: seq<Table>, patterns: Patterns)
    requires EachAssigned(before, after, patterns)
    ensures forall table | table in before :: exists t :: t in after && IsAssigned(table, t, patterns)
    ensures forall t | t in after :: exists table :: table in before && IsAssigned(table, t, patterns)
  {
    forall table | table in before ensures exists t :: t in after && IsAssigned(table, t, patterns) {
      var i :| 0 <= i < |before| && before[i] == table;
      assert after[i] in after;
    }
    forall t | t in after ensures exists table :: table in before && IsAssigned(table, t, patterns) {
      var i :| 0 <= i < |after| && after[i] == t;
      assert before[i] in before;
    }
  }

  lemma WantedSubset(model: Model, wanted: Option<seq<Name>>)
    requires Closed(model)
    ensures var subset := if wanted.Some? then ModelSubset(model, wanted.value) else model;
            && (forall table :: table in subset.tables <==> table in model.tables && IsWanted(table.name, wanted))
            && (forall r :: r in subset.relations
                            <==> r in model.relations && IsWanted(r.source.table, wanted) && IsWanted(r.target.table, wanted))
  {
    if wanted.Some? { SubsetIsClosed(model, wanted.value); }
  }

  lemma PlannedIsThat(model: Model, wanted: Option<seq<Name>>, patterns: Patterns)
    requires Closed(model)
    ensures IsPlanned(model, Planned(model, wanted, patterns), wanted, patterns)
  {
    var subset := if wanted.Some? then ModelSubset(model, wanted.value) else model;
    WantedSubset(model, wanted);
    AllAssigned(subset, patterns);
    AssignedHold(subset.tables, Planned(model, wanted, patterns).tables, patterns);
  }

  ghost function SchemaNames(schema: Schema): set<Name> {
    set table | table in schema.tables :: table.name
  }

  lemma PlannedIsClosed(model: Model, wanted: Option<seq<Name>>, patterns: Patterns)
    requires Closed(model)
    ensures Closed(Planned(model, wanted, patterns))
    ensures TableNames(Planned(model, wanted, patterns).tables)
            == if wanted.Some? then TableNames(model.tables) * Elements(wanted.value) else TableNames(model.tables)
  {
    var subset := if wanted.Some? then ModelSubset(model, wanted.value) else model;
    if wanted.Some? {
      SubsetIsClosed(model, wanted.value);
      forall name ensures name in TableNames(subset.tables) <==> name in TableNames(model.tables) && name in Elements(wanted.value) {
        SubsetNames(model, wanted.value, name);
      }
    }
    DomainsKeepClosed(subset, patterns);
  }

  lemma SubsetNames(model: Model, wanted: seq<Name>, name: Name)
    requires Closed(model)
    ensures name in TableNames(ModelSubset(model, wanted).tables) <==> name in TableNames(model.tables) && name in Elements(wanted)
  {
    SubsetIsClosed(model, wanted);
    var tables := ModelSubset(model, wanted).tables;
    if name in TableNames(model.tables) && name in Elements(wanted) {
      var i :| 0 <= i < |model.tables| && model.tables[i].name == name;
      assert model.tables[i] in tables;
    }
    if name in TableNames(tables) {
      var i :| 0 <= i < |tables| && tables[i].name == name;
      assert tables[i] in tables;
    }
  }

  lemma ModelNames(schema: Schema, model: Model)
    requires SoundSchema(schema) && WithoutReferences(model.tables) == AllTables(schema.tables)
    ensures TableNames(model.tables) == SchemaNames(schema)
  {
    assert |model.tables| == |schema.tables|;
    forall i | 0 <= i < |schema.tables| ensures model.tables[i].name == schema.tables[i].name {
      assert WithoutReferences(model.tables)[i].name == AllTables(schema.tables)[i].name;
    }
    forall table | table in schema.tables ensures table.name in TableNames(model.tables) {
      var i :| 0 <= i < |schema.tables| && schema.tables[i] == table;
    }
  }

  // The model is the schema as it is written, with its references.
  ghost predicate AsWritten(schema: Schema, model: Model) {
    WithoutReferences(model.tables) == AllTables(schema.tables) && model.relations == schema.relations && ReferencesByKey(model)
  }

  // What is reported: the problems of the schema, and the wanted names of no table of it.
  ghost predicate IsReport(result: ErdResult, schema: Schema, wanted: Option<seq<Name>>)
    requires result.Reported?
  {
    && result.problems == AllTableProblems(schema.tables) + AllRelationProblems(Kept(schema.tables), schema.relations)
    && forall name :: name in result.unknown <==> wanted.Some? && name in wanted.value && !HasTable(Kept(schema.tables), name)
  }

  // The refusals where a table is too large alone, and otherwise the diagrams.
  ghost predicate IsOutcome(result: ErdResult, model: Model, render: Render, options: Options)
    requires EndsDeclared(model)
  {
    var (diagrams, tooLarge) := PlanOf(model, render, options);
    result == if tooLarge != [] then TooLarge(tooLarge) else Drawn(diagrams)
  }

  lemma UnknownAreReported(schema: Schema, tables: seq<Table>, wanted: seq<Name>)
    requires WithoutReferences(tables) == Kept(schema.tables)
    ensures forall name :: name in UnknownNames(tables, wanted) <==> name in wanted && !HasTable(Kept(schema.tables), name)
  {
    assert |tables| == |WithoutReferences(tables)|;
    assert forall i | 0 <= i < |tables| :: WithoutReferences(tables)[i].name == tables[i].name;
    forall name ensures name in UnknownNames(tables, wanted) <==> name in wanted && !HasTable(Kept(schema.tables), name) {
      UnknownAreThose(tables, wanted, name);
      assert name in TableNames(tables) <==> HasTable(Kept(schema.tables), name);
    }
  }

  // The command reports a schema that is not sound or a wanted table it does not declare;
  // otherwise the model is the schema as written. When it draws the diagrams hold every
  // planned table and relation; where the names can be told apart by their lines it draws
  // the plan, exactly when no table is too large alone.
  method ErdCommand(schema: Schema, wanted: Option<seq<Name>>, patterns: Patterns, render: Render, options: Options)
    returns (result: ErdResult, ghost model: Model)
    ensures result.Reported? <==> !SoundSchema(schema) || (wanted.Some? && !(Elements(wanted.value) <= SchemaNames(schema)))
    ensures result.Reported? ==> IsReport(result, schema, wanted)
    ensures !result.Reported? ==> AsWritten(schema, model)
    ensures !result.Reported? ==> Closed(Planned(model, wanted, patterns)) && EndsDeclared(Planned(model, wanted, patterns))
    ensures result.Drawn? ==> PlanDraws(Planned(model, wanted, patterns), result.diagrams, [])
    ensures !result.Reported? && TellApart(TableNames(Planned(model, wanted, patterns).tables)) ==>
              IsOutcome(result, Planned(model, wanted, patterns), render, options)
  {
    var sourceModel, problems := SchemaModel(schema);
    model := sourceModel;
    var unknown := if wanted.Some? then UnknownNames(sourceModel.tables, wanted.value) else [];
    if wanted.Some? {
      NoneUnknown(sourceModel.tables, wanted.value);
      UnknownAreReported(schema, sourceModel.tables, wanted.value);
    }
    if SoundSchema(schema) {
      ModelNames(schema, sourceModel);
    }
    if |problems| + |unknown| > 0 {
      return Reported(problems, unknown), model;
    }
    result := PlanAndDraw(sourceModel, wanted, patterns, render, options);
  }

  method PlanAndDraw(model: Model, wanted: Option<seq<Name>>, patterns: Patterns, render: Render, options: Options)
    returns (result: ErdResult)
    requires Closed(model)
    ensures !result.Reported? && Closed(Planned(model, wanted, patterns)) && EndsDeclared(Planned(model, wanted, patterns))
    ensures result.Drawn? ==> PlanDraws(Planned(model, wanted, patterns), result.diagrams, [])
    ensures TellApart(TableNames(Planned(model, wanted, patterns).tables)) ==>
              IsOutcome(result, Planned(model, wanted, patterns), render, options)
  {
    var planned := Planned(model, wanted, patterns);
    PlannedIsClosed(model, wanted, patterns);
    var diagrams, tooLarge := PlanErdDiagrams(planned, render, options);
    result := if |tooLarge| > 0 then TooLarge(tooLarge) else Drawn(diagrams);
  }
}
