/** figura/scripts/erd-split.mjs: what the splitter decides, as functions of the table
    names, the relation counts and the size measure. ErdSplit.dfy runs the loops that
    compute them. The measure is any pure function from a sorted list of table names to
    the size problems of its diagram. */
module ErdGrowth {
  import opened Optional
  import opened Names
  import opened ErdTypes
  import opened ErdComponents

  datatype Problem = Problem(code: string, what: string)

  type Measure = seq<Name> -> seq<Problem>

  predicate Fits(measure: Measure, names: seq<Name>) {
    measure(names) == []
  }

  // What the splitter decides, one step a part or a refused table. `left` holds the
  // tables of the group that were unplaced when the part was closed or the table refused.
  datatype Step =
    | Whole(part: seq<Name>)
    | Grown(part: seq<Name>, left: set<Name>)
    | Refused(table: Name, problems: seq<Problem>, left: set<Name>)

  // ----- seeds and candidates

  function NeighbourScore(among: set<Name>, counts: Counts): Name -> nat {
    (t: Name) => if t in counts then |counts[t].Keys * among| else 0
  }

  function RelationsInto(t: Name, part: seq<Name>, counts: Counts): nat {
    if part == [] then 0
    else
      var last := |part| - 1;
      RelationsInto(t, part[..last], counts) + if Joined(counts, t, part[last]) then counts[t][part[last]] else 0
  }

  function RelationScore(part: seq<Name>, counts: Counts): Name -> nat {
    (t: Name) => RelationsInto(t, part, counts)
  }

  function MostConnectedSeed(unplaced: set<Name>, counts: Counts): Name
    requires unplaced != {}
  {
    Best(unplaced, NeighbourScore(unplaced, counts))
  }

  // The table with the most relations into the part, ties by name; with no table linked
  // to the part that is the first name left.
  function NextCandidate(part: seq<Name>, unplaced: set<Name>, counts: Counts): (c: Name)
    requires unplaced != {}
    ensures IsBest(c, unplaced, RelationScore(part, counts))
  {
    var linked := set t | t in unplaced && RelationsInto(t, part, counts) > 0;
    var c := if linked != {} then Best(linked, RelationScore(part, counts)) else Least(unplaced);
    assert forall x | x in unplaced :: x in linked <==> RelationScore(part, counts)(x) > 0;
    assert forall x | x in unplaced :: Ranks(RelationScore(part, counts), c, x);
    c
  }

  // ----- growth inside one group

  ghost function GrowPart(part: seq<Name>, unplaced: set<Name>, counts: Counts, measure: Measure): (grown: (seq<Name>, set<Name>))
    ensures grown.1 <= unplaced
    decreases |unplaced|
  {
    if unplaced == {} then (part, unplaced)
    else
      var candidate := NextCandidate(part, unplaced, counts);
      var grown := Sort(Elements(part) + {candidate});
      if !Fits(measure, grown) then (part, unplaced)
      else GrowPart(grown, unplaced - {candidate}, counts, measure)
  }

  // The step a seed leads to, and the tables it leaves unplaced.
  ghost function StepFrom(seed: Name, rest: set<Name>, counts: Counts, measure: Measure): (first: (Step, set<Name>))
    ensures first.1 <= rest
  {
    if !Fits(measure, [seed]) then (Refused(seed, measure([seed]), rest), rest)
    else
      var grown := GrowPart([seed], rest, counts, measure);
      (Grown(grown.0, grown.1), grown.1)
  }

  // One turn of the growing loop.
  ghost function FirstStep(unplaced: set<Name>, counts: Counts, measure: Measure): (first: (Step, set<Name>))
    requires unplaced != {}
    ensures first.1 < unplaced
  {
    var seed := MostConnectedSeed(unplaced, counts);
    StepFrom(seed, unplaced - {seed}, counts, measure)
  }

  ghost function Grow(unplaced: set<Name>, counts: Counts, measure: Measure): seq<Step>
    decreases |unplaced|
  {
    if unplaced == {} then []
    else
      var first := FirstStep(unplaced, counts, measure);
      StrictSubsetIsSmaller(first.1, unplaced);
      [first.0] + Grow(first.1, counts, measure)
  }

  lemma {:induction false} StrictSubsetIsSmaller(a: set<Name>, b: set<Name>)
    requires a < b
    ensures |a| < |b|
  {
    var x :| x in b && x !in a;
    SubsetIsNotLarger(a, b - {x});
  }

  // ----- domains

  type Domains = map<Name, Name>

  // The domain of a table; the empty string stands for no domain.
  function DomainKey(domain: Option<Name>): Name {
    if domain.Some? then domain.value else ""
  }

  function DomainsOf(tables: seq<Table>): Domains {
    if tables == [] then map[]
    else var last := |tables| - 1; DomainsOf(tables[..last])[tables[last].name := DomainKey(tables[last].domain)]
  }

  function DomainIn(domains: Domains, t: Name): Name {
    if t in domains then domains[t] else ""
  }

  function Members(names: set<Name>, domains: Domains, domain: Name): set<Name> {
    set t | t in names && DomainIn(domains, t) == domain
  }

  function DomainKeys(names: set<Name>, domains: Domains): set<Name> {
    set t | t in names :: DomainIn(domains, t)
  }

  // Domains by name, the tables without one last.
  function OrderedDomains(keys: set<Name>): seq<Name> {
    Sort(keys - {""}) + if "" in keys then [""] else []
  }

  ghost function GroupList(domainNames: seq<Name>, names: set<Name>, domains: Domains): seq<seq<Name>> {
    if domainNames == [] then []
    else [Sort(Members(names, domains, domainNames[0]))] + GroupList(domainNames[1..], names, domains)
  }

  ghost function GroupsOf(names: set<Name>, domains: Domains): seq<seq<Name>> {
    GroupList(OrderedDomains(DomainKeys(names, domains)), names, domains)
  }

  // ----- the split

  ghost function SplitGroup(group: seq<Name>, counts: Counts, measure: Measure): seq<Step> {
    if Fits(measure, group) then [Whole(group)] else Grow(Elements(group), counts, measure)
  }

  ghost function SplitGroups(groups: seq<seq<Name>>, counts: Counts, measure: Measure): seq<Step> {
    if groups == [] then []
    else SplitGroup(groups[0], counts, measure) + SplitGroups(groups[1..], counts, measure)
  }

  ghost function SplitComponent(component: seq<Name>, domains: Domains, counts: Counts, measure: Measure): seq<Step> {
    if Fits(measure, component) then [Whole(component)]
    else SplitGroups(GroupsOf(Elements(component), domains), counts, measure)
  }

  ghost function SplitComponents(components: seq<seq<Name>>, domains: Domains, counts: Counts, measure: Measure): seq<Step> {
    if components == [] then []
    else SplitComponent(components[0], domains, counts, measure) + SplitComponents(components[1..], domains, counts, measure)
  }

  ghost function SplitSteps(model: Model, measure: Measure): seq<Step>
    requires EndsDeclared(model)
  {
    var counts := CountsOf(TableNames(model.tables), model.relations);
    SplitComponents(ComponentsOf(counts, counts.Keys), DomainsOf(model.tables), counts, measure)
  }

  datatype Refusal = Refusal(table: Name, problems: seq<Problem>)

  ghost function PartOfStep(step: Step): seq<seq<Name>> {
    if step.Refused? then [] else [step.part]
  }

  ghost function RefusalOfStep(step: Step): seq<Refusal> {
    if step.Refused? then [Refusal(step.table, step.problems)] else []
  }

  ghost function PartsOf(steps: seq<Step>): seq<seq<Name>> {
    if steps == [] then [] else PartOfStep(steps[0]) + PartsOf(steps[1..])
  }

  ghost function RefusalsOf(steps: seq<Step>): seq<Refusal> {
    if steps == [] then [] else RefusalOfStep(steps[0]) + RefusalsOf(steps[1..])
  }

  lemma RegroupParts(a: seq<seq<Name>>, b: seq<seq<Name>>, c: seq<seq<Name>>)
    ensures a + (b + c) == (a + b) + c
  {
  }

  lemma RegroupRefusals(a: seq<Refusal>, b: seq<Refusal>, c: seq<Refusal>)
    ensures a + (b + c) == (a + b) + c
  {
  }

  lemma {:induction false} OnlyPartsConcat(a: seq<Step>, b: seq<Step>)
    ensures PartsOf(a + b) == PartsOf(a) + PartsOf(b)
  {
    if a == [] {
      assert a + b == b;
    } else {
      assert (a + b)[1..] == a[1..] + b;
      OnlyPartsConcat(a[1..], b);
      RegroupParts(PartOfStep(a[0]), PartsOf(a[1..]), PartsOf(b));
    }
  }

  lemma {:induction false} OnlyRefusalsConcat(a: seq<Step>, b: seq<Step>)
    ensures RefusalsOf(a + b) == RefusalsOf(a) + RefusalsOf(b)
  {
    if a == [] {
      assert a + b == b;
    } else {
      assert (a + b)[1..] == a[1..] + b;
      OnlyRefusalsConcat(a[1..], b);
      RegroupRefusals(RefusalOfStep(a[0]), RefusalsOf(a[1..]), RefusalsOf(b));
    }
  }

  lemma PartsOfConcat(a: seq<Step>, b: seq<Step>)
    ensures PartsOf(a + b) == PartsOf(a) + PartsOf(b)
    ensures RefusalsOf(a + b) == RefusalsOf(a) + RefusalsOf(b)
  {
    OnlyPartsConcat(a, b);
    OnlyRefusalsConcat(a, b);
  }
}
