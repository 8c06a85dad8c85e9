/** figura/scripts/erd-split.mjs: which table the splitter takes next, in terms of the
    relations of the model. */
module ErdChoices {
  import opened Names
  import opened ErdTypes
  import opened ErdComponents
  import opened ErdGrowth
  import opened ErdSplitLaws

  // The relation runs between a and some table of the set.
  predicate Between(r: Relation, a: Name, among: set<Name>) {
    (r.source.table == a && r.target.table in among) || (r.target.table == a && r.source.table in among)
  }

  ghost predicate Related(relations: seq<Relation>, a: Name, b: Name) {
    exists r :: r in relations && Between(r, a, {b})
  }

  ghost function Neighbours(relations: seq<Relation>, a: Name, among: set<Name>): set<Name> {
    set b | b in among && Related(relations, a, b)
  }

  // How many relations run between a and the set.
  function RelationsBetween(relations: seq<Relation>, a: Name, among: set<Name>): nat {
    if relations == [] then 0
    else RelationsBetween(relations[..|relations| - 1], a, among) + if Between(relations[|relations| - 1], a, among) then 1 else 0
  }

  // More counts more; of equals the one whose name comes first.
  predicate Outranks(m: nat, a: Name, n: nat, b: Name) {
    m > n || (m == n && AtMost(a, b))
  }

  // The table with the most neighbours among the tables.
  ghost predicate IsSeed(relations: seq<Relation>, seed: Name, all: set<Name>) {
    seed in all && forall x | x in all :: Outranks(|Neighbours(relations, seed, all)|, seed, |Neighbours(relations, x, all)|, x)
  }

  // The table with the most relations to the part.
  ghost predicate IsCandidate(relations: seq<Relation>, c: Name, part: set<Name>, left: set<Name>) {
    c in left && forall x | x in left :: Outranks(RelationsBetween(relations, c, part), c, RelationsBetween(relations, x, part), x)
  }

  // ----- the scores are these counts

  lemma JoinedIffRelated(names: set<Name>, relations: seq<Relation>, a: Name, b: Name)
    requires EndsAmong(names, relations)
    ensures Joined(CountsOf(names, relations), a, b) <==> Related(relations, a, b)
  {
    CountsJoin(names, relations, a, b);
    assert forall r :: Links(r, a, b) == 1 <==> Between(r, a, {b});
  }

  lemma ScoreIsNeighbours(names: set<Name>, relations: seq<Relation>, t: Name, among: set<Name>)
    requires EndsAmong(names, relations) && t in names
    ensures NeighbourScore(among, CountsOf(names, relations))(t) == |Neighbours(relations, t, among)|
  {
    var counts := CountsOf(names, relations);
    forall b ensures b in counts[t].Keys * among <==> b in Neighbours(relations, t, among) {
      JoinedIffRelated(names, relations, t, b);
    }
    assert counts[t].Keys * among == Neighbours(relations, t, among);
  }

  lemma {:induction false} BetweenGrows(relations: seq<Relation>, t: Name, part: set<Name>, x: Name)
    requires x !in part && t !in part && t != x
    ensures RelationsBetween(relations, t, part + {x}) == RelationsBetween(relations, t, part) + LinkCount(relations, t, x)
  {
    if relations != [] {
      BetweenGrows(relations[..|relations| - 1], t, part, x);
    }
  }

  lemma {:induction false} NoneBetween(relations: seq<Relation>, t: Name)
    ensures RelationsBetween(relations, t, {}) == 0
  {
    if relations != [] {
      NoneBetween(relations[..|relations| - 1], t);
    }
  }

  lemma {:induction false} IntoIsBetween(names: set<Name>, relations: seq<Relation>, t: Name, part: seq<Name>)
    requires EndsAmong(names, relations) && t in names && Distinct(part) && t !in part
    ensures RelationsInto(t, part, CountsOf(names, relations)) == RelationsBetween(relations, t, Elements(part))
  {
    if part == [] {
      NoneBetween(relations, t);
      assert Elements(part) == {};
    } else {
      var front, last := part[..|part| - 1], part[|part| - 1];
      assert part == front + [last];
      IntoIsBetween(names, relations, t, front);
      CountsAreLinkCounts(names, relations, t, last);
      assert Elements(part) == Elements(front) + {last};
      BetweenGrows(relations, t, Elements(front), last);
    }
  }

  lemma SeedInRelations(names: set<Name>, relations: seq<Relation>, seed: Name, all: set<Name>)
    requires EndsAmong(names, relations) && all <= names && SeedIsBest(seed, all, CountsOf(names, relations))
    ensures IsSeed(relations, seed, all)
  {
    ScoreIsNeighbours(names, relations, seed, all);
    forall x | x in all ensures Outranks(|Neighbours(relations, seed, all)|, seed, |Neighbours(relations, x, all)|, x) {
      ScoreIsNeighbours(names, relations, x, all);
      assert Ranks(NeighbourScore(all, CountsOf(names, relations)), seed, x);
    }
  }

  lemma CandidateInRelations(names: set<Name>, relations: seq<Relation>, c: Name, part: set<Name>, left: set<Name>)
    requires EndsAmong(names, relations) && left <= names && part !! left
    requires IsBest(c, left, RelationScore(Sort(part), CountsOf(names, relations)))
    ensures IsCandidate(relations, c, part, left)
  {
    var counts := CountsOf(names, relations);
    IncreasingIsDistinct(Sort(part));
    forall x | x in left ensures RelationsInto(x, Sort(part), counts) == RelationsBetween(relations, x, part) {
      assert x !in Elements(Sort(part));
      IntoIsBetween(names, relations, x, Sort(part));
    }
    forall x | x in left ensures Outranks(RelationsBetween(relations, c, part), c, RelationsBetween(relations, x, part), x) {
      assert Ranks(RelationScore(Sort(part), counts), c, x);
    }
  }

  // ----- components

  ghost predicate RelationChain(relations: seq<Relation>, path: seq<Name>, a: Name, b: Name) {
    path != [] && path[0] == a && path[|path| - 1] == b && forall i | 1 <= i < |path| :: Related(relations, path[i - 1], path[i])
  }

  lemma ChainIsOfRelations(names: set<Name>, relations: seq<Relation>, path: seq<Name>, a: Name, b: Name)
    requires EndsAmong(names, relations) && a in names
    ensures ChainBetween(CountsOf(names, relations), path, a, b) <==> RelationChain(relations, path, a, b)
  {
    forall i | 1 <= i < |path|
      ensures Joined(CountsOf(names, relations), path[i - 1], path[i]) <==> Related(relations, path[i - 1], path[i])
    {
      JoinedIffRelated(names, relations, path[i - 1], path[i]);
    }
  }

  lemma LinkedByRelations(names: set<Name>, relations: seq<Relation>, a: Name, b: Name)
    requires EndsAmong(names, relations) && a in names
    ensures Linked(CountsOf(names, relations), a, b) <==> exists path :: RelationChain(relations, path, a, b)
  {
    forall path ensures ChainBetween(CountsOf(names, relations), path, a, b) <==> RelationChain(relations, path, a, b) {
      ChainIsOfRelations(names, relations, path, a, b);
    }
  }

  // The component holds with each table exactly those that chains of relations lead to.
  ghost predicate IsChained(component: seq<Name>, relations: seq<Relation>) {
    forall a, b | a in component :: b in component <==> exists path :: RelationChain(relations, path, a, b)
  }

  lemma ClassIsChained(names: set<Name>, relations: seq<Relation>, component: seq<Name>)
    requires EndsAmong(names, relations) && Elements(component) <= names && LinkClass(CountsOf(names, relations), component)
    ensures IsChained(component, relations)
  {
    forall a, b | a in component ensures b in component <==> exists path :: RelationChain(relations, path, a, b) {
      assert a in Elements(component);
      LinkedByRelations(names, relations, a, b);
    }
  }

  // Every table is in a component, and two tables share one exactly when a chain of
  // relations leads from one to the other.
  lemma ComponentsAreChained(model: Model)
    requires EndsDeclared(model)
    ensures var counts := CountsOf(TableNames(model.tables), model.relations);
            var components := ComponentsOf(counts, counts.Keys);
            Covers(components, TableNames(model.tables)) && forall c | c in components :: IsChained(c, model.relations)
  {
    var names := TableNames(model.tables);
    var counts := CountsOf(names, model.relations);
    CountsAreSymmetric(names, model.relations);
    CollectedStart(counts);
    ComponentsAreLinkClasses(counts, counts.Keys);
    forall c | c in ComponentsOf(counts, counts.Keys) ensures IsChained(c, model.relations) {
      ClassIsChained(names, model.relations, c);
    }
  }

  // ----- what every step took

  // The tables of a part in the order in which they were taken: a seed, then each time the
  // candidate of all that were left. Every beginning fits, and the next candidate does not.
  ghost predicate TakenInOrder(order: seq<Name>, left: set<Name>, relations: seq<Relation>, measure: Measure) {
    && order != [] && Distinct(order) && Elements(order) !! left && IsSeed(relations, order[0], Elements(order) + left)
    && (forall i | 0 < i < |order| :: IsCandidate(relations, order[i], Elements(order[..i]), Elements(order[i..]) + left))
    && BeginningsFit(order, measure)
    && (left != {} ==> exists c :: IsCandidate(relations, c, Elements(order), left) && !Fits(measure, Sort(Elements(order) + {c})))
  }

  ghost predicate TookGreedily(step: Step, relations: seq<Relation>, measure: Measure) {
    match step
    case Whole(_) => true
    case Grown(part, left) => exists order :: Elements(order) == Elements(part) && TakenInOrder(order, left, relations, measure)
    case Refused(table, problems, left) =>
      problems == measure([table]) && problems != [] && table !in left && IsSeed(relations, table, {table} + left)
  }

  lemma PrefixIsApart(order: seq<Name>, left: set<Name>, i: nat)
    requires Distinct(order) && Elements(order) !! left && i <= |order|
    ensures Elements(order[..i]) !! Elements(order[i..]) + left && Elements(order[i..]) <= Elements(order)
  {
    forall x | x in Elements(order[..i]) ensures x !in Elements(order[i..]) + left {
      var k :| 0 <= k < i && order[k] == x;
      assert x in Elements(order);
    }
  }

  lemma OrderInRelations(names: set<Name>, relations: seq<Relation>, part: seq<Name>, left: set<Name>, measure: Measure, order: seq<Name>)
    requires EndsAmong(names, relations) && Elements(part) + left <= names && Increasing(part) && Elements(order) == Elements(part)
    requires GreedyOrder(order, left, CountsOf(names, relations), measure) && ClosedByBest(part, left, CountsOf(names, relations), measure)
    ensures TakenInOrder(order, left, relations, measure)
  {
    var counts := CountsOf(names, relations);
    SeedInRelations(names, relations, order[0], Elements(order) + left);
    forall i | 0 < i < |order| ensures IsCandidate(relations, order[i], Elements(order[..i]), Elements(order[i..]) + left) {
      PrefixIsApart(order, left, i);
      assert BestInTurn(order, left, counts, i);
      CandidateInRelations(names, relations, order[i], Elements(order[..i]), Elements(order[i..]) + left);
    }
    if left != {} {
      SortIsUnique(part);
      var c :| IsBest(c, left, RelationScore(part, counts)) && !Fits(measure, Sort(Elements(part) + {c}));
      CandidateInRelations(names, relations, c, Elements(order), left);
    }
  }

  lemma StepInRelations(names: set<Name>, relations: seq<Relation>, step: Step, measure: Measure)
    requires EndsAmong(names, relations) && StepOk(step, CountsOf(names, relations), measure)
    requires !step.Whole? ==> StepTables(step) + step.left <= names
    ensures TookGreedily(step, relations, measure)
  {
    match step
    case Whole(_) =>
    case Grown(part, left) =>
      var order :| Elements(order) == Elements(part) && GreedyOrder(order, left, CountsOf(names, relations), measure);
      OrderInRelations(names, relations, part, left, measure, order);
    case Refused(table, problems, left) =>
      SeedInRelations(names, relations, table, {table} + left);
  }

  lemma StepsStayInside(names: set<Name>, steps: seq<Step>, groups: set<set<Name>>)
    requires AllLeftInGroups(steps, groups) && forall group | group in groups :: group <= names
    ensures forall step | step in steps && !step.Whole? :: StepTables(step) + step.left <= names
  {
    forall step | step in steps && !step.Whole? ensures StepTables(step) + step.left <= names {
      var k :| 0 <= k < |steps| && steps[k] == step;
      assert LeftInGroup(steps[k], steps[k + 1..], groups);
      var group :| group in groups && StepTables(step) <= group && LeftOfGroup(step.left, group, steps[k + 1..]);
    }
  }

  lemma GroupsStayInside(components: seq<seq<Name>>, domains: Domains, names: set<Name>)
    requires Flat(components) <= multiset(names)
    requires forall group | group in AllGroupSets(components, domains) :: IsGroupOfOne(group, components, domains)
    ensures forall group | group in AllGroupSets(components, domains) :: group <= names
  {
    forall group | group in AllGroupSets(components, domains) ensures group <= names {
      var c, d :| c in components && group == Members(Elements(c), domains, d);
      var i :| 0 <= i < |components| && components[i] == c;
      ComponentIsInside(components, i, names);
    }
  }

  // Every grown part was started with the most connected of the tables then unplaced in
  // its group, took each time the table with the most relations to it, as long as it fits,
  // and was closed by the next one not fitting; every refused table was such a seed.
  lemma SplitIsGreedy(model: Model, measure: Measure)
    requires EndsDeclared(model)
    ensures forall step | step in SplitSteps(model, measure) :: TookGreedily(step, model.relations, measure)
  {
    var names := TableNames(model.tables);
    var counts := CountsOf(names, model.relations);
    var components, domains := ComponentsOf(counts, counts.Keys), DomainsOf(model.tables);
    SplitIsSound(model, measure);
    ModelComponents(model);
    GroupsStayInside(components, domains, names);
    StepsStayInside(names, SplitSteps(model, measure), AllGroupSets(components, domains));
    StepsInRelations(names, model.relations, SplitSteps(model, measure), measure);
  }

  lemma StepsInRelations(names: set<Name>, relations: seq<Relation>, steps: seq<Step>, measure: Measure)
    requires EndsAmong(names, relations) && forall step | step in steps :: StepOk(step, CountsOf(names, relations), measure)
    requires forall step | step in steps && !step.Whole? :: StepTables(step) + step.left <= names
    ensures forall step | step in steps :: TookGreedily(step, relations, measure)
  {
    forall step | step in steps ensures TookGreedily(step, relations, measure) {
      StepInRelations(names, relations, step, measure);
    }
  }

  lemma {:induction false} ComponentIsInside(components: seq<seq<Name>>, i: nat, names: set<Name>)
    requires i < |components| && Flat(components) <= multiset(names)
    ensures Elements(components[i]) <= names
  {
    if i > 0 {
      assert components[1..][i - 1] == components[i];
      ComponentIsInside(components[1..], i - 1, names);
    } else {
      forall x | x in Elements(components[0]) ensures x in names {
        assert x in multiset(components[0]);
        assert x in Flat(components);
      }
    }
  }
}
