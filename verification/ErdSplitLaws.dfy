/** What holds of every split, for every model and every size measure. */
module ErdSplitLaws {
  import opened Names
  import opened ErdTypes
  import opened ErdComponents
  import opened ErdGrowth

  // ----- every table is placed exactly once

  function StepTables(step: Step): set<Name> {
    if step.Refused? then {step.table} else Elements(step.part)
  }

  ghost function Flat(lists: seq<seq<Name>>): multiset<Name> {
    if lists == [] then multiset{} else multiset(lists[0]) + Flat(lists[1..])
  }

  ghost function RefusedTables(refusals: seq<Refusal>): multiset<Name> {
    if refusals == [] then multiset{} else multiset{refusals[0].table} + RefusedTables(refusals[1..])
  }

  // The tables of all parts and the tables refused alone, with repeats.
  ghost function Placed(steps: seq<Step>): multiset<Name> {
    Flat(PartsOf(steps)) + RefusedTables(RefusalsOf(steps))
  }

  lemma {:induction false} FlatConcat(a: seq<seq<Name>>, b: seq<seq<Name>>)
    ensures Flat(a + b) == Flat(a) + Flat(b)
  {
    if a == [] {
      assert a + b == b;
    } else {
      assert (a + b)[1..] == a[1..] + b;
      FlatConcat(a[1..], b);
    }
  }

  lemma FlatCons(first: seq<Name>, others: seq<seq<Name>>)
    ensures Flat([first] + others) == multiset(first) + Flat(others)
  {
    assert ([first] + others)[1..] == others;
  }

  lemma {:induction false} RefusedConcat(a: seq<Refusal>, b: seq<Refusal>)
    ensures RefusedTables(a + b) == RefusedTables(a) + RefusedTables(b)
  {
    if a == [] {
      assert a + b == b;
    } else {
      assert (a + b)[1..] == a[1..] + b;
      RefusedConcat(a[1..], b);
    }
  }

  lemma PlacedConcat(a: seq<Step>, b: seq<Step>)
    ensures Placed(a + b) == Placed(a) + Placed(b)
  {
    PartsOfConcat(a, b);
    FlatConcat(PartsOf(a), PartsOf(b));
    RefusedConcat(RefusalsOf(a), RefusalsOf(b));
  }

  lemma PlacedOne(step: Step)
    ensures Placed([step]) == if step.Refused? then multiset{step.table} else multiset(step.part)
  {
    FlatCons(if step.Refused? then [] else step.part, []);
    assert PartsOf([step]) == (if step.Refused? then [] else [step.part]) by {
      assert PartsOf([]) == [] && [step][1..] == [];
    }
    assert RefusalsOf([step]) == (if step.Refused? then [Refusal(step.table, step.problems)] else []) by {
      assert RefusalsOf([]) == [] && [step][1..] == [];
    }
    if step.Refused? {
      assert RefusedTables([Refusal(step.table, step.problems)][1..]) == multiset{};
    }
  }

  lemma UnionAsMultiset(a: set<Name>, b: set<Name>)
    requires a !! b
    ensures multiset(a + b) == multiset(a) + multiset(b)
  {
  }

  lemma PartitionAsMultiset(whole: set<Name>, part: set<Name>)
    requires part <= whole
    ensures multiset(whole) == multiset(part) + multiset(whole - part)
  {
  }

  lemma {:induction false} IncreasingAsMultiset(r: seq<Name>)
    requires Increasing(r)
    ensures multiset(r) == multiset(Elements(r))
  {
    if r != [] {
      var last := |r| - 1;
      assert r == r[..last] + [r[last]];
      IncreasingIsDistinct(r);
      IncreasingAsMultiset(r[..last]);
      assert Elements(r) == Elements(r[..last]) + {r[last]};
    }
  }

  lemma SortAsMultiset(s: set<Name>)
    ensures multiset(Sort(s)) == multiset(s)
  {
    IncreasingAsMultiset(Sort(s));
  }

  // ----- growth

  // A part closed with tables left in its group was closed by the best linked of them
  // (ties by name, the first name when none is linked) not fitting beside it.
  ghost predicate ClosedByBest(part: seq<Name>, left: set<Name>, counts: Counts, measure: Measure) {
    left != {} ==>
      exists c :: IsBest(c, left, RelationScore(part, counts)) && !Fits(measure, Sort(Elements(part) + {c}))
  }

  // A part holds the most connected of the tables that were unplaced when it was started.
  ghost predicate HoldsSeed(part: seq<Name>, left: set<Name>, counts: Counts) {
    exists seed :: seed in part && IsBest(seed, Elements(part) + left, NeighbourScore(Elements(part) + left, counts))
  }

  // The table taken in turn i was the best candidate of those left.
  ghost predicate BestInTurn(order: seq<Name>, left: set<Name>, counts: Counts, i: nat)
    requires i < |order|
  {
    IsBest(order[i], Elements(order[i..]) + left, RelationScore(Sort(Elements(order[..i])), counts))
  }

  ghost predicate SeedIsBest(seed: Name, all: set<Name>, counts: Counts) {
    IsBest(seed, all, NeighbourScore(all, counts))
  }

  ghost predicate TurnsAreBest(order: seq<Name>, left: set<Name>, counts: Counts) {
    forall i | 0 < i < |order| :: BestInTurn(order, left, counts, i)
  }

  ghost predicate BeginningsFit(order: seq<Name>, measure: Measure) {
    forall i | 0 < i <= |order| :: Fits(measure, Sort(Elements(order[..i])))
  }

  // The tables of a part in the order in which they were taken: the seed first, then each
  // time the best candidate of those left, and every beginning of the list fits.
  ghost predicate GreedyOrder(order: seq<Name>, left: set<Name>, counts: Counts, measure: Measure) {
    && order != [] && Distinct(order) && Elements(order) !! left
    && SeedIsBest(order[0], Elements(order) + left, counts) && TurnsAreBest(order, left, counts) && BeginningsFit(order, measure)
  }

  ghost predicate GrownInOrder(part: seq<Name>, left: set<Name>, counts: Counts, measure: Measure) {
    exists order :: Elements(order) == Elements(part) && GreedyOrder(order, left, counts, measure)
  }

  ghost predicate StepOk(step: Step, counts: Counts, measure: Measure) {
    match step
    case Whole(part) => part != [] && Increasing(part) && Fits(measure, part)
    case Grown(part, left) =>
      && part != [] && Increasing(part) && Fits(measure, part) && Elements(part) !! left
      && ClosedByBest(part, left, counts, measure) && HoldsSeed(part, left, counts)
      && GrownInOrder(part, left, counts, measure)
    case Refused(table, problems, left) =>
      && problems == measure([table]) && problems != [] && table !in left
      && SeedIsBest(table, {table} + left, counts)
  }

  lemma RefusedCandidateCloses(part: seq<Name>, left: set<Name>, counts: Counts, measure: Measure)
    requires left != {} && !Fits(measure, Sort(Elements(part) + {NextCandidate(part, left, counts)}))
    ensures ClosedByBest(part, left, counts, measure)
  {
    assert IsBest(NextCandidate(part, left, counts), left, RelationScore(part, counts));
  }

  lemma OneMoves(part: set<Name>, unplaced: set<Name>, candidate: Name, grown: set<Name>)
    requires candidate in unplaced && part !! unplaced && grown == part + {candidate}
    ensures part <= grown && grown !! unplaced - {candidate} && grown + (unplaced - {candidate}) == part + unplaced
  {
  }

  lemma {:induction false} GrowPartTables(part: seq<Name>, unplaced: set<Name>, counts: Counts, measure: Measure)
    requires part != [] && Increasing(part) && Elements(part) !! unplaced
    ensures var (grown, left) := GrowPart(part, unplaced, counts, measure);
            && grown != [] && Increasing(grown) && Elements(part) <= Elements(grown)
            && Elements(grown) !! left && Elements(grown) + left == Elements(part) + unplaced
    decreases |unplaced|
  {
    if unplaced != {} {
      var candidate := NextCandidate(part, unplaced, counts);
      var next := Sort(Elements(part) + {candidate});
      if Fits(measure, next) {
        OneMoves(Elements(part), unplaced, candidate, Elements(next));
        assert next != [] by { assert candidate in Elements(next); }
        GrowPartTables(next, unplaced - {candidate}, counts, measure);
      }
    }
  }

  lemma {:induction false} GrowPartFits(part: seq<Name>, unplaced: set<Name>, counts: Counts, measure: Measure)
    requires Fits(measure, part)
    ensures var (grown, left) := GrowPart(part, unplaced, counts, measure);
            Fits(measure, grown) && ClosedByBest(grown, left, counts, measure)
    decreases |unplaced|
  {
    if unplaced != {} {
      var candidate := NextCandidate(part, unplaced, counts);
      var next := Sort(Elements(part) + {candidate});
      if Fits(measure, next) {
        GrowPartFits(next, unplaced - {candidate}, counts, measure);
      } else {
        RefusedCandidateCloses(part, unplaced, counts, measure);
      }
    }
  }

  lemma OrderGrows(order: seq<Name>, unplaced: set<Name>, c: Name, i: nat)
    requires c in unplaced && i <= |order|
    ensures Elements((order + [c])[i..]) + (unplaced - {c}) == Elements(order[i..]) + unplaced
    ensures (order + [c])[..i] == order[..i]
  {
    assert (order + [c])[i..] == order[i..] + [c];
    ElementsConcat(order[i..], [c]);
    assert Elements([c]) == {c};
  }

  lemma TurnsStayBest(order: seq<Name>, unplaced: set<Name>, c: Name, counts: Counts)
    requires TurnsAreBest(order, unplaced, counts) && c in unplaced && IsBest(c, unplaced, RelationScore(Sort(Elements(order)), counts))
    ensures TurnsAreBest(order + [c], unplaced - {c}, counts)
  {
    forall i | 0 < i < |order| + 1 ensures BestInTurn(order + [c], unplaced - {c}, counts, i) {
      OrderGrows(order, unplaced, c, i);
      if i < |order| {
        assert BestInTurn(order, unplaced, counts, i);
      } else {
        assert order[..i] == order && Elements(order[i..]) == {};
      }
    }
  }

  lemma BeginningsStayFit(order: seq<Name>, c: Name, measure: Measure)
    requires BeginningsFit(order, measure) && Fits(measure, Sort(Elements(order + [c])))
    ensures BeginningsFit(order + [c], measure)
  {
    forall i | 0 < i <= |order| + 1 ensures Fits(measure, Sort(Elements((order + [c])[..i]))) {
      if i <= |order| {
        assert (order + [c])[..i] == order[..i];
      } else {
        assert (order + [c])[..i] == order + [c];
      }
    }
  }

  lemma DistinctGrows(order: seq<Name>, unplaced: set<Name>, c: Name)
    requires Distinct(order) && Elements(order) !! unplaced && c in unplaced
    ensures Distinct(order + [c]) && Elements(order + [c]) == Elements(order) + {c} && Elements(order + [c]) !! unplaced - {c}
    ensures Elements(order + [c]) + (unplaced - {c}) == Elements(order) + unplaced
  {
    ElementsConcat(order, [c]);
    assert Elements([c]) == {c};
    forall i | 0 <= i < |order| ensures order[i] != c {
      assert order[i] in Elements(order);
    }
  }

  lemma OneMoreInOrder(order: seq<Name>, unplaced: set<Name>, c: Name, counts: Counts, measure: Measure)
    requires GreedyOrder(order, unplaced, counts, measure) && c in unplaced
    requires IsBest(c, unplaced, RelationScore(Sort(Elements(order)), counts)) && Fits(measure, Sort(Elements(order) + {c}))
    ensures GreedyOrder(order + [c], unplaced - {c}, counts, measure) && Elements(order + [c]) == Elements(order) + {c}
  {
    DistinctGrows(order, unplaced, c);
    TurnsStayBest(order, unplaced, c, counts);
    BeginningsStayFit(order, c, measure);
  }

  // Growing takes the tables in greedy order.
  lemma {:induction false} GrowPartInOrder(part: seq<Name>, unplaced: set<Name>, counts: Counts, measure: Measure, order: seq<Name>)
    requires GreedyOrder(order, unplaced, counts, measure) && part == Sort(Elements(order))
    ensures var (grown, left) := GrowPart(part, unplaced, counts, measure);
            GrownInOrder(grown, left, counts, measure)
    decreases |unplaced|
  {
    if unplaced != {} {
      var candidate := NextCandidate(part, unplaced, counts);
      var next := Sort(Elements(part) + {candidate});
      if Fits(measure, next) {
        OneMoreInOrder(order, unplaced, candidate, counts, measure);
        GrowPartInOrder(next, unplaced - {candidate}, counts, measure, order + [candidate]);
      }
    }
  }

  lemma SeedIsInOrder(seed: Name, rest: set<Name>, counts: Counts, measure: Measure)
    requires seed !in rest && SeedIsBest(seed, {seed} + rest, counts) && Fits(measure, [seed])
    ensures GreedyOrder([seed], rest, counts, measure) && [seed] == Sort(Elements([seed]))
  {
    assert Elements([seed]) == {seed};
    SortIsUnique([seed]);
    assert [seed][..1] == [seed];
  }

  lemma SeedOfStep(unplaced: set<Name>, counts: Counts)
    requires unplaced != {}
    ensures var seed := MostConnectedSeed(unplaced, counts);
            seed in unplaced && {seed} + (unplaced - {seed}) == unplaced && SeedIsBest(seed, {seed} + (unplaced - {seed}), counts)
  {
    var seed := MostConnectedSeed(unplaced, counts);
    assert {seed} + (unplaced - {seed}) == unplaced;
  }

  lemma FirstStepTables(unplaced: set<Name>, counts: Counts, measure: Measure)
    requires unplaced != {}
    ensures var (step, left) := FirstStep(unplaced, counts, measure);
            && !step.Whole? && step.left == left
            && StepTables(step) + left == unplaced && StepTables(step) !! left
            && MostConnectedSeed(unplaced, counts) in StepTables(step)
  {
    var seed := MostConnectedSeed(unplaced, counts);
    assert Elements([seed]) == {seed};
    if Fits(measure, [seed]) {
      GrowPartTables([seed], unplaced - {seed}, counts, measure);
      assert Elements([seed]) + (unplaced - {seed}) == unplaced;
    }
  }

  lemma FirstStepOk(unplaced: set<Name>, counts: Counts, measure: Measure)
    requires unplaced != {}
    ensures StepOk(FirstStep(unplaced, counts, measure).0, counts, measure)
  {
    var seed := MostConnectedSeed(unplaced, counts);
    SeedOfStep(unplaced, counts);
    if Fits(measure, [seed]) {
      GrownStepOk(seed, unplaced - {seed}, counts, measure);
    }
  }

  lemma GrownStepOk(seed: Name, rest: set<Name>, counts: Counts, measure: Measure)
    requires seed !in rest && SeedIsBest(seed, {seed} + rest, counts) && Fits(measure, [seed])
    ensures var (part, left) := GrowPart([seed], rest, counts, measure);
            StepOk(Grown(part, left), counts, measure)
  {
    assert Elements([seed]) == {seed};
    GrowPartTables([seed], rest, counts, measure);
    GrowPartFits([seed], rest, counts, measure);
    var (part, left) := GrowPart([seed], rest, counts, measure);
    SeedIsHeld(part, left, seed, rest, counts);
    SeedIsInOrder(seed, rest, counts, measure);
    GrowPartInOrder([seed], rest, counts, measure, [seed]);
  }

  lemma SeedIsHeld(part: seq<Name>, left: set<Name>, seed: Name, rest: set<Name>, counts: Counts)
    requires Elements(part) + left == {seed} + rest && seed in Elements(part) && SeedIsBest(seed, {seed} + rest, counts)
    ensures HoldsSeed(part, left, counts)
  {
  }

  lemma {:induction false} GrowPlaced(unplaced: set<Name>, counts: Counts, measure: Measure)
    ensures Placed(Grow(unplaced, counts, measure)) == multiset(unplaced)
    decreases |unplaced|
  {
    if unplaced != {} {
      var (step, left) := FirstStep(unplaced, counts, measure);
      FirstStepTables(unplaced, counts, measure);
      FirstStepOk(unplaced, counts, measure);
      StrictSubsetIsSmaller(left, unplaced);
      GrowPlaced(left, counts, measure);
      PlacedConcat([step], Grow(left, counts, measure));
      StepPlaced(step, counts, measure);
      UnionAsMultiset(StepTables(step), left);
    }
  }

  lemma StepPlaced(step: Step, counts: Counts, measure: Measure)
    requires StepOk(step, counts, measure)
    ensures Placed([step]) == multiset(StepTables(step))
  {
    PlacedOne(step);
    if !step.Refused? {
      IncreasingAsMultiset(step.part);
    }
  }

  lemma {:induction false} GrowStepsOk(unplaced: set<Name>, counts: Counts, measure: Measure)
    ensures forall step | step in Grow(unplaced, counts, measure) ::
              StepOk(step, counts, measure) && StepTables(step) <= unplaced && !step.Whole?
    decreases |unplaced|
  {
    if unplaced != {} {
      var (step, left) := FirstStep(unplaced, counts, measure);
      FirstStepTables(unplaced, counts, measure);
      FirstStepOk(unplaced, counts, measure);
      StrictSubsetIsSmaller(left, unplaced);
      GrowStepsOk(left, counts, measure);
    }
  }

  // ----- groups

  ghost function MembersOfAny(names: set<Name>, domains: Domains, domainNames: seq<Name>): set<Name> {
    set t | t in names && DomainIn(domains, t) in domainNames
  }

  lemma MembersSplit(names: set<Name>, domains: Domains, domainNames: seq<Name>)
    requires domainNames != [] && Distinct(domainNames)
    ensures MembersOfAny(names, domains, domainNames)
            == Members(names, domains, domainNames[0]) + MembersOfAny(names, domains, domainNames[1..])
    ensures Members(names, domains, domainNames[0]) !! MembersOfAny(names, domains, domainNames[1..])
  {
    assert forall d :: d in domainNames <==> d == domainNames[0] || d in domainNames[1..];
    assert domainNames[0] !in domainNames[1..];
  }

  lemma {:induction false} GroupListIsPartition(domainNames: seq<Name>, names: set<Name>, domains: Domains)
    requires Distinct(domainNames)
    ensures Flat(GroupList(domainNames, names, domains)) == multiset(MembersOfAny(names, domains, domainNames))
  {
    if domainNames == [] {
      assert MembersOfAny(names, domains, domainNames) == {};
    } else {
      var first, others := domainNames[0], domainNames[1..];
      GroupListIsPartition(others, names, domains);
      SortAsMultiset(Members(names, domains, first));
      MembersSplit(names, domains, domainNames);
      UnionAsMultiset(Members(names, domains, first), MembersOfAny(names, domains, others));
      FlatCons(Sort(Members(names, domains, first)), GroupList(others, names, domains));
    }
  }

  lemma OrderedDomainsAreTheKeys(keys: set<Name>)
    ensures Distinct(OrderedDomains(keys))
    ensures forall d :: d in OrderedDomains(keys) <==> d in keys
  {
    var named := Sort(keys - {""});
    IncreasingIsDistinct(named);
    assert forall d :: d in named <==> d in Elements(named);
  }

  lemma EveryTableIsMember(names: set<Name>, domains: Domains, domainNames: seq<Name>)
    requires forall d | d in DomainKeys(names, domains) :: d in domainNames
    ensures MembersOfAny(names, domains, domainNames) == names
  {
    forall t | t in names ensures DomainIn(domains, t) in domainNames {
      assert DomainIn(domains, t) in DomainKeys(names, domains);
    }
  }

  lemma GroupsArePartition(names: set<Name>, domains: Domains)
    ensures Flat(GroupsOf(names, domains)) == multiset(names)
  {
    var keys := DomainKeys(names, domains);
    OrderedDomainsAreTheKeys(keys);
    GroupListIsPartition(OrderedDomains(keys), names, domains);
    EveryTableIsMember(names, domains, OrderedDomains(keys));
  }

  // A group lies within one domain of its component.
  ghost predicate IsGroup(group: seq<Name>, names: set<Name>, domains: Domains) {
    group != [] && Increasing(group) && exists d :: Elements(group) == Members(names, domains, d)
  }

  lemma {:induction false} GroupListLaws(domainNames: seq<Name>, names: set<Name>, domains: Domains)
    requires forall d | d in domainNames :: d in DomainKeys(names, domains)
    ensures forall group | group in GroupList(domainNames, names, domains) :: IsGroup(group, names, domains)
  {
    if domainNames != [] {
      GroupListLaws(domainNames[1..], names, domains);
      var d := domainNames[0];
      assert d in domainNames;
      var t :| t in names && DomainIn(domains, t) == d;
      assert t in Members(names, domains, d);
    }
  }

  lemma GroupsLaws(names: set<Name>, domains: Domains)
    ensures forall group | group in GroupsOf(names, domains) :: IsGroup(group, names, domains)
  {
    var keys := DomainKeys(names, domains);
    OrderedDomainsAreTheKeys(keys);
    GroupListLaws(OrderedDomains(keys), names, domains);
  }

  // ----- the whole split

  lemma {:induction false} SplitGroupsLaws(groups: seq<seq<Name>>, names: set<Name>, domains: Domains, counts: Counts, measure: Measure)
    requires forall group | group in groups :: IsGroup(group, names, domains)
    ensures Placed(SplitGroups(groups, counts, measure)) == Flat(groups)
    ensures forall step | step in SplitGroups(groups, counts, measure) ::
              StepOk(step, counts, measure) && WithinOneDomain(step, names, domains)
  {
    if groups != [] {
      var group := groups[0];
      SplitGroupsLaws(groups[1..], names, domains, counts, measure);
      SplitGroupLaws(group, names, domains, counts, measure);
      PlacedConcat(SplitGroup(group, counts, measure), SplitGroups(groups[1..], counts, measure));
    }
  }

  ghost predicate WithinOneDomain(step: Step, names: set<Name>, domains: Domains) {
    exists d :: StepTables(step) <= Members(names, domains, d)
  }

  lemma SplitGroupLaws(group: seq<Name>, names: set<Name>, domains: Domains, counts: Counts, measure: Measure)
    requires IsGroup(group, names, domains)
    ensures Placed(SplitGroup(group, counts, measure)) == multiset(group)
    ensures forall step | step in SplitGroup(group, counts, measure) ::
              StepOk(step, counts, measure) && WithinOneDomain(step, names, domains)
  {
    PlacedOne(Whole(group));
    IncreasingAsMultiset(group);
    GrowPlaced(Elements(group), counts, measure);
    GrowStepsOk(Elements(group), counts, measure);
  }

  // A step draws one whole component, or stays within one domain of one component.
  ghost predicate Placement(step: Step, components: seq<seq<Name>>, domains: Domains) {
    exists c :: c in components && (step == Whole(c) || WithinOneDomain(step, Elements(c), domains))
  }

  lemma SplitComponentLaws(component: seq<Name>, domains: Domains, counts: Counts, measure: Measure)
    requires component != [] && Increasing(component)
    ensures Placed(SplitComponent(component, domains, counts, measure)) == multiset(component)
    ensures forall step | step in SplitComponent(component, domains, counts, measure) ::
              StepOk(step, counts, measure) && (step == Whole(component) || WithinOneDomain(step, Elements(component), domains))
  {
    var names := Elements(component);
    PlacedOne(Whole(component));
    IncreasingAsMultiset(component);
    GroupsArePartition(names, domains);
    GroupsLaws(names, domains);
    SplitGroupsLaws(GroupsOf(names, domains), names, domains, counts, measure);
  }

  ghost predicate Plain(lists: seq<seq<Name>>) {
    forall i | 0 <= i < |lists| :: lists[i] != [] && Increasing(lists[i])
  }

  lemma {:induction false} SplitPlacesComponents(components: seq<seq<Name>>, domains: Domains, counts: Counts, measure: Measure)
    requires Plain(components)
    ensures Placed(SplitComponents(components, domains, counts, measure)) == Flat(components)
  {
    if components != [] {
      SplitPlacesComponents(components[1..], domains, counts, measure);
      SplitComponentLaws(components[0], domains, counts, measure);
      PlacedConcat(SplitComponent(components[0], domains, counts, measure), SplitComponents(components[1..], domains, counts, measure));
    }
  }

  // Every step of the split comes from one component, and a component that fits is one step.
  lemma {:induction false} SplitStepsComeFrom(components: seq<seq<Name>>, domains: Domains, counts: Counts, measure: Measure, step: Step)
    requires step in SplitComponents(components, domains, counts, measure)
    ensures exists i :: 0 <= i < |components| && step in SplitComponent(components[i], domains, counts, measure)
  {
    if step in SplitComponent(components[0], domains, counts, measure) {
      assert step in SplitComponent(components[0], domains, counts, measure);
    } else {
      SplitStepsComeFrom(components[1..], domains, counts, measure, step);
      var i :| 0 <= i < |components[1..]| && step in SplitComponent(components[1..][i], domains, counts, measure);
      assert components[1..][i] == components[i + 1];
    }
  }

  lemma {:induction false} FittingComponentIsWhole(components: seq<seq<Name>>, domains: Domains, counts: Counts, measure: Measure, i: nat)
    requires i < |components| && Fits(measure, components[i])
    ensures Whole(components[i]) in SplitComponents(components, domains, counts, measure)
  {
    var first, others := SplitComponent(components[0], domains, counts, measure), SplitComponents(components[1..], domains, counts, measure);
    if i == 0 {
      assert first == [Whole(components[0])] && Whole(components[0]) in first;
    } else {
      FittingComponentIsWhole(components[1..], domains, counts, measure, i - 1);
      assert components[1..][i - 1] == components[i] && Whole(components[i]) in others;
    }
    assert forall step :: step in first + others <==> step in first || step in others;
  }

  lemma SplitStepsOk(components: seq<seq<Name>>, domains: Domains, counts: Counts, measure: Measure)
    requires Plain(components)
    ensures forall step | step in SplitComponents(components, domains, counts, measure) ::
              StepOk(step, counts, measure) && Placement(step, components, domains)
  {
    forall step | step in SplitComponents(components, domains, counts, measure)
      ensures StepOk(step, counts, measure) && Placement(step, components, domains)
    {
      SplitStepsComeFrom(components, domains, counts, measure, step);
      var i :| 0 <= i < |components| && step in SplitComponent(components[i], domains, counts, measure);
      SplitComponentLaws(components[i], domains, counts, measure);
      assert components[i] in components;
    }
  }

  lemma {:induction false} ComponentsArePartition(counts: Counts, unvisited: set<Name>)
    requires JoinedBothWays(counts) && unvisited <= counts.Keys && ClosedUnderLinks(counts, unvisited)
    ensures Flat(ComponentsOf(counts, unvisited)) == multiset(unvisited)
    decreases |unvisited|
  {
    if unvisited != {} {
      var reached := Reached(counts, Least(unvisited));
      FirstComponent(counts, unvisited);
      ComponentsArePartition(counts, unvisited - reached);
      SortAsMultiset(reached);
      PartitionAsMultiset(unvisited, reached);
      FlatCons(Sort(reached), ComponentsOf(counts, unvisited - reached));
    }
  }

  lemma ModelComponents(model: Model)
    requires EndsDeclared(model)
    ensures var counts := CountsOf(TableNames(model.tables), model.relations);
            var components := ComponentsOf(counts, counts.Keys);
            && JoinedBothWays(counts)
            && Plain(components)
            && Flat(components) == multiset(TableNames(model.tables))
            && (forall c | c in components :: LinkClass(counts, c))
  {
    var counts := CountsOf(TableNames(model.tables), model.relations);
    CountsAreSymmetric(TableNames(model.tables), model.relations);
    CollectedStart(counts);
    ComponentsArePartition(counts, counts.Keys);
    ComponentsAreLinkClasses(counts, counts.Keys);
    PlainClasses(counts, ComponentsOf(counts, counts.Keys));
  }

  lemma PlainClasses(counts: Counts, components: seq<seq<Name>>)
    requires forall c | c in components :: LinkClass(counts, c)
    ensures Plain(components)
  {
    assert forall i | 0 <= i < |components| :: LinkClass(counts, components[i]);
  }

  // ----- the tables left when a part was closed

  // A grown part or a table refused lies in one of the groups, and the tables left then are
  // all those of that group that later steps place.
  ghost predicate LeftInGroup(step: Step, later: seq<Step>, groups: set<set<Name>>) {
    !step.Whole? ==> exists group :: group in groups && StepTables(step) <= group && LeftOfGroup(step.left, group, later)
  }

  ghost predicate LeftOfGroup(left: set<Name>, group: set<Name>, later: seq<Step>) {
    forall t :: t in left <==> t in group && t in Placed(later)
  }

  ghost predicate AllLeftInGroups(steps: seq<Step>, groups: set<set<Name>>) {
    forall k | 0 <= k < |steps| :: LeftInGroup(steps[k], steps[k + 1..], groups)
  }

  // Later steps that place no table of the groups change nothing.
  lemma LeftConcat(a: seq<Step>, b: seq<Step>, groups: set<set<Name>>, others: set<set<Name>>)
    requires AllLeftInGroups(a, groups) && AllLeftInGroups(b, others)
    requires forall group, t | group in groups && t in group :: t !in Placed(b)
    ensures AllLeftInGroups(a + b, groups + others)
  {
    forall k | 0 <= k < |a + b| ensures LeftInGroup((a + b)[k], (a + b)[k + 1..], groups + others) {
      if k < |a| {
        assert LeftInGroup(a[k], a[k + 1..], groups);
        assert (a + b)[k + 1..] == a[k + 1..] + b;
        LeftThrough(a[k], a[k + 1..], b, groups, others);
      } else {
        assert (a + b)[k + 1..] == b[k - |a| + 1..];
        assert LeftInGroup(b[k - |a|], b[k - |a| + 1..], others);
      }
    }
  }

  lemma LeftThrough(step: Step, later: seq<Step>, b: seq<Step>, groups: set<set<Name>>, others: set<set<Name>>)
    requires LeftInGroup(step, later, groups) && forall group, t | group in groups && t in group :: t !in Placed(b)
    ensures LeftInGroup(step, later + b, groups + others)
  {
    if !step.Whole? {
      var group :| group in groups && StepTables(step) <= group && LeftOfGroup(step.left, group, later);
      PlacedConcat(later, b);
      assert LeftOfGroup(step.left, group, later + b);
    }
  }

  // Growing the unplaced tables of a group leaves what later steps of the growth place.
  lemma {:induction false} GrowLeavesInGroup(unplaced: set<Name>, group: set<Name>, counts: Counts, measure: Measure)
    requires unplaced <= group
    ensures AllLeftInGroups(Grow(unplaced, counts, measure), {group})
    decreases |unplaced|
  {
    if unplaced != {} {
      var (step, left) := FirstStep(unplaced, counts, measure);
      var later := Grow(left, counts, measure);
      FirstStepTables(unplaced, counts, measure);
      StrictSubsetIsSmaller(left, unplaced);
      GrowLeavesInGroup(left, group, counts, measure);
      GrowPlaced(left, counts, measure);
      assert LeftOfGroup(step.left, group, later);
      LeftInGroupCons(step, later, {group});
    }
  }

  lemma LeftInGroupCons(step: Step, later: seq<Step>, groups: set<set<Name>>)
    requires LeftInGroup(step, later, groups) && AllLeftInGroups(later, groups)
    ensures AllLeftInGroups([step] + later, groups)
  {
    var steps := [step] + later;
    forall k | 0 <= k < |steps| ensures LeftInGroup(steps[k], steps[k + 1..], groups) {
      if k == 0 {
        assert steps[1..] == later;
      } else {
        assert LeftInGroup(later[k - 1], later[k - 1 + 1..], groups);
        RestBehindFirst(step, later, k);
      }
    }
  }

  lemma RestBehindFirst(step: Step, later: seq<Step>, k: nat)
    requires 0 < k <= |later|
    ensures ([step] + later)[k] == later[k - 1] && ([step] + later)[k + 1..] == later[k - 1 + 1..]
  {
  }

  ghost function GroupSets(groups: seq<seq<Name>>): set<set<Name>> {
    if groups == [] then {} else {Elements(groups[0])} + GroupSets(groups[1..])
  }

  lemma SplitGroupLeaves(group: seq<Name>, counts: Counts, measure: Measure)
    ensures AllLeftInGroups(SplitGroup(group, counts, measure), {Elements(group)})
  {
    GrowLeavesInGroup(Elements(group), Elements(group), counts, measure);
  }

  lemma {:induction false} SplitGroupsLeave(groups: seq<seq<Name>>, names: set<Name>, domains: Domains, counts: Counts, measure: Measure)
    requires forall group | group in groups :: IsGroup(group, names, domains)
    requires forall t :: Flat(groups)[t] <= 1
    ensures AllLeftInGroups(SplitGroups(groups, counts, measure), GroupSets(groups))
  {
    if groups != [] {
      var first, others := SplitGroup(groups[0], counts, measure), SplitGroups(groups[1..], counts, measure);
      SplitGroupLeaves(groups[0], counts, measure);
      FlatRest(groups);
      SplitGroupsLeave(groups[1..], names, domains, counts, measure);
      SplitGroupsLaws(groups[1..], names, domains, counts, measure);
      LeftConcat(first, others, {Elements(groups[0])}, GroupSets(groups[1..]));
    }
  }

  lemma FlatRest(lists: seq<seq<Name>>)
    requires lists != [] && forall t :: Flat(lists)[t] <= 1
    ensures forall t :: Flat(lists[1..])[t] <= 1
    ensures forall t | t in Elements(lists[0]) :: t !in Flat(lists[1..])
  {
    forall t ensures Flat(lists[1..])[t] <= 1 && (t in Elements(lists[0]) ==> t !in Flat(lists[1..])) {
      assert Flat(lists)[t] == multiset(lists[0])[t] + Flat(lists[1..])[t];
      assert t in lists[0] ==> t in multiset(lists[0]);
    }
  }

  // The groups of all components.
  ghost function AllGroupSets(components: seq<seq<Name>>, domains: Domains): set<set<Name>> {
    if components == [] then {} else GroupSets(GroupsOf(Elements(components[0]), domains)) + AllGroupSets(components[1..], domains)
  }

  lemma {:induction false} GroupSetsAreInside(groups: seq<seq<Name>>, names: set<Name>, domains: Domains)
    requires forall group | group in groups :: IsGroup(group, names, domains)
    ensures forall group | group in GroupSets(groups) :: exists d :: group == Members(names, domains, d)
  {
    if groups != [] {
      GroupSetsAreInside(groups[1..], names, domains);
      assert IsGroup(groups[0], names, domains);
    }
  }

  lemma SplitComponentLeaves(component: seq<Name>, domains: Domains, counts: Counts, measure: Measure)
    ensures AllLeftInGroups(SplitComponent(component, domains, counts, measure), GroupSets(GroupsOf(Elements(component), domains)))
  {
    var groups := GroupsOf(Elements(component), domains);
    GroupsArePartition(Elements(component), domains);
    GroupsLaws(Elements(component), domains);
    SplitGroupsLeave(groups, Elements(component), domains, counts, measure);
  }

  lemma {:induction false} SplitComponentsLeave(components: seq<seq<Name>>, domains: Domains, counts: Counts, measure: Measure)
    requires Plain(components) && forall t :: Flat(components)[t] <= 1
    ensures AllLeftInGroups(SplitComponents(components, domains, counts, measure), AllGroupSets(components, domains))
  {
    if components != [] {
      var names := Elements(components[0]);
      var groups := GroupsOf(names, domains);
      SplitComponentLeaves(components[0], domains, counts, measure);
      FlatRest(components);
      SplitComponentsLeave(components[1..], domains, counts, measure);
      SplitPlacesComponents(components[1..], domains, counts, measure);
      GroupsLaws(names, domains);
      GroupSetsAreInside(groups, names, domains);
      LeftConcat(SplitComponent(components[0], domains, counts, measure), SplitComponents(components[1..], domains, counts, measure),
                 GroupSets(groups), AllGroupSets(components[1..], domains));
    }
  }

  // A group holds the tables of one domain in one component.
  lemma {:induction false} AllGroupsAreMembers(components: seq<seq<Name>>, domains: Domains)
    ensures forall group | group in AllGroupSets(components, domains) :: IsGroupOfOne(group, components, domains)
  {
    if components != [] {
      var names := Elements(components[0]);
      AllGroupsAreMembers(components[1..], domains);
      GroupsLaws(names, domains);
      GroupSetsAreInside(GroupsOf(names, domains), names, domains);
      forall group | group in AllGroupSets(components, domains) ensures IsGroupOfOne(group, components, domains) {
        if group in AllGroupSets(components[1..], domains) {
          var c, d :| c in components[1..] && group == Members(Elements(c), domains, d);
          assert c in components;
        } else {
          assert components[0] in components;
        }
      }
    }
  }

  ghost predicate IsGroupOfOne(group: set<Name>, components: seq<seq<Name>>, domains: Domains) {
    exists c, d :: c in components && group == Members(Elements(c), domains, d)
  }

  // The parts and the tables refused alone hold every table of the model exactly once;
  // every part fits and every refused table fails alone, with the problems the measure
  // gave; a component that fits is drawn whole; every other part stays within one domain
  // of one component; and a grown part was closed by its best candidate not fitting, among
  // all tables of its domain and component that later steps place.
  lemma SplitIsSound(model: Model, measure: Measure)
    requires EndsDeclared(model)
    ensures var counts := CountsOf(TableNames(model.tables), model.relations);
            var components := ComponentsOf(counts, counts.Keys);
            var steps := SplitSteps(model, measure);
            && Placed(steps) == multiset(TableNames(model.tables))
            && (forall step | step in steps :: StepOk(step, counts, measure) && Placement(step, components, DomainsOf(model.tables)))
            && (forall i | 0 <= i < |components| && Fits(measure, components[i]) :: Whole(components[i]) in steps)
            && AllLeftInGroups(steps, AllGroupSets(components, DomainsOf(model.tables)))
            && (forall group | group in AllGroupSets(components, DomainsOf(model.tables)) ::
                  IsGroupOfOne(group, components, DomainsOf(model.tables)))
  {
    ModelComponents(model);
    var counts := CountsOf(TableNames(model.tables), model.relations);
    var components, domains := ComponentsOf(counts, counts.Keys), DomainsOf(model.tables);
    SplitPlacesComponents(components, domains, counts, measure);
    SplitStepsOk(components, domains, counts, measure);
    SplitComponentsLeave(components, domains, counts, measure);
    AllGroupsAreMembers(components, domains);
    forall i | 0 <= i < |components| && Fits(measure, components[i]) ensures Whole(components[i]) in SplitSteps(model, measure) {
      FittingComponentIsWhole(components, domains, counts, measure, i);
    }
  }
}
