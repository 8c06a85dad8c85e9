/** What the split makes of the domains that the tables themselves declare. */
module ErdDomains {
  import opened Optional
  import opened Names
  import opened ErdTypes
  import opened ErdComponents
  import opened ErdGrowth
  import opened ErdSplitLaws
  import opened ErdSplitOrder

  // A table without a domain, or with the empty one, belongs to no domain.
  predicate InNoDomain(table: Table) {
    table.domain == None || table.domain == Some("")
  }

  predicate SameDomain(a: Table, b: Table) {
    a.domain == b.domain || (InNoDomain(a) && InNoDomain(b))
  }

  // Domains come by name, the tables of no domain last.
  predicate DomainBefore(a: Table, b: Table) {
    !InNoDomain(a) && (InNoDomain(b) || Less(a.domain.value, b.domain.value))
  }

  // The tables of a component in the domain of a given table.
  function DomainMates(tables: seq<Table>, component: set<Name>, a: Table): set<Name> {
    set b | b in tables && b.name in component && SameDomain(a, b) :: b.name
  }

  lemma DomainsTell(tables: seq<Table>, a: Table, b: Table)
    requires DistinctTables(tables) && a in tables && b in tables
    ensures var domains := DomainsOf(tables);
            && (DomainIn(domains, a.name) == DomainIn(domains, b.name) <==> SameDomain(a, b))
            && (KeyBefore(DomainIn(domains, a.name), DomainIn(domains, b.name)) <==> DomainBefore(a, b))
  {
    DomainsHold(tables, a.name);
    DomainsHold(tables, b.name);
  }

  lemma MatesAreMembers(tables: seq<Table>, component: set<Name>, a: Table)
    requires DistinctTables(tables) && a in tables && component <= TableNames(tables)
    ensures DomainMates(tables, component, a) == Members(component, DomainsOf(tables), DomainIn(DomainsOf(tables), a.name))
  {
    var domains := DomainsOf(tables);
    forall t ensures t in DomainMates(tables, component, a) <==> t in Members(component, domains, DomainIn(domains, a.name)) {
      if t in component {
        var i :| 0 <= i < |tables| && tables[i].name == t;
        DomainsTell(tables, a, tables[i]);
        forall b | b in tables && b.name == t ensures b == tables[i] {
          NameTellsTable(tables, b, tables[i]);
        }
      }
    }
  }

  lemma NameTellsTable(tables: seq<Table>, a: Table, b: Table)
    requires DistinctTables(tables) && a in tables && b in tables && a.name == b.name
    ensures a == b
  {
  }

  // ----- one part for each domain that fits

  lemma {:induction false} GroupIsListed(domainNames: seq<Name>, names: set<Name>, domains: Domains, d: Name)
    requires d in domainNames
    ensures Sort(Members(names, domains, d)) in GroupList(domainNames, names, domains)
  {
    if d != domainNames[0] {
      GroupIsListed(domainNames[1..], names, domains, d);
    }
  }

  lemma {:induction false} FittingGroupIsWhole(groups: seq<seq<Name>>, counts: Counts, measure: Measure, group: seq<Name>)
    requires group in groups && Fits(measure, group)
    ensures Whole(group) in SplitGroups(groups, counts, measure)
  {
    if group == groups[0] {
      assert [Whole(group)][0] == Whole(group);
    } else {
      FittingGroupIsWhole(groups[1..], counts, measure, group);
    }
  }

  lemma FittingDomainIsWhole(component: seq<Name>, domains: Domains, counts: Counts, measure: Measure, t: Name)
    requires t in component && !Fits(measure, component)
    requires Fits(measure, Sort(Members(Elements(component), domains, DomainIn(domains, t))))
    ensures Whole(Sort(Members(Elements(component), domains, DomainIn(domains, t)))) in SplitComponent(component, domains, counts, measure)
  {
    var names, d := Elements(component), DomainIn(domains, t);
    assert t in names && d in DomainKeys(names, domains);
    OrderedDomainsAreTheKeys(DomainKeys(names, domains));
    GroupIsListed(OrderedDomains(DomainKeys(names, domains)), names, domains, d);
    FittingGroupIsWhole(GroupsOf(names, domains), counts, measure, Sort(Members(names, domains, d)));
  }

  lemma {:induction false} StepOfComponent(components: seq<seq<Name>>, domains: Domains, counts: Counts, measure: Measure, i: nat, step: Step)
    requires i < |components| && step in SplitComponent(components[i], domains, counts, measure)
    ensures step in SplitComponents(components, domains, counts, measure)
  {
    var first, others := SplitComponent(components[0], domains, counts, measure), SplitComponents(components[1..], domains, counts, measure);
    if i > 0 {
      assert components[1..][i - 1] == components[i];
      StepOfComponent(components[1..], domains, counts, measure, i - 1, step);
    }
    assert step in first || step in others;
    assert SplitComponents(components, domains, counts, measure) == first + others;
  }

  // ----- the order of the steps

  predicate KeyBefore(d: Name, e: Name) {
    d != "" && (e == "" || Less(d, e))
  }

  ghost predicate KeysAscend(domainNames: seq<Name>) {
    forall i, j | 0 <= i < j < |domainNames| :: KeyBefore(domainNames[i], domainNames[j])
  }

  lemma OrderedDomainsAscend(keys: set<Name>)
    ensures KeysAscend(OrderedDomains(keys))
  {
    var named := Sort(keys - {""});
    assert forall i | 0 <= i < |named| :: named[i] in Elements(named) && named[i] != "";
  }

  // Tables of the first step lie in the domain of those of the second, or in one before it.
  ghost predicate InDomainOrder(first: Step, second: Step, domains: Domains) {
    forall x, y | x in StepTables(first) && y in StepTables(second) ::
      DomainIn(domains, x) == DomainIn(domains, y) || KeyBefore(DomainIn(domains, x), DomainIn(domains, y))
  }

  ghost predicate AllInDomainOrder(steps: seq<Step>, domains: Domains) {
    forall k, l | 0 <= k < l < |steps| :: InDomainOrder(steps[k], steps[l], domains)
  }

  lemma DomainOrderConcat(a: seq<Step>, b: seq<Step>, domains: Domains)
    requires AllInDomainOrder(a, domains) && AllInDomainOrder(b, domains)
    requires forall s, t | s in a && t in b :: InDomainOrder(s, t, domains)
    ensures AllInDomainOrder(a + b, domains)
  {
    var steps := a + b;
    forall k, l | 0 <= k < l < |steps| ensures InDomainOrder(steps[k], steps[l], domains) {
      if k < |a| && |a| <= l {
        assert steps[k] in a && steps[l] in b;
      }
    }
  }

  // All steps of one group lie in its domain.
  lemma GroupStepsAreMembers(group: seq<Name>, counts: Counts, measure: Measure)
    ensures forall step | step in SplitGroup(group, counts, measure) :: StepTables(step) <= Elements(group)
  {
    GrowStepsOk(Elements(group), counts, measure);
  }

  ghost predicate AllInDomains(steps: seq<Step>, domains: Domains, domainNames: seq<Name>) {
    forall step, t | step in steps && t in StepTables(step) :: DomainIn(domains, t) in domainNames
  }

  lemma DomainsConcat(a: seq<Step>, b: seq<Step>, domains: Domains, d: Name, rest: seq<Name>)
    requires AllInDomainOrder(a, domains) && AllInDomainOrder(b, domains)
    requires AllInDomains(a, domains, [d]) && AllInDomains(b, domains, rest) && KeysAscend([d] + rest)
    ensures AllInDomainOrder(a + b, domains) && AllInDomains(a + b, domains, [d] + rest)
  {
    forall s, t | s in a && t in b ensures InDomainOrder(s, t, domains) {
      forall x, y | x in StepTables(s) && y in StepTables(t) ensures KeyBefore(DomainIn(domains, x), DomainIn(domains, y)) {
        var j :| 0 <= j < |rest| && rest[j] == DomainIn(domains, y);
        assert DomainIn(domains, x) == d && ([d] + rest)[0] == d && ([d] + rest)[j + 1] == rest[j];
      }
    }
    DomainOrderConcat(a, b, domains);
  }

  lemma OneGroupInOrder(d: Name, names: set<Name>, domains: Domains, counts: Counts, measure: Measure)
    ensures AllInDomains(SplitGroup(Sort(Members(names, domains, d)), counts, measure), domains, [d])
    ensures AllInDomainOrder(SplitGroup(Sort(Members(names, domains, d)), counts, measure), domains)
  {
    GroupStepsAreMembers(Sort(Members(names, domains, d)), counts, measure);
  }

  lemma KeysAscendRest(domainNames: seq<Name>)
    requires domainNames != [] && KeysAscend(domainNames)
    ensures KeysAscend(domainNames[1..]) && [domainNames[0]] + domainNames[1..] == domainNames
  {
  }

  lemma GroupListCons(d: Name, rest: seq<Name>, names: set<Name>, domains: Domains, counts: Counts, measure: Measure)
    ensures SplitGroups(GroupList([d] + rest, names, domains), counts, measure)
            == SplitGroup(Sort(Members(names, domains, d)), counts, measure) + SplitGroups(GroupList(rest, names, domains), counts, measure)
  {
    assert ([d] + rest)[1..] == rest;
    var group := Sort(Members(names, domains, d));
    assert ([group] + GroupList(rest, names, domains))[1..] == GroupList(rest, names, domains);
  }

  lemma {:induction false} GroupStepsInOrder(domainNames: seq<Name>, names: set<Name>, domains: Domains, counts: Counts, measure: Measure)
    requires KeysAscend(domainNames)
    ensures AllInDomainOrder(SplitGroups(GroupList(domainNames, names, domains), counts, measure), domains)
    ensures AllInDomains(SplitGroups(GroupList(domainNames, names, domains), counts, measure), domains, domainNames)
  {
    if domainNames != [] {
      var d, rest := domainNames[0], domainNames[1..];
      KeysAscendRest(domainNames);
      GroupStepsInOrder(rest, names, domains, counts, measure);
      OneGroupInOrder(d, names, domains, counts, measure);
      GroupListCons(d, rest, names, domains, counts, measure);
      DomainsConcat(SplitGroup(Sort(Members(names, domains, d)), counts, measure), SplitGroups(GroupList(rest, names, domains), counts, measure),
                    domains, d, rest);
    }
  }

  lemma ComponentInDomainOrder(component: seq<Name>, domains: Domains, counts: Counts, measure: Measure)
    ensures AllInDomainOrder(SplitComponent(component, domains, counts, measure), domains)
  {
    var keys := DomainKeys(Elements(component), domains);
    OrderedDomainsAscend(keys);
    GroupStepsInOrder(OrderedDomains(keys), Elements(component), domains, counts, measure);
  }

  // Two steps in the order of their components, or in that of their domains.
  ghost predicate InOrder(first: Step, second: Step, components: seq<seq<Name>>, domains: Domains) {
    exists i, j :: 0 <= i <= j < |components|
      && StepTables(first) <= Elements(components[i]) && StepTables(second) <= Elements(components[j])
      && (i < j || InDomainOrder(first, second, domains))
  }

  ghost predicate AllInOrder(steps: seq<Step>, components: seq<seq<Name>>, domains: Domains) {
    forall k, l | 0 <= k < l < |steps| :: InOrder(steps[k], steps[l], components, domains)
  }

  lemma InOrderBehind(first: Step, second: Step, component: seq<Name>, others: seq<seq<Name>>, domains: Domains)
    requires InOrder(first, second, others, domains)
    ensures InOrder(first, second, [component] + others, domains)
  {
    var i, j :| 0 <= i <= j < |others|
      && StepTables(first) <= Elements(others[i]) && StepTables(second) <= Elements(others[j])
      && (i < j || InDomainOrder(first, second, domains));
    var all := [component] + others;
    assert all[i + 1] == others[i] && all[j + 1] == others[j];
  }

  ghost predicate InSomeOf(step: Step, components: seq<seq<Name>>) {
    exists i :: 0 <= i < |components| && StepTables(step) <= Elements(components[i])
  }

  lemma OrderConcat(a: seq<Step>, b: seq<Step>, component: seq<Name>, others: seq<seq<Name>>, domains: Domains)
    requires AllInDomainOrder(a, domains) && forall s | s in a :: StepTables(s) <= Elements(component)
    requires AllInOrder(b, others, domains) && forall s | s in b :: InSomeOf(s, others)
    ensures AllInOrder(a + b, [component] + others, domains)
  {
    var steps, all := a + b, [component] + others;
    forall k, l | 0 <= k < l < |steps| ensures InOrder(steps[k], steps[l], all, domains) {
      assert all[0] == component;
      if l < |a| {
        assert InDomainOrder(a[k], a[l], domains) && a[k] in a && a[l] in a;
      } else if k < |a| {
        assert steps[k] in a && steps[l] in b;
        var j :| 0 <= j < |others| && StepTables(steps[l]) <= Elements(others[j]);
        assert all[j + 1] == others[j];
      } else {
        assert InOrder(b[k - |a|], b[l - |a|], others, domains);
        InOrderBehind(steps[k], steps[l], component, others, domains);
      }
    }
  }

  lemma ComponentStepsInside(component: seq<Name>, domains: Domains, counts: Counts, measure: Measure)
    requires component != [] && Increasing(component)
    ensures forall step | step in SplitComponent(component, domains, counts, measure) :: StepTables(step) <= Elements(component)
  {
    SplitComponentLaws(component, domains, counts, measure);
  }

  lemma {:induction false} SplitInOrder(components: seq<seq<Name>>, domains: Domains, counts: Counts, measure: Measure)
    requires Plain(components)
    ensures AllInOrder(SplitComponents(components, domains, counts, measure), components, domains)
  {
    if components != [] {
      var others := components[1..];
      SplitInOrder(others, domains, counts, measure);
      ComponentInDomainOrder(components[0], domains, counts, measure);
      ComponentStepsInside(components[0], domains, counts, measure);
      forall step | step in SplitComponents(others, domains, counts, measure) ensures InSomeOf(step, others) {
        SplitStepsComeFrom(others, domains, counts, measure, step);
        var i :| 0 <= i < |others| && step in SplitComponent(others[i], domains, counts, measure);
        ComponentStepsInside(others[i], domains, counts, measure);
      }
      assert [components[0]] + others == components;
      OrderConcat(SplitComponent(components[0], domains, counts, measure), SplitComponents(others, domains, counts, measure),
                  components[0], others, domains);
    }
  }

  // ----- in terms of the tables

  ghost predicate OneDomain(step: Step, tables: seq<Table>) {
    forall a, b | a in tables && b in tables && a.name in StepTables(step) && b.name in StepTables(step) :: SameDomain(a, b)
  }

  // The tables of a component that share the domain of one of them are one part exactly
  // when they fit together.
  ghost predicate DomainsAreWhole(steps: seq<Step>, component: seq<Name>, tables: seq<Table>, measure: Measure) {
    forall a | a in tables && a.name in component ::
      var mates := Sort(DomainMates(tables, Elements(component), a));
      Whole(mates) in steps <==> Fits(measure, mates)
  }

  // Earlier steps hold an earlier component, or tables of the same component whose domain
  // is the same or comes before.
  ghost predicate StepOrder(first: Step, second: Step, components: seq<seq<Name>>, tables: seq<Table>) {
    exists i, j :: 0 <= i <= j < |components|
      && StepTables(first) <= Elements(components[i]) && StepTables(second) <= Elements(components[j])
      && (i < j || forall a, b | a in tables && b in tables && a.name in StepTables(first) && b.name in StepTables(second) ::
                     SameDomain(a, b) || DomainBefore(a, b))
  }

  lemma StepOrderHolds(first: Step, second: Step, components: seq<seq<Name>>, tables: seq<Table>)
    requires DistinctTables(tables) && InOrder(first, second, components, DomainsOf(tables))
    ensures StepOrder(first, second, components, tables)
  {
    var domains := DomainsOf(tables);
    var i, j :| 0 <= i <= j < |components|
      && StepTables(first) <= Elements(components[i]) && StepTables(second) <= Elements(components[j])
      && (i < j || InDomainOrder(first, second, domains));
    if i == j {
      forall a, b | a in tables && b in tables && a.name in StepTables(first) && b.name in StepTables(second)
        ensures SameDomain(a, b) || DomainBefore(a, b)
      {
        DomainsTell(tables, a, b);
      }
    }
  }

  lemma PlacedInOneDomain(step: Step, components: seq<seq<Name>>, tables: seq<Table>)
    requires DistinctTables(tables) && Placement(step, components, DomainsOf(tables))
    ensures (exists c :: c in components && step == Whole(c)) || OneDomain(step, tables)
  {
    var domains := DomainsOf(tables);
    var c :| c in components && (step == Whole(c) || WithinOneDomain(step, Elements(c), domains));
    if step != Whole(c) {
      var d :| StepTables(step) <= Members(Elements(c), domains, d);
      forall a, b | a in tables && b in tables && a.name in StepTables(step) && b.name in StepTables(step) ensures SameDomain(a, b) {
        DomainsTell(tables, a, b);
      }
    }
  }

  lemma DomainsWholeIn(component: seq<Name>, tables: seq<Table>, components: seq<seq<Name>>, counts: Counts, measure: Measure, i: nat)
    requires DistinctTables(tables) && Plain(components) && i < |components| && component == components[i]
    requires Elements(component) <= TableNames(tables) && !Fits(measure, component)
    ensures DomainsAreWhole(SplitComponents(components, DomainsOf(tables), counts, measure), component, tables, measure)
  {
    var domains := DomainsOf(tables);
    var steps := SplitComponents(components, domains, counts, measure);
    SplitStepsOk(components, domains, counts, measure);
    forall a | a in tables && a.name in component
      ensures var mates := Sort(DomainMates(tables, Elements(component), a));
              Whole(mates) in steps <==> Fits(measure, mates)
    {
      var mates := Sort(DomainMates(tables, Elements(component), a));
      MatesAreMembers(tables, Elements(component), a);
      if Fits(measure, mates) {
        FittingDomainIsWhole(component, domains, counts, measure, a.name);
        StepOfComponent(components, domains, counts, measure, i, Whole(mates));
      }
      assert Whole(mates) in steps ==> StepOk(Whole(mates), counts, measure);
    }
  }

  // A step that is no whole component holds tables of one domain only; where a component
  // does not fit, the tables of each of its domains are one part exactly when they fit
  // together; and the steps come by component and then by domain, no domain last.
  lemma SplitKeepsDomains(model: Model, measure: Measure)
    requires EndsDeclared(model) && DistinctTables(model.tables)
    ensures var counts := CountsOf(TableNames(model.tables), model.relations);
            var components := ComponentsOf(counts, counts.Keys);
            var steps := SplitSteps(model, measure);
            && (forall step | step in steps :: (exists c :: c in components && step == Whole(c)) || OneDomain(step, model.tables))
            && (forall c | c in components && !Fits(measure, c) :: DomainsAreWhole(steps, c, model.tables, measure))
            && (forall k, l | 0 <= k < l < |steps| :: StepOrder(steps[k], steps[l], components, model.tables))
            && ByLeastName(components)
  {
    ModelComponents(model);
    var counts := CountsOf(TableNames(model.tables), model.relations);
    var components, domains := ComponentsOf(counts, counts.Keys), DomainsOf(model.tables);
    var steps := SplitSteps(model, measure);
    CountsAreSymmetric(TableNames(model.tables), model.relations);
    CollectedStart(counts);
    ComponentsAreLinkClasses(counts, counts.Keys);
    SplitStepsOk(components, domains, counts, measure);
    SplitInOrder(components, domains, counts, measure);
    forall step | step in steps ensures (exists c :: c in components && step == Whole(c)) || OneDomain(step, model.tables) {
      PlacedInOneDomain(step, components, model.tables);
    }
    forall c | c in components && !Fits(measure, c) ensures DomainsAreWhole(steps, c, model.tables, measure) {
      var i: nat :| i < |components| && components[i] == c;
      assert Elements(c) <= counts.Keys;
      DomainsWholeIn(c, model.tables, components, counts, measure, i);
    }
    forall k, l | 0 <= k < l < |steps| ensures StepOrder(steps[k], steps[l], components, model.tables) {
      assert InOrder(steps[k], steps[l], components, domains);
      StepOrderHolds(steps[k], steps[l], components, model.tables);
    }
  }
}
