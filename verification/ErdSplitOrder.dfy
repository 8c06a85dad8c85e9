/** The split does not depend on the order in which the schema lists its tables and
    relations. */
module ErdSplitOrder {
  import opened Names
  import opened ErdTypes
  import opened ErdComponents
  import opened ErdGrowth
  import opened ErdSplitLaws

  lemma {:induction false} LinkCountDropsOne(relations: seq<Relation>, k: nat, a: Name, b: Name)
    requires k < |relations|
    ensures LinkCount(relations, a, b) == LinkCount(relations[..k] + relations[k + 1..], a, b) + Links(relations[k], a, b)
  {
    var last := |relations| - 1;
    var without := relations[..k] + relations[k + 1..];
    if k < last {
      LinkCountDropsOne(relations[..last], k, a, b);
      assert relations[..last][..k] + relations[..last][k + 1..] == without[..last - 1];
      assert without[last - 1] == relations[last];
    } else {
      assert without == relations[..last];
    }
  }

  lemma {:induction false} LinkCountIgnoresOrder(one: seq<Relation>, other: seq<Relation>, a: Name, b: Name)
    requires multiset(one) == multiset(other)
    ensures LinkCount(one, a, b) == LinkCount(other, a, b)
    decreases |one|
  {
    if one == [] {
      assert |other| == |multiset(other)| == 0;
    } else {
      var last := |one| - 1;
      DropIsDifference(one, last);
      assert one[..last] + one[last + 1..] == one[..last];
      assert one[last] in multiset(other);
      var k :| 0 <= k < |other| && other[k] == one[last];
      DropIsDifference(other, k);
      LinkCountIgnoresOrder(one[..last], other[..k] + other[k + 1..], a, b);
      LinkCountDropsOne(other, k, a, b);
    }
  }

  lemma DropIsDifference(relations: seq<Relation>, k: nat)
    requires k < |relations|
    ensures multiset(relations[..k] + relations[k + 1..]) == multiset(relations) - multiset{relations[k]}
  {
    assert relations == relations[..k] + [relations[k]] + relations[k + 1..];
  }

  lemma CountsIgnoreOrder(names: set<Name>, one: seq<Relation>, other: seq<Relation>)
    requires multiset(one) == multiset(other)
    requires EndsAmong(names, one) && EndsAmong(names, other)
    ensures CountsOf(names, one) == CountsOf(names, other)
  {
    forall a | a in names ensures CountsOf(names, one)[a] == CountsOf(names, other)[a] {
      RowIgnoresOrder(names, one, other, a);
    }
  }

  lemma RowIgnoresOrder(names: set<Name>, one: seq<Relation>, other: seq<Relation>, a: Name)
    requires multiset(one) == multiset(other) && a in names
    requires EndsAmong(names, one) && EndsAmong(names, other)
    ensures CountsOf(names, one)[a] == CountsOf(names, other)[a]
  {
    var r1, r2 := CountsOf(names, one)[a], CountsOf(names, other)[a];
    forall b ensures (b in r1 <==> b in r2) && CountAt(CountsOf(names, one), a, b) == CountAt(CountsOf(names, other), a, b) {
      CountsAreLinkCounts(names, one, a, b);
      CountsAreLinkCounts(names, other, a, b);
      LinkCountIgnoresOrder(one, other, a, b);
    }
  }

  // The domain of each table, whatever place the table has in the list.
  lemma {:induction false} DomainsHold(tables: seq<Table>, t: Name)
    requires DistinctTables(tables)
    ensures t in DomainsOf(tables) <==> t in TableNames(tables)
    ensures forall table | table in tables && table.name == t :: t in DomainsOf(tables) && DomainsOf(tables)[t] == DomainKey(table.domain)
  {
    if tables != [] {
      var last := |tables| - 1;
      assert tables == tables[..last] + [tables[last]];
      DomainsHold(tables[..last], t);
      assert TableNames(tables) == TableNames(tables[..last]) + {tables[last].name} by {
        assert forall i | 0 <= i < last :: tables[i] == tables[..last][i];
      }
    }
  }

  lemma DomainsIgnoreOrder(one: seq<Table>, other: seq<Table>)
    requires multiset(one) == multiset(other) && DistinctTables(one) && DistinctTables(other)
    ensures TableNames(one) == TableNames(other) && DomainsOf(one) == DomainsOf(other)
  {
    assert forall table :: table in one <==> table in multiset(one);
    assert forall table :: table in other <==> table in multiset(other);
    SameTablesSameNames(one, other);
    forall t ensures (t in DomainsOf(one) <==> t in DomainsOf(other)) && (t in DomainsOf(one) ==> DomainsOf(one)[t] == DomainsOf(other)[t]) {
      DomainsHold(one, t);
      DomainsHold(other, t);
      if t in DomainsOf(one) {
        var i :| 0 <= i < |one| && one[i].name == t;
        assert one[i] in one && one[i] in other;
      }
    }
  }

  lemma SameTablesSameNames(one: seq<Table>, other: seq<Table>)
    requires forall table :: table in one <==> table in other
    ensures TableNames(one) == TableNames(other)
  {
    forall t | t in TableNames(one) ensures t in TableNames(other) {
      var i :| 0 <= i < |one| && one[i].name == t;
      assert one[i] in other;
    }
    forall t | t in TableNames(other) ensures t in TableNames(one) {
      var i :| 0 <= i < |other| && other[i].name == t;
      assert other[i] in one;
    }
  }

  // Two models with the same tables and the same relations, listed in any order, are
  // split into the same parts in the same order, with the same tables refused.
  lemma SplitIgnoresOrder(one: Model, other: Model, measure: Measure)
    requires multiset(one.tables) == multiset(other.tables) && multiset(one.relations) == multiset(other.relations)
    requires DistinctTables(one.tables) && DistinctTables(other.tables)
    requires EndsDeclared(one)
    ensures EndsDeclared(other) && SplitSteps(one, measure) == SplitSteps(other, measure)
  {
    DomainsIgnoreOrder(one.tables, other.tables);
    forall r | r in other.relations ensures r in one.relations {
      assert r in multiset(other.relations);
    }
    CountsIgnoreOrder(TableNames(one.tables), one.relations, other.relations);
  }

  // ----- only the lists asked about matter

  // Two measures that answer alike on all lists of the names.
  ghost predicate AnswerAlike(f: Measure, g: Measure, names: set<Name>) {
    forall list: seq<Name> | Elements(list) <= names :: f(list) == g(list)
  }

  lemma {:induction false} GrowPartAlike(part: seq<Name>, unplaced: set<Name>, counts: Counts, f: Measure, g: Measure, names: set<Name>)
    requires AnswerAlike(f, g, names) && Elements(part) + unplaced <= names
    ensures GrowPart(part, unplaced, counts, f) == GrowPart(part, unplaced, counts, g)
    decreases |unplaced|
  {
    if unplaced != {} {
      var candidate := NextCandidate(part, unplaced, counts);
      var grown := Sort(Elements(part) + {candidate});
      assert f(grown) == g(grown);
      GrowPartAlike(grown, unplaced - {candidate}, counts, f, g, names);
    }
  }

  lemma FirstStepAlike(unplaced: set<Name>, counts: Counts, f: Measure, g: Measure, names: set<Name>)
    requires AnswerAlike(f, g, names) && unplaced != {} && unplaced <= names
    ensures FirstStep(unplaced, counts, f) == FirstStep(unplaced, counts, g)
  {
    var seed := MostConnectedSeed(unplaced, counts);
    assert Elements([seed]) == {seed};
    assert f([seed]) == g([seed]);
    GrowPartAlike([seed], unplaced - {seed}, counts, f, g, names);
  }

  lemma {:induction false} GrowAlike(unplaced: set<Name>, counts: Counts, f: Measure, g: Measure, names: set<Name>)
    requires AnswerAlike(f, g, names) && unplaced <= names
    ensures Grow(unplaced, counts, f) == Grow(unplaced, counts, g)
    decreases |unplaced|
  {
    if unplaced != {} {
      var first := FirstStep(unplaced, counts, f);
      FirstStepAlike(unplaced, counts, f, g, names);
      StrictSubsetIsSmaller(first.1, unplaced);
      GrowAlike(first.1, counts, f, g, names);
    }
  }

  lemma {:induction false} SplitGroupsAlike(groups: seq<seq<Name>>, counts: Counts, f: Measure, g: Measure, names: set<Name>)
    requires AnswerAlike(f, g, names) && forall group | group in groups :: Elements(group) <= names
    ensures SplitGroups(groups, counts, f) == SplitGroups(groups, counts, g)
  {
    if groups != [] {
      assert groups[0] in groups;
      assert f(groups[0]) == g(groups[0]);
      GrowAlike(Elements(groups[0]), counts, f, g, names);
      SplitGroupsAlike(groups[1..], counts, f, g, names);
    }
  }

  lemma SplitComponentAlike(component: seq<Name>, domains: Domains, counts: Counts, f: Measure, g: Measure)
    requires AnswerAlike(f, g, Elements(component))
    ensures SplitComponent(component, domains, counts, f) == SplitComponent(component, domains, counts, g)
  {
    var names := Elements(component);
    assert f(component) == g(component);
    GroupsLaws(names, domains);
    forall group | group in GroupsOf(names, domains) ensures Elements(group) <= names {
      assert IsGroup(group, names, domains);
    }
    SplitGroupsAlike(GroupsOf(names, domains), counts, f, g, names);
  }

  // Measures that answer alike within every component split alike.
  lemma {:induction false} SplitAlike(components: seq<seq<Name>>, domains: Domains, counts: Counts, f: Measure, g: Measure)
    requires forall c | c in components :: AnswerAlike(f, g, Elements(c))
    ensures SplitComponents(components, domains, counts, f) == SplitComponents(components, domains, counts, g)
  {
    if components != [] {
      assert components[0] in components;
      SplitComponentAlike(components[0], domains, counts, f, g);
      SplitAlike(components[1..], domains, counts, f, g);
    }
  }

  // The tables linked with one another.
  ghost function ComponentsIn(model: Model): seq<seq<Name>>
    requires EndsDeclared(model)
  {
    var counts := CountsOf(TableNames(model.tables), model.relations);
    ComponentsOf(counts, counts.Keys)
  }

  lemma StepsAlike(model: Model, f: Measure, g: Measure)
    requires EndsDeclared(model) && forall c | c in ComponentsIn(model) :: AnswerAlike(f, g, Elements(c))
    ensures SplitSteps(model, f) == SplitSteps(model, g)
  {
    SplitAlike(ComponentsIn(model), DomainsOf(model.tables), CountsOf(TableNames(model.tables), model.relations), f, g);
  }

  // The same tables and the same relations, listed in any order.
  ghost predicate Reorders(one: Model, other: Model) {
    multiset(one.tables) == multiset(other.tables) && multiset(one.relations) == multiset(other.relations)
  }

  lemma ReorderedIsDeclared(one: Model, other: Model)
    requires Reorders(one, other) && EndsDeclared(one)
    ensures EndsDeclared(other) && TableNames(one.tables) == TableNames(other.tables)
  {
    forall table ensures table in one.tables <==> table in other.tables {
      SameMembers(one.tables, other.tables, table);
    }
    SameTablesSameNames(one.tables, other.tables);
    forall r | r in other.relations ensures r in one.relations {
      SameMembers(one.relations, other.relations, r);
    }
  }

  lemma ComponentsIgnoreOrder(one: Model, other: Model)
    requires Reorders(one, other) && EndsDeclared(one)
    ensures EndsDeclared(other) && ComponentsIn(one) == ComponentsIn(other)
  {
    ReorderedIsDeclared(one, other);
    CountsIgnoreOrder(TableNames(one.tables), one.relations, other.relations);
  }
}
