/** figura/scripts/erd-split.mjs: the splitter itself. Its closures share three lists and
    a memo table; here they are the fields of one object. */
module ErdSplit {
  import opened Names
  import opened ErdTypes
  import opened ErdComponents
  import opened ErdGrowth
  import opened ErdSplitLaws

  const NEWLINE: char := '\n'

  // `tableNames.join('\n')`, the key of the memo table.
  function Join(names: seq<Name>): string {
    if names == [] then ""
    else if |names| == 1 then names[0]
    else names[0] + [NEWLINE] + Join(names[1..])
  }

  predicate Joinable(names: seq<Name>) {
    names != [] && forall i | 0 <= i < |names| :: NEWLINE !in names[i]
  }

  function FirstNewline(s: string): (k: nat)
    ensures k <= |s| && (k < |s| ==> s[k] == NEWLINE) && forall i | 0 <= i < k :: s[i] != NEWLINE
  {
    if s == "" || s[0] == NEWLINE then 0 else 1 + FirstNewline(s[1..])
  }

  // The lines of a text, at least one.
  function Lines(s: string): (lines: seq<string>)
    ensures Joinable(lines) && (|lines| > 1 <==> NEWLINE in s)
  {
    var k := FirstNewline(s);
    if k == |s| then [s] else [s[..k]] + Lines(s[k + 1..])
  }

  function AllLines(names: seq<Name>): seq<string> {
    if names == [] then [] else Lines(names[0]) + AllLines(names[1..])
  }

  lemma LinesFrom(first: string, rest: string)
    requires NEWLINE !in first
    ensures Lines(first + [NEWLINE] + rest) == [first] + Lines(rest)
  {
    var whole := first + [NEWLINE] + rest;
    var k := FirstNewline(whole);
    assert whole[|first|] == NEWLINE;
    assert forall i | 0 <= i < |first| :: whole[i] == first[i];
    assert k == |first|;
    assert whole[..k] == first && whole[k + 1..] == rest;
  }

  lemma SplitAtNewline(s: string) returns (first: string, middle: string)
    requires NEWLINE in s
    ensures NEWLINE !in first && s == first + [NEWLINE] + middle
  {
    var k := FirstNewline(s);
    first, middle := s[..k], s[k + 1..];
  }

  lemma Regroup(a: seq<string>, b: seq<string>, c: seq<string>)
    ensures a + (b + c) == a + b + c
  {
  }

  lemma JoinedAgain(first: string, middle: string, rest: string)
    ensures first + [NEWLINE] + middle + [NEWLINE] + rest == first + [NEWLINE] + (middle + [NEWLINE] + rest)
  {
  }

  lemma LinesThrough(first: string, middle: string, rest: string)
    requires NEWLINE !in first && Lines(middle + [NEWLINE] + rest) == Lines(middle) + Lines(rest)
    ensures Lines(first + [NEWLINE] + middle + [NEWLINE] + rest) == Lines(first + [NEWLINE] + middle) + Lines(rest)
  {
    JoinedAgain(first, middle, rest);
    LinesFrom(first, middle + [NEWLINE] + rest);
    LinesFrom(first, middle);
    Regroup([first], Lines(middle), Lines(rest));
  }

  lemma {:induction false} LinesConcat(s: string, rest: string)
    ensures Lines(s + [NEWLINE] + rest) == Lines(s) + Lines(rest)
    decreases |s|
  {
    if NEWLINE in s {
      var first, middle := SplitAtNewline(s);
      LinesConcat(middle, rest);
      LinesThrough(first, middle, rest);
    } else {
      LinesFrom(s, rest);
      OneLine(s);
    }
  }

  lemma OneLine(s: string)
    requires NEWLINE !in s
    ensures Lines(s) == [s]
  {
  }

  lemma {:induction false} LinesOfJoin(names: seq<Name>)
    requires names != []
    ensures Lines(Join(names)) == AllLines(names)
  {
    if |names| == 1 {
      assert AllLines(names[1..]) == [];
    } else {
      LinesOfJoin(names[1..]);
      LinesConcat(names[0], Join(names[1..]));
    }
  }

  lemma JoinCons(first: string, later: seq<string>)
    requires later != []
    ensures Join([first] + later) == first + [NEWLINE] + Join(later)
  {
    assert ([first] + later)[1..] == later;
  }

  lemma {:induction false} JoinOfLines(s: string)
    ensures Join(Lines(s)) == s
    decreases |s|
  {
    if NEWLINE in s {
      var first, rest := SplitAtNewline(s);
      JoinOfLines(rest);
      LinesFrom(first, rest);
      JoinCons(first, Lines(rest));
    } else {
      OneLine(s);
    }
  }

  // Two lists share a key exactly when their names hold the same lines.
  lemma JoinTellsTheLines(a: seq<Name>, b: seq<Name>)
    requires a != [] && b != []
    ensures Join(a) == Join(b) <==> AllLines(a) == AllLines(b)
  {
    LinesOfJoin(a);
    LinesOfJoin(b);
    JoinOfLines(Join(a));
    JoinOfLines(Join(b));
  }

  lemma {:induction false} PlainLines(names: seq<Name>)
    requires forall i | 0 <= i < |names| :: NEWLINE !in names[i]
    ensures AllLines(names) == names
  {
    if names != [] {
      PlainLines(names[1..]);
      assert Lines(names[0]) == [names[0]];
      assert names == [names[0]] + names[1..];
    }
  }

  // Without newlines in names the key tells the list.
  lemma JoinIsInjective(a: seq<Name>, b: seq<Name>)
    requires Joinable(a) && Joinable(b) && Join(a) == Join(b)
    ensures a == b
  {
    JoinTellsTheLines(a, b);
    PlainLines(a);
    PlainLines(b);
  }

  // So a name with a newline shares the key of the list of its lines.
  lemma NewlineBreaksTheKey(name: Name)
    requires '\n' in name
    ensures Joinable(Lines(name)) && Lines(name) != [name] && Join(Lines(name)) == Join([name])
  {
    JoinOfLines(name);
  }

  // A list the splitter asks the measure about: sorted, of the tables of the model.
  predicate Askable(names: seq<Name>, all: set<Name>) {
    names != [] && Increasing(names) && Elements(names) <= all
  }

  // No two sorted lists of the names hold the same lines.
  ghost predicate TellApart(all: set<Name>) {
    forall a, b | Askable(a, all) && Askable(b, all) && AllLines(a) == AllLines(b) :: a == b
  }

  lemma PlainNamesTellApart(all: set<Name>)
    requires forall name | name in all :: NEWLINE !in name
    ensures TellApart(all)
  {
    forall a, b | Askable(a, all) && Askable(b, all) && AllLines(a) == AllLines(b) ensures a == b {
      PlainMembers(a, all);
      PlainMembers(b, all);
    }
  }

  lemma PlainMembers(a: seq<Name>, all: set<Name>)
    requires Askable(a, all) && forall name | name in all :: NEWLINE !in name
    ensures AllLines(a) == a
  {
    forall i | 0 <= i < |a| ensures NEWLINE !in a[i] {
      assert a[i] in Elements(a);
    }
    PlainLines(a);
  }

  // The memo holds what was measured, under its key, and nothing was measured twice.
  ghost predicate Memo(measured: map<string, seq<Problem>>, measurements: seq<seq<Name>>, measure: Measure, all: set<Name>) {
    && (forall i | 0 <= i < |measurements| :: Askable(measurements[i], all)
          && Join(measurements[i]) in measured && measured[Join(measurements[i])] == measure(measurements[i]))
    && (forall key | key in measured :: exists i :: 0 <= i < |measurements| && Join(measurements[i]) == key)
    && (forall i, j | 0 <= i < j < |measurements| :: measurements[i] != measurements[j])
  }

  lemma MemoHit(measured: map<string, seq<Problem>>, measurements: seq<seq<Name>>, measure: Measure, all: set<Name>, names: seq<Name>)
    requires Memo(measured, measurements, measure, all) && Askable(names, all) && Join(names) in measured && TellApart(all)
    ensures measured[Join(names)] == measure(names)
  {
    var i :| 0 <= i < |measurements| && Join(measurements[i]) == Join(names);
    JoinTellsTheLines(measurements[i], names);
  }

  lemma MemoMiss(measured: map<string, seq<Problem>>, measurements: seq<seq<Name>>, measure: Measure, all: set<Name>, names: seq<Name>)
    requires Memo(measured, measurements, measure, all) && Askable(names, all) && Join(names) !in measured
    ensures Memo(measured[Join(names) := measure(names)], measurements + [names], measure, all)
  {
    var grown, log := measured[Join(names) := measure(names)], measurements + [names];
    forall key | key in grown ensures exists i :: 0 <= i < |log| && Join(log[i]) == key {
      if key == Join(names) {
        assert Join(log[|measurements|]) == key;
      } else {
        var i :| 0 <= i < |measurements| && Join(measurements[i]) == key;
        assert log[i] == measurements[i];
      }
    }
  }

  // Every answer of every memo over lists of the names is the one of the list asked about.
  ghost predicate MemoAnswersRight(all: set<Name>) {
    forall measured, measurements, measure, names |
        Memo(measured, measurements, measure, all) && Askable(names, all) && Join(names) in measured ::
      measured[Join(names)] == measure(names)
  }

  // The memo can be trusted for all measures exactly when the lists can be told apart.
  lemma MemoAnswersRightIff(all: set<Name>)
    ensures MemoAnswersRight(all) <==> TellApart(all)
  {
    if TellApart(all) {
      forall measured, measurements, measure, names |
          Memo(measured, measurements, measure, all) && Askable(names, all) && Join(names) in measured
        ensures measured[Join(names)] == measure(names)
      {
        MemoHit(measured, measurements, measure, all, names);
      }
    } else {
      var a, b :| Askable(a, all) && Askable(b, all) && AllLines(a) == AllLines(b) && a != b;
      var measure: Measure := names => if names == a then [] else [Problem("", "")];
      var measured := map[Join(a) := measure(a)];
      JoinTellsTheLines(a, b);
      assert Memo(measured, [a], measure, all) by {
        assert [a][0] == a;
      }
      assert measured[Join(b)] != measure(b);
    }
  }

  ghost predicate MeasuredOnce(measurements: seq<seq<Name>>) {
    forall i, j | 0 <= i < j < |measurements| :: Elements(measurements[i]) != Elements(measurements[j])
  }

  // No set of tables is measured twice: a sorted list is the only one of its set.
  lemma MemoMeasuresOnce(measured: map<string, seq<Problem>>, measurements: seq<seq<Name>>, measure: Measure, all: set<Name>)
    requires Memo(measured, measurements, measure, all)
    ensures MeasuredOnce(measurements)
  {
    forall i, j | 0 <= i < j < |measurements| ensures Elements(measurements[i]) != Elements(measurements[j]) {
      SortIsUnique(measurements[i]);
      SortIsUnique(measurements[j]);
    }
  }

  lemma SortIsAskable(names: set<Name>, all: set<Name>)
    requires names <= all && names != {}
    ensures Askable(Sort(names), all)
  {
    var x :| x in names;
    assert x in Elements(Sort(names));
  }

  // How often growing the parts of a group of n tables asks for size problems, at most.
  function GrowBudget(n: nat): nat {
    if n == 0 then 0 else 2 * n - 1
  }

  // `groups.set(domain, [...groups.get(domain) ?? [], tableName])` over the tables of one
  // component.
  method GroupByDomain(tableNames: seq<Name>, domains: Domains) returns (groups: map<Name, seq<Name>>)
    requires Distinct(tableNames)
    ensures Grouped(groups, tableNames, domains)
  {
    groups := map[];
    for i := 0 to |tableNames|
      invariant Grouped(groups, tableNames[..i], domains)
    {
      var domain := DomainIn(domains, tableNames[i]);
      assert tableNames[..i + 1] == tableNames[..i] + [tableNames[i]];
      assert tableNames[i] !in Elements(tableNames[..i]);
      GroupedStep(groups, tableNames[..i], tableNames[i], domains);
      groups := groups[domain := (if domain in groups then groups[domain] else []) + [tableNames[i]]];
    }
    assert tableNames[..|tableNames|] == tableNames;
  }

  ghost predicate Grouped(groups: map<Name, seq<Name>>, tableNames: seq<Name>, domains: Domains) {
    && groups.Keys == DomainKeys(Elements(tableNames), domains)
    && forall d | d in groups :: IsGroupOf(groups[d], d, Elements(tableNames), domains)
  }

  ghost predicate IsGroupOf(group: seq<Name>, domain: Name, names: set<Name>, domains: Domains) {
    Distinct(group) && Elements(group) == Members(names, domains, domain)
  }

  lemma GroupedStep(groups: map<Name, seq<Name>>, tableNames: seq<Name>, t: Name, domains: Domains)
    requires t !in Elements(tableNames) && Grouped(groups, tableNames, domains)
    ensures var domain := DomainIn(domains, t);
            Grouped(groups[domain := (if domain in groups then groups[domain] else []) + [t]], tableNames + [t], domains)
  {
    var names, domain := Elements(tableNames), DomainIn(domains, t);
    ElementsConcat(tableNames, [t]);
    assert Elements(tableNames + [t]) == names + {t};
    assert DomainKeys(names + {t}, domains) == DomainKeys(names, domains) + {domain};
    forall d | d in groups && d != domain ensures IsGroupOf(groups[d], d, names + {t}, domains) {
      assert Members(names + {t}, domains, d) == Members(names, domains, d);
    }
    GroupGrows(if domain in groups then groups[domain] else [], domain, names, t, domains);
  }

  lemma GroupGrows(group: seq<Name>, domain: Name, names: set<Name>, t: Name, domains: Domains)
    requires t !in names && domain == DomainIn(domains, t)
    requires (group == [] && domain !in DomainKeys(names, domains)) || IsGroupOf(group, domain, names, domains)
    ensures IsGroupOf(group + [t], domain, names + {t}, domains)
  {
    assert Elements(group) == Members(names, domains, domain);
    assert Members(names + {t}, domains, domain) == Members(names, domains, domain) + {t};
    ElementsConcat(group, [t]);
    DistinctJoin(group, [t]);
  }

  // The groups by domain name, the tables without a domain last.
  method DomainGroups(tableNames: seq<Name>, domains: Domains) returns (ordered: seq<seq<Name>>)
    requires Distinct(tableNames)
    ensures ordered == GroupsOf(Elements(tableNames), domains)
  {
    var groups := GroupByDomain(tableNames, domains);
    var domainNames := OrderedDomains(groups.Keys);
    OrderedDomainsAreTheKeys(groups.Keys);
    ordered := SortedGroups(groups, domainNames, Elements(tableNames), domains);
  }

  method SortedGroups(groups: map<Name, seq<Name>>, domainNames: seq<Name>, ghost names: set<Name>, ghost domains: Domains)
    returns (ordered: seq<seq<Name>>)
    requires forall i | 0 <= i < |domainNames| :: domainNames[i] in groups
    requires forall d | d in groups :: IsGroupOf(groups[d], d, names, domains)
    ensures ordered == GroupList(domainNames, names, domains)
  {
    ordered := [];
    for i := 0 to |domainNames|
      invariant ordered + GroupList(domainNames[i..], names, domains) == GroupList(domainNames, names, domains)
    {
      GroupListUnfolds(ordered, domainNames, i, names, domains);
      ordered := ordered + [Sorted(groups[domainNames[i]])];
    }
  }

  lemma GroupListUnfolds(ordered: seq<seq<Name>>, domainNames: seq<Name>, i: nat, names: set<Name>, domains: Domains)
    requires i < |domainNames|
    ensures ordered + GroupList(domainNames[i..], names, domains)
            == ordered + [Sort(Members(names, domains, domainNames[i]))] + GroupList(domainNames[i + 1..], names, domains)
  {
    assert domainNames[i..][1..] == domainNames[i + 1..];
  }

  class Splitter {
    const measure: Measure
    const counts: Counts
    ghost const all: set<Name>

    var parts: seq<seq<Name>>
    var tablesTooLargeAlone: seq<Refusal>
    var measured: map<string, seq<Problem>>

    // The decisions taken, the calls of the measure, and how often the memo was asked.
    ghost var steps: seq<Step>
    ghost var measurements: seq<seq<Name>>
    ghost var asked: nat

    ghost predicate Valid()
      reads this
    {
      && parts == PartsOf(steps)
      && tablesTooLargeAlone == RefusalsOf(steps)
      && Memo(measured, measurements, measure, all)
      && |measurements| <= asked
    }

    constructor (counts: Counts, measure: Measure, ghost all: set<Name>)
      ensures Valid() && this.counts == counts && this.measure == measure && this.all == all
      ensures steps == [] && asked == 0
    {
      this.counts, this.measure, this.all := counts, measure, all;
      parts, tablesTooLargeAlone, measured := [], [], map[];
      steps, measurements, asked := [], [], 0;
    }

    method SizeProblems(tableNames: seq<Name>) returns (problems: seq<Problem>)
      requires Valid() && Askable(tableNames, all)
      modifies this`measured, this`measurements, this`asked
      ensures Valid() && (TellApart(all) ==> problems == measure(tableNames))
      ensures asked == old(asked) + 1
    {
      var key := Join(tableNames);
      if key !in measured {
        MemoMiss(measured, measurements, measure, all, tableNames);
        measured := measured[key := measure(tableNames)];
        measurements := measurements + [tableNames];
      }
      if TellApart(all) {
        MemoHit(measured, measurements, measure, all, tableNames);
      }
      asked := asked + 1;
      problems := measured[key];
    }

    method Place(part: seq<Name>, ghost step: Step)
      requires Valid() && !step.Refused? && step.part == part && Increasing(part)
      modifies this`parts, this`steps
      ensures Valid() && steps == old(steps) + [step]
      ensures Placed(steps) == Placed(old(steps)) + multiset(Elements(part))
    {
      PartsOfConcat(steps, [step]);
      assert PartsOf([step]) == [part] && RefusalsOf([step]) == [] by { StepProjections(step); }
      StepIsPlaced(steps, step);
      parts := parts + [part];
      steps := steps + [step];
    }

    method Refuse(table: Name, problems: seq<Problem>, ghost left: set<Name>)
      requires Valid()
      modifies this`tablesTooLargeAlone, this`steps
      ensures Valid() && steps == old(steps) + [Refused(table, problems, left)]
      ensures Placed(steps) == Placed(old(steps)) + multiset{table}
    {
      ghost var step := Refused(table, problems, left);
      PartsOfConcat(steps, [step]);
      assert PartsOf([step]) == [] && RefusalsOf([step]) == [Refusal(table, problems)] by { StepProjections(step); }
      StepIsPlaced(steps, step);
      tablesTooLargeAlone := tablesTooLargeAlone + [Refusal(table, problems)];
      steps := steps + [step];
    }

    method PlacedWhole(tableNames: seq<Name>) returns (placed: bool)
      requires Valid() && Askable(tableNames, all)
      modifies this
      ensures Valid() && (TellApart(all) ==> placed == Fits(measure, tableNames))
      ensures placed ==> steps == old(steps) + [Whole(tableNames)] && Placed(steps) == Placed(old(steps)) + multiset(Elements(tableNames))
      ensures !placed ==> steps == old(steps)
      ensures asked == old(asked) + 1
    {
      var problems := SizeProblems(tableNames);
      if |problems| > 0 { return false; }
      Place(tableNames, Whole(tableNames));
      return true;
    }

    // The inner loop of growParts.
    method GrowFrom(seed: Name, unplaced0: set<Name>) returns (part: seq<Name>, unplaced: set<Name>)
      requires Valid() && unplaced0 + {seed} <= all && seed !in unplaced0
      modifies this`measured, this`measurements, this`asked
      ensures Valid() && (TellApart(all) ==> (part, unplaced) == GrowPart([seed], unplaced0, counts, measure))
      ensures IsCut(part, unplaced, unplaced0 + {seed}) && unplaced <= unplaced0
      ensures asked <= old(asked) + |unplaced0| - |unplaced| + if |unplaced| == 0 then 0 else 1
    {
      part, unplaced := [seed], unplaced0;
      SeedIsCut(seed, unplaced0);
      while unplaced != {}
        invariant Valid() && IsCut(part, unplaced, unplaced0 + {seed}) && unplaced <= unplaced0
        invariant TellApart(all) ==> GrowsAlike(part, unplaced, [seed], unplaced0, counts, measure)
        invariant asked == old(asked) + |unplaced0| - |unplaced|
        decreases |unplaced|
      {
        var candidate := NextCandidate(part, unplaced, counts);
        var grown := Sort(Elements(part) + {candidate});
        CutGrows(part, unplaced, unplaced0 + {seed}, candidate, all);
        GrowthTurn(part, unplaced, [seed], unplaced0, counts, measure);
        var problems := SizeProblems(grown);
        if |problems| > 0 { break; }
        part, unplaced := grown, unplaced - {candidate};
      }
    }

    method GrowParts(tableNames: seq<Name>)
      requires Valid() && Askable(tableNames, all)
      modifies this
      ensures Valid() && (TellApart(all) ==> steps == old(steps) + Grow(Elements(tableNames), counts, measure))
      ensures Placed(steps) == Placed(old(steps)) + multiset(Elements(tableNames))
      ensures asked <= old(asked) + GrowBudget(|tableNames|)
    {
      var unplaced := Elements(tableNames);
      AskableTables(tableNames, all);
      while unplaced != {}
        invariant Valid() && unplaced <= all
        invariant TellApart(all) ==> steps + Grow(unplaced, counts, measure) == old(steps) + Grow(Elements(tableNames), counts, measure)
        invariant Placed(steps) + multiset(unplaced) == Placed(old(steps)) + multiset(Elements(tableNames))
        invariant asked + GrowBudget(|unplaced|) <= old(asked) + GrowBudget(|tableNames|)
        decreases |unplaced|
      {
        GrowUnfolds(steps, unplaced, counts, measure);
        unplaced := GrowOnePart(unplaced);
      }
    }

    method PlaceGroup(group: seq<Name>)
      requires Valid() && Askable(group, all)
      modifies this
      ensures Valid() && (TellApart(all) ==> steps == old(steps) + SplitGroup(group, counts, measure))
      ensures Placed(steps) == Placed(old(steps)) + multiset(Elements(group))
      ensures asked <= old(asked) + 2 * |group|
    {
      var placed := PlacedWhole(group);
      if !placed { GrowParts(group); }
    }

    method PlaceComponent(component: seq<Name>, domains: Domains)
      requires Valid() && Askable(component, all)
      modifies this
      ensures Valid() && (TellApart(all) ==> steps == old(steps) + SplitComponent(component, domains, counts, measure))
      ensures Placed(steps) == Placed(old(steps)) + multiset(component)
      ensures asked <= old(asked) + 3 * |component|
    {
      IncreasingAsMultiset(component);
      var placed := PlacedWhole(component);
      if !placed { SplitByDomain(component, domains); }
    }

    method SplitByDomain(component: seq<Name>, domains: Domains)
      requires Valid() && Askable(component, all)
      modifies this
      ensures Valid() && (TellApart(all) ==> steps == old(steps) + SplitGroups(GroupsOf(Elements(component), domains), counts, measure))
      ensures Placed(steps) == Placed(old(steps)) + multiset(Elements(component))
      ensures asked <= old(asked) + 2 * |component|
    {
      IncreasingIsDistinct(component);
      GroupsAreAskable(component, domains, all);
      GroupsArePartition(Elements(component), domains);
      var groups := DomainGroups(component, domains);
      PlaceGroups(groups);
    }

    method PlaceGroups(groups: seq<seq<Name>>)
      requires Valid() && forall i | 0 <= i < |groups| :: Askable(groups[i], all)
      modifies this
      ensures Valid() && (TellApart(all) ==> steps == old(steps) + SplitGroups(groups, counts, measure))
      ensures Placed(steps) == Placed(old(steps)) + Flat(groups)
      ensures asked <= old(asked) + 2 * Size(groups)
    {
      ghost var before, whole := steps, steps + SplitGroups(groups, counts, measure);
      for i := 0 to |groups|
        invariant Valid() && (TellApart(all) ==> steps + SplitGroups(groups[i..], counts, measure) == whole)
        invariant Placed(steps) + Flat(groups[i..]) == Placed(before) + Flat(groups)
        invariant asked + 2 * Size(groups[i..]) <= old(asked) + 2 * Size(groups)
      {
        SplitGroupsUnfold(steps, groups, i, counts, measure);
        FlatUnfold(groups, i);
        IncreasingAsMultiset(groups[i]);
        PlaceGroup(groups[i]);
      }
    }

    // With these steps, tables and questions still to come the whole is reached.
    ghost predicate OnTheWay(coming: seq<Step>, whole: seq<Step>, tables: multiset<Name>, all0: multiset<Name>, questions: nat, most: nat)
      reads this
    {
      Valid() && (TellApart(all) ==> steps + coming == whole) && Placed(steps) + tables == all0 && asked + questions <= most
    }

    method PlaceNext(component: seq<Name>, domains: Domains, ghost later: seq<Step>, ghost whole: seq<Step>,
                     ghost tables: multiset<Name>, ghost all0: multiset<Name>, ghost questions: nat, ghost most: nat)
      requires Askable(component, all)
      requires OnTheWay(SplitComponent(component, domains, counts, measure) + later, whole,
                        multiset(component) + tables, all0, 3 * |component| + questions, most)
      modifies this
      ensures OnTheWay(later, whole, tables, all0, questions, most)
    {
      RegroupSteps(steps, SplitComponent(component, domains, counts, measure), later);
      PlaceComponent(component, domains);
    }

    method PlaceComponents(components: seq<seq<Name>>, domains: Domains)
      requires Valid() && forall i | 0 <= i < |components| :: Askable(components[i], all)
      modifies this
      ensures Valid() && (TellApart(all) ==> steps == old(steps) + SplitComponents(components, domains, counts, measure))
      ensures Placed(steps) == Placed(old(steps)) + Flat(components)
      ensures asked <= old(asked) + 3 * Size(components)
    {
      ghost var whole := steps + SplitComponents(components, domains, counts, measure);
      ghost var all0, most := Placed(steps) + Flat(components), asked + 3 * Size(components);
      assert components[0..] == components;
      for i := 0 to |components|
        invariant OnTheWay(SplitComponents(components[i..], domains, counts, measure), whole, Flat(components[i..]), all0,
                           3 * Size(components[i..]), most)
      {
        SplitComponentsUnfold(components, i, domains, counts, measure);
        FlatUnfold(components, i);
        PlaceNext(components[i], domains, SplitComponents(components[i + 1..], domains, counts, measure), whole,
                  Flat(components[i + 1..]), all0, 3 * Size(components[i + 1..]), most);
      }
    }

    // One turn of the loop of growParts.
    method GrowOnePart(unplaced0: set<Name>) returns (unplaced: set<Name>)
      requires Valid() && unplaced0 != {} && unplaced0 <= all
      modifies this
      ensures Valid() && |unplaced| < |unplaced0| && unplaced <= unplaced0
      ensures TellApart(all) ==> unplaced == FirstStep(unplaced0, counts, measure).1
      ensures TellApart(all) ==> steps == old(steps) + [FirstStep(unplaced0, counts, measure).0]
      ensures Placed(steps) + multiset(unplaced) == Placed(old(steps)) + multiset(unplaced0)
      ensures asked + GrowBudget(|unplaced|) <= old(asked) + GrowBudget(|unplaced0|)
    {
      var seed := MostConnectedSeed(unplaced0, counts);
      FirstStepIs(unplaced0, counts, measure);
      assert unplaced0 == unplaced0 - {seed} + {seed};
      unplaced := PlaceSeed(seed, unplaced0 - {seed});
    }

    method PlaceSeed(seed: Name, rest: set<Name>) returns (unplaced: set<Name>)
      requires Valid() && rest + {seed} <= all && seed !in rest
      modifies this
      ensures Valid() && unplaced <= rest && |unplaced| < |rest + {seed}|
      ensures TellApart(all) ==> unplaced == StepFrom(seed, rest, counts, measure).1
      ensures TellApart(all) ==> steps == old(steps) + [StepFrom(seed, rest, counts, measure).0]
      ensures Placed(steps) + multiset(unplaced) == Placed(old(steps)) + multiset(rest + {seed})
      ensures asked + GrowBudget(|unplaced|) <= old(asked) + GrowBudget(|rest + {seed}|)
    {
      SeedIsAskable(seed, all);
      SeedSums(seed, rest);
      var seedProblems := SizeProblems([seed]);
      if |seedProblems| > 0 {
        Refuse(seed, seedProblems, rest);
        unplaced := rest;
      } else {
        unplaced := PlaceGrown(seed, rest);
      }
    }

    method PlaceGrown(seed: Name, rest: set<Name>) returns (unplaced: set<Name>)
      requires Valid() && rest + {seed} <= all && seed !in rest
      modifies this
      ensures Valid() && unplaced <= rest && |unplaced| <= |rest|
      ensures TellApart(all) ==>
                var grown := GrowPart([seed], rest, counts, measure);
                unplaced == grown.1 && steps == old(steps) + [Grown(grown.0, grown.1)]
      ensures Placed(steps) + multiset(unplaced) == Placed(old(steps)) + multiset(rest + {seed})
      ensures asked + GrowBudget(|unplaced|) <= old(asked) + 2 * |rest|
    {
      var part;
      part, unplaced := GrowFrom(seed, rest);
      GrownSums(part, unplaced, seed, rest);
      GrowthBudget(|rest|, |unplaced|);
      RegroupTables(Placed(steps), multiset(Elements(part)), multiset(unplaced));
      Place(part, Grown(part, unplaced));
    }
  }

  lemma SeedIsAskable(seed: Name, all: set<Name>)
    requires seed in all
    ensures Askable([seed], all)
  {
    assert Elements([seed]) == {seed};
  }

  lemma SeedIsCut(seed: Name, unplaced: set<Name>)
    requires seed !in unplaced
    ensures IsCut([seed], unplaced, unplaced + {seed}) && Elements([seed]) == {seed}
  {
    assert Elements([seed]) == {seed};
  }

  lemma CutGrows(part: seq<Name>, unplaced: set<Name>, names: set<Name>, candidate: Name, all: set<Name>)
    requires IsCut(part, unplaced, names) && candidate in unplaced && names <= all
    ensures var grown := Sort(Elements(part) + {candidate});
            IsCut(grown, unplaced - {candidate}, names) && Askable(grown, all) && |unplaced - {candidate}| == |unplaced| - 1
  {
    SortIsAskable(Elements(part) + {candidate}, all);
  }

  // Two stages of growing that end alike.
  ghost predicate GrowsAlike(part: seq<Name>, unplaced: set<Name>, other: seq<Name>, left: set<Name>, counts: Counts, measure: Measure) {
    GrowPart(part, unplaced, counts, measure) == GrowPart(other, left, counts, measure)
  }

  lemma GrowthTurn(part: seq<Name>, unplaced: set<Name>, other: seq<Name>, left: set<Name>, counts: Counts, measure: Measure)
    requires unplaced != {}
    ensures var candidate := NextCandidate(part, unplaced, counts);
            var grown := Sort(Elements(part) + {candidate});
            GrowsAlike(part, unplaced, other, left, counts, measure) ==>
              if Fits(measure, grown) then GrowsAlike(grown, unplaced - {candidate}, other, left, counts, measure)
              else GrowPart(other, left, counts, measure) == (part, unplaced)
  {
  }

  lemma FirstStepIs(unplaced: set<Name>, counts: Counts, measure: Measure)
    requires unplaced != {}
    ensures var seed := MostConnectedSeed(unplaced, counts);
            seed in unplaced && FirstStep(unplaced, counts, measure) == StepFrom(seed, unplaced - {seed}, counts, measure)
  {
  }

  // A part and what is left unplaced, together the tables there were.
  ghost predicate IsCut(part: seq<Name>, unplaced: set<Name>, names: set<Name>) {
    part != [] && Increasing(part) && Elements(part) !! unplaced && Elements(part) + unplaced == names
  }

  lemma SeedSums(seed: Name, rest: set<Name>)
    requires seed !in rest
    ensures multiset(rest + {seed}) == multiset(rest) + multiset{seed} && |rest + {seed}| == |rest| + 1
    ensures 1 + GrowBudget(|rest|) <= GrowBudget(|rest + {seed}|) && 1 + 2 * |rest| <= GrowBudget(|rest + {seed}|)
  {
    UnionAsMultiset(rest, {seed});
    assert multiset({seed}) == multiset{seed};
  }

  lemma GrownSums(part: seq<Name>, unplaced: set<Name>, seed: Name, rest: set<Name>)
    requires IsCut(part, unplaced, rest + {seed}) && unplaced <= rest
    ensures multiset(Elements(part)) + multiset(unplaced) == multiset(rest + {seed}) && |unplaced| <= |rest|
  {
    UnionAsMultiset(Elements(part), unplaced);
    SubsetIsNotLarger(unplaced, rest);
  }

  lemma GrowthBudget(n: nat, left: nat)
    requires left <= n
    ensures n - left + (if left == 0 then 0 else 1) + GrowBudget(left) <= 2 * n
  {
  }

  lemma RegroupTables(a: multiset<Name>, b: multiset<Name>, c: multiset<Name>)
    ensures a + b + c == a + (b + c)
  {
  }

  lemma StepIsPlaced(steps: seq<Step>, step: Step)
    requires step.Refused? || Increasing(step.part)
    ensures Placed(steps + [step]) == Placed(steps) + multiset(StepTables(step))
  {
    PlacedConcat(steps, [step]);
    PlacedOne(step);
    if !step.Refused? {
      IncreasingAsMultiset(step.part);
    }
  }

  lemma FlatUnfold(lists: seq<seq<Name>>, i: nat)
    requires i < |lists|
    ensures Flat(lists[i..]) == multiset(lists[i]) + Flat(lists[i + 1..])
  {
    assert lists[i..][1..] == lists[i + 1..];
  }

  lemma GrowUnfolds(steps: seq<Step>, unplaced: set<Name>, counts: Counts, measure: Measure)
    requires unplaced != {}
    ensures var first := FirstStep(unplaced, counts, measure);
            steps + Grow(unplaced, counts, measure) == steps + [first.0] + Grow(first.1, counts, measure)
  {
  }

  lemma StepProjections(step: Step)
    ensures PartsOf([step]) == if step.Refused? then [] else [step.part]
    ensures RefusalsOf([step]) == if step.Refused? then [Refusal(step.table, step.problems)] else []
  {
    assert [step][1..] == [];
    assert PartsOf([]) == [] && RefusalsOf([]) == [];
  }

  lemma AskableTables(names: seq<Name>, all: set<Name>)
    requires Askable(names, all)
    ensures |Elements(names)| == |names| && Elements(names) != {} && Sort(Elements(names)) == names
  {
    SortIsUnique(names);
    assert names[0] in Elements(names);
  }

  ghost function Size(lists: seq<seq<Name>>): nat {
    if lists == [] then 0 else |lists[0]| + Size(lists[1..])
  }

  lemma {:induction false} SizeOfFlat(lists: seq<seq<Name>>)
    ensures Size(lists) == |Flat(lists)|
  {
    if lists != [] {
      SizeOfFlat(lists[1..]);
    }
  }

  // The groups of a component can be asked about, and together are as many tables.
  lemma GroupsAreAskable(component: seq<Name>, domains: Domains, all: set<Name>)
    requires Askable(component, all)
    ensures var groups := GroupsOf(Elements(component), domains);
            (forall i | 0 <= i < |groups| :: Askable(groups[i], all)) && Size(groups) == |component|
  {
    var names := Elements(component);
    var groups := GroupsOf(names, domains);
    AskableTables(component, all);
    GroupsArePartition(names, domains);
    SizeOfFlat(groups);
    GroupsLaws(names, domains);
    forall i | 0 <= i < |groups| ensures Askable(groups[i], all) {
      assert IsGroup(groups[i], names, domains);
    }
  }

  lemma SplitGroupsUnfold(steps: seq<Step>, groups: seq<seq<Name>>, i: nat, counts: Counts, measure: Measure)
    requires i < |groups|
    ensures steps + SplitGroups(groups[i..], counts, measure)
            == steps + SplitGroup(groups[i], counts, measure) + SplitGroups(groups[i + 1..], counts, measure)
    ensures Size(groups[i..]) == |groups[i]| + Size(groups[i + 1..])
  {
    assert groups[i..][1..] == groups[i + 1..];
  }

  lemma SplitComponentsUnfold(components: seq<seq<Name>>, i: nat, domains: Domains, counts: Counts, measure: Measure)
    requires i < |components|
    ensures SplitComponents(components[i..], domains, counts, measure)
            == SplitComponent(components[i], domains, counts, measure) + SplitComponents(components[i + 1..], domains, counts, measure)
    ensures Size(components[i..]) == |components[i]| + Size(components[i + 1..])
  {
    assert components[i..][1..] == components[i + 1..];
  }

  lemma RegroupSteps(a: seq<Step>, b: seq<Step>, c: seq<Step>)
    ensures a + (b + c) == a + b + c
  {
  }

  method DomainMap(tables: seq<Table>) returns (domains: Domains)
    ensures domains == DomainsOf(tables)
  {
    domains := map[];
    for i := 0 to |tables|
      invariant domains == DomainsOf(tables[..i])
    {
      assert tables[..i + 1][..i] == tables[..i];
      domains := domains[tables[i].name := DomainKey(tables[i].domain)];
    }
    assert tables[..|tables|] == tables;
  }

  lemma ComponentsAreAskable(model: Model)
    requires EndsDeclared(model)
    ensures var counts := CountsOf(TableNames(model.tables), model.relations);
            var components := ComponentsOf(counts, counts.Keys);
            && JoinedBothWays(counts)
            && (forall i | 0 <= i < |components| :: Askable(components[i], TableNames(model.tables)))
            && Flat(components) == multiset(TableNames(model.tables)) && Size(components) == |TableNames(model.tables)|
  {
    var counts := CountsOf(TableNames(model.tables), model.relations);
    var components := ComponentsOf(counts, counts.Keys);
    ModelComponents(model);
    SizeOfFlat(components);
    CollectedStart(counts);
    ComponentsAreLinkClasses(counts, counts.Keys);
    forall i | 0 <= i < |components| ensures Askable(components[i], TableNames(model.tables)) {
      assert components[i] in components;
    }
  }

  method PlaceAll(components: seq<seq<Name>>, domains: Domains, counts: Counts, measure: Measure, ghost all: set<Name>)
    returns (parts: seq<seq<Name>>, tablesTooLargeAlone: seq<Refusal>, ghost measurements: seq<seq<Name>>)
    requires forall i | 0 <= i < |components| :: Askable(components[i], all)
    ensures TellApart(all) ==>
              var steps := SplitComponents(components, domains, counts, measure);
              parts == PartsOf(steps) && tablesTooLargeAlone == RefusalsOf(steps)
    ensures Flat(parts) + RefusedTables(tablesTooLargeAlone) == Flat(components)
    ensures MeasuredOnce(measurements) && |measurements| <= 3 * Size(components)
  {
    var splitter := new Splitter(counts, measure, all);
    splitter.PlaceComponents(components, domains);
    assert TellApart(all) ==> splitter.steps == SplitComponents(components, domains, counts, measure);
    assert Placed([]) == multiset{};
    parts, tablesTooLargeAlone, measurements := splitter.parts, splitter.tablesTooLargeAlone, splitter.measurements;
    MemoMeasuresOnce(splitter.measured, measurements, measure, all);
  }

  // Every table is in one part or refused, no set of tables is measured twice, and
  // splitting n tables calls the measure at most 3n times. Where sorted lists of the names
  // can be told apart by their lines the memo is invisible: the loops return exactly what
  // splitting without a memo decides.
  method SplitIntoParts(model: Model, measure: Measure)
    returns (parts: seq<seq<Name>>, tablesTooLargeAlone: seq<Refusal>, ghost measurements: seq<seq<Name>>)
    requires EndsDeclared(model)
    ensures Flat(parts) + RefusedTables(tablesTooLargeAlone) == multiset(TableNames(model.tables))
    ensures TellApart(TableNames(model.tables)) ==>
              parts == PartsOf(SplitSteps(model, measure)) && tablesTooLargeAlone == RefusalsOf(SplitSteps(model, measure))
    ensures MeasuredOnce(measurements)
    ensures |measurements| <= 3 * |TableNames(model.tables)|
  {
    ComponentsAreAskable(model);
    var counts := RelationCountsOf(model);
    var domains := DomainMap(model.tables);
    var components := ConnectedComponents(counts);
    parts, tablesTooLargeAlone, measurements := PlaceAll(components, domains, counts, measure, TableNames(model.tables));
  }
}
