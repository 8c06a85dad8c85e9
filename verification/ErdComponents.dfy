/** figura/scripts/erd-split.mjs: the relation counts of a model and the connected
    groups of tables they make. */
module ErdComponents {
  import opened Names
  import opened ErdTypes

  // counts[a][b] is the number of relations between a and b; absent means none.
  type Counts = map<Name, map<Name, nat>>

  function Links(relation: Relation, a: Name, b: Name): nat {
    var f, t := relation.source.table, relation.target.table;
    if (f == a && t == b) || (f == b && t == a) then 1 else 0
  }

  function LinkCount(relations: seq<Relation>, a: Name, b: Name): nat {
    if relations == [] then 0
    else var last := |relations| - 1; LinkCount(relations[..last], a, b) + Links(relations[last], a, b)
  }

  ghost predicate EndsAmong(names: set<Name>, relations: seq<Relation>) {
    forall r | r in relations :: r.source.table in names && r.target.table in names
  }

  function Bumped(row: map<Name, nat>, b: Name): map<Name, nat> {
    row[b := (if b in row then row[b] else 0) + 1]
  }

  // One turn of the counting loop: both ends of the relation, a self reference once.
  function WithRelation(counts: Counts, relation: Relation): Counts
    requires relation.source.table in counts && relation.target.table in counts
  {
    var f, t := relation.source.table, relation.target.table;
    var once := counts[f := Bumped(counts[f], t)];
    if f != t then once[t := Bumped(once[t], f)] else once
  }

  ghost function CountsOf(names: set<Name>, relations: seq<Relation>): (counts: Counts)
    requires EndsAmong(names, relations)
    ensures counts.Keys == names
  {
    if relations == [] then map a | a in names :: map[]
    else var last := |relations| - 1; WithRelation(CountsOf(names, relations[..last]), relations[last])
  }

  method RelationCountsOf(model: Model) returns (counts: Counts)
    requires EndsDeclared(model)
    ensures counts == CountsOf(TableNames(model.tables), model.relations)
  {
    var relations := model.relations;
    counts := map name | name in TableNames(model.tables) :: map[];
    for i := 0 to |relations|
      invariant counts == CountsOf(TableNames(model.tables), relations[..i])
    {
      assert relations[..i + 1][..i] == relations[..i];
      counts := WithRelation(counts, relations[i]);
    }
    assert relations[..|relations|] == relations;
  }

  // What the counts mean: an entry for every linked pair of names, holding how many
  // relations link it.
  lemma {:induction false} CountsAreLinkCounts(names: set<Name>, relations: seq<Relation>, a: Name, b: Name)
    requires EndsAmong(names, relations) && a in names
    ensures b in CountsOf(names, relations)[a] <==> LinkCount(relations, a, b) > 0
    ensures CountAt(CountsOf(names, relations), a, b) == LinkCount(relations, a, b)
  {
    if relations != [] {
      var last := |relations| - 1;
      CountsAreLinkCounts(names, relations[..last], a, b);
      OneRelationCounts(CountsOf(names, relations[..last]), relations[last], a, b);
    }
  }

  function CountAt(counts: Counts, a: Name, b: Name): nat
    requires a in counts
  {
    if b in counts[a] then counts[a][b] else 0
  }

  lemma OneRelationCounts(counts: Counts, relation: Relation, a: Name, b: Name)
    requires relation.source.table in counts && relation.target.table in counts && a in counts
    ensures CountAt(WithRelation(counts, relation), a, b) == CountAt(counts, a, b) + Links(relation, a, b)
    ensures b in WithRelation(counts, relation)[a] <==> b in counts[a] || Links(relation, a, b) == 1
  {
  }

  predicate Joined(counts: Counts, a: Name, b: Name) {
    a in counts && b in counts[a]
  }

  ghost predicate JoinedBothWays(counts: Counts) {
    forall a, b | Joined(counts, a, b) :: Joined(counts, b, a)
  }

  // Two tables are joined in the counts exactly when some relation runs between them.
  lemma {:induction false} LinkCountIsPositive(relations: seq<Relation>, a: Name, b: Name)
    ensures LinkCount(relations, a, b) == LinkCount(relations, b, a)
    ensures LinkCount(relations, a, b) > 0 <==> exists r :: r in relations && Links(r, a, b) == 1
  {
    if relations != [] {
      var last := |relations| - 1;
      LinkCountIsPositive(relations[..last], a, b);
      assert relations == relations[..last] + [relations[last]];
    }
  }

  lemma CountsJoin(names: set<Name>, relations: seq<Relation>, a: Name, b: Name)
    requires EndsAmong(names, relations)
    ensures Joined(CountsOf(names, relations), a, b) <==> exists r :: r in relations && Links(r, a, b) == 1
  {
    LinkCountIsPositive(relations, a, b);
    if a in names {
      CountsAreLinkCounts(names, relations, a, b);
    }
  }

  lemma CountsAreSymmetric(names: set<Name>, relations: seq<Relation>)
    requires EndsAmong(names, relations)
    ensures JoinedBothWays(CountsOf(names, relations))
  {
    forall a, b | Joined(CountsOf(names, relations), a, b) ensures Joined(CountsOf(names, relations), b, a) {
      CountsJoin(names, relations, a, b);
      var r :| r in relations && Links(r, a, b) == 1;
      assert Links(r, b, a) == 1;
      CountsJoin(names, relations, b, a);
    }
  }

  // A chain of relations from its first name to its last.
  ghost predicate Chain(counts: Counts, path: seq<Name>) {
    path != [] && path[0] in counts && forall i | 1 <= i < |path| :: Joined(counts, path[i - 1], path[i])
  }

  ghost predicate ChainBetween(counts: Counts, path: seq<Name>, a: Name, b: Name) {
    Chain(counts, path) && path[0] == a && path[|path| - 1] == b
  }

  ghost predicate Linked(counts: Counts, a: Name, b: Name) {
    exists path :: ChainBetween(counts, path, a, b)
  }

  lemma LinkedToItself(counts: Counts, a: Name)
    requires a in counts
    ensures Linked(counts, a, a)
  {
    assert ChainBetween(counts, [a], a, a);
  }

  lemma LinkedStep(counts: Counts, a: Name, b: Name, c: Name)
    requires Linked(counts, a, b) && Joined(counts, b, c)
    ensures Linked(counts, a, c)
  {
    var path :| ChainBetween(counts, path, a, b);
    assert ChainBetween(counts, path + [c], a, c);
  }

  lemma LinkedIsTransitive(counts: Counts, a: Name, b: Name, c: Name)
    requires Linked(counts, a, b) && Linked(counts, b, c)
    ensures Linked(counts, a, c)
  {
    var p :| ChainBetween(counts, p, a, b);
    var q :| ChainBetween(counts, q, b, c);
    var pq := p + q[1..];
    assert forall i | |p| <= i < |pq| :: pq[i] == q[i - |p| + 1] && Joined(counts, q[i - |p|], q[i - |p| + 1]);
    assert ChainBetween(counts, pq, a, c);
  }

  lemma LinkedIsSymmetric(counts: Counts, a: Name, b: Name)
    requires JoinedBothWays(counts) && Linked(counts, a, b)
    ensures Linked(counts, b, a)
  {
    var path :| ChainBetween(counts, path, a, b);
    ChainReverses(counts, path);
  }

  lemma {:induction false} ChainReverses(counts: Counts, path: seq<Name>)
    requires JoinedBothWays(counts) && Chain(counts, path)
    ensures Linked(counts, path[|path| - 1], path[0])
  {
    var last := |path| - 1;
    if last == 0 {
      LinkedToItself(counts, path[0]);
    } else {
      ChainReverses(counts, path[..last]);
      assert Joined(counts, path[last - 1], path[last]);
      LinkedToItself(counts, path[last]);
      LinkedStep(counts, path[last], path[last], path[last - 1]);
      LinkedIsTransitive(counts, path[last], path[last - 1], path[0]);
    }
  }

  // A set of names no relation leaves holds every chain that starts in it.
  lemma {:induction false} ChainStaysInside(counts: Counts, path: seq<Name>, inside: set<Name>)
    requires Chain(counts, path) && path[0] in inside
    requires forall x, y | x in inside && Joined(counts, x, y) :: y in inside
    ensures path[|path| - 1] in inside
  {
    var last := |path| - 1;
    if last > 0 {
      ChainStaysInside(counts, path[..last], inside);
      assert Joined(counts, path[last - 1], path[last]);
    }
  }

  ghost function Reached(counts: Counts, start: Name): set<Name> {
    set x | x in counts && Linked(counts, start, x)
  }

  // The components of the tables still to visit, in ascending order of their least name.
  ghost function ComponentsOf(counts: Counts, unvisited: set<Name>): (components: seq<seq<Name>>)
    decreases |unvisited|
  {
    if unvisited == {} then []
    else
      var start := Least(unvisited);
      var component := Reached(counts, start) + {start};
      assert unvisited - component <= unvisited - {start};
      [Sort(component)] + ComponentsOf(counts, unvisited - component)
  }

  predicate Distinct(names: seq<Name>) {
    forall i, j | 0 <= i < j < |names| :: names[i] != names[j]
  }

  // `names.sort()` on a list that repeats no name.
  function Sorted(names: seq<Name>): (r: seq<Name>)
    requires Distinct(names)
    ensures r == Sort(Elements(names))
  {
    Sort(Elements(names))
  }

  // No relation leaves the set.
  ghost predicate ClosedUnderLinks(counts: Counts, names: set<Name>) {
    forall x, y | x in names && Joined(counts, x, y) :: y in names
  }

  lemma ReachedIsClosed(counts: Counts, start: Name)
    requires JoinedBothWays(counts)
    ensures ClosedUnderLinks(counts, Reached(counts, start))
  {
    forall x, y | x in Reached(counts, start) && Joined(counts, x, y) ensures y in Reached(counts, start) {
      LinkedStep(counts, start, x, y);
      assert Joined(counts, y, x);
    }
  }

  // A set of names linked to start that no relation leaves is the whole component of start.
  lemma ClosedIsReached(counts: Counts, start: Name, names: set<Name>)
    requires start in names && names <= Reached(counts, start) && ClosedUnderLinks(counts, names)
    ensures names == Reached(counts, start)
  {
    forall x | x in Reached(counts, start) ensures x in names {
      var path :| ChainBetween(counts, path, start, x);
      ChainStaysInside(counts, path, names);
    }
  }

  // The for loop of one visit: the neighbours not visited yet join the queue in name order.
  method QueueNeighbours(neighbours: seq<Name>, unvisited0: set<Name>) returns (joining: seq<Name>, unvisited: set<Name>)
    requires Increasing(neighbours)
    ensures Distinct(joining) && Elements(joining) == Elements(neighbours) * unvisited0
    ensures unvisited == unvisited0 - Elements(neighbours)
  {
    joining, unvisited := [], unvisited0;
    IncreasingIsDistinct(neighbours);
    for i := 0 to |neighbours|
      invariant Distinct(joining) && Elements(joining) == Elements(neighbours[..i]) * unvisited0
      invariant unvisited == unvisited0 - Elements(neighbours[..i])
    {
      assert neighbours[..i + 1] == neighbours[..i] + [neighbours[i]];
      ElementsConcat(neighbours[..i], [neighbours[i]]);
      ElementsConcat(joining, [neighbours[i]]);
      if neighbours[i] in unvisited {
        assert neighbours[i] !in Elements(joining);
        unvisited := unvisited - {neighbours[i]};
        joining := joining + [neighbours[i]];
      }
    }
    assert neighbours[..|neighbours|] == neighbours;
  }

  // The invariant of the breadth first walk: what was found is the component so far and
  // the queue, without repeats; everything found is linked to start, and the neighbours
  // of the visited tables were found.
  ghost predicate Walk(counts: Counts, start: Name, all: set<Name>, component: seq<Name>, queue: seq<Name>, unvisited: set<Name>) {
    && Distinct(component + queue)
    && start in Elements(component) + Elements(queue)
    && unvisited == all - Elements(component) - Elements(queue)
    && Elements(component) + Elements(queue) <= all
    && Elements(component) + Elements(queue) <= Reached(counts, start)
    && forall x, y | x in component && Joined(counts, x, y) :: y in Elements(component) + Elements(queue)
  }

  lemma DistinctJoin(a: seq<Name>, b: seq<Name>)
    requires Distinct(a) && Distinct(b) && Elements(a) !! Elements(b)
    ensures Distinct(a + b)
  {
    forall i, j | 0 <= i < |a| <= j < |a + b| ensures (a + b)[i] != (a + b)[j] {
      assert a[i] in Elements(a) && b[j - |a|] in Elements(b);
    }
  }

  lemma WalkStep(counts: Counts, start: Name, all: set<Name>, component: seq<Name>, queue: seq<Name>,
                 unvisited: set<Name>, joining: seq<Name>)
    requires JoinedBothWays(counts) && ClosedUnderLinks(counts, all) && all <= counts.Keys
    requires Walk(counts, start, all, component, queue, unvisited) && queue != []
    requires Distinct(joining) && Elements(joining) == counts[queue[0]].Keys * unvisited
    ensures Walk(counts, start, all, component + [queue[0]], queue[1..] + joining, unvisited - counts[queue[0]].Keys)
  {
    var current, component', queue' := queue[0], component + [queue[0]], queue[1..] + joining;
    assert component' + queue' == (component + queue) + joining;
    DistinctJoin(component + queue, joining);
    assert queue == [current] + queue[1..];
    assert Elements(component') == Elements(component) + {current};
    assert Elements(queue) == {current} + Elements(queue[1..]);
    assert Elements(queue') == Elements(queue[1..]) + Elements(joining);
    forall y | Joined(counts, current, y) ensures y in Elements(component') + Elements(queue') {
      assert y in all;
    }
    forall y | y in joining ensures y in Reached(counts, start) {
      assert y in Elements(joining);
      LinkedStep(counts, start, current, y);
    }
  }

  // The inner while loop: breadth first from start over the tables not visited yet.
  method VisitComponent(counts: Counts, start: Name, unvisited0: set<Name>)
    returns (component: seq<Name>, unvisited: set<Name>)
    requires JoinedBothWays(counts) && start in unvisited0 && unvisited0 <= counts.Keys
    requires ClosedUnderLinks(counts, unvisited0)
    ensures Distinct(component) && Elements(component) == Reached(counts, start)
    ensures Reached(counts, start) <= unvisited0
    ensures unvisited == unvisited0 - Reached(counts, start)
  {
    component := [];
    var queue := [start];
    unvisited := unvisited0 - {start};
    LinkedToItself(counts, start);
    while |queue| > 0
      invariant Walk(counts, start, unvisited0, component, queue, unvisited)
      decreases |unvisited0| - |component|
    {
      var current := queue[0];
      assert current in Elements(queue);
      var joining, remaining := QueueNeighbours(Sort(counts[current].Keys), unvisited);
      WalkStep(counts, start, unvisited0, component, queue, unvisited, joining);
      component, queue, unvisited := component + [current], queue[1..] + joining, remaining;
      assert component == (component + queue)[..|component|];
      DistinctIsSmall(component, unvisited0);
    }
    assert component + queue == component;
    ClosedIsReached(counts, start, Elements(component));
  }

  lemma {:induction false} DistinctIsSmall(names: seq<Name>, s: set<Name>)
    requires Distinct(names) && Elements(names) <= s
    ensures |names| <= |s|
  {
    if names != [] {
      assert names[0] in Elements(names);
      DistinctIsSmall(names[1..], s - {names[0]});
    }
  }

  // Taking a whole component away leaves a set that no relation leaves.
  lemma RestIsClosed(counts: Counts, start: Name, unvisited: set<Name>)
    requires JoinedBothWays(counts) && ClosedUnderLinks(counts, unvisited)
    ensures ClosedUnderLinks(counts, unvisited - Reached(counts, start))
  {
    ReachedIsClosed(counts, start);
    forall x, y | x in unvisited - Reached(counts, start) && Joined(counts, x, y)
      ensures y in unvisited - Reached(counts, start)
    {
      assert Joined(counts, y, x);
    }
  }

  lemma FirstUnvisitedIsLeast(starts: seq<Name>, i: nat, unvisited: set<Name>)
    requires Increasing(starts) && i < |starts| && starts[i] in unvisited && unvisited <= Elements(starts)
    requires forall k | 0 <= k < i :: starts[k] !in unvisited
    ensures starts[i] == Least(unvisited)
  {
    var least := Least(unvisited);
    var k :| 0 <= k < |starts| && starts[k] == least;
    LessIsStrict(starts[i], least);
  }

  lemma ComponentsUnfold(counts: Counts, unvisited: set<Name>)
    requires unvisited != {} && unvisited <= counts.Keys
    ensures var reached := Reached(counts, Least(unvisited));
            ComponentsOf(counts, unvisited) == [Sort(reached)] + ComponentsOf(counts, unvisited - reached)
  {
    LinkedToItself(counts, Least(unvisited));
    assert Reached(counts, Least(unvisited)) + {Least(unvisited)} == Reached(counts, Least(unvisited));
  }

  // The outer loop's invariant: the components of the tables not visited complete the
  // list built so far.
  ghost predicate Collected(counts: Counts, components: seq<seq<Name>>, unvisited: set<Name>) {
    components + ComponentsOf(counts, unvisited) == ComponentsOf(counts, counts.Keys)
  }

  lemma CollectedStart(counts: Counts)
    requires JoinedBothWays(counts)
    ensures Collected(counts, [], counts.Keys) && ClosedUnderLinks(counts, counts.Keys)
  {
    assert forall x, y | Joined(counts, x, y) :: Joined(counts, y, x);
  }

  lemma CollectedStep(counts: Counts, components: seq<seq<Name>>, unvisited: set<Name>)
    requires unvisited != {} && unvisited <= counts.Keys && Collected(counts, components, unvisited)
    ensures var reached := Reached(counts, Least(unvisited));
            Collected(counts, components + [Sort(reached)], unvisited - reached)
  {
    ComponentsUnfold(counts, unvisited);
  }

  ghost predicate NoneBefore(starts: seq<Name>, i: nat, unvisited: set<Name>) {
    i <= |starts| && forall k | 0 <= k < i :: starts[k] !in unvisited
  }

  // The outer loop at starts[i].
  ghost predicate Collecting(counts: Counts, starts: seq<Name>, i: nat, components: seq<seq<Name>>, unvisited: set<Name>) {
    unvisited <= counts.Keys && ClosedUnderLinks(counts, unvisited) && NoneBefore(starts, i, unvisited)
    && Collected(counts, components, unvisited)
  }

  lemma NextStart(starts: seq<Name>, i: nat, unvisited: set<Name>, rest: set<Name>)
    requires i < |starts| && NoneBefore(starts, i, unvisited) && rest <= unvisited && starts[i] !in rest
    ensures NoneBefore(starts, i + 1, rest)
  {
  }

  method ConnectedComponents(counts: Counts) returns (components: seq<seq<Name>>)
    requires JoinedBothWays(counts)
    ensures components == ComponentsOf(counts, counts.Keys)
  {
    var unvisited := counts.Keys;
    var starts := Sort(unvisited);
    components := [];
    CollectedStart(counts);
    for i := 0 to |starts|
      invariant Collecting(counts, starts, i, components, unvisited)
    {
      ghost var before := unvisited;
      if starts[i] in unvisited {
        FirstUnvisitedIsLeast(starts, i, unvisited);
        components, unvisited := CollectComponent(counts, components, starts[i], unvisited);
      }
      NextStart(starts, i, before, unvisited);
    }
    NoneUnvisited(starts, unvisited);
    assert ComponentsOf(counts, {}) == [];
  }

  lemma NoneUnvisited(starts: seq<Name>, unvisited: set<Name>)
    requires unvisited <= Elements(starts) && forall k | 0 <= k < |starts| :: starts[k] !in unvisited
    ensures unvisited == {}
  {
  }

  // One turn of the outer loop.
  method CollectComponent(counts: Counts, components0: seq<seq<Name>>, start: Name, unvisited0: set<Name>)
    returns (components: seq<seq<Name>>, unvisited: set<Name>)
    requires JoinedBothWays(counts) && start in unvisited0 && start == Least(unvisited0)
    requires unvisited0 <= counts.Keys && ClosedUnderLinks(counts, unvisited0)
    requires Collected(counts, components0, unvisited0)
    ensures unvisited <= unvisited0 - {start} && ClosedUnderLinks(counts, unvisited)
    ensures Collected(counts, components, unvisited)
  {
    var component;
    component, unvisited := VisitComponent(counts, start, unvisited0);
    components := components0 + [Sorted(component)];
    CollectedStep(counts, components0, unvisited0);
    RestIsClosed(counts, start, unvisited0);
    LinkedToItself(counts, start);
  }

  lemma ReachedIsLinkClass(counts: Counts, start: Name, x: Name, y: Name)
    requires JoinedBothWays(counts) && x in Reached(counts, start)
    ensures y in Reached(counts, start) <==> Linked(counts, x, y)
  {
    LinkedIsSymmetric(counts, start, x);
    if y in Reached(counts, start) {
      LinkedIsTransitive(counts, x, start, y);
    }
    if Linked(counts, x, y) {
      LinkedIsTransitive(counts, start, x, y);
      LinkedIsSymmetric(counts, x, y);
      var path :| ChainBetween(counts, path, y, x);
    }
  }

  lemma SortStartsWithLeast(s: set<Name>, least: Name)
    requires least in s && forall x | x in s :: AtMost(least, x)
    ensures Sort(s)[0] == least
  {
    var r := Sort(s);
    assert least in Elements(r) && r[0] in Elements(r);
    LessIsStrict(least, r[0]);
  }

  ghost predicate LinkClass(counts: Counts, component: seq<Name>) {
    component != [] && Increasing(component)
    && forall x, y | x in component :: y in component <==> Linked(counts, x, y)
  }

  ghost predicate Covers(components: seq<seq<Name>>, names: set<Name>) {
    && (forall c | c in components :: Elements(c) <= names)
    && (forall x | x in names :: exists i :: 0 <= i < |components| && x in components[i])
  }

  ghost predicate ByLeastName(components: seq<seq<Name>>) {
    forall i, j | 0 <= i < j < |components| && components[i] != [] && components[j] != [] :: Less(components[i][0], components[j][0])
  }

  // The first component of a union of components, and what it leaves.
  lemma FirstComponent(counts: Counts, unvisited: set<Name>)
    requires JoinedBothWays(counts) && unvisited != {} && unvisited <= counts.Keys && ClosedUnderLinks(counts, unvisited)
    ensures var reached := Reached(counts, Least(unvisited));
            && Least(unvisited) in reached && reached <= unvisited
            && ClosedUnderLinks(counts, unvisited - reached)
            && |unvisited - reached| < |unvisited|
            && ComponentsOf(counts, unvisited) == [Sort(reached)] + ComponentsOf(counts, unvisited - reached)
  {
    var start := Least(unvisited);
    LinkedToItself(counts, start);
    ReachedIsInside(counts, start, unvisited);
    RestIsClosed(counts, start, unvisited);
    ComponentsUnfold(counts, unvisited);
    assert |unvisited| == |unvisited - Reached(counts, start)| + |Reached(counts, start)|;
  }

  // Components are exactly the classes of tables that chains of relations link.
  lemma {:induction false} ComponentsAreLinkClasses(counts: Counts, unvisited: set<Name>)
    requires JoinedBothWays(counts) && unvisited <= counts.Keys && ClosedUnderLinks(counts, unvisited)
    ensures forall c | c in ComponentsOf(counts, unvisited) :: LinkClass(counts, c)
    ensures Covers(ComponentsOf(counts, unvisited), unvisited)
    ensures ByLeastName(ComponentsOf(counts, unvisited))
    decreases |unvisited|
  {
    if unvisited != {} {
      var start := Least(unvisited);
      var reached := Reached(counts, start);
      FirstComponent(counts, unvisited);
      ComponentsAreLinkClasses(counts, unvisited - reached);
      FirstIsLinkClass(counts, start);
      ConsKeepsCover(Sort(reached), ComponentsOf(counts, unvisited - reached), unvisited);
      ConsKeepsOrder(start, Sort(reached), ComponentsOf(counts, unvisited - reached), unvisited);
    }
  }

  lemma ReachedIsInside(counts: Counts, start: Name, names: set<Name>)
    requires start in names && ClosedUnderLinks(counts, names)
    ensures Reached(counts, start) <= names
  {
    forall x | x in Reached(counts, start) ensures x in names {
      var path :| ChainBetween(counts, path, start, x);
      ChainStaysInside(counts, path, names);
    }
  }

  lemma FirstIsLinkClass(counts: Counts, start: Name)
    requires JoinedBothWays(counts) && start in counts
    ensures LinkClass(counts, Sort(Reached(counts, start)))
  {
    var component := Sort(Reached(counts, start));
    LinkedToItself(counts, start);
    assert start in Elements(component);
    forall x, y | x in component ensures y in component <==> Linked(counts, x, y) {
      assert x in Elements(component) && (y in component <==> y in Elements(component));
      ReachedIsLinkClass(counts, start, x, y);
    }
  }

  lemma ConsKeepsCover(first: seq<Name>, others: seq<seq<Name>>, names: set<Name>)
    requires Elements(first) <= names && Covers(others, names - Elements(first))
    ensures Covers([first] + others, names)
  {
    var all := [first] + others;
    forall x | x in names ensures exists i :: 0 <= i < |all| && x in all[i] {
      if x in Elements(first) {
        assert x in all[0];
      } else {
        assert x in names - Elements(first);
        var i :| 0 <= i < |others| && x in others[i];
        assert x in all[i + 1];
      }
    }
  }

  lemma ConsKeepsOrder(start: Name, first: seq<Name>, others: seq<seq<Name>>, names: set<Name>)
    requires start in Elements(first) && Elements(first) <= names && start == Least(names) && Increasing(first)
    requires Covers(others, names - Elements(first)) && ByLeastName(others)
    ensures ByLeastName([first] + others)
  {
    SortIsUnique(first);
    SortStartsWithLeast(Elements(first), start);
    forall j | 0 <= j < |others| && others[j] != [] ensures Less(start, others[j][0]) {
      assert others[j] in others && others[j][0] in Elements(others[j]);
    }
  }
}
