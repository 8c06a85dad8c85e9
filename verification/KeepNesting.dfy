/** The groups of figura/scripts/print-pdf.mjs, keepHeadingsWithNextBlock, on well nested
    documents: the output stays well nested and every group is a maximal run. */
module KeepNesting {
  import opened HtmlTokens
  import opened KeepGroups
  import opened KeepWhole

  // ----- the output stays well nested

  // The output as markup: the wrappers are div elements.
  function Rendered(out: seq<Out>): seq<Token> {
    seq(|out|, i requires 0 <= i < |out| =>
      match out[i] case Source(token) => token case GroupOpen => Open(GROUP_TAG) case GroupClose => Close(GROUP_TAG))
  }

  lemma RenderedConcat(a: seq<Out>, b: seq<Out>)
    ensures Rendered(a + b) == Rendered(a) + Rendered(b)
  {
  }

  lemma {:induction false} SpacesAreBalanced(tokens: seq<Token>)
    requires forall i | 0 <= i < |tokens| :: IsSpace(tokens[i])
    ensures Balanced(tokens)
  {
    if tokens != [] {
      SpacesAreBalanced(tokens[1..]);
    }
  }

  lemma ThroughSpaces(tokens: seq<Token>, a: nat, b: nat, c: nat)
    requires a <= b <= c <= |tokens| && Balanced(tokens[a..b]) && forall i | b <= i < c :: IsSpace(tokens[i])
    ensures Balanced(tokens[a..c])
  {
    SpacesAreBalanced(tokens[b..c]);
    BalancedConcat(tokens[a..b], tokens[b..c]);
    assert tokens[a..b] + tokens[b..c] == tokens[a..c];
  }

  lemma ThenBalanced(tokens: seq<Token>, a: nat, b: nat, c: nat)
    requires a <= b <= c <= |tokens| && Balanced(tokens[a..b]) && Balanced(tokens[b..c])
    ensures Balanced(tokens[a..c])
  {
    BalancedConcat(tokens[a..b], tokens[b..c]);
    assert tokens[a..b] + tokens[b..c] == tokens[a..c];
  }

  lemma {:induction false} HeadingRunIsBalanced(tokens: seq<Token>, start: nat)
    requires WellNested(tokens) && HeadingAt(tokens, start) && RunIsWhole(tokens, start) && RunCloses(tokens, start)
    ensures var run := HeadingRun(tokens, start);
            Balanced(tokens[start..run.headingsEnd]) && Balanced(tokens[start..run.block])
    decreases |tokens| - start
  {
    var end := EndAt(tokens, start);
    var block := NextElementStart(tokens, end);
    WholeIsBalanced(tokens, start);
    ThroughSpaces(tokens, start, end, block);
    if HeadingAt(tokens, block) {
      HeadingRunIsBalanced(tokens, block);
      var run := HeadingRun(tokens, block);
      ThenBalanced(tokens, start, block, run.headingsEnd);
      ThenBalanced(tokens, start, block, run.block);
    }
  }

  lemma GroupIsBalanced(tokens: seq<Token>, start: nat)
    requires WellNested(tokens) && HeadingAt(tokens, start) && TurnIsWhole(tokens, start)
    ensures var found := FindGroup(tokens, start); Balanced(tokens[start..found.end])
  {
    HeadingRunIsBalanced(tokens, start);
    var run := HeadingRun(tokens, start);
    if KeptAt(tokens, run.block) {
      WholeIsBalanced(tokens, run.block);
      ThenBalanced(tokens, start, run.block, EndAt(tokens, run.block));
    }
  }

  ghost predicate GroupsBalanced(tokens: seq<Token>, found: seq<Found>) {
    forall i | 0 <= i < |found| :: found[i].start <= found[i].end <= |tokens| && Balanced(tokens[found[i].start..found[i].end])
  }

  lemma Stretches(tokens: seq<Token>, a: nat, b: nat, c: nat)
    requires a <= b <= c <= |tokens| && StackAfter(tokens[a..c], []).Stack?
    ensures StackAfter(tokens[a..b], []).Stack?
    ensures Balanced(tokens[a..b]) ==> StackAfter(tokens[b..c], []).Stack?
  {
    assert tokens[a..c] == tokens[a..b] + tokens[b..c];
    StackAfterConcat(tokens[a..b], tokens[b..c], []);
  }

  // A stretch that begins with a run of headings and closes nothing outside it holds whole
  // headings, and the rest of it closes nothing outside it either.
  lemma {:induction false} StretchOfRun(tokens: seq<Token>, start: nat, stop: nat)
    requires WellNested(tokens) && HeadingAt(tokens, start) && RunCloses(tokens, start)
    requires HeadingRun(tokens, start).headingsEnd <= stop <= |tokens| && StackAfter(tokens[start..stop], []).Stack?
    ensures RunIsWhole(tokens, start)
    ensures HeadingRun(tokens, start).block <= stop ==> StackAfter(tokens[HeadingRun(tokens, start).block..stop], []).Stack?
    decreases |tokens| - start
  {
    var end := EndAt(tokens, start);
    var block := NextElementStart(tokens, end);
    Stretches(tokens, start, end, stop);
    StretchIsWholeIff(tokens, start);
    WholeIsBalanced(tokens, start);
    if block <= stop {
      ThroughSpaces(tokens, start, end, block);
      Stretches(tokens, start, block, stop);
    }
    if HeadingAt(tokens, block) {
      StretchOfRun(tokens, block, stop);
    }
  }

  // What the loop finds opens and closes whole elements exactly when everything it takes in
  // is whole.
  lemma TurnIsWholeIff(tokens: seq<Token>, start: nat)
    requires WellNested(tokens) && HeadingAt(tokens, start) && TurnCloses(tokens, start)
    ensures Balanced(tokens[start..FindGroup(tokens, start).end]) <==> TurnIsWhole(tokens, start)
  {
    var found := FindGroup(tokens, start);
    if TurnIsWhole(tokens, start) {
      GroupIsBalanced(tokens, start);
    }
    if Balanced(tokens[start..found.end]) {
      StretchOfRun(tokens, start, found.end);
      if KeptAt(tokens, found.run.block) {
        StretchIsWholeIff(tokens, found.run.block);
      }
    }
  }

  lemma BalancedCons(tokens: seq<Token>, first: Found, later: seq<Found>)
    requires first.start <= first.end <= |tokens|
    ensures GroupsBalanced(tokens, [first] + later) <==> Balanced(tokens[first.start..first.end]) && GroupsBalanced(tokens, later)
  {
    var found := [first] + later;
    assert found[0] == first && forall i | 0 <= i < |later| :: found[i + 1] == later[i];
  }

  // In a well nested document where everything the scan visits closes.
  lemma {:induction false} FoundAreBalancedIff(tokens: seq<Token>, from: nat)
    requires WellNested(tokens) && from <= |tokens| && VisitedClose(tokens, from)
    ensures GroupsBalanced(tokens, FoundFrom(tokens, from)) <==> VisitedAreWhole(tokens, from)
    decreases |tokens| - from
  {
    var start := NextHeading(tokens, from);
    if start < |tokens| {
      var found := FindGroup(tokens, start);
      TurnIsWholeIff(tokens, start);
      FoundAreBalancedIff(tokens, found.end);
      BalancedCons(tokens, found, FoundFrom(tokens, found.end));
    }
  }

  lemma RenderedCopied(tokens: seq<Token>, from: nat, stop: nat)
    requires from <= stop <= |tokens|
    ensures Rendered(Copied(tokens, from, stop)) == tokens[from..stop]
  {
  }

  // Wrapping balanced tokens in an element changes no stack.
  lemma WrappedIsBalanced(tag: string, inside: seq<Token>)
    requires Balanced(inside)
    ensures Balanced([Open(tag)] + inside + [Close(tag)])
  {
    BalancedKeepsStack(inside, [tag]);
    StackAfterConcat([Open(tag)], inside, []);
    StackAfterConcat([Open(tag)] + inside, [Close(tag)], []);
    assert [] + [tag] == [tag];
    assert [Open(tag)][1..] == [] && [Close(tag)][1..] == [];
  }

  lemma GroupKeepsStack(tokens: seq<Token>, found: Found, tags: seq<string>)
    requires found.start <= found.end <= |tokens| && Balanced(tokens[found.start..found.end])
    ensures StackAfter(Rendered(GroupOf(tokens, found)), tags) == StackAfter(tokens[found.start..found.end], tags) == Stack(tags)
  {
    var inside := Copied(tokens, found.start, found.end);
    RenderedConcat([GroupOpen], inside);
    RenderedConcat([GroupOpen] + inside, [GroupClose]);
    RenderedCopied(tokens, found.start, found.end);
    assert Rendered([GroupOpen]) == [Open(GROUP_TAG)] && Rendered([GroupClose]) == [Close(GROUP_TAG)];
    WrappedIsBalanced(GROUP_TAG, tokens[found.start..found.end]);
    BalancedKeepsStack(Rendered(GroupOf(tokens, found)), tags);
    BalancedKeepsStack(tokens[found.start..found.end], tags);
  }

  // Two stretches with the same effect on the stack can stand for each other.
  lemma SameFront(a: seq<Token>, b: seq<Token>, x: seq<Token>, y: seq<Token>, tags: seq<string>)
    requires StackAfter(a, tags) == StackAfter(b, tags)
    requires StackAfter(a, tags).Stack? ==> StackAfter(x, StackAfter(a, tags).tags) == StackAfter(y, StackAfter(a, tags).tags)
    ensures StackAfter(a + x, tags) == StackAfter(b + y, tags)
  {
    StackAfterConcat(a, x, tags);
    StackAfterConcat(b, y, tags);
  }

  lemma {:induction false} WrappedKeepsStack(tokens: seq<Token>, from: nat, found: seq<Found>, tags: seq<string>)
    requires from <= |tokens| && InOrder(tokens, from, found) && GroupsBalanced(tokens, found)
    ensures StackAfter(Rendered(Wrapped(tokens, from, found)), tags) == StackAfter(tokens[from..], tags)
    decreases |found|
  {
    if found == [] {
      RenderedCopied(tokens, from, |tokens|);
      assert tokens[from..|tokens|] == tokens[from..];
    } else {
      var first, later := found[0], found[1..];
      assert found == [first] + later;
      WrappedCons(tokens, from, first, later);
      var front := if first.kept then Copied(tokens, from, first.start) + GroupOf(tokens, first) else Copied(tokens, from, first.end);
      FrontKeepsStack(tokens, from, first, tags);
      var mid := StackAfter(tokens[from..first.end], tags);
      if mid.Stack? {
        WrappedKeepsStack(tokens, first.end, later, mid.tags);
      }
      SameFront(Rendered(front), tokens[from..first.end], Rendered(Wrapped(tokens, first.end, later)), tokens[first.end..], tags);
      RenderedConcat(front, Wrapped(tokens, first.end, later));
      assert tokens[from..] == tokens[from..first.end] + tokens[first.end..];
    }
  }

  lemma FrontKeepsStack(tokens: seq<Token>, from: nat, first: Found, tags: seq<string>)
    requires from <= first.start <= first.end <= |tokens| && Balanced(tokens[first.start..first.end])
    ensures var front := if first.kept then Copied(tokens, from, first.start) + GroupOf(tokens, first) else Copied(tokens, from, first.end);
            StackAfter(Rendered(front), tags) == StackAfter(tokens[from..first.end], tags)
  {
    RenderedCopied(tokens, from, first.end);
    if first.kept {
      RenderedCopied(tokens, from, first.start);
      RenderedConcat(Copied(tokens, from, first.start), GroupOf(tokens, first));
      var mid := StackAfter(tokens[from..first.start], tags);
      if mid.Stack? { GroupKeepsStack(tokens, first, mid.tags); }
      SameFront(Rendered(Copied(tokens, from, first.start)), tokens[from..first.start],
                Rendered(GroupOf(tokens, first)), tokens[first.start..first.end], tags);
      assert tokens[from..first.end] == tokens[from..first.start] + tokens[first.start..first.end];
    }
  }

  // On a well nested document where everything the scan visits is whole, everything closes,
  // the rewrite only inserts wrappers, and its output is well nested.
  lemma KeepGroupsAreSound(tokens: seq<Token>)
    requires WellNested(tokens) && VisitedAreWhole(tokens, 0)
    ensures VisitedClose(tokens, 0) && ScanEnds(tokens)
    ensures AllFound(tokens) == FoundFrom(tokens, 0) && InOrder(tokens, 0, AllFound(tokens)) && Within(tokens, AllFound(tokens))
    ensures var out := Emitted(tokens, 0, AllFound(tokens));
            Erased(out) == tokens && WellNested(Rendered(out))
  {
    WholeCloses(tokens, 0);
    var found := FoundFrom(tokens, 0);
    FoundIsAll(tokens, 0, CanGoOn(tokens));
    FoundInOrder(tokens, 0);
    ScanFoundWithin(tokens, 0, CanGoOn(tokens));
    EmittedIsWrapped(tokens, 0, 0, found);
    assert Copied(tokens, 0, 0) + Wrapped(tokens, 0, found) == Wrapped(tokens, 0, found);
    ErasingGivesTheDocument(tokens, 0, found);
    FoundAreBalancedIff(tokens, 0);
    WrappedKeepsStack(tokens, 0, found, []);
    assert tokens[0..] == tokens;
  }

  // ----- what a group holds

  // Where the element after the one at pos starts.
  function After(tokens: seq<Token>, pos: nat): nat
    requires TagAt(tokens, pos).Some? && TrueEndFrom(tokens, pos, 0) != -1
  {
    NextElementStart(tokens, TrueEndFrom(tokens, pos, 0))
  }

  // Headings one after the other, from the first to the block after the last.
  ghost predicate HeadingChain(tokens: seq<Token>, heads: seq<nat>, block: nat) {
    heads != [] && forall i | 0 <= i < |heads| :: NextInChain(tokens, heads, block, i)
  }

  ghost predicate NextInChain(tokens: seq<Token>, heads: seq<nat>, block: nat, i: nat)
    requires i < |heads|
  {
    HeadingAt(tokens, heads[i]) && TrueEndFrom(tokens, heads[i], 0) != -1
    && After(tokens, heads[i]) == if i + 1 < |heads| then heads[i + 1] else block
  }

  // A maximal run of headings: no heading goes right before it, none follows it. The block
  // after it belongs to the group when it is of a kept kind, as a whole and alone.
  ghost predicate MaximalGroup(tokens: seq<Token>, found: Found) {
    && (exists heads :: HeadingChain(tokens, heads, found.run.block) && heads[0] == found.start)
    && !HeadingAt(tokens, found.run.block)
    && (forall k | 0 <= k < found.start && HeadingAt(tokens, k) :: TrueEndFrom(tokens, k, 0) != -1 && After(tokens, k) != found.start)
    && (found.kept <==> KeptAt(tokens, found.run.block))
    && (found.kept ==> found.end == TrueEndFrom(tokens, found.run.block, 0))
  }

  lemma {:induction false} HeadingRunIsChain(tokens: seq<Token>, start: nat) returns (heads: seq<nat>)
    requires WellNested(tokens) && HeadingAt(tokens, start) && RunIsWhole(tokens, start) && RunCloses(tokens, start)
    ensures HeadingChain(tokens, heads, HeadingRun(tokens, start).block) && heads[0] == start
    decreases |tokens| - start
  {
    WholeIsBalanced(tokens, start);
    var block := NextElementStart(tokens, EndAt(tokens, start));
    assert After(tokens, start) == block;
    if HeadingAt(tokens, block) {
      var later := HeadingRunIsChain(tokens, block);
      ChainCons(tokens, start, later, HeadingRun(tokens, block).block);
      heads := [start] + later;
    } else {
      heads := [start];
      assert NextInChain(tokens, heads, block, 0);
    }
  }

  lemma ChainCons(tokens: seq<Token>, start: nat, later: seq<nat>, block: nat)
    requires HeadingChain(tokens, later, block)
    requires HeadingAt(tokens, start) && TrueEndFrom(tokens, start, 0) != -1 && After(tokens, start) == later[0]
    ensures HeadingChain(tokens, [start] + later, block)
  {
    var heads := [start] + later;
    forall i | 0 <= i < |heads| ensures NextInChain(tokens, heads, block, i) {
      if i > 0 {
        assert NextInChain(tokens, later, block, i - 1);
      }
    }
  }

  // ----- an inner heading has its neighbour inside the same element

  lemma {:induction false} TrueEndIsClose(tokens: seq<Token>, pos: nat, depth: nat)
    requires pos <= |tokens| && depth >= 1 && TrueEndFrom(tokens, pos, depth) != -1
    ensures tokens[TrueEndFrom(tokens, pos, depth) - 1].Close?
    decreases |tokens| - pos
  {
    var next := if tokens[pos].Open? then depth + 1 else if tokens[pos].Close? && depth > 0 then depth - 1 else depth;
    if next != 0 {
      TrueEndIsClose(tokens, pos + 1, next);
    }
  }

  lemma InnerNeighbourIsInside(tokens: seq<Token>, p: nat, k: nat)
    requires p < k < |tokens| && tokens[p].Open? && TagAt(tokens, k).Some?
    requires TrueEndFrom(tokens, p, 0) != -1 && k < TrueEndFrom(tokens, p, 0)
    ensures TrueEndFrom(tokens, k, 0) != -1 && After(tokens, k) < TrueEndFrom(tokens, p, 0)
  {
    if tokens[k].Open? {
      InnerEndsFirst(tokens, p + 1, 1, k);
    }
    TrueEndIsClose(tokens, p + 1, 1);
    var close := TrueEndFrom(tokens, p, 0) - 1;
    assert !IsSpace(tokens[close]);
  }

  // What the scan up to `from` has settled: no heading before it is followed by a heading
  // from there on.
  ghost predicate Settled(tokens: seq<Token>, from: nat) {
    forall k | 0 <= k < from && HeadingAt(tokens, k) ::
      TrueEndFrom(tokens, k, 0) != -1 && (After(tokens, k) < from || !HeadingAt(tokens, After(tokens, k)))
  }

  ghost predicate SettledBetween(tokens: seq<Token>, from: nat, stop: nat) {
    forall k | from <= k < stop && HeadingAt(tokens, k) ::
      TrueEndFrom(tokens, k, 0) != -1 && (After(tokens, k) < stop || !HeadingAt(tokens, After(tokens, k)))
  }

  lemma ElementSettles(tokens: seq<Token>, p: nat)
    requires WellNested(tokens) && IsWhole(tokens, p)
    ensures TrueEndFrom(tokens, p, 0) != -1 && SettledBetween(tokens, p + 1, TrueEndFrom(tokens, p, 0))
  {
    WholeIsBalanced(tokens, p);
    forall k | p < k < TrueEndFrom(tokens, p, 0) && HeadingAt(tokens, k)
      ensures TrueEndFrom(tokens, k, 0) != -1 && After(tokens, k) < TrueEndFrom(tokens, p, 0)
    {
      InnerNeighbourIsInside(tokens, p, k);
    }
  }

  lemma SpacesSettle(tokens: seq<Token>, from: nat, a: nat, stop: nat)
    requires a <= stop <= |tokens| && SettledBetween(tokens, from, a) && forall i | a <= i < stop :: IsSpace(tokens[i])
    ensures SettledBetween(tokens, from, stop)
  {
  }

  lemma {:induction false} HeadingRunSettles(tokens: seq<Token>, start: nat)
    requires WellNested(tokens) && HeadingAt(tokens, start) && RunIsWhole(tokens, start) && RunCloses(tokens, start)
    ensures SettledBetween(tokens, start, HeadingRun(tokens, start).headingsEnd)
    ensures SettledBetween(tokens, start, HeadingRun(tokens, start).block)
    decreases |tokens| - start
  {
    var end := EndAt(tokens, start);
    var block := NextElementStart(tokens, end);
    var run := HeadingRun(tokens, start);
    ElementSettles(tokens, start);
    WholeIsBalanced(tokens, start);
    assert After(tokens, start) == block;
    if HeadingAt(tokens, block) {
      HeadingRunSettles(tokens, block);
      SpacesSettle(tokens, start + 1, end, block);
      JoinSettled(tokens, start, block, run.headingsEnd);
      JoinSettled(tokens, start, block, run.block);
    } else {
      assert SettledBetween(tokens, start, end);
      SpacesSettle(tokens, start, end, block);
    }
  }

  lemma JoinSettled(tokens: seq<Token>, start: nat, mid: nat, stop: nat)
    requires start < mid < stop <= |tokens| && HeadingAt(tokens, start) && TrueEndFrom(tokens, start, 0) != -1 && After(tokens, start) == mid
    requires SettledBetween(tokens, start + 1, mid) && SettledBetween(tokens, mid, stop)
    ensures SettledBetween(tokens, start, stop)
  {
  }

  lemma GroupSettles(tokens: seq<Token>, start: nat)
    requires WellNested(tokens) && HeadingAt(tokens, start) && TurnIsWhole(tokens, start)
    ensures SettledBetween(tokens, start, FindGroup(tokens, start).end)
  {
    var run := HeadingRun(tokens, start);
    HeadingRunSettles(tokens, start);
    if KeptAt(tokens, run.block) {
      ElementSettles(tokens, run.block);
      WholeIsBalanced(tokens, run.block);
      AddBlock(tokens, start, run.block, EndAt(tokens, run.block));
    }
  }

  lemma AddBlock(tokens: seq<Token>, start: nat, block: nat, stop: nat)
    requires start <= block < stop <= |tokens| && !HeadingAt(tokens, block)
    requires SettledBetween(tokens, start, block) && SettledBetween(tokens, block + 1, stop)
    ensures SettledBetween(tokens, start, stop)
  {
  }

  // Every run of headings the loop finds is a maximal group, and every heading of the
  // document lies in one of them.
  lemma {:induction false} GroupsAreMaximal(tokens: seq<Token>, from: nat)
    requires WellNested(tokens) && from <= |tokens| && VisitedAreWhole(tokens, from) && Settled(tokens, from)
    ensures VisitedClose(tokens, from)
    ensures forall found | found in FoundFrom(tokens, from) :: MaximalGroup(tokens, found)
    ensures forall k | from <= k < |tokens| && HeadingAt(tokens, k) :: Covered(FoundFrom(tokens, from), k)
    decreases |tokens| - from
  {
    WholeCloses(tokens, from);
    var start := NextHeading(tokens, from);
    if start < |tokens| {
      var found := FindGroup(tokens, start);
      var later := FoundFrom(tokens, found.end);
      GroupSettles(tokens, start);
      assert Settled(tokens, found.end);
      GroupsAreMaximal(tokens, found.end);
      GroupIsMaximal(tokens, from, start);
      assert FoundFrom(tokens, from) == [found] + later;
      forall k | from <= k < |tokens| && HeadingAt(tokens, k) ensures Covered([found] + later, k) {
        CoveredCons(found, later, k);
      }
    }
  }

  ghost predicate Covered(found: seq<Found>, k: nat) {
    exists i :: 0 <= i < |found| && found[i].start <= k < found[i].end
  }

  lemma CoveredCons(first: Found, later: seq<Found>, k: nat)
    requires first.start <= k < first.end || Covered(later, k)
    ensures Covered([first] + later, k)
  {
    var found := [first] + later;
    if first.start <= k < first.end {
      assert found[0].start <= k < found[0].end;
    } else {
      var i :| 0 <= i < |later| && later[i].start <= k < later[i].end;
      assert found[i + 1].start <= k < found[i + 1].end;
    }
  }

  lemma GroupIsMaximal(tokens: seq<Token>, from: nat, start: nat)
    requires WellNested(tokens) && from <= |tokens| && Settled(tokens, from)
    requires start == NextHeading(tokens, from) < |tokens| && TurnIsWhole(tokens, start)
    ensures MaximalGroup(tokens, FindGroup(tokens, start))
  {
    var heads := HeadingRunIsChain(tokens, start);
    var found := FindGroup(tokens, start);
    assert HeadingChain(tokens, heads, found.run.block) && heads[0] == found.start;
    if KeptAt(tokens, found.run.block) {
      WholeIsBalanced(tokens, found.run.block);
    }
  }

  // ----- a block that is not whole

  // `<blockquote><h1>x</h1><blockquote><blockquote/></blockquote></blockquote>`
  function Crossing(): seq<Token> {
    [Open("blockquote"), Open("h1"), Char('x'), Close("h1"), Open("blockquote"), SelfClosed("blockquote"), Close("blockquote"), Close("blockquote")]
  }

  lemma OneIsBalanced(token: Token)
    requires token.SelfClosed? || token.Char?
    ensures Balanced([token])
  {
    assert [token][1..] == [];
  }

  lemma CrossingIsNested()
    ensures WellNested(Crossing()) && Balanced(Crossing()[1..7])
  {
    var heading := [Open("h1")] + [Char('x')] + [Close("h1")];
    var block := [Open("blockquote")] + [SelfClosed("blockquote")] + [Close("blockquote")];
    OneIsBalanced(Char('x'));
    OneIsBalanced(SelfClosed("blockquote"));
    WrappedIsBalanced("h1", [Char('x')]);
    WrappedIsBalanced("blockquote", [SelfClosed("blockquote")]);
    BalancedConcat(heading, block);
    WrappedIsBalanced("blockquote", heading + block);
    assert Crossing()[1..7] == heading + block;
    assert Crossing() == [Open("blockquote")] + (heading + block) + [Close("blockquote")];
  }

  lemma CrossingIsFound()
    ensures var tokens := Crossing();
            VisitedClose(tokens, 0) && FoundFrom(tokens, 0) == [Found(1, Headings(4, 4), true, 8)]
  {
    var tokens := Crossing();
    assert "blockquote"[0] == 'b' && "h1"[0] == 'h';
    assert HeadingAt(tokens, 1) && !HeadingAt(tokens, 0) && KeptAt(tokens, 4) && !HeadingAt(tokens, 4);
    assert EndAt(tokens, 1) == 4 by {
      assert ElementEndFrom(tokens, 3, "h1", 1) == ElementEndFrom(tokens, 2, "h1", 1) == 4;
    }
    assert EndAt(tokens, 4) == 8 by {
      assert ElementEndFrom(tokens, 7, "blockquote", 1) == ElementEndFrom(tokens, 6, "blockquote", 2) == ElementEndFrom(tokens, 5, "blockquote", 1) == 8;
    }
    assert NextHeading(tokens, 0) == 1 && NextElementStart(tokens, 4) == 4 && NextHeading(tokens, 8) == 8;
    assert HeadingRun(tokens, 1) == Headings(4, 4);
    assert FirstFailure(tokens, 8) == Nothing && FoundFrom(tokens, 8) == [];
  }

  lemma CrossingIsWritten()
    ensures var tokens, found := Crossing(), [Found(1, Headings(4, 4), true, 8)];
            Rendered(Emitted(tokens, 0, found))
            == [Open("blockquote")] + [Open(GROUP_TAG)] + tokens[1..7] + [Close("blockquote"), Close(GROUP_TAG)]
  {
    var tokens, found := Crossing(), [Found(1, Headings(4, 4), true, 8)];
    assert found[1..] == [];
    var out := Emitted(tokens, 0, found);
    assert out == Copied(tokens, 0, 1) + [GroupOpen] + Copied(tokens, 1, 8) + [GroupClose] + Copied(tokens, 8, 8);
  }

  // The inner block seems to end where the outer one does, and the wrapper crosses it.
  lemma NamesakeCrossesTheGroup()
    ensures var tokens := Crossing();
            WellNested(tokens) && VisitedClose(tokens, 0) && !VisitedAreWhole(tokens, 0)
            && Within(tokens, AllFound(tokens)) && !WellNested(Rendered(Emitted(tokens, 0, AllFound(tokens))))
  {
    var tokens := Crossing();
    CrossingIsNested();
    CrossingIsFound();
    FoundIsAll(tokens, 0, CanGoOn(tokens));
    ScanFoundWithin(tokens, 0, CanGoOn(tokens));
    CrossingIsWritten();
    CrossedIsBroken(tokens[1..7]);
    if VisitedAreWhole(tokens, 0) {
      KeepGroupsAreSound(tokens);
    }
  }

  lemma OpenPushes(tag: string, tags: seq<string>)
    ensures StackAfter([Open(tag)], tags) == Stack(tags + [tag])
  {
    assert [Open(tag)][1..] == [];
  }

  lemma CrossedIsBroken(inside: seq<Token>)
    requires Balanced(inside)
    ensures !WellNested([Open("blockquote")] + [Open(GROUP_TAG)] + inside + [Close("blockquote"), Close(GROUP_TAG)])
  {
    var before, after, tags := [Open("blockquote")] + [Open(GROUP_TAG)], [Close("blockquote"), Close(GROUP_TAG)], ["blockquote", GROUP_TAG];
    OpenPushes("blockquote", []);
    OpenPushes(GROUP_TAG, ["blockquote"]);
    StackAfterConcat([Open("blockquote")], [Open(GROUP_TAG)], []);
    assert [] + ["blockquote"] == ["blockquote"] && ["blockquote"] + [GROUP_TAG] == tags;
    BalancedKeepsStack(inside, tags);
    StackAfterConcat(before, inside, []);
    StackAfterConcat(before + inside, after, []);
    assert "blockquote"[0] != GROUP_TAG[0];
  }
}
