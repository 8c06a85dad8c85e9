/** figura/scripts/print-pdf.mjs: keepHeadingsWithNextBlock wraps every run of headings and
    the block that follows it in a group that a page break does not split. */
module KeepGroups {
  import opened Optional
  import opened HtmlTokens

  const HEADING_TAGS: set<string> := {"h1", "h2", "h3"}
  const KEPT_BLOCK_TAGS: set<string> := {"figure", "table", "p", "pre", "ul", "ol", "div", "blockquote"}
  const GROUP_TAG := "div"

  // What `\s` matches: ASCII white space, the no-break spaces and the Unicode separators.
  predicate IsWhite(c: char) {
    c in {' ', '\t', '\n', '\r', '\U{0B}', '\U{0C}', '\U{A0}', '\U{1680}', '\U{2028}', '\U{2029}', '\U{202F}', '\U{205F}', '\U{3000}', '\U{FEFF}'}
    || '\U{2000}' <= c <= '\U{200A}'
  }

  predicate IsSpace(token: Token) {
    token.Char? && IsWhite(token.c)
  }

  // `/\s*/y` from a position: the first token that is no white space.
  function NextElementStart(tokens: seq<Token>, pos: nat): (start: nat)
    requires pos <= |tokens|
    ensures pos <= start <= |tokens|
    ensures forall i | pos <= i < start :: IsSpace(tokens[i])
    ensures start < |tokens| ==> !IsSpace(tokens[start])
    decreases |tokens| - pos
  {
    if pos < |tokens| && IsSpace(tokens[pos]) then NextElementStart(tokens, pos + 1) else pos
  }

  // tagNameAt: the name of an open tag at a position.
  function TagAt(tokens: seq<Token>, pos: nat): Option<string> {
    if pos < |tokens| && (tokens[pos].Open? || tokens[pos].SelfClosed?) then Some(tokens[pos].tag) else None
  }

  predicate HeadingAt(tokens: seq<Token>, pos: nat) {
    var tag := TagAt(tokens, pos); tag.Some? && tag.value in HEADING_TAGS
  }

  predicate KeptAt(tokens: seq<Token>, pos: nat) {
    var tag := TagAt(tokens, pos); tag.Some? && tag.value in KEPT_BLOCK_TAGS
  }

  function EndAt(tokens: seq<Token>, pos: nat): (end: int)
    requires TagAt(tokens, pos).Some?
    ensures end == -1 || pos < end <= |tokens|
  {
    ElementEndFrom(tokens, pos, tokens[pos].tag, 0)
  }

  // Position -1 of a failed elementEnd, as `lastIndex` of an expression, is the start.
  function IndexOf(end: int): nat
    requires end >= -1
  {
    if end == -1 then 0 else end
  }

  // The next match of the heading expression, or the length of the document.
  function NextHeading(tokens: seq<Token>, from: nat): (pos: nat)
    requires from <= |tokens|
    ensures from <= pos <= |tokens| && (pos < |tokens| ==> HeadingAt(tokens, pos))
    ensures forall i | from <= i < pos :: !HeadingAt(tokens, i)
    decreases |tokens| - from
  {
    if from == |tokens| || HeadingAt(tokens, from) then from else NextHeading(tokens, from + 1)
  }

  // Every heading of the run from start closes.
  predicate RunCloses(tokens: seq<Token>, start: nat)
    requires HeadingAt(tokens, start)
    decreases |tokens| - start
  {
    var end := EndAt(tokens, start);
    end != -1 && (HeadingAt(tokens, NextElementStart(tokens, end)) ==> RunCloses(tokens, NextElementStart(tokens, end)))
  }

  // A run of headings: where its last heading ends, and what follows it.
  datatype Headings = Headings(headingsEnd: nat, block: nat)

  function HeadingRun(tokens: seq<Token>, start: nat): (run: Headings)
    requires HeadingAt(tokens, start) && RunCloses(tokens, start)
    ensures start < run.headingsEnd <= run.block <= |tokens| && !HeadingAt(tokens, run.block)
    decreases |tokens| - start
  {
    var end := EndAt(tokens, start);
    var block := NextElementStart(tokens, end);
    if HeadingAt(tokens, block) then HeadingRun(tokens, block) else Headings(end, block)
  }

  // The run closes, and so does the block behind it when it is of a kept kind.
  predicate TurnCloses(tokens: seq<Token>, start: nat)
    requires HeadingAt(tokens, start)
  {
    RunCloses(tokens, start)
    && (KeptAt(tokens, HeadingRun(tokens, start).block) ==> EndAt(tokens, HeadingRun(tokens, start).block) != -1)
  }

  // What the loop finds: a run of headings from start, the block after it, and where the
  // scan goes on. The block is kept with the headings when it is of a kept kind.
  datatype Found = Found(start: nat, run: Headings, kept: bool, end: nat)

  function FindGroup(tokens: seq<Token>, start: nat): (found: Found)
    requires HeadingAt(tokens, start) && TurnCloses(tokens, start)
    ensures found.start == start < found.end <= |tokens|
  {
    var run := HeadingRun(tokens, start);
    if KeptAt(tokens, run.block) then Found(start, run, true, EndAt(tokens, run.block)) else Found(start, run, false, run.headingsEnd)
  }

  // The first thing the scan from a position comes to that does not close: a heading of
  // the run that begins at `run`, or the block behind one.
  datatype Failure = Nothing | OpenHeading(run: nat) | OpenBlock

  function FirstFailure(tokens: seq<Token>, from: nat): (failure: Failure)
    requires from <= |tokens|
    ensures failure.OpenHeading? ==> from <= failure.run < |tokens| && HeadingAt(tokens, failure.run) && !RunCloses(tokens, failure.run)
    decreases |tokens| - from
  {
    var start := NextHeading(tokens, from);
    if start == |tokens| then Nothing
    else if !RunCloses(tokens, start) then OpenHeading(start)
    else if !TurnCloses(tokens, start) then OpenBlock
    else FirstFailure(tokens, FindGroup(tokens, start).end)
  }

  // Every heading and every block the scan visits closes.
  predicate VisitedClose(tokens: seq<Token>, from: nat)
    requires from <= |tokens|
  {
    FirstFailure(tokens, from).Nothing?
  }

  function FoundFrom(tokens: seq<Token>, from: nat): seq<Found>
    requires from <= |tokens| && VisitedClose(tokens, from)
    decreases |tokens| - from
  {
    var start := NextHeading(tokens, from);
    if start == |tokens| then []
    else var found := FindGroup(tokens, start); [found] + FoundFrom(tokens, found.end)
  }

  // ----- a heading that does not close

  // The inner loop goes on at the start of the document. The element that stands there
  // takes the place of the block when it is of a kept kind and closes.
  function FirstElement(tokens: seq<Token>): nat {
    NextElementStart(tokens, 0)
  }

  predicate CanGoOn(tokens: seq<Token>) {
    KeptAt(tokens, FirstElement(tokens)) && EndAt(tokens, FirstElement(tokens)) != -1
  }

  // The scan ends when all it visits from the start closes, or when a heading is the first
  // that does not, the first element of the document is a kept block that closes, and all
  // that is visited behind that block closes. KeepScan.ScanEndsIff: at no other document.
  predicate ScanEnds(tokens: seq<Token>) {
    EndsFrom(tokens, 0, CanGoOn(tokens))
  }

  predicate EndsFrom(tokens: seq<Token>, from: nat, canGoOn: bool)
    requires from <= |tokens| && (canGoOn ==> CanGoOn(tokens))
  {
    VisitedClose(tokens, from)
    || (FirstFailure(tokens, from).OpenHeading? && canGoOn && VisitedClose(tokens, EndAt(tokens, FirstElement(tokens))))
  }

  // Everything the loop finds, once past a heading that does not close if it can go on.
  function ScanFound(tokens: seq<Token>, from: nat, canGoOn: bool): seq<Found>
    requires from <= |tokens| && (canGoOn ==> CanGoOn(tokens))
    decreases canGoOn, |tokens| - from
  {
    var start := NextHeading(tokens, from);
    if start == |tokens| then []
    else if !RunCloses(tokens, start) then
      if !canGoOn then []
      else
        var end := EndAt(tokens, FirstElement(tokens));
        [Found(start, Headings(0, FirstElement(tokens)), true, end)] + ScanFound(tokens, end, false)
    else if !TurnCloses(tokens, start) then []
    else [FindGroup(tokens, start)] + ScanFound(tokens, FindGroup(tokens, start).end, canGoOn)
  }

  function AllFound(tokens: seq<Token>): seq<Found> {
    ScanFound(tokens, 0, CanGoOn(tokens))
  }

  lemma {:induction false} FoundIsAll(tokens: seq<Token>, from: nat, canGoOn: bool)
    requires from <= |tokens| && (canGoOn ==> CanGoOn(tokens)) && VisitedClose(tokens, from)
    ensures ScanFound(tokens, from, canGoOn) == FoundFrom(tokens, from)
    decreases |tokens| - from
  {
    var start := NextHeading(tokens, from);
    if start < |tokens| {
      FoundIsAll(tokens, FindGroup(tokens, start).end, canGoOn);
    }
  }

  // ----- the output

  datatype Out = Source(token: Token) | GroupOpen | GroupClose

  function Copied(tokens: seq<Token>, from: nat, stop: nat): seq<Out>
    requires from <= stop <= |tokens|
  {
    seq(stop - from, i requires 0 <= i < stop - from => Source(tokens[from + i]))
  }

  function Wrapped(tokens: seq<Token>, from: nat, found: seq<Found>): seq<Out>
    requires from <= |tokens| && InOrder(tokens, from, found)
    decreases |found|
  {
    if found == [] then Copied(tokens, from, |tokens|)
    else if !found[0].kept then Copied(tokens, from, found[0].end) + Wrapped(tokens, found[0].end, found[1..])
    else
      Copied(tokens, from, found[0].start) + [GroupOpen] + Copied(tokens, found[0].start, found[0].end) + [GroupClose]
      + Wrapped(tokens, found[0].end, found[1..])
  }

  // The runs follow one another without overlap.
  predicate InOrder(tokens: seq<Token>, from: nat, found: seq<Found>)
    decreases |found|
  {
    found == [] || (from <= found[0].start < found[0].end <= |tokens| && InOrder(tokens, found[0].end, found[1..]))
  }

  lemma {:induction false} FoundInOrder(tokens: seq<Token>, from: nat)
    requires from <= |tokens| && VisitedClose(tokens, from)
    ensures InOrder(tokens, from, FoundFrom(tokens, from))
    decreases |tokens| - from
  {
    var start := NextHeading(tokens, from);
    if start < |tokens| {
      FoundInOrder(tokens, FindGroup(tokens, start).end);
    }
  }

  // `html.slice(from, stop)`
  function Sliced(tokens: seq<Token>, from: nat, stop: nat): seq<Out>
    requires from <= |tokens| && stop <= |tokens|
  {
    if from <= stop then Copied(tokens, from, stop) else []
  }

  predicate Within(tokens: seq<Token>, found: seq<Found>) {
    forall i | 0 <= i < |found| :: found[i].start <= |tokens| && found[i].end <= |tokens|
  }

  // What the loop writes for what it finds, the input copied up to a position.
  function Emitted(tokens: seq<Token>, copiedUpTo: nat, found: seq<Found>): seq<Out>
    requires copiedUpTo <= |tokens| && Within(tokens, found)
    decreases |found|
  {
    if found == [] then Copied(tokens, copiedUpTo, |tokens|)
    else if !found[0].kept then Emitted(tokens, copiedUpTo, found[1..])
    else EmittedGroup(tokens, copiedUpTo, found[0].start, found[0].end) + Emitted(tokens, found[0].end, found[1..])
  }

  function EmittedGroup(tokens: seq<Token>, copiedUpTo: nat, start: nat, end: nat): seq<Out>
    requires copiedUpTo <= |tokens| && start <= |tokens| && end <= |tokens|
  {
    Sliced(tokens, copiedUpTo, start) + [GroupOpen] + Sliced(tokens, start, end) + [GroupClose]
  }

  lemma {:induction false} ScanFoundWithin(tokens: seq<Token>, from: nat, canGoOn: bool)
    requires from <= |tokens| && (canGoOn ==> CanGoOn(tokens))
    ensures Within(tokens, ScanFound(tokens, from, canGoOn))
    decreases canGoOn, |tokens| - from
  {
    var start := NextHeading(tokens, from);
    if start < |tokens| {
      if RunCloses(tokens, start) {
        if TurnCloses(tokens, start) {
          ScanFoundWithin(tokens, FindGroup(tokens, start).end, canGoOn);
        }
      } else if canGoOn {
        ScanFoundWithin(tokens, EndAt(tokens, FirstElement(tokens)), false);
      }
    }
  }

  // The inner while loop.
  method FollowHeadings(tokens: seq<Token>, start: nat) returns (groupEnd: int, blockStart: nat)
    requires HeadingAt(tokens, start) && (RunCloses(tokens, start) || !HeadingAt(tokens, FirstElement(tokens)))
    ensures RunCloses(tokens, start) ==> groupEnd >= 0 && Headings(groupEnd, blockStart) == HeadingRun(tokens, start)
    ensures !RunCloses(tokens, start) ==> groupEnd == -1 && blockStart == FirstElement(tokens)
  {
    groupEnd := ElementEnd(tokens, start, tokens[start].tag);
    blockStart := NextElementStart(tokens, IndexOf(groupEnd));
    while HeadingAt(tokens, blockStart)
      invariant -1 <= groupEnd <= |tokens| && blockStart == NextElementStart(tokens, IndexOf(groupEnd))
      invariant groupEnd == -1 ==> !RunCloses(tokens, start)
      invariant groupEnd != -1 ==> SameRun(tokens, start, groupEnd, blockStart)
      decreases if groupEnd == -1 then 0 else |tokens| - blockStart + 1
    {
      groupEnd := ElementEnd(tokens, blockStart, tokens[blockStart].tag);
      blockStart := NextElementStart(tokens, IndexOf(groupEnd));
    }
  }

  // The run from start goes on at the block, or ended in front of it.
  ghost predicate SameRun(tokens: seq<Token>, start: nat, groupEnd: nat, block: nat)
    requires HeadingAt(tokens, start)
  {
    if HeadingAt(tokens, block) then
      (RunCloses(tokens, start) <==> RunCloses(tokens, block))
      && (RunCloses(tokens, start) ==> HeadingRun(tokens, start) == HeadingRun(tokens, block))
    else RunCloses(tokens, start) && HeadingRun(tokens, start) == Headings(groupEnd, block)
  }

  // The whole output, with the loop at `from`.
  ghost function Pending(tokens: seq<Token>, kept: seq<Out>, copiedUpTo: nat, from: nat, canGoOn: bool): seq<Out>
    requires copiedUpTo <= |tokens| && from <= |tokens| && (canGoOn ==> CanGoOn(tokens))
  {
    ScanFoundWithin(tokens, from, canGoOn);
    kept + Emitted(tokens, copiedUpTo, ScanFound(tokens, from, canGoOn))
  }

  lemma OutRegroup(a: seq<Out>, b: seq<Out>, c: seq<Out>)
    ensures a + (b + c) == (a + b) + c
  {
  }

  // A turn that finds something: what it writes, and where the scan goes on.
  lemma PendingGoesOn(tokens: seq<Token>, kept: seq<Out>, copiedUpTo: nat, from: nat, canGoOn: bool, found: Found, after: bool)
    requires copiedUpTo <= |tokens| && from <= |tokens| && (canGoOn ==> CanGoOn(tokens)) && (after ==> CanGoOn(tokens))
    requires found.start <= |tokens| && found.end <= |tokens|
    requires ScanFound(tokens, from, canGoOn) == [found] + ScanFound(tokens, found.end, after)
    ensures Pending(tokens, kept, copiedUpTo, from, canGoOn)
            == if found.kept then Pending(tokens, kept + EmittedGroup(tokens, copiedUpTo, found.start, found.end), found.end, found.end, after)
               else Pending(tokens, kept, copiedUpTo, found.end, after)
  {
    var later := ScanFound(tokens, found.end, after);
    ScanFoundWithin(tokens, from, canGoOn);
    ScanFoundWithin(tokens, found.end, after);
    assert ([found] + later)[1..] == later;
    if found.kept {
      OutRegroup(kept, EmittedGroup(tokens, copiedUpTo, found.start, found.end), Emitted(tokens, found.end, later));
    }
  }

  // One turn of the outer loop that found a heading.
  method KeepNext(tokens: seq<Token>, kept0: seq<Out>, copied0: nat, heading: nat, ghost from: nat, ghost canGoOn: bool)
    returns (kept: seq<Out>, copiedUpTo: nat, lastIndex: nat, ghost after: bool)
    requires copied0 <= |tokens| && from <= |tokens| && heading == NextHeading(tokens, from) < |tokens|
    requires (canGoOn ==> CanGoOn(tokens)) && EndsFrom(tokens, from, canGoOn)
    ensures copiedUpTo <= |tokens| && lastIndex <= |tokens| && (after ==> CanGoOn(tokens)) && EndsFrom(tokens, lastIndex, after)
    ensures (after == canGoOn && from < lastIndex) || (canGoOn && !after)
    ensures Pending(tokens, kept, copiedUpTo, lastIndex, after) == Pending(tokens, kept0, copied0, from, canGoOn)
  {
    var groupEnd, blockStart := FollowHeadings(tokens, heading);
    after := canGoOn && RunCloses(tokens, heading);
    if !KeptAt(tokens, blockStart) {
      PendingGoesOn(tokens, kept0, copied0, from, canGoOn, FindGroup(tokens, heading), after);
      return kept0, copied0, IndexOf(groupEnd), after;
    }
    var blockEnd := ElementEnd(tokens, blockStart, tokens[blockStart].tag);
    PendingGoesOn(tokens, kept0, copied0, from, canGoOn, ScanFound(tokens, from, canGoOn)[0], after);
    kept := kept0 + EmittedGroup(tokens, copied0, heading, blockEnd);
    return kept, blockEnd, blockEnd, after;
  }

  method KeepHeadingsWithNextBlock(tokens: seq<Token>) returns (kept: seq<Out>)
    requires ScanEnds(tokens)
    ensures Within(tokens, AllFound(tokens)) && kept == Emitted(tokens, 0, AllFound(tokens))
  {
    kept := [];
    var copiedUpTo: nat, lastIndex: nat := 0, 0;
    ghost var canGoOn := CanGoOn(tokens);
    ScanFoundWithin(tokens, 0, canGoOn);
    assert Pending(tokens, [], 0, 0, canGoOn) == Emitted(tokens, 0, AllFound(tokens));
    var heading := NextHeading(tokens, lastIndex);
    while heading < |tokens|
      invariant copiedUpTo <= |tokens| && lastIndex <= |tokens| && heading == NextHeading(tokens, lastIndex)
      invariant (canGoOn ==> CanGoOn(tokens)) && EndsFrom(tokens, lastIndex, canGoOn)
      invariant Pending(tokens, kept, copiedUpTo, lastIndex, canGoOn) == Emitted(tokens, 0, AllFound(tokens))
      decreases canGoOn, |tokens| - lastIndex
    {
      kept, copiedUpTo, lastIndex, canGoOn := KeepNext(tokens, kept, copiedUpTo, heading, lastIndex, canGoOn);
      heading := NextHeading(tokens, lastIndex);
    }
    kept := kept + Copied(tokens, copiedUpTo, |tokens|);
  }

  function GroupOf(tokens: seq<Token>, found: Found): seq<Out>
    requires found.start <= found.end <= |tokens|
  {
    [GroupOpen] + Copied(tokens, found.start, found.end) + [GroupClose]
  }

  lemma CopiedConcat(tokens: seq<Token>, a: nat, b: nat, c: nat)
    requires a <= b <= c <= |tokens|
    ensures Copied(tokens, a, b) + Copied(tokens, b, c) == Copied(tokens, a, c)
  {
  }

  lemma WrappedCons(tokens: seq<Token>, from: nat, found: Found, later: seq<Found>)
    requires from <= found.start < found.end <= |tokens| && InOrder(tokens, found.end, later)
    ensures InOrder(tokens, from, [found] + later)
    ensures Wrapped(tokens, from, [found] + later)
            == (if found.kept then Copied(tokens, from, found.start) + GroupOf(tokens, found) else Copied(tokens, from, found.end))
               + Wrapped(tokens, found.end, later)
  {
    assert ([found] + later)[1..] == later;
    if found.kept {
      assert Copied(tokens, from, found.start) + [GroupOpen] + Copied(tokens, found.start, found.end) + [GroupClose]
             == Copied(tokens, from, found.start) + GroupOf(tokens, found);
    }
  }

  // Runs in order are written one behind the other.
  lemma {:induction false} EmittedIsWrapped(tokens: seq<Token>, copiedUpTo: nat, from: nat, found: seq<Found>)
    requires copiedUpTo <= from <= |tokens| && InOrder(tokens, from, found) && Within(tokens, found)
    ensures Emitted(tokens, copiedUpTo, found) == Copied(tokens, copiedUpTo, from) + Wrapped(tokens, from, found)
    decreases |found|
  {
    if found == [] {
      CopiedConcat(tokens, copiedUpTo, from, |tokens|);
    } else {
      var first, later := found[0], found[1..];
      assert found == [first] + later;
      WrappedCons(tokens, from, first, later);
      if first.kept {
        EmittedIsWrapped(tokens, first.end, first.end, later);
        GroupInPlace(tokens, copiedUpTo, from, first, Wrapped(tokens, first.end, later));
      } else {
        EmittedIsWrapped(tokens, copiedUpTo, first.end, later);
        CopiedConcat(tokens, copiedUpTo, from, first.end);
        OutRegroup(Copied(tokens, copiedUpTo, from), Copied(tokens, from, first.end), Wrapped(tokens, first.end, later));
      }
    }
  }

  lemma GroupInPlace(tokens: seq<Token>, copiedUpTo: nat, from: nat, found: Found, rest: seq<Out>)
    requires copiedUpTo <= from <= found.start < found.end <= |tokens|
    ensures EmittedGroup(tokens, copiedUpTo, found.start, found.end) + (Copied(tokens, found.end, found.end) + rest)
            == Copied(tokens, copiedUpTo, from) + (Copied(tokens, from, found.start) + GroupOf(tokens, found) + rest)
  {
    CopiedConcat(tokens, copiedUpTo, from, found.start);
    assert Copied(tokens, found.end, found.end) + rest == rest;
    var x, y, group := Copied(tokens, copiedUpTo, from), Copied(tokens, from, found.start), GroupOf(tokens, found);
    assert EmittedGroup(tokens, copiedUpTo, found.start, found.end) == x + y + group;
    OutRegroup(x, y, group);
    OutRegroup(x, y + group, rest);
  }

  // ----- erasing the wrappers gives back the document

  function ErasedOne(out: Out): seq<Token> {
    if out.Source? then [out.token] else []
  }

  function Erased(out: seq<Out>): seq<Token> {
    if out == [] then [] else ErasedOne(out[0]) + Erased(out[1..])
  }

  lemma TokensRegroup(a: seq<Token>, b: seq<Token>, c: seq<Token>)
    ensures a + (b + c) == (a + b) + c
  {
  }

  lemma {:induction false} ErasedConcat(a: seq<Out>, b: seq<Out>)
    ensures Erased(a + b) == Erased(a) + Erased(b)
  {
    if a == [] {
      assert a + b == b;
    } else {
      assert (a + b)[1..] == a[1..] + b;
      ErasedConcat(a[1..], b);
      TokensRegroup(ErasedOne(a[0]), Erased(a[1..]), Erased(b));
    }
  }

  lemma {:induction false} ErasedCopied(tokens: seq<Token>, from: nat, stop: nat)
    requires from <= stop <= |tokens|
    ensures Erased(Copied(tokens, from, stop)) == tokens[from..stop]
    decreases |tokens| - from
  {
    if from < stop {
      assert Copied(tokens, from, stop)[1..] == Copied(tokens, from + 1, stop);
      ErasedCopied(tokens, from + 1, stop);
      assert tokens[from..stop] == [tokens[from]] + tokens[from + 1..stop];
    }
  }

  lemma ErasedGroup(tokens: seq<Token>, found: Found)
    requires found.start <= found.end <= |tokens|
    ensures Erased(GroupOf(tokens, found)) == tokens[found.start..found.end]
  {
    var inside := Copied(tokens, found.start, found.end);
    ErasedCopied(tokens, found.start, found.end);
    ErasedConcat([GroupOpen], inside);
    ErasedConcat([GroupOpen] + inside, [GroupClose]);
    assert Erased([GroupOpen]) == [] && Erased([GroupClose]) == [] by {
      assert [GroupOpen][1..] == [] && [GroupClose][1..] == [];
    }
  }

  lemma ErasedKept(tokens: seq<Token>, from: nat, found: Found, rest: seq<Out>)
    requires from <= found.start < found.end <= |tokens| && Erased(rest) == tokens[found.end..]
    ensures Erased(Copied(tokens, from, found.start) + GroupOf(tokens, found) + rest) == tokens[from..]
  {
    var copied := Copied(tokens, from, found.start);
    ErasedCopied(tokens, from, found.start);
    ErasedGroup(tokens, found);
    ErasedConcat(copied, GroupOf(tokens, found));
    ErasedConcat(copied + GroupOf(tokens, found), rest);
    InThree(tokens, from, found.start, found.end);
  }

  lemma InThree(tokens: seq<Token>, a: nat, b: nat, c: nat)
    requires a <= b <= c <= |tokens|
    ensures tokens[a..] == tokens[a..b] + tokens[b..c] + tokens[c..]
  {
    assert tokens[a..] == tokens[a..b] + tokens[b..];
    assert tokens[b..] == tokens[b..c] + tokens[c..];
  }

  lemma ErasedSkipped(tokens: seq<Token>, from: nat, stop: nat, rest: seq<Out>)
    requires from <= stop <= |tokens| && Erased(rest) == tokens[stop..]
    ensures Erased(Copied(tokens, from, stop) + rest) == tokens[from..]
  {
    ErasedCopied(tokens, from, stop);
    ErasedConcat(Copied(tokens, from, stop), rest);
    assert tokens[from..] == tokens[from..stop] + tokens[stop..];
  }

  lemma {:induction false} ErasingGivesTheDocument(tokens: seq<Token>, from: nat, found: seq<Found>)
    requires from <= |tokens| && InOrder(tokens, from, found)
    ensures Erased(Wrapped(tokens, from, found)) == tokens[from..]
    decreases |found|
  {
    if found == [] {
      ErasedCopied(tokens, from, |tokens|);
      assert tokens[from..|tokens|] == tokens[from..];
    } else {
      var first, later := found[0], found[1..];
      assert found == [first] + later;
      ErasingGivesTheDocument(tokens, first.end, later);
      WrappedCons(tokens, from, first, later);
      if first.kept {
        ErasedKept(tokens, from, first, Wrapped(tokens, first.end, later));
      } else {
        ErasedSkipped(tokens, from, first.end, Wrapped(tokens, first.end, later));
      }
    }
  }

  lemma {:induction false} ErasedFoundFrom(tokens: seq<Token>, copiedUpTo: nat, from: nat)
    requires copiedUpTo <= from <= |tokens| && VisitedClose(tokens, from)
    ensures Within(tokens, FoundFrom(tokens, from)) && Erased(Emitted(tokens, copiedUpTo, FoundFrom(tokens, from))) == tokens[copiedUpTo..]
  {
    FoundIsAll(tokens, from, false);
    ScanFoundWithin(tokens, from, false);
    FoundInOrder(tokens, from);
    EmittedIsWrapped(tokens, copiedUpTo, from, FoundFrom(tokens, from));
    ErasingGivesTheDocument(tokens, from, FoundFrom(tokens, from));
    ErasedSkipped(tokens, copiedUpTo, from, Wrapped(tokens, from, FoundFrom(tokens, from)));
  }
}
