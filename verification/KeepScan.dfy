/** When the scan of figura/scripts/print-pdf.mjs, keepHeadingsWithNextBlock, comes to an
    end, and when its output still holds the whole document. */
module KeepScan {
  import opened HtmlTokens
  import opened KeepGroups

  // The two loops one step at a time: the outer one about to look for a heading, the inner
  // one with the end of the last heading and the start of what follows it.
  datatype Scan = Looking(lastIndex: nat) | Following(groupEnd: int, block: nat) | Finished

  ghost predicate InDocument(tokens: seq<Token>, scan: Scan) {
    match scan
    case Looking(lastIndex) => lastIndex <= |tokens|
    case Following(groupEnd, _) => -1 <= groupEnd <= |tokens|
    case Finished => true
  }

  // `groupEnd = elementEnd(...); blockStart = nextElementStart(html, groupEnd)`
  ghost function Entered(tokens: seq<Token>, heading: nat): (next: Scan)
    requires HeadingAt(tokens, heading)
    ensures InDocument(tokens, next)
  {
    var end := EndAt(tokens, heading);
    Following(end, NextElementStart(tokens, IndexOf(end)))
  }

  ghost function ScanStep(tokens: seq<Token>, scan: Scan): (next: Scan)
    requires InDocument(tokens, scan)
    ensures InDocument(tokens, next)
  {
    match scan
    case Looking(lastIndex) =>
      var heading := NextHeading(tokens, lastIndex);
      if heading == |tokens| then Finished else Entered(tokens, heading)
    case Following(groupEnd, block) =>
      if HeadingAt(tokens, block) then Entered(tokens, block)
      else if KeptAt(tokens, block) then Looking(IndexOf(EndAt(tokens, block)))
      else Looking(IndexOf(groupEnd))
    case Finished => Finished
  }

  ghost function ScanSteps(tokens: seq<Token>, scan: Scan, n: nat): (next: Scan)
    requires InDocument(tokens, scan)
    ensures InDocument(tokens, next)
    decreases n
  {
    if n == 0 then scan else ScanSteps(tokens, ScanStep(tokens, scan), n - 1)
  }

  lemma OneStepFirst(tokens: seq<Token>, scan: Scan, n: nat)
    requires InDocument(tokens, scan) && n > 0
    ensures ScanSteps(tokens, scan, n) == ScanSteps(tokens, ScanStep(tokens, scan), n - 1)
  {
  }

  lemma {:induction false} StepsAdd(tokens: seq<Token>, scan: Scan, m: nat, n: nat)
    requires InDocument(tokens, scan)
    ensures ScanSteps(tokens, scan, m + n) == ScanSteps(tokens, ScanSteps(tokens, scan, m), n)
    decreases m
  {
    if m > 0 {
      StepsAdd(tokens, ScanStep(tokens, scan), m - 1, n);
      OneStepFirst(tokens, scan, m);
      OneStepFirst(tokens, scan, m + n);
    }
  }

  lemma {:induction false} FinishedStays(tokens: seq<Token>, n: nat)
    ensures ScanSteps(tokens, Finished, n) == Finished
    decreases n
  {
    if n > 0 {
      FinishedStays(tokens, n - 1);
    }
  }

  ghost predicate Ends(tokens: seq<Token>, scan: Scan)
    requires InDocument(tokens, scan)
  {
    exists n: nat :: ScanSteps(tokens, scan, n) == Finished
  }

  // What comes later ends exactly when what comes before does.
  lemma LaterEnds(tokens: seq<Token>, scan: Scan, n: nat)
    requires InDocument(tokens, scan)
    ensures Ends(tokens, scan) <==> Ends(tokens, ScanSteps(tokens, scan, n))
  {
    var later := ScanSteps(tokens, scan, n);
    if Ends(tokens, scan) {
      var m: nat :| ScanSteps(tokens, scan, m) == Finished;
      FinishedStays(tokens, n);
      StepsAdd(tokens, scan, m, n);
      StepsAdd(tokens, scan, n, m);
      assert ScanSteps(tokens, later, m) == Finished;
    }
    if Ends(tokens, later) {
      var m: nat :| ScanSteps(tokens, later, m) == Finished;
      StepsAdd(tokens, scan, n, m);
      assert ScanSteps(tokens, scan, n + m) == Finished;
    }
  }

  // A scan that comes back to where it was never ends.
  lemma {:induction false} CycleNeverEnds(tokens: seq<Token>, scan: Scan, n: nat, m: nat)
    requires InDocument(tokens, scan) && scan != Finished && n > 0 && ScanSteps(tokens, scan, n) == scan
    ensures ScanSteps(tokens, scan, m) != Finished
    decreases m
  {
    if m >= n {
      CycleNeverEnds(tokens, scan, n, m - n);
      StepsAdd(tokens, scan, n, m - n);
    } else if ScanSteps(tokens, scan, m) == Finished {
      StepsAdd(tokens, scan, m, n - m);
      FinishedStays(tokens, n - m);
    }
  }

  lemma NeverEnds(tokens: seq<Token>, scan: Scan, n: nat)
    requires InDocument(tokens, scan) && scan != Finished && n > 0 && ScanSteps(tokens, scan, n) == scan
    ensures !Ends(tokens, scan)
  {
    if Ends(tokens, scan) {
      var m: nat :| ScanSteps(tokens, scan, m) == Finished;
      CycleNeverEnds(tokens, scan, n, m);
    }
  }

  // ----- the way from a position to the first thing that does not close

  // The inner loop after an elementEnd that failed.
  ghost function Lost(tokens: seq<Token>): Scan {
    Following(-1, FirstElement(tokens))
  }

  lemma {:induction false} RunIsFollowed(tokens: seq<Token>, start: nat) returns (n: nat)
    requires HeadingAt(tokens, start)
    ensures RunCloses(tokens, start) ==>
              ScanSteps(tokens, Entered(tokens, start), n) == Following(HeadingRun(tokens, start).headingsEnd, HeadingRun(tokens, start).block)
    ensures !RunCloses(tokens, start) ==> ScanSteps(tokens, Entered(tokens, start), n) == Lost(tokens)
    decreases |tokens| - start
  {
    var end := EndAt(tokens, start);
    n := 0;
    if end != -1 && HeadingAt(tokens, NextElementStart(tokens, end)) {
      var block := NextElementStart(tokens, end);
      assert ScanStep(tokens, Entered(tokens, start)) == Entered(tokens, block);
      var m := RunIsFollowed(tokens, block);
      n := m + 1;
    }
  }

  lemma OneMore(tokens: seq<Token>, scan: Scan, n: nat)
    requires InDocument(tokens, scan)
    ensures ScanSteps(tokens, scan, n + 1) == ScanStep(tokens, ScanSteps(tokens, scan, n))
  {
    var later := ScanSteps(tokens, scan, n);
    StepsAdd(tokens, scan, n, 1);
    assert ScanSteps(tokens, later, 1) == ScanSteps(tokens, ScanStep(tokens, later), 0);
  }

  ghost predicate AtFailure(tokens: seq<Token>, from: nat, scan: Scan)
    requires from <= |tokens|
  {
    match FirstFailure(tokens, from)
    case Nothing => scan == Finished
    case OpenBlock => scan == Looking(0)
    case OpenHeading(_) => scan == Lost(tokens)
  }

  // One turn of the outer loop: to the end of what it finds, or to what does not close.
  lemma TurnIsFollowed(tokens: seq<Token>, from: nat) returns (n: nat)
    requires from <= |tokens| && NextHeading(tokens, from) < |tokens|
    ensures n > 0
    ensures var start := NextHeading(tokens, from);
            if TurnCloses(tokens, start) then ScanSteps(tokens, Looking(from), n) == Looking(FindGroup(tokens, start).end)
            else AtFailure(tokens, from, ScanSteps(tokens, Looking(from), n))
  {
    var start := NextHeading(tokens, from);
    var m := RunIsFollowed(tokens, start);
    n := m + 1;
    assert ScanSteps(tokens, Looking(from), n) == ScanSteps(tokens, Entered(tokens, start), m);
    if RunCloses(tokens, start) {
      OneMore(tokens, Looking(from), n);
      n := n + 1;
    }
  }

  lemma {:induction false} ReachesFailure(tokens: seq<Token>, from: nat) returns (n: nat)
    requires from <= |tokens|
    ensures n > 0 && AtFailure(tokens, from, ScanSteps(tokens, Looking(from), n))
    decreases |tokens| - from
  {
    var start := NextHeading(tokens, from);
    if start == |tokens| {
      n := 1;
      assert ScanSteps(tokens, Looking(from), 1) == ScanSteps(tokens, Finished, 0);
    } else {
      n := TurnIsFollowed(tokens, from);
      if TurnCloses(tokens, start) {
        var later := FindGroup(tokens, start).end;
        var m := ReachesFailure(tokens, later);
        StepsAdd(tokens, Looking(from), n, m);
        n := n + m;
      }
    }
  }

  // White space holds no heading, so a document that begins with one is scanned from it.
  lemma {:induction false} FirstElementIsFirstHeading(tokens: seq<Token>, from: nat)
    requires from <= |tokens| && HeadingAt(tokens, NextElementStart(tokens, from))
    ensures NextHeading(tokens, from) == NextElementStart(tokens, from)
    decreases |tokens| - from
  {
    if from < |tokens| && IsSpace(tokens[from]) {
      FirstElementIsFirstHeading(tokens, from + 1);
    }
  }

  // ----- when the scan ends

  // Lost at a first element behind which the scan does not go on, it is lost for good.
  lemma LostForGood(tokens: seq<Token>)
    requires FirstFailure(tokens, 0).OpenHeading? && !CanGoOn(tokens)
    ensures !Ends(tokens, Looking(0))
  {
    var n := ReachesFailure(tokens, 0);
    var lost := Lost(tokens);
    OneMore(tokens, Looking(0), n);
    if HeadingAt(tokens, FirstElement(tokens)) {
      FirstElementIsFirstHeading(tokens, 0);
      assert ScanStep(tokens, Looking(0)) == ScanStep(tokens, lost);
      assert ScanSteps(tokens, lost, n) == ScanSteps(tokens, ScanStep(tokens, Looking(0)), n - 1) == lost;
      NeverEnds(tokens, lost, n);
      LaterEnds(tokens, Looking(0), n);
    } else {
      NeverEnds(tokens, Looking(0), n + 1);
    }
  }

  // Lost at a first element that closes, it goes on behind it.
  lemma GoesOn(tokens: seq<Token>, n: nat, m: nat)
    requires CanGoOn(tokens) && ScanSteps(tokens, Looking(0), n) == Lost(tokens)
    ensures var end := EndAt(tokens, FirstElement(tokens));
            ScanSteps(tokens, Looking(0), n + 1 + m) == ScanSteps(tokens, Lost(tokens), m + 1) == ScanSteps(tokens, Looking(end), m)
  {
    assert ScanStep(tokens, Lost(tokens)) == Looking(EndAt(tokens, FirstElement(tokens)));
    StepsAdd(tokens, Looking(0), n, m + 1);
  }

  lemma GoesOnToTheEnd(tokens: seq<Token>, n: nat)
    requires CanGoOn(tokens) && ScanSteps(tokens, Looking(0), n) == Lost(tokens)
    requires VisitedClose(tokens, EndAt(tokens, FirstElement(tokens)))
    ensures Ends(tokens, Looking(0))
  {
    var m := ReachesFailure(tokens, EndAt(tokens, FirstElement(tokens)));
    GoesOn(tokens, n, m);
    assert ScanSteps(tokens, Looking(0), n + 1 + m) == Finished;
  }

  lemma GoesInCircles(tokens: seq<Token>, n: nat)
    requires CanGoOn(tokens) && ScanSteps(tokens, Looking(0), n) == Lost(tokens)
    requires !VisitedClose(tokens, EndAt(tokens, FirstElement(tokens)))
    ensures !Ends(tokens, Looking(0))
  {
    var end := EndAt(tokens, FirstElement(tokens));
    var m := ReachesFailure(tokens, end);
    GoesOn(tokens, n, m);
    if FirstFailure(tokens, end).OpenBlock? {
      NeverEnds(tokens, Looking(0), n + 1 + m);
    } else {
      NeverEnds(tokens, Lost(tokens), m + 1);
      LaterEnds(tokens, Looking(0), n);
    }
  }

  lemma BehindFirstElement(tokens: seq<Token>)
    requires FirstFailure(tokens, 0).OpenHeading? && CanGoOn(tokens)
    ensures Ends(tokens, Looking(0)) <==> VisitedClose(tokens, EndAt(tokens, FirstElement(tokens)))
  {
    var n := ReachesFailure(tokens, 0);
    if VisitedClose(tokens, EndAt(tokens, FirstElement(tokens))) {
      GoesOnToTheEnd(tokens, n);
    } else {
      GoesInCircles(tokens, n);
    }
  }

  // The exact condition, in terms of what the scan visits.
  lemma ScanEndsIff(tokens: seq<Token>)
    ensures Ends(tokens, Looking(0)) <==> ScanEnds(tokens)
  {
    var n := ReachesFailure(tokens, 0);
    match FirstFailure(tokens, 0)
    case Nothing =>
    case OpenBlock => NeverEnds(tokens, Looking(0), n);
    case OpenHeading(_) =>
      if CanGoOn(tokens) {
        BehindFirstElement(tokens);
      } else {
        LostForGood(tokens);
      }
  }

  // ----- when a scan that ends keeps the document

  ghost function Between(tokens: seq<Token>, start: nat, end: nat): seq<Token>
    requires start <= |tokens| && end <= |tokens|
  {
    if start <= end then tokens[start..end] else []
  }

  // What a scan that goes on behind the first element leaves of the document: all of it up
  // to the heading that does not close, and all of it behind the first element.
  ghost function Left(tokens: seq<Token>, copiedUpTo: nat, heading: nat, end: nat): seq<Token>
    requires copiedUpTo <= heading <= |tokens| && end <= |tokens|
  {
    tokens[copiedUpTo..heading] + Between(tokens, heading, end) + tokens[end..]
  }

  lemma ErasedSliced(tokens: seq<Token>, from: nat, stop: nat)
    requires from <= |tokens| && stop <= |tokens|
    ensures Erased(Sliced(tokens, from, stop)) == Between(tokens, from, stop)
  {
    if from <= stop { ErasedCopied(tokens, from, stop); }
  }

  lemma WrappersAreErased()
    ensures Erased([GroupOpen]) == [] && Erased([GroupClose]) == []
  {
    assert [GroupOpen][1..] == [] && [GroupClose][1..] == [];
  }

  lemma ErasedGrouped(before: seq<Out>, inside: seq<Out>)
    ensures Erased(before + [GroupOpen] + inside + [GroupClose]) == Erased(before) + Erased(inside)
  {
    WrappersAreErased();
    ErasedConcat(before, [GroupOpen]);
    ErasedConcat(before + [GroupOpen], inside);
    ErasedConcat(before + [GroupOpen] + inside, [GroupClose]);
  }

  lemma ErasedEmittedGroup(tokens: seq<Token>, copiedUpTo: nat, start: nat, end: nat)
    requires copiedUpTo <= start <= |tokens| && end <= |tokens|
    ensures Erased(EmittedGroup(tokens, copiedUpTo, start, end)) == tokens[copiedUpTo..start] + Between(tokens, start, end)
  {
    ErasedSliced(tokens, copiedUpTo, start);
    ErasedSliced(tokens, start, end);
    ErasedGrouped(Sliced(tokens, copiedUpTo, start), Sliced(tokens, start, end));
  }

  lemma EmittedCons(tokens: seq<Token>, copiedUpTo: nat, first: Found, later: seq<Found>)
    requires copiedUpTo <= first.start <= |tokens| && first.end <= |tokens| && Within(tokens, later)
    ensures Within(tokens, [first] + later)
    ensures Erased(Emitted(tokens, copiedUpTo, [first] + later))
            == if first.kept
               then tokens[copiedUpTo..first.start] + Between(tokens, first.start, first.end) + Erased(Emitted(tokens, first.end, later))
               else Erased(Emitted(tokens, copiedUpTo, later))
  {
    assert ([first] + later)[1..] == later;
    if first.kept {
      ErasedEmittedGroup(tokens, copiedUpTo, first.start, first.end);
      ErasedConcat(EmittedGroup(tokens, copiedUpTo, first.start, first.end), Emitted(tokens, first.end, later));
    }
  }

  lemma LeftBehindGroup(tokens: seq<Token>, copiedUpTo: nat, start: nat, mid: nat, heading: nat, end: nat)
    requires copiedUpTo <= start <= mid <= heading <= |tokens| && end <= |tokens|
    ensures tokens[copiedUpTo..start] + Between(tokens, start, mid) + Left(tokens, mid, heading, end) == Left(tokens, copiedUpTo, heading, end)
  {
    assert tokens[copiedUpTo..heading] == tokens[copiedUpTo..start] + tokens[start..mid] + tokens[mid..heading];
  }

  ghost predicate LeftFrom(tokens: seq<Token>, copiedUpTo: nat, from: nat)
    requires copiedUpTo <= from <= |tokens| && CanGoOn(tokens) && FirstFailure(tokens, from).OpenHeading?
  {
    var found := ScanFound(tokens, from, true);
    Within(tokens, found)
    && Erased(Emitted(tokens, copiedUpTo, found)) == Left(tokens, copiedUpTo, FirstFailure(tokens, from).run, EndAt(tokens, FirstElement(tokens)))
  }

  lemma LeftAtOpenHeading(tokens: seq<Token>, copiedUpTo: nat, from: nat)
    requires copiedUpTo <= from <= |tokens| && CanGoOn(tokens) && FirstFailure(tokens, from) == OpenHeading(NextHeading(tokens, from))
    requires VisitedClose(tokens, EndAt(tokens, FirstElement(tokens)))
    ensures LeftFrom(tokens, copiedUpTo, from)
  {
    var end, start := EndAt(tokens, FirstElement(tokens)), NextHeading(tokens, from);
    var first := Found(start, Headings(0, FirstElement(tokens)), true, end);
    FoundIsAll(tokens, end, false);
    ErasedFoundFrom(tokens, end, end);
    EmittedCons(tokens, copiedUpTo, first, FoundFrom(tokens, end));
    assert ScanFound(tokens, from, true) == [first] + FoundFrom(tokens, end);
  }

  lemma LeftAtGroup(tokens: seq<Token>, copiedUpTo: nat, from: nat, found: Found)
    requires copiedUpTo <= from <= found.start < found.end <= |tokens| && CanGoOn(tokens)
    requires FirstFailure(tokens, from).OpenHeading? && FirstFailure(tokens, from) == FirstFailure(tokens, found.end)
    requires ScanFound(tokens, from, true) == [found] + ScanFound(tokens, found.end, true)
    requires LeftFrom(tokens, if found.kept then found.end else copiedUpTo, found.end)
    ensures LeftFrom(tokens, copiedUpTo, from)
  {
    EmittedCons(tokens, copiedUpTo, found, ScanFound(tokens, found.end, true));
    if found.kept {
      LeftBehindGroup(tokens, copiedUpTo, found.start, found.end, FirstFailure(tokens, from).run, EndAt(tokens, FirstElement(tokens)));
    }
  }

  lemma {:induction false} LeftBehindFirstElement(tokens: seq<Token>, copiedUpTo: nat, from: nat)
    requires copiedUpTo <= from <= |tokens| && CanGoOn(tokens) && FirstFailure(tokens, from).OpenHeading?
    requires VisitedClose(tokens, EndAt(tokens, FirstElement(tokens)))
    ensures LeftFrom(tokens, copiedUpTo, from)
    decreases |tokens| - from
  {
    var start := NextHeading(tokens, from);
    if !RunCloses(tokens, start) {
      LeftAtOpenHeading(tokens, copiedUpTo, from);
    } else {
      var found := FindGroup(tokens, start);
      LeftBehindFirstElement(tokens, if found.kept then found.end else copiedUpTo, found.end);
      LeftAtGroup(tokens, copiedUpTo, from, found);
    }
  }

  // The heading that does not close is not where the scan goes on.
  lemma OpenHeadingIsElsewhere(tokens: seq<Token>, from: nat, end: nat)
    requires from <= |tokens| && end <= |tokens| && FirstFailure(tokens, from).OpenHeading? && VisitedClose(tokens, end)
    ensures FirstFailure(tokens, from).run != end
  {
    if HeadingAt(tokens, end) {
      assert NextHeading(tokens, end) == end;
    }
  }

  lemma LeftIsAll(tokens: seq<Token>, heading: nat, end: nat)
    requires heading <= |tokens| && end <= |tokens|
    ensures Left(tokens, 0, heading, end) == tokens <==> heading <= end
  {
    if heading <= end {
      assert Left(tokens, 0, heading, end) == tokens;
    } else {
      assert |Left(tokens, 0, heading, end)| == |tokens| + heading - end;
    }
  }

  // A scan that ends gives back the document, but for the wrappers, exactly when all it
  // visits closes, or the first element ends behind the heading that does not close.
  lemma DocumentIsKeptIff(tokens: seq<Token>)
    requires ScanEnds(tokens)
    ensures Within(tokens, AllFound(tokens))
    ensures Erased(Emitted(tokens, 0, AllFound(tokens))) == tokens
            <==> VisitedClose(tokens, 0) || FirstFailure(tokens, 0).run < EndAt(tokens, FirstElement(tokens))
  {
    if VisitedClose(tokens, 0) {
      FoundIsAll(tokens, 0, CanGoOn(tokens));
      ErasedFoundFrom(tokens, 0, 0);
    } else {
      var heading, end := FirstFailure(tokens, 0).run, EndAt(tokens, FirstElement(tokens));
      LeftBehindFirstElement(tokens, 0, 0);
      OpenHeadingIsElsewhere(tokens, 0, end);
      LeftIsAll(tokens, heading, end);
    }
  }

  // ----- three documents

  // `<h1>a`: the inner loop comes back to the heading.
  lemma HeadingAloneNeverEnds()
    ensures !Ends([Open("h1"), Char('a')], Looking(0))
  {
    var tokens := [Open("h1"), Char('a')];
    assert HeadingAt(tokens, 0) && FirstElement(tokens) == 0;
    assert EndAt(tokens, 0) == -1 by {
      assert ElementEndFrom(tokens, 2, "h1", 1) == ElementEndFrom(tokens, 1, "h1", 1) == -1;
    }
    assert FirstFailure(tokens, 0) == OpenHeading(0);
    assert !KeptAt(tokens, 0) by {
      assert "h1"[0] == 'h';
    }
    ScanEndsIff(tokens);
  }

  // `<p>x</p><h1>a`: the outer loop does, from behind the paragraph.
  lemma HeadingBehindBlockNeverEnds()
    ensures !Ends([Open("p"), Char('x'), Close("p"), Open("h1"), Char('a')], Looking(0))
  {
    var tokens := [Open("p"), Char('x'), Close("p"), Open("h1"), Char('a')];
    assert "p"[0] == 'p' && "h1"[0] == 'h';
    assert !HeadingAt(tokens, 0) && HeadingAt(tokens, 3) && FirstElement(tokens) == 0;
    assert EndAt(tokens, 0) == 3 by {
      assert ElementEndFrom(tokens, 2, "p", 1) == ElementEndFrom(tokens, 1, "p", 1) == 3;
    }
    assert EndAt(tokens, 3) == -1 by {
      assert ElementEndFrom(tokens, 5, "h1", 1) == ElementEndFrom(tokens, 4, "h1", 1) == -1;
    }
    assert NextHeading(tokens, 0) == NextHeading(tokens, 1) == NextHeading(tokens, 2) == 3;
    assert FirstFailure(tokens, 0) == FirstFailure(tokens, 3) == OpenHeading(3);
    ScanEndsIff(tokens);
  }

  // `<div><h1>a</div>`: the loop goes on behind the element the document begins with, and
  // the output still holds the input once.
  lemma HeadingInsideFirstBlockEnds()
    ensures var tokens := [Open("div"), Open("h1"), Char('a'), Close("div")];
            Ends(tokens, Looking(0)) && Within(tokens, AllFound(tokens)) && Erased(Emitted(tokens, 0, AllFound(tokens))) == tokens
  {
    var tokens := [Open("div"), Open("h1"), Char('a'), Close("div")];
    assert "div"[0] == 'd' && "h1"[0] == 'h';
    assert !HeadingAt(tokens, 0) && HeadingAt(tokens, 1) && KeptAt(tokens, 0) && FirstElement(tokens) == 0;
    assert EndAt(tokens, 0) == 4 by {
      assert ElementEndFrom(tokens, 3, "div", 1) == ElementEndFrom(tokens, 2, "div", 1) == ElementEndFrom(tokens, 1, "div", 1) == 4;
    }
    assert EndAt(tokens, 1) == -1 by {
      assert ElementEndFrom(tokens, 4, "h1", 1) == ElementEndFrom(tokens, 3, "h1", 1) == ElementEndFrom(tokens, 2, "h1", 1) == -1;
    }
    assert NextHeading(tokens, 0) == 1 && FirstFailure(tokens, 0) == OpenHeading(1);
    assert NextHeading(tokens, 4) == 4 && FirstFailure(tokens, 4) == Nothing;
    ScanEndsIff(tokens);
    DocumentIsKeptIff(tokens);
  }
}
