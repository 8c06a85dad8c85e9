/** figura/scripts/print-pdf.mjs: pre and svg elements under withCodeBreakOpportunities.
    Which of them the loop over the blocks protects, and which get breaks. */
module UntouchedBlocks {
  import opened HtmlTokens
  import opened OpenElements
  import opened CodeBreaks

  // From here on the loop protects nothing: it found no further block, or one without end.
  function Unprotected(tokens: seq<Token>, from: nat): (rest: nat)
    requires from <= |tokens|
    ensures from <= rest <= |tokens|
    decreases |tokens| - from
  {
    var block := NextBlock(tokens, from);
    if block == |tokens| || BlockEnd(tokens, block) == -1 then from else Unprotected(tokens, BlockEnd(tokens, block))
  }

  // The block without end that stops the loop, or the length of the document.
  function StopBlock(tokens: seq<Token>): nat {
    NextBlock(tokens, Unprotected(tokens, 0))
  }

  lemma BreaksBehindBlock(tokens: seq<Token>, from: nat)
    requires from <= |tokens| && NextBlock(tokens, from) < |tokens| && BlockEnd(tokens, NextBlock(tokens, from)) != -1
    ensures var next := NextBlock(tokens, from);
            CodeBreaksFrom(tokens, from) == InlineBreaks(tokens, from, next) + CodeBreaksFrom(tokens, BlockEnd(tokens, next))
  {
  }

  // Behind the last protected block the breaks are those of all inline code that is left.
  lemma {:induction false} BreaksOfTheRest(tokens: seq<Token>, from: nat, k: nat)
    requires from <= |tokens| && Unprotected(tokens, from) <= k
    ensures k in CodeBreaksFrom(tokens, from) <==> k in InlineBreaks(tokens, Unprotected(tokens, from), |tokens|)
    decreases |tokens| - from
  {
    var block := NextBlock(tokens, from);
    if block < |tokens| && BlockEnd(tokens, block) != -1 {
      BreaksBehindBlock(tokens, from);
      InlineBreaksAreRuns(tokens, from, block);
      BreaksOfTheRest(tokens, BlockEnd(tokens, block), k);
    }
  }

  // No break goes into an element that begins before the block the loop stops at.
  lemma {:induction false} ProtectedBeforeStop(tokens: seq<Token>, from: nat, block: nat, k: nat)
    requires WellNested(tokens) && UntouchedAt(tokens, block) && tokens[block].Open?
    requires from <= block < NextBlock(tokens, Unprotected(tokens, from)) && block <= k < TrueEndFrom(tokens, block, 0)
    ensures k !in CodeBreaksFrom(tokens, from)
    decreases |tokens| - from
  {
    var next := NextBlock(tokens, from);
    var end := BlockEnd(tokens, next);
    BreaksBehindBlock(tokens, from);
    InlineBreaksAreRuns(tokens, from, next);
    if block >= end {
      ProtectedBeforeStop(tokens, end, block, k);
    } else {
      ElementEndCutsNothing(tokens, next, block);
      CodeBreaksAreRuns(tokens, end);
    }
  }

  // A break goes after some token of the element.
  ghost predicate HasBreak(tokens: seq<Token>, block: nat, breaks: set<nat>)
    requires block <= |tokens|
  {
    exists k :: block <= k < TrueEndFrom(tokens, block, 0) && k in breaks
  }

  // In a well nested document a pre or svg element, at any depth, gets a break exactly when
  // the loop stops at it or before it, and it holds a run of inline code that wants one.
  lemma GetsBreakIff(tokens: seq<Token>, block: nat)
    requires WellNested(tokens) && UntouchedAt(tokens, block) && tokens[block].Open?
    ensures HasBreak(tokens, block, CodeBreaksFrom(tokens, 0))
            <==> StopBlock(tokens) <= block && HasBreak(tokens, block, InlineBreaks(tokens, Unprotected(tokens, 0), |tokens|))
  {
    var rest := Unprotected(tokens, 0);
    forall k | block <= k < TrueEndFrom(tokens, block, 0)
      ensures k in CodeBreaksFrom(tokens, 0) <==> StopBlock(tokens) <= block && k in InlineBreaks(tokens, rest, |tokens|)
    {
      if block < StopBlock(tokens) {
        ProtectedBeforeStop(tokens, 0, block, k);
      } else {
        BreaksOfTheRest(tokens, 0, k);
      }
    }
  }

  // ----- which blocks have no end

  // The blocks the loop looks at.
  ghost predicate Reached(tokens: seq<Token>, from: nat, block: nat)
    requires from <= |tokens|
    decreases |tokens| - from
  {
    var next := NextBlock(tokens, from);
    next < |tokens| && (block == next || (BlockEnd(tokens, next) != -1 && Reached(tokens, BlockEnd(tokens, next), block)))
  }

  // Every pre and svg element that began before has ended.
  ghost predicate AllEnded(tokens: seq<Token>, stop: nat)
    requires stop <= |tokens|
  {
    forall p | 0 <= p < stop && tokens[p].Open? && tokens[p].tag in UNTOUCHED_TAGS :: TrueEndFrom(tokens, p, 0) <= stop
  }

  lemma BlockKeepsEnded(tokens: seq<Token>, from: nat)
    requires WellNested(tokens) && from <= |tokens| && AllEnded(tokens, from) && NextBlock(tokens, from) < |tokens|
    ensures var next := NextBlock(tokens, from);
            AllEnded(tokens, next) && (BlockEnd(tokens, next) != -1 ==> AllEnded(tokens, BlockEnd(tokens, next)))
  {
    var next := NextBlock(tokens, from);
    forall p | 0 <= p < next && UntouchedAt(tokens, p) ensures p < from {
    }
    assert forall p | 0 <= p < next && tokens[p].Open? && tokens[p].tag in UNTOUCHED_TAGS :: UntouchedAt(tokens, p);
    var end := BlockEnd(tokens, next);
    if end != -1 {
      forall p | 0 <= p < end && tokens[p].Open? && tokens[p].tag in UNTOUCHED_TAGS ensures TrueEndFrom(tokens, p, 0) <= end {
        if p >= next { ElementEndCutsNothing(tokens, next, p); } else { assert UntouchedAt(tokens, p); }
      }
    }
  }

  lemma {:induction false} ReachedIsOutside(tokens: seq<Token>, from: nat, block: nat)
    requires WellNested(tokens) && from <= |tokens| && AllEnded(tokens, from) && Reached(tokens, from, block)
    ensures UntouchedAt(tokens, block) && AllEnded(tokens, block)
    decreases |tokens| - from
  {
    var next := NextBlock(tokens, from);
    BlockKeepsEnded(tokens, from);
    if block != next {
      ReachedIsOutside(tokens, BlockEnd(tokens, next), block);
    }
  }

  // Of the blocks the loop looks at, those without end are the self-closed ones and those
  // that hold a self-closed namesake.
  lemma BlockWithoutEndIff(tokens: seq<Token>, block: nat)
    requires WellNested(tokens) && Reached(tokens, 0, block)
    ensures UntouchedAt(tokens, block)
    ensures BlockEnd(tokens, block) == -1
            <==> tokens[block].SelfClosed?
                 || (TrueEndFrom(tokens, block, 0) > block
                     && !NoSelfClosed(tokens[block..TrueEndFrom(tokens, block, 0)], tokens[block].tag))
  {
    ReachedIsOutside(tokens, 0, block);
    AllHaveEnded(tokens, block, UNTOUCHED_TAGS);
    NoEndIff(tokens, block);
  }

  // The block the loop stops at is one of them.
  lemma {:induction false} StopHasNoEnd(tokens: seq<Token>, from: nat)
    requires from <= |tokens| && NextBlock(tokens, Unprotected(tokens, from)) < |tokens|
    ensures var stop := NextBlock(tokens, Unprotected(tokens, from));
            Reached(tokens, from, stop) && BlockEnd(tokens, stop) == -1
    decreases |tokens| - from
  {
    var block := NextBlock(tokens, from);
    if BlockEnd(tokens, block) != -1 {
      StopHasNoEnd(tokens, BlockEnd(tokens, block));
    }
  }

  // A self-closed svg ends the loop over the blocks: the code of a pre after it gets breaks.
  lemma SelfClosedSvgExposesPre()
    ensures var tokens := [SelfClosed("svg"), Open("pre"), Open("code"), Char('a'), Run("_"), Char('b'), Close("code"), Close("pre")];
            BlockEnd(tokens, 1) == 8 && 4 in CodeBreaksFrom(tokens, 0)
  {
    var tokens := [SelfClosed("svg"), Open("pre"), Open("code"), Char('a'), Run("_"), Char('b'), Close("code"), Close("pre")];
    ExposedEnds(tokens);
    ExposedBreaks(tokens);
    assert NextBlock(tokens, 0) == 0;
  }

  lemma ExposedEnds(tokens: seq<Token>)
    requires tokens == [SelfClosed("svg"), Open("pre"), Open("code"), Char('a'), Run("_"), Char('b'), Close("code"), Close("pre")]
    ensures BlockEnd(tokens, 0) == -1 && BlockEnd(tokens, 1) == 8
  {
    assert ElementEndFrom(tokens, 8, "svg", 1) == -1;
    assert ElementEndFrom(tokens, 6, "svg", 1) == -1;
    assert ElementEndFrom(tokens, 4, "svg", 1) == -1;
    assert ElementEndFrom(tokens, 2, "svg", 1) == -1;
    assert ElementEndFrom(tokens, 1, "svg", 1) == -1;
    assert ElementEndFrom(tokens, 6, "pre", 1) == 8;
    assert ElementEndFrom(tokens, 4, "pre", 1) == 8;
    assert ElementEndFrom(tokens, 2, "pre", 1) == 8;
  }

  lemma ExposedBreaks(tokens: seq<Token>)
    requires tokens == [SelfClosed("svg"), Open("pre"), Open("code"), Char('a'), Run("_"), Char('b'), Close("code"), Close("pre")]
    ensures 4 in InlineBreaks(tokens, 0, 8)
  {
    var content := tokens[3..6];
    assert content == [Char('a'), Run("_"), Char('b')];
    assert NextCodeOpen(tokens, 0, 8) == NextCodeOpen(tokens, 1, 8) == NextCodeOpen(tokens, 2, 8) == 2;
    assert NextCodeClose(tokens, 3, 8) == NextCodeClose(tokens, 4, 8) == NextCodeClose(tokens, 5, 8) == NextCodeClose(tokens, 6, 8) == 6;
    assert Lexed(content) && WholeRefs(content) by {
      assert RefAt(Stripped(content[0..])) == 0 && RefAt(Stripped(content[2..])) == 0;
    }
    assert Width(content[0]) == 1 && Width(content[2]) == 1;
    BreaksAreInner(content, 1);
    assert BreaksAt(tokens, 3, 6, 4);
  }
}
