/** The elements keepHeadingsWithNextBlock of figura/scripts/print-pdf.mjs takes into a group:
    exactly when elementEnd finds the whole of them. */
module KeepWhole {
  import opened HtmlTokens
  import opened OpenElements
  import opened KeepGroups

  // The element is written with a close tag and holds no self-closed namesake.
  predicate IsWhole(tokens: seq<Token>, pos: nat) {
    pos < |tokens| && tokens[pos].Open?
    && var end := TrueEndFrom(tokens, pos, 0);
       pos < end <= |tokens| && NoSelfClosed(tokens[pos..end], tokens[pos].tag)
  }

  lemma WholeIsBalanced(tokens: seq<Token>, pos: nat)
    requires WellNested(tokens) && IsWhole(tokens, pos)
    ensures EndAt(tokens, pos) == TrueEndFrom(tokens, pos, 0) && EndAt(tokens, pos) != -1 && Balanced(tokens[pos..EndAt(tokens, pos)])
  {
    ElementEndIsTrueEnd(tokens, pos);
  }

  // Where counting a tag name from a stretch that closes nothing outside it comes back to
  // nothing, no self-closed element was counted.
  lemma {:induction false} CountMeets(tokens: seq<Token>, pos: nat, end: nat, tags: seq<string>, tag: string, selfs: nat)
    requires pos < end <= |tokens| && StackAfter(tokens[pos..end], tags).Stack?
    requires end == ElementEndFrom(tokens, pos, tag, Count(tags, tag) + selfs)
    ensures selfs == 0 && NoSelfClosed(tokens[pos..end], tag)
    decreases end - pos
  {
    var token := tokens[pos];
    var depth := Count(tags, tag) + selfs;
    FirstOfStretch(tokens, pos, end, tags);
    var next := Step(tags, token).tags;
    CountAfter(tags, token, tag);
    ElementEndTurn(tokens, pos, tag, depth, depth + Turn(token, tag));
    if !(Names(token, tag) && depth + Turn(token, tag) == 0) {
      CountMeets(tokens, pos + 1, end, next, tag, selfs + SelfOf(token, tag));
    }
    NoneInStretch(tokens, pos, end, tag);
  }

  lemma FirstOfStretch(tokens: seq<Token>, pos: nat, end: nat, tags: seq<string>)
    requires pos < end <= |tokens| && StackAfter(tokens[pos..end], tags).Stack?
    ensures Step(tags, tokens[pos]).Stack? && StackAfter(tokens[pos + 1..end], Step(tags, tokens[pos]).tags).Stack?
  {
    assert tokens[pos..end][1..] == tokens[pos + 1..end];
  }

  lemma NoneInStretch(tokens: seq<Token>, pos: nat, end: nat, tag: string)
    requires pos < end <= |tokens|
    ensures NoSelfClosed(tokens[pos..end], tag) <==> tokens[pos] != SelfClosed(tag) && NoSelfClosed(tokens[pos + 1..end], tag)
  {
    assert tokens[pos..end] == [tokens[pos]] + tokens[pos + 1..end];
    assert tokens[pos..end][0] == tokens[pos];
    var whole, rest := tokens[pos..end], tokens[pos + 1..end];
    assert forall i | 0 <= i < |rest| :: rest[i] == whole[i + 1];
  }

  // In a well nested document the stretch up to the end elementEnd finds closes no element
  // from before it exactly when the element is whole.
  lemma StretchIsWholeIff(tokens: seq<Token>, pos: nat)
    requires WellNested(tokens) && TagAt(tokens, pos).Some? && EndAt(tokens, pos) != -1
    ensures StackAfter(tokens[pos..EndAt(tokens, pos)], []).Stack? <==> IsWhole(tokens, pos)
  {
    var end, tag := EndAt(tokens, pos), tokens[pos].tag;
    if IsWhole(tokens, pos) {
      WholeIsBalanced(tokens, pos);
    }
    if StackAfter(tokens[pos..end], []).Stack? {
      CountMeets(tokens, pos, end, [], tag, 0);
      assert tokens[pos..end][0] == tokens[pos];
      ElementEndCutsNothing(tokens, pos, pos);
      var trueEnd := TrueEndFrom(tokens, pos, 0);
      assert forall i | 0 <= i < trueEnd - pos :: tokens[pos..trueEnd][i] == tokens[pos..end][i];
    }
  }

  // ----- the elements the scan visits

  predicate RunIsWhole(tokens: seq<Token>, start: nat)
    requires HeadingAt(tokens, start)
    decreases |tokens| - start
  {
    var end := EndAt(tokens, start);
    IsWhole(tokens, start) && end != -1
    && (HeadingAt(tokens, NextElementStart(tokens, end)) ==> RunIsWhole(tokens, NextElementStart(tokens, end)))
  }

  // The headings of the run and a kept block behind it are whole.
  predicate TurnIsWhole(tokens: seq<Token>, start: nat)
    requires HeadingAt(tokens, start)
  {
    RunIsWhole(tokens, start) && TurnCloses(tokens, start)
    && (KeptAt(tokens, HeadingRun(tokens, start).block) ==> IsWhole(tokens, HeadingRun(tokens, start).block))
  }

  // Everything the scan visits from a position is whole.
  predicate VisitedAreWhole(tokens: seq<Token>, from: nat)
    requires from <= |tokens|
    decreases |tokens| - from
  {
    var start := NextHeading(tokens, from);
    start == |tokens| || (TurnIsWhole(tokens, start) && VisitedAreWhole(tokens, FindGroup(tokens, start).end))
  }

  lemma {:induction false} WholeRunCloses(tokens: seq<Token>, start: nat)
    requires HeadingAt(tokens, start) && RunIsWhole(tokens, start)
    ensures RunCloses(tokens, start)
    decreases |tokens| - start
  {
    var block := NextElementStart(tokens, EndAt(tokens, start));
    if HeadingAt(tokens, block) {
      WholeRunCloses(tokens, block);
    }
  }

  lemma {:induction false} WholeCloses(tokens: seq<Token>, from: nat)
    requires from <= |tokens| && VisitedAreWhole(tokens, from)
    ensures VisitedClose(tokens, from)
    decreases |tokens| - from
  {
    var start := NextHeading(tokens, from);
    if start < |tokens| {
      WholeCloses(tokens, FindGroup(tokens, start).end);
    }
  }

  // A document whose headings and kept blocks are all written with a close tag.
  predicate PlainBlocks(tokens: seq<Token>) {
    forall i | 0 <= i < |tokens| && tokens[i].SelfClosed? :: tokens[i].tag !in HEADING_TAGS + KEPT_BLOCK_TAGS
  }

  lemma PlainIsWhole(tokens: seq<Token>, pos: nat)
    requires WellNested(tokens) && PlainBlocks(tokens) && (HeadingAt(tokens, pos) || KeptAt(tokens, pos))
    ensures IsWhole(tokens, pos)
  {
    ElementEndIsTrueEnd(tokens, pos);
    var end := TrueEndFrom(tokens, pos, 0);
    assert forall i | 0 <= i < end - pos :: tokens[pos..end][i] == tokens[pos + i];
  }

  lemma {:induction false} PlainRunIsWhole(tokens: seq<Token>, start: nat)
    requires WellNested(tokens) && PlainBlocks(tokens) && HeadingAt(tokens, start)
    ensures RunIsWhole(tokens, start)
    decreases |tokens| - start
  {
    PlainIsWhole(tokens, start);
    WholeIsBalanced(tokens, start);
    var block := NextElementStart(tokens, EndAt(tokens, start));
    if HeadingAt(tokens, block) {
      PlainRunIsWhole(tokens, block);
    }
  }

  // In a well nested one everything visited is whole.
  lemma {:induction false} PlainBlocksAreWhole(tokens: seq<Token>, from: nat)
    requires WellNested(tokens) && PlainBlocks(tokens) && from <= |tokens|
    ensures VisitedAreWhole(tokens, from)
    decreases |tokens| - from
  {
    var start := NextHeading(tokens, from);
    if start < |tokens| {
      PlainRunIsWhole(tokens, start);
      WholeRunCloses(tokens, start);
      var block := HeadingRun(tokens, start).block;
      if KeptAt(tokens, block) {
        PlainIsWhole(tokens, block);
        WholeIsBalanced(tokens, block);
      }
      PlainBlocksAreWhole(tokens, FindGroup(tokens, start).end);
    }
  }
}
