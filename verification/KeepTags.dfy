/** figura/scripts/print-pdf.mjs: what the groups of headings hold, tag by tag. */
module KeepTags {
  import opened HtmlTokens
  import opened KeepGroups
  import opened KeepNesting
  import opened KeepWhole

  predicate OpensElement(token: Token) {
    token.Open? || token.SelfClosed?
  }

  predicate OpensHeading(token: Token) {
    OpensElement(token) && (token.tag == "h1" || token.tag == "h2" || token.tag == "h3")
  }

  predicate OpensKeptBlock(token: Token) {
    OpensElement(token)
    && (token.tag == "figure" || token.tag == "table" || token.tag == "p" || token.tag == "pre" || token.tag == "ul"
        || token.tag == "ol" || token.tag == "div" || token.tag == "blockquote")
  }

  // Nothing but white space stands between the two positions, and none at the second.
  ghost predicate OnlySpaceTo(tokens: seq<Token>, from: nat, next: nat) {
    && from <= next <= |tokens| && (forall i | from <= i < next :: tokens[i].Char? && IsWhite(tokens[i].c))
    && (next < |tokens| ==> !(tokens[next].Char? && IsWhite(tokens[next].c)))
  }

  lemma SpaceEnds(tokens: seq<Token>, pos: nat)
    requires pos <= |tokens|
    ensures OnlySpaceTo(tokens, pos, NextElementStart(tokens, pos))
  {
  }

  // The space, the line break, the no-break space and the zero-width mark are white; the
  // zero-width space and letters are not.
  lemma WhiteIs()
    ensures IsWhite(' ') && IsWhite('\n') && IsWhite('\t') && IsWhite('\r') && IsWhite('\U{A0}') && IsWhite('\U{FEFF}')
    ensures !IsWhite('\U{200B}') && forall c | '!' <= c <= '~' :: !IsWhite(c)
  {
  }

  // Headings, each followed by the next and the last by the block, with white space between.
  ghost predicate WrittenChain(tokens: seq<Token>, heads: seq<nat>, block: nat) {
    heads != [] && forall i | 0 <= i < |heads| :: WrittenAt(tokens, heads, block, i)
  }

  ghost predicate WrittenAt(tokens: seq<Token>, heads: seq<nat>, block: nat, i: nat)
    requires i < |heads|
  {
    heads[i] < |tokens| && OpensHeading(tokens[heads[i]])
    && TrueEndFrom(tokens, heads[i], 0) >= 0
    && OnlySpaceTo(tokens, TrueEndFrom(tokens, heads[i], 0), if i + 1 < |heads| then heads[i + 1] else block)
  }

  // A group from its first heading: a run of headings, and the block behind it when it is
  // of one of the eight kinds, but no further heading.
  ghost predicate WrittenGroup(tokens: seq<Token>, found: Found) {
    var block := found.run.block;
    && (exists heads :: WrittenChain(tokens, heads, block) && heads[0] == found.start)
    && !(block < |tokens| && OpensHeading(tokens[block]))
    && (found.kept <==> block < |tokens| && OpensKeptBlock(tokens[block]))
    && (found.kept ==> found.end == TrueEndFrom(tokens, block, 0))
  }

  lemma HeadingIs(tokens: seq<Token>, pos: nat)
    ensures HeadingAt(tokens, pos) <==> pos < |tokens| && OpensHeading(tokens[pos])
    ensures KeptAt(tokens, pos) <==> pos < |tokens| && OpensKeptBlock(tokens[pos])
  {
  }

  lemma ChainIsWritten(tokens: seq<Token>, heads: seq<nat>, block: nat)
    requires HeadingChain(tokens, heads, block)
    ensures WrittenChain(tokens, heads, block)
  {
    forall i | 0 <= i < |heads| ensures WrittenAt(tokens, heads, block, i) {
      assert NextInChain(tokens, heads, block, i);
      HeadingIs(tokens, heads[i]);
      SpaceEnds(tokens, TrueEndFrom(tokens, heads[i], 0));
    }
  }

  lemma GroupIsWritten(tokens: seq<Token>, found: Found)
    requires MaximalGroup(tokens, found)
    ensures WrittenGroup(tokens, found)
  {
    var heads :| HeadingChain(tokens, heads, found.run.block) && heads[0] == found.start;
    ChainIsWritten(tokens, heads, found.run.block);
    HeadingIs(tokens, found.run.block);
  }

  ghost predicate LiesIn(found: seq<Found>, k: nat) {
    exists i :: 0 <= i < |found| && found[i].start <= k < found[i].end
  }

  // Of a well nested document whose visited elements are whole: every group found holds
  // h1 to h3 headings and at most one block of the eight kinds, and every such heading of
  // the document lies in a group.
  lemma GroupsAreWritten(tokens: seq<Token>)
    requires WellNested(tokens) && VisitedAreWhole(tokens, 0)
    ensures VisitedClose(tokens, 0)
    ensures forall found | found in FoundFrom(tokens, 0) :: WrittenGroup(tokens, found)
    ensures forall k | 0 <= k < |tokens| && OpensHeading(tokens[k]) :: LiesIn(FoundFrom(tokens, 0), k)
  {
    GroupsAreMaximal(tokens, 0);
    forall found | found in FoundFrom(tokens, 0) ensures WrittenGroup(tokens, found) {
      GroupIsWritten(tokens, found);
    }
    forall k | 0 <= k < |tokens| && OpensHeading(tokens[k]) ensures LiesIn(FoundFrom(tokens, 0), k) {
      HeadingIs(tokens, k);
      assert Covered(FoundFrom(tokens, 0), k);
    }
  }
}
