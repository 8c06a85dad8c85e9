/** The elements open at a position of a document, and what counting one tag name, as
    elementEnd of figura/scripts/print-pdf.mjs does, makes of them. */
module OpenElements {
  import opened HtmlTokens

  // How one token changes the count of a tag name.
  function Turn(token: Token, tag: string): int {
    if !Names(token, tag) then 0 else if token.Close? then -1 else 1
  }

  lemma CountAfter(tags: seq<string>, token: Token, tag: string)
    requires Step(tags, token).Stack?
    ensures Count(Step(tags, token).tags, tag) + SelfOf(token, tag) == Count(tags, tag) + Turn(token, tag)
  {
    match token
    case Open(name) => CountPush(tags, name, tag);
    case _ =>
  }

  // Counted once too often, a tag name never comes back to nothing before the document
  // that closes every open element ends.
  lemma {:induction false} NeverBack(tokens: seq<Token>, pos: nat, tags: seq<string>, tag: string, depth: nat)
    requires pos <= |tokens| && StackAfter(tokens[pos..], tags) == Stack([]) && depth > Count(tags, tag)
    ensures ElementEndFrom(tokens, pos, tag, depth) == -1
    decreases |tokens| - pos
  {
    if pos < |tokens| {
      StackAfterOne(tokens, pos, tags);
      CountAfter(tags, tokens[pos], tag);
      ElementEndTurn(tokens, pos, tag, depth, depth + Turn(tokens[pos], tag));
      NeverBack(tokens, pos + 1, Step(tags, tokens[pos]).tags, tag, depth + Turn(tokens[pos], tag));
    }
  }

  // Counted right, a self-closed namesake ahead holds the count off for good.
  lemma {:induction false} NamesakeHoldsOff(tokens: seq<Token>, pos: nat, tags: seq<string>, tag: string, depth: nat, k: nat)
    requires pos <= k < |tokens| && StackAfter(tokens[pos..], tags) == Stack([]) && depth >= Count(tags, tag)
    requires tokens[k] == SelfClosed(tag)
    ensures ElementEndFrom(tokens, pos, tag, depth) <= k
    decreases |tokens| - pos
  {
    var next := depth + Turn(tokens[pos], tag);
    StackAfterOne(tokens, pos, tags);
    CountAfter(tags, tokens[pos], tag);
    ElementEndTurn(tokens, pos, tag, depth, next);
    if tokens[pos] == SelfClosed(tag) {
      NeverBack(tokens, pos + 1, Step(tags, tokens[pos]).tags, tag, next);
    } else if next > 0 || !Names(tokens[pos], tag) {
      NamesakeHoldsOff(tokens, pos + 1, Step(tags, tokens[pos]).tags, tag, next, k);
    }
  }

  // Inside an open element a count that covers its own tags does not come back before the
  // element ends.
  lemma {:induction false} EndOutlasts(tokens: seq<Token>, pos: nat, outside: seq<string>, inside: seq<string>, tag: string, depth: nat)
    requires pos <= |tokens| && inside != [] && StackAfter(tokens[pos..], outside + inside) == Stack([])
    requires depth >= Count(inside, tag) && (depth > Count(inside, tag) || inside[0] == tag)
    ensures TrueEndFrom(tokens, pos, |inside|) != -1
    ensures ElementEndFrom(tokens, pos, tag, depth) == -1 || TrueEndFrom(tokens, pos, |inside|) <= ElementEndFrom(tokens, pos, tag, depth)
    decreases |tokens| - pos
  {
    NotAtTheEnd(tokens, pos, outside + inside);
    InsideTurn(tokens, pos, outside, inside, 0);
    CountAfter(inside, tokens[pos], tag);
    var inner, next := Step(inside, tokens[pos]).tags, depth + Turn(tokens[pos], tag);
    if inner != [] {
      if inner[0] == tag { FirstTagCounts(inner, tag); }
      ElementEndTurn(tokens, pos, tag, depth, next);
      EndOutlasts(tokens, pos + 1, outside, inner, tag, next);
      InnerDepth(inside, tokens[pos]);
    }
  }

  lemma InnerDepth(inside: seq<string>, token: Token)
    requires Step(inside, token).Stack?
    ensures |Step(inside, token).tags| == if token.Open? then |inside| + 1 else if token.Close? then |inside| - 1 else |inside|
  {
  }

  // Before the end it finds, a count is at least one.
  lemma {:induction false} CountGoesOn(tokens: seq<Token>, pos: nat, tag: string, depth: nat, k: nat) returns (at: nat)
    requires pos <= k < |tokens| && k < ElementEndFrom(tokens, pos, tag, depth) && depth >= 1
    ensures at >= 1 && ElementEndFrom(tokens, k, tag, at) == ElementEndFrom(tokens, pos, tag, depth)
    decreases k - pos
  {
    if pos == k {
      at := depth;
    } else {
      var next := depth + Turn(tokens[pos], tag);
      ElementEndTurn(tokens, pos, tag, depth, next);
      at := CountGoesOn(tokens, pos + 1, tag, next, k);
    }
  }

  lemma BehindOpen(tokens: seq<Token>, k: nat) returns (outside: seq<string>)
    requires WellNested(tokens) && k < |tokens|
    ensures StackAfter(tokens[..k], []) == Stack(outside)
    ensures StackAfter(tokens[k..], outside) == Stack([])
    ensures tokens[k].Open? ==> StackAfter(tokens[k + 1..], outside + [tokens[k].tag]) == Stack([])
  {
    assert tokens == tokens[..k] + tokens[k..];
    StackAfterConcat(tokens[..k], tokens[k..], []);
    outside := StackAfter(tokens[..k], []).tags;
    StackAfterOne(tokens, k, outside);
  }

  // Wherever counting a tag name comes back, no element opened on the way is cut: it has
  // ended by then.
  lemma ElementEndCutsNothing(tokens: seq<Token>, pos: nat, k: nat)
    requires WellNested(tokens) && pos <= k < |tokens| && (tokens[pos].Open? || tokens[pos].SelfClosed?) && tokens[k].Open?
    requires k < ElementEndFrom(tokens, pos, tokens[pos].tag, 0)
    ensures TrueEndFrom(tokens, k, 0) != -1 && TrueEndFrom(tokens, k, 0) <= ElementEndFrom(tokens, pos, tokens[pos].tag, 0)
  {
    var tag := tokens[pos].tag;
    var outside := BehindOpen(tokens, k);
    var at: nat := 0;
    if pos < k {
      ElementEndTurn(tokens, pos, tag, 0, 1);
      at := CountGoesOn(tokens, pos + 1, tag, 1, k);
    }
    ElementEndTurn(tokens, k, tag, at, at + Turn(tokens[k], tag));
    CountOfOne(tokens[k].tag, tag);
    EndOutlasts(tokens, k + 1, outside, [tokens[k].tag], tag, at + Turn(tokens[k], tag));
  }

  lemma CountOfOne(only: string, tag: string)
    ensures Count([only], tag) == if only == tag then 1 else 0
  {
    assert Count([only][..0], tag) == 0;
  }

  // The element of a stack at an index: where it was opened, and that it ends later.
  lemma {:induction false} OpenerOf(tokens: seq<Token>, stop: nat, i: nat) returns (p: nat)
    requires stop <= |tokens| && StackAfter(tokens[..stop], []).Stack? && i < |StackAfter(tokens[..stop], []).tags|
    ensures var tags := StackAfter(tokens[..stop], []).tags;
            && p < stop && tokens[p] == Open(tags[i])
            && TrueEndFrom(tokens, p, 0) == TrueEndFrom(tokens, stop, |tags| - i)
    decreases stop
  {
    var tags := StackAfter(tokens[..stop], []).tags;
    StackPush(tokens, stop);
    var before := StackAfter(tokens[..stop - 1], []).tags;
    if i == |before| {
      p := stop - 1;
    } else {
      p := OpenerOf(tokens, stop - 1, i);
    }
  }

  lemma StackPush(tokens: seq<Token>, stop: nat)
    requires stop <= |tokens| && StackAfter(tokens[..stop], []).Stack?
    ensures stop > 0 ==> StackAfter(tokens[..stop - 1], []).Stack?
                         && StackAfter(tokens[..stop], []) == Step(StackAfter(tokens[..stop - 1], []).tags, tokens[stop - 1])
  {
    if stop > 0 {
      assert tokens[..stop] == tokens[..stop - 1] + [tokens[stop - 1]];
      StackAfterConcat(tokens[..stop - 1], [tokens[stop - 1]], []);
      assert [tokens[stop - 1]][1..] == [];
    }
  }

  // No element of one of the tag names is open.
  ghost predicate NoneOpen(tokens: seq<Token>, stop: nat, names: set<string>)
    requires stop <= |tokens|
  {
    StackAfter(tokens[..stop], []).Stack?
    && forall i | 0 <= i < |StackAfter(tokens[..stop], []).tags| :: StackAfter(tokens[..stop], []).tags[i] !in names
  }

  // An element that ended before is not open any more.
  lemma HasEnded(tokens: seq<Token>, stop: nat, names: set<string>, i: nat)
    requires WellNested(tokens) && stop <= |tokens|
    requires forall p | 0 <= p < stop && tokens[p].Open? && tokens[p].tag in names :: TrueEndFrom(tokens, p, 0) <= stop
    requires StackAfter(tokens[..stop], []).Stack? && i < |StackAfter(tokens[..stop], []).tags|
    ensures StackAfter(tokens[..stop], []).tags[i] !in names
  {
    var p := OpenerOf(tokens, stop, i);
    ElementEndIsTrueEnd(tokens, p);
  }

  lemma PrefixHasStack(tokens: seq<Token>, stop: nat)
    requires WellNested(tokens) && stop <= |tokens|
    ensures StackAfter(tokens[..stop], []).Stack?
  {
    assert tokens == tokens[..stop] + tokens[stop..];
    StackAfterConcat(tokens[..stop], tokens[stop..], []);
  }

  // In a well nested document none is open where all that were opened have ended.
  lemma AllHaveEnded(tokens: seq<Token>, stop: nat, names: set<string>)
    requires WellNested(tokens) && stop <= |tokens|
    requires forall p | 0 <= p < stop && tokens[p].Open? && tokens[p].tag in names :: TrueEndFrom(tokens, p, 0) <= stop
    ensures NoneOpen(tokens, stop, names)
  {
    PrefixHasStack(tokens, stop);
    forall i | 0 <= i < |StackAfter(tokens[..stop], []).tags| ensures StackAfter(tokens[..stop], []).tags[i] !in names {
      HasEnded(tokens, stop, names, i);
    }
  }

  lemma {:induction false} NotOpenNotCounted(tags: seq<string>, tag: string)
    requires forall i | 0 <= i < |tags| :: tags[i] != tag
    ensures Count(tags, tag) == 0
  {
    if tags != [] {
      NotOpenNotCounted(tags[..|tags| - 1], tag);
    }
  }

  // Where no namesake is open, elementEnd fails exactly on a self-closed element and on
  // one that holds a self-closed namesake; otherwise it finds the true end.
  lemma NoEndIff(tokens: seq<Token>, pos: nat)
    requires WellNested(tokens) && pos < |tokens| && (tokens[pos].Open? || tokens[pos].SelfClosed?)
    requires NoneOpen(tokens, pos, {tokens[pos].tag})
    ensures var tag, end := tokens[pos].tag, ElementEndFrom(tokens, pos, tokens[pos].tag, 0);
            && (tokens[pos].SelfClosed? ==> end == -1)
            && (tokens[pos].Open? ==>
                  var trueEnd := TrueEndFrom(tokens, pos, 0);
                  && trueEnd != -1
                  && (end == -1 <==> !NoSelfClosed(tokens[pos..trueEnd], tag))
                  && (end != -1 ==> end == trueEnd))
  {
    var tag := tokens[pos].tag;
    var outside := BehindOpen(tokens, pos);
    NotOpenNotCounted(outside, tag);
    ElementEndTurn(tokens, pos, tag, 0, 1);
    if tokens[pos].SelfClosed? {
      StackAfterOne(tokens, pos, outside);
      NeverBack(tokens, pos + 1, outside, tag, 1);
    } else {
      ElementEndIsTrueEnd(tokens, pos);
      var trueEnd := TrueEndFrom(tokens, pos, 0);
      CountOfOne(tag, tag);
      EndOutlasts(tokens, pos + 1, outside, [tag], tag, 1);
      if k :| 0 <= k < |tokens[pos..trueEnd]| && tokens[pos..trueEnd][k] == SelfClosed(tag) {
        assert tokens[pos + k] == SelfClosed(tag);
        CountPush(outside, tag, tag);
        NamesakeHoldsOff(tokens, pos + 1, outside + [tag], tag, 1, pos + k);
      }
    }
  }
}
