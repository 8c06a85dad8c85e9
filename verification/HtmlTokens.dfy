/** HTML as the tokens the expressions of figura/scripts/print-pdf.mjs match, and the end of
    an element as elementEnd finds it: by counting one tag name only. Tag names are in
    lower case. */
module HtmlTokens {

  datatype Token =
    | Open(tag: string)
    | Close(tag: string)
    | SelfClosed(tag: string)   // <br>, <img>, <svg ... />: opens and needs no close
    | Ref(text: string)         // a character reference, &name; or &#number;
    | Run(text: string)         // a run of the separators _ / . and ::
    | Char(c: char)             // any other character

  // ----- well nested documents

  // The open elements after the tokens, innermost last; None when a close tag does not
  // close the innermost one.
  datatype Stack = Broken | Stack(tags: seq<string>)

  function Step(tags: seq<string>, token: Token): Stack {
    match token
    case Open(tag) => Stack(tags + [tag])
    case Close(tag) =>
      if tags != [] && tags[|tags| - 1] == tag then Stack(tags[..|tags| - 1]) else Broken
    case _ => Stack(tags)
  }

  function StackAfter(tokens: seq<Token>, tags: seq<string>): Stack {
    if tokens == [] then Stack(tags)
    else
      var next := Step(tags, tokens[0]);
      if next.Broken? then Broken else StackAfter(tokens[1..], next.tags)
  }

  predicate WellNested(tokens: seq<Token>) {
    StackAfter(tokens, []) == Stack([])
  }

  // A stretch that opens and closes whole elements.
  predicate Balanced(tokens: seq<Token>) {
    StackAfter(tokens, []) == Stack([])
  }

  lemma {:induction false} StackAfterConcat(a: seq<Token>, b: seq<Token>, tags: seq<string>)
    ensures var mid := StackAfter(a, tags);
            StackAfter(a + b, tags) == if mid.Broken? then Broken else StackAfter(b, mid.tags)
  {
    if a == [] {
      assert a + b == b;
    } else {
      assert (a + b)[1..] == a[1..] + b;
      var next := Step(tags, a[0]);
      if next.Stack? {
        StackAfterConcat(a[1..], b, next.tags);
      }
    }
  }

  // More open elements outside do not matter to tokens that close none of them.
  lemma {:induction false} StackAfterInside(tokens: seq<Token>, outside: seq<string>, tags: seq<string>)
    requires StackAfter(tokens, tags).Stack?
    ensures StackAfter(tokens, outside + tags) == Stack(outside + StackAfter(tokens, tags).tags)
  {
    if tokens != [] {
      StepInside(outside, tags, tokens[0]);
      StackAfterInside(tokens[1..], outside, Step(tags, tokens[0]).tags);
    }
  }

  lemma StepInside(outside: seq<string>, tags: seq<string>, token: Token)
    requires Step(tags, token).Stack?
    ensures Step(outside + tags, token) == Stack(outside + Step(tags, token).tags)
  {
    match token
    case Open(tag) => assert outside + tags + [tag] == outside + (tags + [tag]);
    case Close(tag) => assert (outside + tags)[..|outside + tags| - 1] == outside + tags[..|tags| - 1];
    case _ =>
  }

  lemma BalancedKeepsStack(tokens: seq<Token>, tags: seq<string>)
    requires Balanced(tokens)
    ensures StackAfter(tokens, tags) == Stack(tags)
  {
    StackAfterInside(tokens, tags, []);
    assert tags + [] == tags;
  }

  lemma BalancedConcat(a: seq<Token>, b: seq<Token>)
    requires Balanced(a) && Balanced(b)
    ensures Balanced(a + b)
  {
    StackAfterConcat(a, b, []);
  }

  // ----- the end of an element

  // `<(/?)tag\b[^>]*>`: the tokens elementEnd looks at, a self-closed one among them.
  predicate Names(token: Token, tag: string) {
    (token.Open? || token.Close? || token.SelfClosed?) && token.tag == tag
  }

  function ElementEndFrom(tokens: seq<Token>, pos: nat, tag: string, depth: int): (end: int)
    requires pos <= |tokens|
    ensures end == -1 || pos < end <= |tokens|
    decreases |tokens| - pos
  {
    if pos == |tokens| then -1
    else if !Names(tokens[pos], tag) then ElementEndFrom(tokens, pos + 1, tag, depth)
    else
      var next := depth + if tokens[pos].Close? then -1 else 1;
      if next == 0 then pos + 1 else ElementEndFrom(tokens, pos + 1, tag, next)
  }

  method ElementEnd(tokens: seq<Token>, start: nat, tag: string) returns (end: int)
    requires start <= |tokens|
    ensures end == ElementEndFrom(tokens, start, tag, 0)
  {
    var depth := 0;
    for pos := start to |tokens|
      invariant ElementEndFrom(tokens, pos, tag, depth) == ElementEndFrom(tokens, start, tag, 0)
    {
      if Names(tokens[pos], tag) {
        depth := depth + if tokens[pos].Close? then -1 else 1;
        if depth == 0 { return pos + 1; }
      }
    }
    return -1;
  }

  // The true end: where the depth over all tag names comes back.
  function TrueEndFrom(tokens: seq<Token>, pos: nat, depth: nat): (end: int)
    requires pos <= |tokens|
    ensures end == -1 || pos < end <= |tokens|
    decreases |tokens| - pos
  {
    if pos == |tokens| then -1
    else
      var next := if tokens[pos].Open? then depth + 1 else if tokens[pos].Close? && depth > 0 then depth - 1 else depth;
      if next == 0 then pos + 1 else TrueEndFrom(tokens, pos + 1, next)
  }

  function Count(tags: seq<string>, tag: string): nat {
    if tags == [] then 0
    else var last := |tags| - 1; Count(tags[..last], tag) + if tags[last] == tag then 1 else 0
  }

  predicate NoSelfClosed(tokens: seq<Token>, tag: string) {
    forall i | 0 <= i < |tokens| :: tokens[i] != SelfClosed(tag)
  }

  lemma {:induction false} FirstTagCounts(inside: seq<string>, tag: string)
    requires inside != [] && inside[0] == tag
    ensures Count(inside, tag) >= 1
  {
    if |inside| > 1 {
      FirstTagCounts(inside[..|inside| - 1], tag);
    }
  }

  lemma CountPush(tags: seq<string>, pushed: string, tag: string)
    ensures Count(tags + [pushed], tag) == Count(tags, tag) + if pushed == tag then 1 else 0
  {
    assert (tags + [pushed])[..|tags|] == tags;
  }

  lemma StackAfterOne(tokens: seq<Token>, pos: nat, tags: seq<string>)
    requires pos < |tokens| && StackAfter(tokens[pos..], tags).Stack?
    ensures Step(tags, tokens[pos]).Stack?
    ensures StackAfter(tokens[pos..], tags) == StackAfter(tokens[pos + 1..], Step(tags, tokens[pos]).tags)
  {
    assert tokens[pos..][1..] == tokens[pos + 1..];
  }

  // Inside an element a token does to the whole stack what it does to the inner part.
  lemma StepRelative(outside: seq<string>, inside: seq<string>, token: Token)
    requires inside != [] && Step(outside + inside, token).Stack?
    ensures Step(inside, token).Stack?
    ensures Step(outside + inside, token).tags == outside + Step(inside, token).tags
  {
    StepInside(outside, inside, token);
  }

  function SelfOf(token: Token, tag: string): nat {
    if token == SelfClosed(tag) then 1 else 0
  }

  // How one token changes the two depths.
  lemma DepthAfter(inside: seq<string>, token: Token, tag: string, selfs: nat)
    requires inside != [] && inside[0] == tag && Step(inside, token).Stack?
    ensures var next := Step(inside, token).tags;
            && Count(next, tag) + selfs + SelfOf(token, tag)
               == Count(inside, tag) + selfs + (if !Names(token, tag) then 0 else if token.Close? then -1 else 1)
            && |next| == (if token.Open? then |inside| + 1 else if token.Close? then |inside| - 1 else |inside|)
            && (next != [] ==> next[0] == tag && Count(next, tag) >= 1)
            && (next == [] ==> token == Close(tag) && Count(inside, tag) == 1)
  {
    var next := Step(inside, token).tags;
    match token {
      case Open(tagName) => CountPush(inside, tagName, tag);
      case Close(tagName) => assert Count([], tag) == 0;
      case _ =>
    }
    if next != [] { FirstTagCounts(next, tag); }
  }

  lemma ElementEndTurn(tokens: seq<Token>, pos: nat, tag: string, depth: int, next: int)
    requires pos < |tokens|
    requires next == depth + if !Names(tokens[pos], tag) then 0 else if tokens[pos].Close? then -1 else 1
    ensures ElementEndFrom(tokens, pos, tag, depth)
            == if Names(tokens[pos], tag) && next == 0 then pos + 1 else ElementEndFrom(tokens, pos + 1, tag, next)
  {
  }

  // From a position inside an element of tag `inside[0]`, with `inside` the elements open
  // from it on and `selfs` its self-closed namesakes counted: the element has an end; the
  // tokens up to it close exactly `inside`; and counting the one tag name finds that end
  // exactly when no self-closed namesake is counted.
  ghost predicate EndFound(tokens: seq<Token>, pos: nat, inside: seq<string>, selfs: nat)
    requires pos <= |tokens| && inside != []
  {
    var end, tag := TrueEndFrom(tokens, pos, |inside|), inside[0];
    && end != -1
    && StackAfter(tokens[pos..end], inside) == Stack([])
    && (ElementEndFrom(tokens, pos, tag, Count(inside, tag) + selfs) == end
        <==> selfs == 0 && NoSelfClosed(tokens[pos..end], tag))
  }

  // One token inside an element: the stack goes on inside, and so does the count.
  lemma InsideTurn(tokens: seq<Token>, pos: nat, outside: seq<string>, inside: seq<string>, selfs: nat)
    requires pos < |tokens| && inside != [] && StackAfter(tokens[pos..], outside + inside) == Stack([])
    ensures var token, tag := tokens[pos], inside[0];
            && Step(inside, token).Stack?
            && var next := Step(inside, token).tags;
               && StackAfter(tokens[pos + 1..], outside + next) == Stack([])
               && (next != [] ==> next[0] == tag) && (next == [] ==> |inside| == 1 && token == Close(tag))
               && (next != [] ==> ElementEndFrom(tokens, pos, tag, Count(inside, tag) + selfs)
                                  == ElementEndFrom(tokens, pos + 1, tag, Count(next, tag) + selfs + SelfOf(token, tag)))
  {
    var tag, token := inside[0], tokens[pos];
    StackAfterOne(tokens, pos, outside + inside);
    StepRelative(outside, inside, token);
    DepthAfter(inside, token, tag, selfs);
    var next := Step(inside, token).tags;
    ElementEndTurn(tokens, pos, tag, Count(inside, tag) + selfs, Count(next, tag) + selfs + SelfOf(token, tag));
  }

  lemma {:induction false} EndInside(tokens: seq<Token>, pos: nat, outside: seq<string>, inside: seq<string>, selfs: nat)
    requires pos <= |tokens| && inside != []
    requires StackAfter(tokens[pos..], outside + inside) == Stack([])
    ensures EndFound(tokens, pos, inside, selfs)
    decreases |tokens| - pos
  {
    NotAtTheEnd(tokens, pos, outside + inside);
    InsideTurn(tokens, pos, outside, inside, selfs);
    var next := Step(inside, tokens[pos]).tags;
    if next == [] {
      ClosesHere(tokens, pos, inside, selfs);
    } else {
      EndInside(tokens, pos + 1, outside, next, selfs + SelfOf(tokens[pos], inside[0]));
      EndIsLater(tokens, pos, inside, next, selfs);
    }
  }

  lemma NotAtTheEnd(tokens: seq<Token>, pos: nat, tags: seq<string>)
    requires pos <= |tokens| && tags != [] && StackAfter(tokens[pos..], tags) == Stack([])
    ensures pos < |tokens|
  {
  }

  lemma ClosesHere(tokens: seq<Token>, pos: nat, inside: seq<string>, selfs: nat)
    requires pos < |tokens| && |inside| == 1 && tokens[pos] == Close(inside[0])
    ensures EndFound(tokens, pos, inside, selfs)
  {
    assert tokens[pos..pos + 1] == [tokens[pos]] && [tokens[pos]][1..] == [];
    assert Count(inside[..0], inside[0]) == 0;
  }

  lemma EndIsLater(tokens: seq<Token>, pos: nat, inside: seq<string>, next: seq<string>, selfs: nat)
    requires pos < |tokens| && inside != [] && next != [] && next[0] == inside[0]
    requires Step(inside, tokens[pos]) == Stack(next)
    requires EndFound(tokens, pos + 1, next, selfs + SelfOf(tokens[pos], inside[0]))
    requires ElementEndFrom(tokens, pos, inside[0], Count(inside, inside[0]) + selfs)
             == ElementEndFrom(tokens, pos + 1, inside[0], Count(next, inside[0]) + selfs + SelfOf(tokens[pos], inside[0]))
    ensures EndFound(tokens, pos, inside, selfs)
  {
    var end := TrueEndFrom(tokens, pos + 1, |next|);
    assert TrueEndFrom(tokens, pos, |inside|) == end;
    assert tokens[pos..end] == [tokens[pos]] + tokens[pos + 1..end];
    assert tokens[pos..end][1..] == tokens[pos + 1..end];
  }

  // Right behind the open tag of an element of a well nested document.
  lemma BehindOpenTag(tokens: seq<Token>, start: nat)
    requires WellNested(tokens) && start < |tokens| && tokens[start].Open?
    ensures EndFound(tokens, start + 1, [tokens[start].tag], 0)
  {
    var tag := tokens[start].tag;
    assert tokens == tokens[..start] + tokens[start..];
    StackAfterConcat(tokens[..start], tokens[start..], []);
    var outside := StackAfter(tokens[..start], []).tags;
    StackAfterOne(tokens, start, outside);
    EndInside(tokens, start + 1, outside, [tag], 0);
  }

  lemma WithOpenTag(tokens: seq<Token>, start: nat, end: nat)
    requires start + 1 <= end <= |tokens| && tokens[start].Open?
    ensures StackAfter(tokens[start + 1..end], [tokens[start].tag]) == Stack([]) ==> Balanced(tokens[start..end])
    ensures NoSelfClosed(tokens[start..end], tokens[start].tag) <==> NoSelfClosed(tokens[start + 1..end], tokens[start].tag)
  {
    var inner, whole := tokens[start + 1..end], tokens[start..end];
    assert whole == [tokens[start]] + inner && whole[1..] == inner;
    assert [] + [tokens[start].tag] == [tokens[start].tag];
    assert forall i | 0 <= i < |inner| :: whole[i + 1] == inner[i];
  }

  lemma CountOne(tag: string)
    ensures Count([tag], tag) == 1
  {
    assert Count([tag][..0], tag) == 0;
  }

  // In a well nested document elementEnd finds the true end of an element exactly when no
  // self-closed namesake lies in it, and the tokens up to there are balanced.
  lemma ElementEndIsTrueEnd(tokens: seq<Token>, start: nat)
    requires WellNested(tokens) && start < |tokens| && tokens[start].Open?
    ensures var end := TrueEndFrom(tokens, start, 0);
            && start < end <= |tokens| && Balanced(tokens[start..end])
            && (ElementEndFrom(tokens, start, tokens[start].tag, 0) == end <==> NoSelfClosed(tokens[start..end], tokens[start].tag))
  {
    BehindOpenTag(tokens, start);
    WithOpenTag(tokens, start, TrueEndFrom(tokens, start + 1, 1));
    CountOne(tokens[start].tag);
  }

  lemma {:induction false} ShallowEndsFirst(tokens: seq<Token>, pos: nat, depth: nat, more: nat)
    requires pos <= |tokens| && depth >= 1 && more >= 1 && TrueEndFrom(tokens, pos, depth + more) != -1
    ensures TrueEndFrom(tokens, pos, depth) != -1 && TrueEndFrom(tokens, pos, depth) < TrueEndFrom(tokens, pos, depth + more)
    decreases |tokens| - pos
  {
    var next := if tokens[pos].Open? then depth + 1 else if tokens[pos].Close? then depth - 1 else depth;
    if next != 0 {
      ShallowEndsFirst(tokens, pos + 1, next, more);
    }
  }

  // Anything that opens before the end of an element ends before it.
  lemma {:induction false} InnerEndsFirst(tokens: seq<Token>, pos: nat, depth: nat, k: nat)
    requires pos <= k < |tokens| && depth >= 1 && TrueEndFrom(tokens, pos, depth) != -1 && k < TrueEndFrom(tokens, pos, depth)
    requires tokens[k].Open?
    ensures TrueEndFrom(tokens, k, 0) != -1 && TrueEndFrom(tokens, k, 0) < TrueEndFrom(tokens, pos, depth)
    decreases k - pos
  {
    if pos == k {
      ShallowEndsFirst(tokens, pos + 1, 1, depth);
    } else {
      var next := if tokens[pos].Open? then depth + 1 else if tokens[pos].Close? then depth - 1 else depth;
      InnerEndsFirst(tokens, pos + 1, next, k);
    }
  }
}
