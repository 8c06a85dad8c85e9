/** figura/scripts/print-pdf.mjs: where a document gets its breaks, told by its elements
    instead of by the loops that look for them. */
module InlineCode {
  import opened HtmlTokens
  import opened CodeBreaks
  import opened UntouchedBlocks

  // ----- the code elements of a stretch

  predicate CodeOpens(tokens: seq<Token>, k: nat) {
    k < |tokens| && (tokens[k].Open? || tokens[k].SelfClosed?) && tokens[k].tag == CODE_TAG
  }

  predicate CodeCloses(tokens: seq<Token>, k: nat) {
    k < |tokens| && tokens[k] == Close(CODE_TAG)
  }

  // An opening tag up to the first closing tag behind it. Every opening tag before it in
  // the stretch was closed before it.
  ghost predicate IsCodeElement(tokens: seq<Token>, from: nat, stop: nat, start: nat, end: nat) {
    && from <= start < end < stop <= |tokens| && CodeOpens(tokens, start) && CodeCloses(tokens, end)
    && (forall m: nat | start < m < end :: !CodeCloses(tokens, m))
    && (forall o: nat | from <= o < start && CodeOpens(tokens, o) :: ClosesBetween(tokens, o, start))
  }

  ghost predicate ClosesBetween(tokens: seq<Token>, o: nat, start: nat) {
    exists c: nat :: o < c < start && CodeCloses(tokens, c)
  }

  lemma {:induction false} FirstOpen(tokens: seq<Token>, from: nat, stop: nat)
    requires from <= stop <= |tokens|
    ensures var pos := NextCodeOpen(tokens, from, stop);
            && (pos < stop ==> CodeOpens(tokens, pos)) && forall o: nat | from <= o < pos :: !CodeOpens(tokens, o)
    decreases stop - from
  {
    if from < stop && !CodeOpens(tokens, from) {
      FirstOpen(tokens, from + 1, stop);
    }
  }

  lemma {:induction false} FirstClose(tokens: seq<Token>, from: nat, stop: nat)
    requires from <= stop <= |tokens|
    ensures var pos := NextCodeClose(tokens, from, stop);
            && (pos < stop ==> CodeCloses(tokens, pos)) && forall c: nat | from <= c < pos :: !CodeCloses(tokens, c)
    decreases stop - from
  {
    if from < stop && !CodeCloses(tokens, from) {
      FirstClose(tokens, from + 1, stop);
    }
  }

  // Behind the first code element of a stretch come the others.
  lemma FirstElement(tokens: seq<Token>, from: nat, stop: nat, start: nat, end: nat, s: nat, e: nat)
    requires IsCodeElement(tokens, from, stop, start, end) && forall o: nat | from <= o < start :: !CodeOpens(tokens, o)
    ensures IsCodeElement(tokens, from, stop, s, e) <==> (s == start && e == end) || IsCodeElement(tokens, end + 1, stop, s, e)
  {
    if IsCodeElement(tokens, from, stop, s, e) && s != start {
      assert ClosesBetween(tokens, start, s);
    }
    if IsCodeElement(tokens, from, stop, s, e) && s == start {
      assert !(e < end) && !(end < e);
    }
    if IsCodeElement(tokens, end + 1, stop, s, e) {
      forall o: nat | from <= o < s && CodeOpens(tokens, o) ensures ClosesBetween(tokens, o, s) {
        if o <= end {
          assert o < end < s;
        }
      }
    }
  }

  lemma NoElement(tokens: seq<Token>, from: nat, stop: nat, start: nat, s: nat, e: nat)
    requires from <= start <= stop <= |tokens| && forall o: nat | from <= o < start :: !CodeOpens(tokens, o)
    requires start < stop ==> CodeOpens(tokens, start) && forall c: nat | start < c < stop :: !CodeCloses(tokens, c)
    ensures !IsCodeElement(tokens, from, stop, s, e)
  {
  }

  // A break goes after token k of a code element.
  ghost predicate BreaksInElement(tokens: seq<Token>, from: nat, stop: nat, start: nat, end: nat, k: nat) {
    IsCodeElement(tokens, from, stop, start, end) && start < k < end && WantsBreak(tokens[start + 1..end], k - start - 1)
  }

  ghost predicate BreaksInSome(tokens: seq<Token>, from: nat, stop: nat, k: nat) {
    exists start: nat, end: nat :: BreaksInElement(tokens, from, stop, start, end, k)
  }

  lemma NoElementNoBreak(tokens: seq<Token>, from: nat, stop: nat, start: nat, k: nat)
    requires from <= start <= stop <= |tokens| && forall o: nat | from <= o < start :: !CodeOpens(tokens, o)
    requires start < stop ==> CodeOpens(tokens, start) && forall c: nat | start < c < stop :: !CodeCloses(tokens, c)
    ensures !BreaksInSome(tokens, from, stop, k)
  {
    forall s: nat, e: nat ensures !BreaksInElement(tokens, from, stop, s, e, k) {
      NoElement(tokens, from, stop, start, s, e);
    }
  }

  lemma BreaksOfFirst(tokens: seq<Token>, from: nat, stop: nat, start: nat, end: nat, k: nat)
    requires IsCodeElement(tokens, from, stop, start, end)
    ensures k in BreaksOfCode(tokens)(start + 1, end) <==> BreaksInElement(tokens, from, stop, start, end, k)
  {
    assert k in BreaksOfCode(tokens)(start + 1, end) <==> start + 1 <= k < end && BreaksAt(tokens, start + 1, end, k);
  }

  lemma FirstElementBreaks(tokens: seq<Token>, from: nat, stop: nat, start: nat, end: nat, k: nat)
    requires IsCodeElement(tokens, from, stop, start, end) && forall o: nat | from <= o < start :: !CodeOpens(tokens, o)
    ensures BreaksInSome(tokens, from, stop, k)
            <==> BreaksInElement(tokens, from, stop, start, end, k) || BreaksInSome(tokens, end + 1, stop, k)
  {
    if BreaksInSome(tokens, from, stop, k) {
      var s: nat, e: nat :| BreaksInElement(tokens, from, stop, s, e, k);
      FirstElement(tokens, from, stop, start, end, s, e);
      assert (s == start && e == end) || BreaksInElement(tokens, end + 1, stop, s, e, k);
    }
    if BreaksInSome(tokens, end + 1, stop, k) {
      var s: nat, e: nat :| BreaksInElement(tokens, end + 1, stop, s, e, k);
      FirstElement(tokens, from, stop, start, end, s, e);
      assert BreaksInElement(tokens, from, stop, s, e, k);
    }
  }

  lemma {:induction false} InlineBreaksIff(tokens: seq<Token>, from: nat, stop: nat, k: nat)
    requires from <= stop <= |tokens|
    ensures k in InlineBreaks(tokens, from, stop) <==> BreaksInSome(tokens, from, stop, k)
    decreases stop - from
  {
    var start := NextCodeOpen(tokens, from, stop);
    var end := if start == stop then stop else NextCodeClose(tokens, start + 1, stop);
    FirstOpen(tokens, from, stop);
    if start < stop { FirstClose(tokens, start + 1, stop); }
    if end == stop {
      NoInlineBreaks(tokens, from, stop);
      NoElementNoBreak(tokens, from, stop, start, k);
    } else {
      InlineBreaksAre(tokens, from, start, end, stop);
      InlineBreaksIff(tokens, end + 1, stop, k);
      FirstElementBreaks(tokens, from, stop, start, end, k);
      BreaksOfFirst(tokens, from, stop, start, end, k);
    }
  }

  // ----- the stretches between the protected blocks

  // A pre or svg the loop looked at and found the end of.
  ghost predicate Protected(tokens: seq<Token>, from: nat, p: nat)
    requires from <= |tokens|
  {
    UntouchedAt(tokens, p) && Reached(tokens, from, p) && BlockEnd(tokens, p) != -1
  }

  ghost predicate EndsProtected(tokens: seq<Token>, from: nat, a: nat)
    requires from <= |tokens|
  {
    exists p: nat :: Protected(tokens, from, p) && BlockEnd(tokens, p) == a
  }

  // From the start or the end of a protected block up to the next one or to the end.
  ghost predicate IsStretch(tokens: seq<Token>, from: nat, a: nat, b: nat)
    requires from <= |tokens|
  {
    && a <= b <= |tokens| && (a == from || EndsProtected(tokens, from, a)) && (b == |tokens| || Protected(tokens, from, b))
    && forall p: nat | Protected(tokens, from, p) :: BlockEnd(tokens, p) <= a || b <= p
  }

  lemma {:induction false} ReachedLater(tokens: seq<Token>, from: nat, p: nat)
    requires from <= |tokens| && Reached(tokens, from, p)
    ensures from <= p < |tokens| && UntouchedAt(tokens, p)
    decreases |tokens| - from
  {
    var next := NextBlock(tokens, from);
    if p != next {
      ReachedLater(tokens, BlockEnd(tokens, next), p);
    }
  }

  lemma FirstProtected(tokens: seq<Token>, from: nat, p: nat)
    requires from <= |tokens| && NextBlock(tokens, from) < |tokens| && BlockEnd(tokens, NextBlock(tokens, from)) != -1
    ensures var next := NextBlock(tokens, from);
            && (Protected(tokens, from, p) <==> p == next || Protected(tokens, BlockEnd(tokens, next), p))
            && (Protected(tokens, BlockEnd(tokens, next), p) ==> p >= BlockEnd(tokens, next))
  {
    var next := NextBlock(tokens, from);
    if Reached(tokens, BlockEnd(tokens, next), p) {
      ReachedLater(tokens, BlockEnd(tokens, next), p);
    }
  }

  lemma StretchOfRest(tokens: seq<Token>, from: nat, next: nat, end: nat, a: nat, b: nat)
    requires from <= next < end <= |tokens| && Protected(tokens, from, next) && BlockEnd(tokens, next) == end
    requires forall p: nat :: Protected(tokens, from, p) <==> p == next || Protected(tokens, end, p)
    requires forall p: nat | Protected(tokens, end, p) :: p >= end
    ensures IsStretch(tokens, from, a, b) <==> (a == from && b == next) || IsStretch(tokens, end, a, b)
  {
    if IsStretch(tokens, from, a, b) && a != from {
      var p: nat :| Protected(tokens, from, p) && BlockEnd(tokens, p) == a;
      assert a == end || EndsProtected(tokens, end, a);
    }
    if IsStretch(tokens, end, a, b) {
      assert EndsProtected(tokens, from, a) by {
        if a == end {
          assert Protected(tokens, from, next) && BlockEnd(tokens, next) == a;
        } else {
          var p: nat :| Protected(tokens, end, p) && BlockEnd(tokens, p) == a;
          assert Protected(tokens, from, p);
        }
      }
    }
  }

  lemma OnlyStretch(tokens: seq<Token>, from: nat, a: nat, b: nat)
    requires from <= |tokens| && forall p: nat :: !Protected(tokens, from, p)
    ensures IsStretch(tokens, from, a, b) <==> a == from && b == |tokens|
  {
  }

  ghost predicate BreaksInStretch(tokens: seq<Token>, from: nat, a: nat, b: nat, k: nat)
    requires from <= |tokens|
  {
    IsStretch(tokens, from, a, b) && k in InlineBreaks(tokens, a, b)
  }

  lemma {:induction false} BreaksByStretch(tokens: seq<Token>, from: nat, k: nat)
    requires from <= |tokens|
    ensures k in CodeBreaksFrom(tokens, from) <==> exists a: nat, b: nat :: BreaksInStretch(tokens, from, a, b, k)
    decreases |tokens| - from
  {
    var next := NextBlock(tokens, from);
    if next == |tokens| || BlockEnd(tokens, next) == -1 {
      forall a: nat, b: nat ensures IsStretch(tokens, from, a, b) <==> a == from && b == |tokens| {
        OnlyStretch(tokens, from, a, b);
      }
      assert BreaksInStretch(tokens, from, from, |tokens|, k) <==> k in InlineBreaks(tokens, from, |tokens|);
    } else {
      var end := BlockEnd(tokens, next);
      BreaksBehindBlock(tokens, from);
      BreaksByStretch(tokens, end, k);
      forall a: nat, b: nat ensures IsStretch(tokens, from, a, b) <==> (a == from && b == next) || IsStretch(tokens, end, a, b) {
        forall p: nat
          ensures (Protected(tokens, from, p) <==> p == next || Protected(tokens, end, p)) && (Protected(tokens, end, p) ==> p >= end)
        {
          FirstProtected(tokens, from, p);
        }
        StretchOfRest(tokens, from, next, end, a, b);
      }
      StretchBreaks(tokens, from, next, end, k);
    }
  }

  lemma StretchBreaks(tokens: seq<Token>, from: nat, next: nat, end: nat, k: nat)
    requires from <= next < end <= |tokens|
    requires forall a: nat, b: nat :: IsStretch(tokens, from, a, b) <==> (a == from && b == next) || IsStretch(tokens, end, a, b)
    ensures (exists a: nat, b: nat :: BreaksInStretch(tokens, from, a, b, k))
            <==> k in InlineBreaks(tokens, from, next) || exists a: nat, b: nat :: BreaksInStretch(tokens, end, a, b, k)
  {
    if k in InlineBreaks(tokens, from, next) {
      assert BreaksInStretch(tokens, from, from, next, k);
    }
    if exists a: nat, b: nat :: BreaksInStretch(tokens, end, a, b, k) {
      var a: nat, b: nat :| BreaksInStretch(tokens, end, a, b, k);
      assert BreaksInStretch(tokens, from, a, b, k);
    }
    if exists a: nat, b: nat :: BreaksInStretch(tokens, from, a, b, k) {
      var a: nat, b: nat :| BreaksInStretch(tokens, from, a, b, k);
      assert (a == from && b == next) || BreaksInStretch(tokens, end, a, b, k);
    }
  }

  // A break goes after token k of a document exactly when it wants one in a code element
  // of a stretch between protected blocks.
  lemma BreakGoesIff(tokens: seq<Token>, k: nat)
    ensures k in CodeBreaksFrom(tokens, 0)
            <==> exists a: nat, b: nat, start: nat, end: nat ::
                   IsStretch(tokens, 0, a, b) && BreaksInElement(tokens, a, b, start, end, k)
  {
    BreaksByStretch(tokens, 0, k);
    forall a: nat, b: nat | IsStretch(tokens, 0, a, b)
      ensures k in InlineBreaks(tokens, a, b) <==> BreaksInSome(tokens, a, b, k)
    {
      InlineBreaksIff(tokens, a, b, k);
    }
    if a: nat, b: nat :| BreaksInStretch(tokens, 0, a, b, k) {
      var start: nat, end: nat :| BreaksInElement(tokens, a, b, start, end, k);
    }
    if a: nat, b: nat, start: nat, end: nat :| IsStretch(tokens, 0, a, b) && BreaksInElement(tokens, a, b, start, end, k) {
      assert BreaksInStretch(tokens, 0, a, b, k);
    }
  }

  // ----- where the breaks stand in the output

  // The token of the document that place q of the output stands behind.
  function TokenBefore(marked: seq<Marked>, from: nat, q: nat): int
    requires q <= |marked|
  {
    from + |Unmarked(marked[..q])| - 1
  }

  ghost predicate IsBreakBehind(marked: seq<Marked>, from: nat, q: nat, k: int) {
    0 < q < |marked| && marked[q].BreakOpportunity? && marked[q - 1].Source? && TokenBefore(marked, from, q) == k
  }

  // Every break stands right behind a token of the set.
  ghost predicate EachBreakStands(marked: seq<Marked>, from: nat, breaks: set<nat>) {
    forall q: nat | q < |marked| && marked[q].BreakOpportunity? ::
      q > 0 && marked[q - 1].Source? && TokenBefore(marked, from, q) in breaks
  }

  // Every token of the set has a break right behind it.
  ghost predicate EachHasItsBreak(marked: seq<Marked>, from: nat, stop: nat, breaks: set<nat>) {
    forall k: nat | from <= k < stop && k in breaks :: HasBreakBehind(marked, from, k)
  }

  ghost predicate HasBreakBehind(marked: seq<Marked>, from: nat, k: nat) {
    exists q: nat :: IsBreakBehind(marked, from, q, k)
  }

  // What is behind the front: the token, and its break if it has one.
  function Behind(token: Token, hasBreak: bool): seq<Marked> {
    [Source(token)] + if hasBreak then [BreakOpportunity] else []
  }

  lemma InsertedBehind(tokens: seq<Token>, from: nat, stop: nat, breaks: set<nat>)
    requires from < stop <= |tokens|
    ensures Inserted(tokens, from, stop, breaks)
            == Inserted(tokens, from, stop - 1, breaks) + Behind(tokens[stop - 1], stop - 1 in breaks)
    ensures |Unmarked(Inserted(tokens, from, stop - 1, breaks))| == stop - 1 - from
  {
    InsertedPush(tokens, from, stop, breaks);
    UnmarkedInserted(tokens, from, stop - 1, breaks);
  }

  lemma TokenOfLonger(marked: seq<Marked>, more: seq<Marked>, from: nat, q: nat)
    requires q <= |marked|
    ensures TokenBefore(marked + more, from, q) == TokenBefore(marked, from, q)
  {
    assert (marked + more)[..q] == marked[..q];
  }

  // The one break behind the front, and the token it stands behind.
  lemma BreakBehindFront(before: seq<Marked>, token: Token, from: nat, last: nat)
    requires from <= last && |Unmarked(before)| == last - from
    ensures IsBreakBehind(before + Behind(token, true), from, |before| + 1, last)
  {
    var marked := before + Behind(token, true);
    assert marked[..|before| + 1] == before + [Source(token)];
    UnmarkedPush(before, Source(token));
  }

  lemma OneMoreStands(before: seq<Marked>, token: Token, from: nat, last: nat, breaks: set<nat>)
    requires EachBreakStands(before, from, breaks) && from <= last && |Unmarked(before)| == last - from
    ensures EachBreakStands(before + Behind(token, last in breaks), from, breaks)
  {
    var more := Behind(token, last in breaks);
    var marked := before + more;
    forall q: nat | q < |marked| && marked[q].BreakOpportunity?
      ensures q > 0 && marked[q - 1].Source? && TokenBefore(marked, from, q) in breaks
    {
      if q < |before| {
        TokenOfLonger(before, more, from, q);
      } else {
        BreakBehindFront(before, token, from, last);
      }
    }
  }

  lemma OneMoreHasItsBreak(before: seq<Marked>, token: Token, from: nat, last: nat, breaks: set<nat>)
    requires EachHasItsBreak(before, from, last, breaks) && from <= last && |Unmarked(before)| == last - from
    ensures EachHasItsBreak(before + Behind(token, last in breaks), from, last + 1, breaks)
  {
    var more := Behind(token, last in breaks);
    forall k: nat | from <= k < last + 1 && k in breaks ensures HasBreakBehind(before + more, from, k) {
      if k < last {
        var q: nat :| IsBreakBehind(before, from, q, k);
        TokenOfLonger(before, more, from, q);
        assert IsBreakBehind(before + more, from, q, k);
      } else {
        BreakBehindFront(before, token, from, last);
      }
    }
  }

  lemma NextStands(tokens: seq<Token>, from: nat, stop: nat, breaks: set<nat>)
    requires from < stop <= |tokens| && EachBreakStands(Inserted(tokens, from, stop - 1, breaks), from, breaks)
    ensures EachBreakStands(Inserted(tokens, from, stop, breaks), from, breaks)
  {
    InsertedBehind(tokens, from, stop, breaks);
    OneMoreStands(Inserted(tokens, from, stop - 1, breaks), tokens[stop - 1], from, stop - 1, breaks);
  }

  lemma NextHasItsBreak(tokens: seq<Token>, from: nat, stop: nat, breaks: set<nat>)
    requires from < stop <= |tokens| && EachHasItsBreak(Inserted(tokens, from, stop - 1, breaks), from, stop - 1, breaks)
    ensures EachHasItsBreak(Inserted(tokens, from, stop, breaks), from, stop, breaks)
  {
    InsertedBehind(tokens, from, stop, breaks);
    OneMoreHasItsBreak(Inserted(tokens, from, stop - 1, breaks), tokens[stop - 1], from, stop - 1, breaks);
  }

  // In the output every break stands right behind a token it goes after.
  lemma {:induction false} BreaksStandBehind(tokens: seq<Token>, from: nat, stop: nat, breaks: set<nat>)
    requires from <= stop <= |tokens|
    ensures EachBreakStands(Inserted(tokens, from, stop, breaks), from, breaks)
    decreases stop
  {
    if from < stop {
      BreaksStandBehind(tokens, from, stop - 1, breaks);
      NextStands(tokens, from, stop, breaks);
    }
  }

  // And behind each of those there is one.
  lemma {:induction false} BreaksAreAllThere(tokens: seq<Token>, from: nat, stop: nat, breaks: set<nat>)
    requires from <= stop <= |tokens|
    ensures EachHasItsBreak(Inserted(tokens, from, stop, breaks), from, stop, breaks)
    decreases stop
  {
    if from < stop {
      BreaksAreAllThere(tokens, from, stop - 1, breaks);
      NextHasItsBreak(tokens, from, stop, breaks);
    }
  }

  // ----- character references

  predicate IsNameOfReference(c: char) {
    c == '#' || 'a' <= c <= 'z' || 'A' <= c <= 'Z' || '0' <= c <= '9'
  }

  // A text starts with a reference of n characters: an ampersand, names, a semicolon.
  predicate StartsWithReference(s: string, n: nat) {
    3 <= n <= |s| && s[0] == '&' && s[n - 1] == ';' && forall i | 1 <= i < n - 1 :: IsNameOfReference(s[i])
  }

  lemma NamesStop(s: string, k: nat)
    requires k < |s| && (forall i | 0 <= i < k :: IsRefChar(s[i])) && !IsRefChar(s[k])
    ensures RefChars(s) == k
  {
    var n := RefChars(s);
    assert !(n < k) && !(k < n);
  }

  lemma ReferenceIff(s: string, n: nat)
    requires n > 0
    ensures RefAt(s) == n <==> StartsWithReference(s, n)
  {
    if s != "" {
      var rest := s[1..];
      assert forall i | 0 <= i < |rest| :: rest[i] == s[i + 1];
      if StartsWithReference(s, n) {
        NamesStop(rest, n - 2);
      }
    }
  }
}
