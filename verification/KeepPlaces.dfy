/** figura/scripts/print-pdf.mjs: where the wrappers of keepHeadingsWithNextBlock stand in
    its output. */
module KeepPlaces {
  import opened HtmlTokens
  import opened KeepGroups
  import opened KeepNesting

  // A group with its block begins, or ends, in front of token k.
  ghost predicate GroupStarts(found: seq<Found>, k: nat) {
    exists i :: 0 <= i < |found| && found[i].kept && found[i].start == k
  }

  ghost predicate GroupEnds(found: seq<Found>, k: nat) {
    exists i :: 0 <= i < |found| && found[i].kept && found[i].end == k
  }

  ghost function OpensAt(found: seq<Found>, k: nat): seq<Out> {
    if GroupStarts(found, k) then [GroupOpen] else []
  }

  // What stands in front of token k: the end of one group, then the start of another.
  ghost function MarksAt(found: seq<Found>, k: nat): seq<Out> {
    (if GroupEnds(found, k) then [GroupClose] else []) + OpensAt(found, k)
  }

  // The same as a function of the token.
  ghost function MarksOf(found: seq<Found>): nat -> seq<Out> {
    (k: nat) => MarksAt(found, k)
  }

  // The tokens of a stretch, behind each of them what stands in front of the next.
  function WithMarks(tokens: seq<Token>, marks: nat -> seq<Out>, from: nat, stop: nat): seq<Out>
    requires from <= stop <= |tokens|
    decreases stop - from
  {
    if from == stop then [] else WithMarks(tokens, marks, from, stop - 1) + [Source(tokens[stop - 1])] + marks(stop)
  }

  ghost function Written(tokens: seq<Token>, found: seq<Found>, from: nat, stop: nat): seq<Out>
    requires from <= stop <= |tokens|
  {
    WithMarks(tokens, MarksOf(found), from, stop)
  }

  lemma OutsRegroup(a: seq<Out>, b: seq<Out>, c: seq<Out>)
    ensures a + (b + c) == a + b + c
  {
  }

  lemma LastIsWritten(front: seq<Out>, before: seq<Out>, token: Token, marks: seq<Out>)
    ensures front + (before + [Source(token)] + marks) == front + before + [Source(token)] + marks
  {
  }

  lemma {:induction false} MarkedConcat(tokens: seq<Token>, marks: nat -> seq<Out>, a: nat, b: nat, c: nat)
    requires a <= b <= c <= |tokens|
    ensures WithMarks(tokens, marks, a, b) + WithMarks(tokens, marks, b, c) == WithMarks(tokens, marks, a, c)
    decreases c
  {
    if b < c {
      MarkedConcat(tokens, marks, a, b, c - 1);
      LastIsWritten(WithMarks(tokens, marks, a, b), WithMarks(tokens, marks, b, c - 1), tokens[c - 1], marks(c));
    } else {
      assert WithMarks(tokens, marks, a, b) + [] == WithMarks(tokens, marks, a, b);
    }
  }

  lemma CopiedPush(tokens: seq<Token>, from: nat, stop: nat)
    requires from < stop <= |tokens|
    ensures Copied(tokens, from, stop) == Copied(tokens, from, stop - 1) + [Source(tokens[stop - 1])]
  {
  }

  // Where nothing stands inside, a stretch is copied.
  lemma {:induction false} MarkedPlain(tokens: seq<Token>, marks: nat -> seq<Out>, from: nat, stop: nat)
    requires from < stop <= |tokens| && forall k: nat | from < k < stop :: marks(k) == []
    ensures WithMarks(tokens, marks, from, stop) == Copied(tokens, from, stop) + marks(stop)
    decreases stop
  {
    CopiedPush(tokens, from, stop);
    if from < stop - 1 {
      MarkedPlain(tokens, marks, from, stop - 1);
      assert Copied(tokens, from, stop - 1) + [] == Copied(tokens, from, stop - 1);
    } else {
      assert Copied(tokens, from, stop - 1) == [] == WithMarks(tokens, marks, from, stop - 1);
    }
  }

  lemma {:induction false} MarkedAlike(tokens: seq<Token>, marks: nat -> seq<Out>, others: nat -> seq<Out>, from: nat, stop: nat)
    requires from <= stop <= |tokens| && forall k: nat | from < k <= stop :: marks(k) == others(k)
    ensures WithMarks(tokens, marks, from, stop) == WithMarks(tokens, others, from, stop)
    decreases stop
  {
    if from < stop {
      MarkedAlike(tokens, marks, others, from, stop - 1);
    }
  }

  lemma WrittenPlain(tokens: seq<Token>, found: seq<Found>, from: nat, stop: nat)
    requires from <= stop <= |tokens| && forall k: nat | from < k < stop :: MarksAt(found, k) == []
    ensures Written(tokens, found, from, stop) == Copied(tokens, from, stop) + if from < stop then MarksAt(found, stop) else []
  {
    if from < stop {
      assert forall k: nat | from < k < stop :: MarksOf(found)(k) == MarksAt(found, k);
      MarkedPlain(tokens, MarksOf(found), from, stop);
    }
  }

  lemma SameMarks(tokens: seq<Token>, found: seq<Found>, others: seq<Found>, from: nat, stop: nat)
    requires from <= stop <= |tokens| && forall k: nat | from < k <= stop :: MarksAt(found, k) == MarksAt(others, k)
    ensures Written(tokens, found, from, stop) == Written(tokens, others, from, stop)
  {
    MarkedAlike(tokens, MarksOf(found), MarksOf(others), from, stop);
  }

  // Of runs in order the first one is the only one before its end.
  lemma {:induction false} LaterAreBehind(tokens: seq<Token>, from: nat, found: seq<Found>)
    requires InOrder(tokens, from, found)
    ensures forall i | 0 <= i < |found| :: from <= found[i].start < found[i].end <= |tokens|
    decreases |found|
  {
    if found != [] {
      LaterAreBehind(tokens, found[0].end, found[1..]);
      assert forall i | 0 < i < |found| :: found[i] == found[1..][i - 1];
    }
  }

  lemma MarksOfFirst(tokens: seq<Token>, from: nat, first: Found, rest: seq<Found>, k: nat)
    requires InOrder(tokens, from, [first] + rest)
    ensures GroupStarts([first] + rest, k) <==> (first.kept && first.start == k) || GroupStarts(rest, k)
    ensures GroupEnds([first] + rest, k) <==> (first.kept && first.end == k) || GroupEnds(rest, k)
    ensures GroupStarts(rest, k) ==> first.end <= k
    ensures GroupEnds(rest, k) ==> first.end < k
  {
    var found := [first] + rest;
    assert found[1..] == rest && found[0] == first;
    LaterAreBehind(tokens, first.end, rest);
    assert forall i | 0 <= i < |rest| :: found[i + 1] == rest[i];
  }

  // In front of the end of the first run.
  lemma FrontIsWritten(tokens: seq<Token>, from: nat, first: Found, rest: seq<Found>)
    requires from <= |tokens| && InOrder(tokens, from, [first] + rest) && first.kept
    ensures OpensAt([first] + rest, from) + Written(tokens, [first] + rest, from, first.start)
            == Copied(tokens, from, first.start) + [GroupOpen]
  {
    var found := [first] + rest;
    assert found[0] == first;
    forall k: nat | from < k < first.start ensures MarksAt(found, k) == [] {
      MarksOfFirst(tokens, from, first, rest, k);
    }
    WrittenPlain(tokens, found, from, first.start);
    MarksOfFirst(tokens, from, first, rest, first.start);
    MarksOfFirst(tokens, from, first, rest, from);
    assert MarksAt(found, first.start) == [GroupOpen];
  }

  lemma GroupIsWrittenOut(tokens: seq<Token>, from: nat, first: Found, rest: seq<Found>)
    requires from <= |tokens| && InOrder(tokens, from, [first] + rest) && first.kept
    ensures first.start < first.end <= |tokens|
    ensures Written(tokens, [first] + rest, first.start, first.end)
            == Copied(tokens, first.start, first.end) + [GroupClose] + OpensAt(rest, first.end)
  {
    var found := [first] + rest;
    assert found[0] == first;
    forall k: nat | first.start < k < first.end ensures MarksAt(found, k) == [] {
      MarksOfFirst(tokens, from, first, rest, k);
    }
    WrittenPlain(tokens, found, first.start, first.end);
    MarksOfFirst(tokens, from, first, rest, first.end);
  }

  lemma SkippedIsWritten(tokens: seq<Token>, from: nat, first: Found, rest: seq<Found>)
    requires from <= |tokens| && InOrder(tokens, from, [first] + rest) && !first.kept
    ensures from < first.end <= |tokens|
    ensures OpensAt([first] + rest, from) + Written(tokens, [first] + rest, from, first.end)
            == Copied(tokens, from, first.end) + OpensAt(rest, first.end)
  {
    var found := [first] + rest;
    assert found[0] == first;
    forall k: nat | from < k < first.end ensures MarksAt(found, k) == [] {
      MarksOfFirst(tokens, from, first, rest, k);
    }
    WrittenPlain(tokens, found, from, first.end);
    MarksOfFirst(tokens, from, first, rest, first.end);
    assert MarksAt(found, first.end) == OpensAt(rest, first.end);
    MarksOfFirst(tokens, from, first, rest, from);
    assert OpensAt(found, from) == [];
    NothingBefore(Written(tokens, found, from, first.end));
  }

  lemma NothingBefore(a: seq<Out>)
    ensures [] + a == a
  {
  }

  lemma RestIsWritten(tokens: seq<Token>, from: nat, first: Found, rest: seq<Found>)
    requires from <= |tokens| && InOrder(tokens, from, [first] + rest) && first.end <= |tokens|
    ensures Written(tokens, [first] + rest, first.end, |tokens|) == Written(tokens, rest, first.end, |tokens|)
  {
    var found := [first] + rest;
    assert found[0] == first;
    forall k: nat | first.end < k <= |tokens| ensures MarksAt(found, k) == MarksAt(rest, k) {
      MarksOfFirst(tokens, from, first, rest, k);
    }
    SameMarks(tokens, found, rest, first.end, |tokens|);
  }

  lemma KeptRegroup(a: seq<Out>, b: seq<Out>, c: seq<Out>, d: seq<Out>, x: seq<Out>, y: seq<Out>, z: seq<Out>)
    requires a + b == x + [GroupOpen] && c == y + [GroupClose] + z
    ensures a + (b + c + d) == x + ([GroupOpen] + y + [GroupClose]) + (z + d)
  {
    assert a + (b + c + d) == (a + b) + c + d;
    assert (x + [GroupOpen]) + (y + [GroupClose] + z) + d == x + ([GroupOpen] + y + [GroupClose]) + (z + d);
  }

  lemma SkippedRegroup(a: seq<Out>, b: seq<Out>, d: seq<Out>, x: seq<Out>, z: seq<Out>)
    requires a + b == x + z
    ensures a + (b + d) == x + (z + d)
  {
    OutsRegroup(a, b, d);
    OutsRegroup(x, z, d);
  }

  lemma InThreeParts(tokens: seq<Token>, found: seq<Found>, a: nat, b: nat, c: nat, d: nat)
    requires a <= b <= c <= d <= |tokens|
    ensures Written(tokens, found, a, d) == Written(tokens, found, a, b) + Written(tokens, found, b, c) + Written(tokens, found, c, d)
  {
    MarkedConcat(tokens, MarksOf(found), a, b, c);
    MarkedConcat(tokens, MarksOf(found), a, c, d);
  }

  // Runs in order are written with an opening in front of every group with a block, a
  // closing behind it, and no other.
  lemma {:induction false} WrappersStand(tokens: seq<Token>, from: nat, found: seq<Found>)
    requires from <= |tokens| && InOrder(tokens, from, found)
    ensures Wrapped(tokens, from, found) == OpensAt(found, from) + Written(tokens, found, from, |tokens|)
    decreases |found|
  {
    if found == [] {
      WrittenPlain(tokens, found, from, |tokens|);
      assert Copied(tokens, from, |tokens|) + [] == Copied(tokens, from, |tokens|);
      assert [] + Written(tokens, found, from, |tokens|) == Written(tokens, found, from, |tokens|);
    } else {
      var first, rest := found[0], found[1..];
      assert found == [first] + rest;
      WrappersStand(tokens, first.end, rest);
      RestIsWritten(tokens, from, first, rest);
      WrappedCons(tokens, from, first, rest);
      if first.kept {
        KeptStands(tokens, from, first, rest);
      } else {
        SkippedStands(tokens, from, first, rest);
      }
    }
  }

  lemma KeptStands(tokens: seq<Token>, from: nat, first: Found, rest: seq<Found>)
    requires from <= |tokens| && InOrder(tokens, from, [first] + rest) && first.kept
    ensures from <= first.start < first.end <= |tokens| && InOrder(tokens, first.end, rest)
    ensures OpensAt([first] + rest, from) + Written(tokens, [first] + rest, from, |tokens|)
            == Copied(tokens, from, first.start) + GroupOf(tokens, first) + (OpensAt(rest, first.end) + Written(tokens, rest, first.end, |tokens|))
  {
    var found := [first] + rest;
    assert found[0] == first && found[1..] == rest;
    FrontIsWritten(tokens, from, first, rest);
    GroupIsWrittenOut(tokens, from, first, rest);
    RestIsWritten(tokens, from, first, rest);
    InThreeParts(tokens, found, from, first.start, first.end, |tokens|);
    KeptRegroup(OpensAt(found, from), Written(tokens, found, from, first.start), Written(tokens, found, first.start, first.end),
                Written(tokens, rest, first.end, |tokens|), Copied(tokens, from, first.start), Copied(tokens, first.start, first.end),
                OpensAt(rest, first.end));
  }

  lemma SkippedStands(tokens: seq<Token>, from: nat, first: Found, rest: seq<Found>)
    requires from <= |tokens| && InOrder(tokens, from, [first] + rest) && !first.kept
    ensures from < first.end <= |tokens| && InOrder(tokens, first.end, rest)
    ensures OpensAt([first] + rest, from) + Written(tokens, [first] + rest, from, |tokens|)
            == Copied(tokens, from, first.end) + (OpensAt(rest, first.end) + Written(tokens, rest, first.end, |tokens|))
  {
    var found := [first] + rest;
    assert found[0] == first && found[1..] == rest;
    SkippedIsWritten(tokens, from, first, rest);
    RestIsWritten(tokens, from, first, rest);
    MarkedConcat(tokens, MarksOf(found), from, first.end, |tokens|);
    SkippedRegroup(OpensAt(found, from), Written(tokens, found, from, first.end), Written(tokens, rest, first.end, |tokens|),
                   Copied(tokens, from, first.end), OpensAt(rest, first.end));
  }

  // The wrapper is a div.
  lemma WrapperIsDiv()
    ensures Rendered([GroupOpen, GroupClose]) == [Open("div"), Close("div")]
  {
  }

  // So where all that is visited closes, the output has a wrapper opened in front of the
  // first heading of every run with a block, and closed behind that block, and no other.
  lemma OutputIsWritten(tokens: seq<Token>)
    requires VisitedClose(tokens, 0)
    ensures Within(tokens, AllFound(tokens)) && AllFound(tokens) == FoundFrom(tokens, 0)
    ensures Emitted(tokens, 0, AllFound(tokens)) == OpensAt(AllFound(tokens), 0) + Written(tokens, AllFound(tokens), 0, |tokens|)
  {
    FoundIsAll(tokens, 0, CanGoOn(tokens));
    ScanFoundWithin(tokens, 0, CanGoOn(tokens));
    FoundInOrder(tokens, 0);
    EmittedIsWrapped(tokens, 0, 0, AllFound(tokens));
    WrappersStand(tokens, 0, AllFound(tokens));
    assert Copied(tokens, 0, 0) == [];
  }
}
