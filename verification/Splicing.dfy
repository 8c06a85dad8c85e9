/** figura/scripts/inline-diagrams.mjs: every diagram of a document is put in the place
    of its source block, the last block first, so that earlier spans stay valid. What
    svgAtPrintSize makes of a diagram is the text `svg`. */
module Splicing {
  datatype Diagram = Diagram(start: nat, end: nat, svg: string)

  // Blocks of the document are not empty and do not touch each other's text.
  predicate Spans(html: string, diagrams: seq<Diagram>) {
    && (forall i | 0 <= i < |diagrams| :: diagrams[i].start < diagrams[i].end <= |html|)
    && (forall i, j | 0 <= i < j < |diagrams| :: Apart(diagrams[i], diagrams[j]))
  }

  predicate Apart(a: Diagram, b: Diagram) {
    a.end <= b.start || b.end <= a.start
  }

  predicate InOrder(diagrams: seq<Diagram>) {
    forall i, j | 0 <= i < j < |diagrams| :: diagrams[i].end <= diagrams[j].start
  }

  // Blocks in order at or after a place in the document.
  predicate Ahead(html: string, cut: nat, diagrams: seq<Diagram>) {
    cut <= |html| && InOrder(diagrams)
    && forall k | 0 <= k < |diagrams| :: cut <= diagrams[k].start < diagrams[k].end <= |html|
  }

  // The document read once from front to back: text up to the next block, the drawing
  // that stands for the block, and so on.
  function Assembled(html: string, from: nat, diagrams: seq<Diagram>): string
    requires Ahead(html, from, diagrams)
    decreases |diagrams|
  {
    if diagrams == [] then html[from..]
    else html[from..diagrams[0].start] + diagrams[0].svg + Assembled(html, diagrams[0].end, diagrams[1..])
  }

  // The stable sort by falling start.
  function Placed(diagram: Diagram, sorted: seq<Diagram>): seq<Diagram> {
    if sorted == [] then [diagram]
    else if sorted[|sorted| - 1].start < diagram.start then Placed(diagram, sorted[..|sorted| - 1]) + [sorted[|sorted| - 1]]
    else sorted + [diagram]
  }

  function LastFirst(diagrams: seq<Diagram>): seq<Diagram> {
    if diagrams == [] then [] else Placed(diagrams[|diagrams| - 1], LastFirst(diagrams[..|diagrams| - 1]))
  }

  predicate BackToFront(sorted: seq<Diagram>) {
    forall i, j | 0 <= i < j < |sorted| :: sorted[j].end <= sorted[i].start
  }

  ghost predicate SameMembers(a: seq<Diagram>, b: seq<Diagram>) {
    forall d :: d in a <==> d in b
  }

  lemma {:induction false} PlacedStaysBackToFront(diagram: Diagram, sorted: seq<Diagram>)
    requires BackToFront(sorted) && diagram.start < diagram.end
    requires forall d | d in sorted :: d.start < d.end && Apart(d, diagram)
    ensures BackToFront(Placed(diagram, sorted))
    ensures SameMembers(Placed(diagram, sorted), sorted + [diagram])
  {
    if sorted == [] {
    } else if sorted[|sorted| - 1].start < diagram.start {
      var before, last := sorted[..|sorted| - 1], sorted[|sorted| - 1];
      PlacedStaysBackToFront(diagram, before);
      assert sorted == before + [last];
      Behind(Placed(diagram, before), before + [diagram], last);
    } else {
      Behind(sorted, sorted, diagram);
    }
  }

  lemma Behind(sorted: seq<Diagram>, members: seq<Diagram>, last: Diagram)
    requires BackToFront(sorted) && SameMembers(sorted, members) && forall d | d in members :: last.end <= d.start
    ensures BackToFront(sorted + [last])
  {
    assert forall i | 0 <= i < |sorted| :: sorted[i] in members;
  }

  lemma {:induction false} LastFirstIsBackToFront(html: string, diagrams: seq<Diagram>)
    requires Spans(html, diagrams)
    ensures BackToFront(LastFirst(diagrams)) && SameMembers(LastFirst(diagrams), diagrams)
  {
    if diagrams != [] {
      var n := |diagrams| - 1;
      LastFirstIsBackToFront(html, diagrams[..n]);
      forall d | d in LastFirst(diagrams[..n]) ensures d.start < d.end && Apart(d, diagrams[n]) {
        assert d in diagrams[..n];
      }
      PlacedStaysBackToFront(diagrams[n], LastFirst(diagrams[..n]));
      assert diagrams == diagrams[..n] + [diagrams[n]];
    }
  }

  function Reversed(diagrams: seq<Diagram>): (r: seq<Diagram>)
    ensures |r| == |diagrams| && forall i | 0 <= i < |r| :: r[i] == diagrams[|r| - 1 - i]
    ensures forall d :: d in r <==> d in diagrams
  {
    if diagrams == [] then [] else [diagrams[|diagrams| - 1]] + Reversed(diagrams[..|diagrams| - 1])
  }

  predicate NonEmpty(diagrams: seq<Diagram>) {
    forall i | 0 <= i < |diagrams| :: diagrams[i].start < diagrams[i].end
  }

  // Two listings of the same blocks in order are the same listing.
  lemma {:induction false} OneOrder(a: seq<Diagram>, b: seq<Diagram>)
    requires InOrder(a) && InOrder(b) && NonEmpty(a) && NonEmpty(b) && SameMembers(a, b)
    ensures a == b
  {
    assert a != [] ==> a[0] in b;
    assert b != [] ==> b[0] in a;
    if a == [] {
    } else {
      FirstIsFirst(a, b);
      assert a == [a[0]] + a[1..] && b == [b[0]] + b[1..];
      FirstIsOnce(a);
      FirstIsOnce(b);
      OneOrder(a[1..], b[1..]);
    }
  }

  lemma FirstIsFirst(a: seq<Diagram>, b: seq<Diagram>)
    requires a != [] && b != [] && InOrder(a) && InOrder(b) && NonEmpty(a) && NonEmpty(b) && SameMembers(a, b)
    ensures a[0] == b[0]
  {
    assert a[0] in b && b[0] in a;
    var i :| 0 <= i < |a| && a[i] == b[0];
    var j :| 0 <= j < |b| && b[j] == a[0];
  }

  lemma FirstIsOnce(a: seq<Diagram>)
    requires a != [] && InOrder(a) && NonEmpty(a)
    ensures forall d :: d in a[1..] <==> d in a && d != a[0]
  {
  }

  lemma Regroup(a: string, b: string, c: string, d: string)
    ensures (a + b) + c + d == a + (b + c + d)
    ensures a + (b + c) == (a + b) + c
  {
  }

  lemma TextComesFirst(html: string, from: nat, cut: nat, later: seq<Diagram>)
    requires from <= cut && Ahead(html, cut, later)
    requires later == [] ==> cut == |html|
    ensures Ahead(html, from, later) && Assembled(html, from, later) == html[from..cut] + Assembled(html, cut, later)
  {
    if later == [] {
      assert html[from..] == html[from..cut] + html[cut..];
    } else {
      var start := later[0].start;
      assert html[from..start] == html[from..cut] + html[cut..start];
      Regroup(html[from..cut], html[cut..start], later[0].svg, Assembled(html, later[0].end, later[1..]));
    }
  }

  // What stands before a block and what replaces it, in front of the part already done.
  lemma OneReplacement(html: string, document: string, cut: nat, later: seq<Diagram>, d: Diagram)
    requires d.start < d.end <= cut && Ahead(html, cut, later)
    requires later == [] ==> cut == |html|
    requires document == html[..cut] + Assembled(html, cut, later)
    ensures Ahead(html, d.start, [d] + later)
    ensures document[..d.start] + d.svg + document[d.end..] == html[..d.start] + Assembled(html, d.start, [d] + later)
  {
    assert document[..d.start] == html[..d.start];
    assert document[d.end..] == html[d.end..cut] + Assembled(html, cut, later);
    TextComesFirst(html, d.end, cut, later);
    assert ([d] + later)[1..] == later;
    assert html[d.start..d.start] + d.svg == d.svg;
    Regroup(html[..d.start], d.svg, Assembled(html, d.end, later), "");
  }

  function Cut(html: string, sorted: seq<Diagram>): nat {
    if sorted == [] then |html| else sorted[|sorted| - 1].start
  }

  // In front of the last replaced block the text is untouched, from there on it is assembled.
  ghost predicate Done(html: string, sorted: seq<Diagram>, document: string) {
    var cut, later := Cut(html, sorted), Reversed(sorted);
    Ahead(html, cut, later) && document == html[..cut] + Assembled(html, cut, later)
  }

  predicate Within(html: string, diagrams: seq<Diagram>) {
    forall i | 0 <= i < |diagrams| :: diagrams[i].start < diagrams[i].end <= |html|
  }

  lemma NextDone(html: string, done: seq<Diagram>, d: Diagram, document: string)
    requires d.start < d.end <= Cut(html, done) && Done(html, done, document)
    ensures d.end <= |document| && Done(html, done + [d], document[..d.start] + d.svg + document[d.end..])
  {
    OneReplacement(html, document, Cut(html, done), Reversed(done), d);
    assert (done + [d])[..|done|] == done;
  }

  lemma SortedSpans(html: string, diagrams: seq<Diagram>)
    requires Spans(html, diagrams)
    ensures BackToFront(LastFirst(diagrams)) && Within(html, LastFirst(diagrams)) && SameMembers(LastFirst(diagrams), diagrams)
  {
    var sorted := LastFirst(diagrams);
    LastFirstIsBackToFront(html, diagrams);
    assert forall i | 0 <= i < |sorted| :: sorted[i] in diagrams;
  }

  lemma WholeDocument(html: string, sorted: seq<Diagram>, document: string)
    requires BackToFront(sorted) && Within(html, sorted) && Done(html, sorted, document)
    ensures Ahead(html, 0, Reversed(sorted)) && document == Assembled(html, 0, Reversed(sorted))
  {
    TextComesFirst(html, 0, Cut(html, sorted), Reversed(sorted));
    assert html[0..Cut(html, sorted)] == html[..Cut(html, sorted)];
  }

  // One replacement at a time, from the last block to the first, gives the document
  // assembled from front to back, in whatever order the diagrams were handed over.
  method InlineDiagrams(html: string, diagrams: seq<Diagram>) returns (document: string)
    requires Spans(html, diagrams)
    ensures exists ordered :: Ahead(html, 0, ordered) && SameMembers(ordered, diagrams) && document == Assembled(html, 0, ordered)
    ensures forall ordered :: Ahead(html, 0, ordered) && SameMembers(ordered, diagrams) ==> document == Assembled(html, 0, ordered)
  {
    var sorted := LastFirst(diagrams);
    SortedSpans(html, diagrams);
    document := html;
    for i := 0 to |sorted|
      invariant Done(html, sorted[..i], document)
    {
      var d := sorted[i];
      assert sorted[..i + 1] == sorted[..i] + [d];
      NextDone(html, sorted[..i], d, document);
      document := document[..d.start] + d.svg + document[d.end..];
    }
    assert sorted[..|sorted|] == sorted;
    WholeDocument(html, sorted, document);
    assert SameMembers(Reversed(sorted), diagrams);
    forall ordered | Ahead(html, 0, ordered) && SameMembers(ordered, diagrams)
      ensures document == Assembled(html, 0, ordered)
    {
      OneOrder(Reversed(sorted), ordered);
    }
  }
}
