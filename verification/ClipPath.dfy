/** figura/scripts/inline-diagrams.mjs: a d2 label mask, white inside its bounds with black
    cutouts, becomes one path filled by the even-odd rule (section 11.3 of SVG 1.1). */
module ClipPath {

  datatype Point = Point(x: real, y: real)

  datatype Rect = Rect(x: real, y: real, width: real, height: real)

  // Sizes as the expressions read them, without a sign.
  predicate Measured(r: Rect) {
    r.width >= 0.0 && r.height >= 0.0
  }

  predicate In(p: Point, r: Rect) {
    r.x <= p.x < r.x + r.width && r.y <= p.y < r.y + r.height
  }

  // ----- the mask and the path

  // What the mask leaves visible: its bounds without the cutouts.
  ghost predicate MaskShows(p: Point, bounds: Rect, cutouts: seq<Rect>) {
    In(p, bounds) && !exists i :: 0 <= i < |cutouts| && In(p, cutouts[i])
  }

  datatype Command = MoveTo(x: real, y: real) | Horizontal(dx: real) | Vertical(dy: real) | ClosePath

  // `M x y h width v height h -width Z`.
  function RectangleSubpath(r: Rect): seq<Command> {
    [MoveTo(r.x, r.y), Horizontal(r.width), Vertical(r.height), Horizontal(-r.width), ClosePath]
  }

  function Outline(rects: seq<Rect>): seq<Command> {
    if rects == [] then [] else RectangleSubpath(rects[0]) + Outline(rects[1..])
  }

  datatype Pen = Pen(start: Point, at: Point)

  function Moved(pen: Pen, command: Command): Pen {
    match command
    case MoveTo(x, y) => Pen(Point(x, y), Point(x, y))
    case Horizontal(dx) => Pen(pen.start, Point(pen.at.x + dx, pen.at.y))
    case Vertical(dy) => Pen(pen.start, Point(pen.at.x, pen.at.y + dy))
    case ClosePath => Pen(pen.start, pen.start)
  }

  // Whether the ray from p to the right crosses the line from a to b of an axis-aligned
  // path; a line holds its upper end and not its lower one.
  function Crossing(p: Point, a: Point, b: Point): nat {
    if p.x < a.x && ((a.y <= p.y < b.y) || (b.y <= p.y < a.y)) then 1 else 0
  }

  function Crossings(p: Point, path: seq<Command>, pen: Pen): nat {
    if path == [] then 0
    else
      var next := Moved(pen, path[0]);
      (if path[0].MoveTo? then 0 else Crossing(p, pen.at, next.at)) + Crossings(p, path[1..], next)
  }

  const ORIGIN: Pen := Pen(Point(0.0, 0.0), Point(0.0, 0.0))

  // The even-odd rule: an odd number of crossings is inside.
  predicate PathPaints(p: Point, path: seq<Command>) {
    Crossings(p, path, ORIGIN) % 2 == 1
  }

  predicate ClipShows(p: Point, bounds: Rect, cutouts: seq<Rect>) {
    PathPaints(p, Outline([bounds] + cutouts))
  }

  // ----- parity

  function Holding(p: Point, rects: seq<Rect>): nat {
    if rects == [] then 0 else (if In(p, rects[0]) then 1 else 0) + Holding(p, rects[1..])
  }

  function CrossingsOfRectangle(p: Point, r: Rect): nat {
    Crossing(p, Point(r.x + r.width, r.y), Point(r.x + r.width, r.y + r.height)) + Crossing(p, Point(r.x, r.y + r.height), Point(r.x, r.y))
  }

  // One rectangle subpath is crossed an odd number of times from inside it only.
  lemma RectangleParity(p: Point, r: Rect)
    requires Measured(r)
    ensures CrossingsOfRectangle(p, r) % 2 == if In(p, r) then 1 else 0
  {
  }

  lemma CrossingsFirst(p: Point, command: Command, rest: seq<Command>, pen: Pen)
    ensures Crossings(p, [command] + rest, pen)
            == (if command.MoveTo? then 0 else Crossing(p, pen.at, Moved(pen, command).at)) + Crossings(p, rest, Moved(pen, command))
  {
    assert ([command] + rest)[1..] == rest;
  }

  lemma CrossingsOfSubpath(p: Point, r: Rect, rest: seq<Command>, pen: Pen)
    ensures var after := Pen(Point(r.x, r.y), Point(r.x, r.y));
            Crossings(p, RectangleSubpath(r) + rest, pen) == CrossingsOfRectangle(p, r) + Crossings(p, rest, after)
  {
    var c := RectangleSubpath(r);
    var after := Pen(Point(r.x, r.y), Point(r.x, r.y));
    var p1 := after;
    var p2 := Moved(p1, c[1]);
    var p3 := Moved(p2, c[2]);
    var p4 := Moved(p3, c[3]);
    assert p4.at == Point(r.x, r.y + r.height);
    SubpathIsFive(r, rest);
    CrossingsFirst(p, c[0], [c[1]] + ([c[2]] + ([c[3]] + ([c[4]] + rest))), pen);
    CrossingsFirst(p, c[1], [c[2]] + ([c[3]] + ([c[4]] + rest)), p1);
    CrossingsFirst(p, c[2], [c[3]] + ([c[4]] + rest), p2);
    CrossingsFirst(p, c[3], [c[4]] + rest, p3);
    CrossingsFirst(p, c[4], rest, p4);
  }

  lemma SubpathIsFive(r: Rect, rest: seq<Command>)
    ensures var c := RectangleSubpath(r); c + rest == [c[0]] + ([c[1]] + ([c[2]] + ([c[3]] + ([c[4]] + rest))))
  {
  }

  lemma {:induction false} OutlineParity(p: Point, rects: seq<Rect>, pen: Pen)
    requires forall i | 0 <= i < |rects| :: Measured(rects[i])
    ensures Crossings(p, Outline(rects), pen) % 2 == Holding(p, rects) % 2
  {
    if rects != [] {
      var r := rects[0];
      CrossingsOfSubpath(p, r, Outline(rects[1..]), pen);
      OutlineParity(p, rects[1..], Pen(Point(r.x, r.y), Point(r.x, r.y)));
      RectangleParity(p, r);
    }
  }

  lemma {:induction false} HoldingIsZero(p: Point, rects: seq<Rect>)
    ensures Holding(p, rects) == 0 <==> !exists i :: 0 <= i < |rects| && In(p, rects[i])
  {
    if rects != [] {
      HoldingIsZero(p, rects[1..]);
      if exists i :: 0 <= i < |rects| && In(p, rects[i]) {
        var i :| 0 <= i < |rects| && In(p, rects[i]);
        assert i == 0 || In(p, rects[1..][i - 1]);
      }
      if Holding(p, rects[1..]) > 0 {
        var i :| 0 <= i < |rects[1..]| && In(p, rects[1..][i]);
        assert In(p, rects[i + 1]);
      }
    }
  }

  // Path and mask agree at a point exactly when the number of cutouts over it is right:
  // none or an odd number inside the bounds, an even number outside.
  lemma AgreesIff(p: Point, bounds: Rect, cutouts: seq<Rect>)
    requires Measured(bounds) && forall i | 0 <= i < |cutouts| :: Measured(cutouts[i])
    ensures (ClipShows(p, bounds, cutouts) <==> MaskShows(p, bounds, cutouts))
            <==> (if In(p, bounds) then Holding(p, cutouts) == 0 || Holding(p, cutouts) % 2 == 1 else Holding(p, cutouts) % 2 == 0)
  {
    OutlineParity(p, [bounds] + cutouts, ORIGIN);
    assert ([bounds] + cutouts)[1..] == cutouts;
    HoldingIsZero(p, cutouts);
  }

  // ----- disjoint cutouts inside the bounds

  predicate Empty(r: Rect) {
    r.width == 0.0 || r.height == 0.0
  }

  predicate Apart(a: Rect, b: Rect) {
    Empty(a) || Empty(b)
    || a.x + a.width <= b.x || b.x + b.width <= a.x || a.y + a.height <= b.y || b.y + b.height <= a.y
  }

  predicate Inside(r: Rect, bounds: Rect) {
    Empty(r) || (bounds.x <= r.x && r.x + r.width <= bounds.x + bounds.width && bounds.y <= r.y && r.y + r.height <= bounds.y + bounds.height)
  }

  predicate CleanMask(bounds: Rect, cutouts: seq<Rect>) {
    && Measured(bounds) && (forall i | 0 <= i < |cutouts| :: Measured(cutouts[i]) && Inside(cutouts[i], bounds))
    && (forall i, j | 0 <= i < j < |cutouts| :: Apart(cutouts[i], cutouts[j]))
  }

  lemma {:induction false} ApartHoldsOnce(p: Point, rects: seq<Rect>)
    requires forall i, j | 0 <= i < j < |rects| :: Apart(rects[i], rects[j])
    requires forall i | 0 <= i < |rects| :: Measured(rects[i])
    ensures Holding(p, rects) <= 1
  {
    if rects != [] {
      ApartHoldsOnce(p, rects[1..]);
      HoldingIsZero(p, rects[1..]);
      if In(p, rects[0]) {
        forall i | 0 <= i < |rects[1..]| ensures !In(p, rects[1..][i]) {
          assert Apart(rects[0], rects[i + 1]);
        }
      }
    }
  }

  // The path paints exactly the points the mask leaves visible.
  lemma ClipPaintsTheMask(p: Point, bounds: Rect, cutouts: seq<Rect>)
    requires CleanMask(bounds, cutouts)
    ensures ClipShows(p, bounds, cutouts) <==> MaskShows(p, bounds, cutouts)
  {
    AgreesIff(p, bounds, cutouts);
    ApartHoldsOnce(p, cutouts);
    HoldingIsZero(p, cutouts);
  }

  // Two cutouts over one point of the bounds and no third: the mask hides it, the path
  // paints it.
  lemma OverlapShowsThrough(p: Point, bounds: Rect, cutouts: seq<Rect>)
    requires Measured(bounds) && forall i | 0 <= i < |cutouts| :: Measured(cutouts[i])
    requires In(p, bounds) && Holding(p, cutouts) == 2
    ensures ClipShows(p, bounds, cutouts) && !MaskShows(p, bounds, cutouts)
  {
    AgreesIff(p, bounds, cutouts);
    HoldingIsZero(p, cutouts);
  }

  // ----- when exactly path and mask agree everywhere

  ghost predicate AgreesAt(p: Point, bounds: Rect, cutouts: seq<Rect>) {
    ClipShows(p, bounds, cutouts) <==> MaskShows(p, bounds, cutouts)
  }

  // The greatest of the numbers that is not above a limit.
  ghost predicate IsFloor(numbers: seq<real>, limit: real, k: nat) {
    k < |numbers| && numbers[k] <= limit && forall i | 0 <= i < |numbers| && numbers[i] <= limit :: numbers[i] <= numbers[k]
  }

  lemma {:induction false} FloorExists(numbers: seq<real>, limit: real) returns (k: nat)
    requires exists i :: 0 <= i < |numbers| && numbers[i] <= limit
    ensures IsFloor(numbers, limit, k)
  {
    var last := |numbers| - 1;
    if exists i :: 0 <= i < last && numbers[..last][i] <= limit {
      var j := FloorExists(numbers[..last], limit);
      assert forall i | 0 <= i < last :: numbers[..last][i] == numbers[i];
      k := if numbers[last] <= limit && numbers[j] <= numbers[last] then last else j;
    } else {
      assert forall i | 0 <= i < last :: numbers[..last][i] == numbers[i];
      k := last;
    }
  }

  function Xs(rects: seq<Rect>): seq<real> {
    if rects == [] then [] else [rects[0].x, rects[0].x + rects[0].width] + Xs(rects[1..])
  }

  function Ys(rects: seq<Rect>): seq<real> {
    if rects == [] then [] else [rects[0].y, rects[0].y + rects[0].height] + Ys(rects[1..])
  }

  // The edges of a rectangle are among the numbers.
  ghost predicate EdgesIn(xs: seq<real>, ys: seq<real>, r: Rect) {
    r.x in xs && r.x + r.width in xs && r.y in ys && r.y + r.height in ys
  }

  lemma {:induction false} EdgesAreListed(rects: seq<Rect>, i: nat)
    requires i < |rects|
    ensures EdgesIn(Xs(rects), Ys(rects), rects[i])
  {
    if i > 0 {
      EdgesAreListed(rects[1..], i - 1);
    }
  }

  lemma {:induction false} SameHolding(p: Point, q: Point, rects: seq<Rect>)
    requires forall i | 0 <= i < |rects| :: In(p, rects[i]) <==> In(q, rects[i])
    ensures Holding(p, rects) == Holding(q, rects)
  {
    if rects != [] {
      SameHolding(p, q, rects[1..]);
    }
  }

  ghost predicate AgreesOnGrid(bounds: Rect, cutouts: seq<Rect>) {
    var rects := [bounds] + cutouts;
    forall i, j | 0 <= i < |Xs(rects)| && 0 <= j < |Ys(rects)| :: AgreesAt(Point(Xs(rects)[i], Ys(rects)[j]), bounds, cutouts)
  }

  // No edge lies between a number and its floor.
  lemma FloorKeepsSide(numbers: seq<real>, limit: real, k: nat, edge: real)
    requires IsFloor(numbers, limit, k) && edge in numbers
    ensures edge <= limit <==> edge <= numbers[k]
  {
    var i :| 0 <= i < |numbers| && numbers[i] == edge;
  }

  // A point and the grid point at its lower left lie in the same rectangles.
  lemma InIsFloored(p: Point, xs: seq<real>, i: nat, ys: seq<real>, j: nat, r: Rect)
    requires IsFloor(xs, p.x, i) && IsFloor(ys, p.y, j) && EdgesIn(xs, ys, r)
    ensures In(p, r) <==> In(Point(xs[i], ys[j]), r)
  {
    FloorKeepsSide(xs, p.x, i, r.x);
    FloorKeepsSide(xs, p.x, i, r.x + r.width);
    FloorKeepsSide(ys, p.y, j, r.y);
    FloorKeepsSide(ys, p.y, j, r.y + r.height);
  }

  lemma BelowEdges(p: Point, xs: seq<real>, ys: seq<real>, r: Rect)
    requires EdgesIn(xs, ys, r)
    requires (forall i | 0 <= i < |xs| :: p.x < xs[i]) || (forall j | 0 <= j < |ys| :: p.y < ys[j])
    ensures !In(p, r)
  {
    var i :| 0 <= i < |xs| && xs[i] == r.x;
    var j :| 0 <= j < |ys| && ys[j] == r.y;
  }

  lemma BelowGridAgrees(p: Point, xs: seq<real>, ys: seq<real>, bounds: Rect, cutouts: seq<Rect>)
    requires Measured(bounds) && forall i | 0 <= i < |cutouts| :: Measured(cutouts[i])
    requires (forall i | 0 <= i < |xs| :: p.x < xs[i]) || (forall j | 0 <= j < |ys| :: p.y < ys[j])
    requires EdgesIn(xs, ys, bounds) && forall k | 0 <= k < |cutouts| :: EdgesIn(xs, ys, cutouts[k])
    ensures AgreesAt(p, bounds, cutouts)
  {
    BelowEdges(p, xs, ys, bounds);
    forall k | 0 <= k < |cutouts| ensures !In(p, cutouts[k]) {
      BelowEdges(p, xs, ys, cutouts[k]);
    }
    AgreesIff(p, bounds, cutouts);
    HoldingIsZero(p, cutouts);
  }

  lemma FlooredAgrees(p: Point, xs: seq<real>, i: nat, ys: seq<real>, j: nat, bounds: Rect, cutouts: seq<Rect>)
    requires Measured(bounds) && forall k | 0 <= k < |cutouts| :: Measured(cutouts[k])
    requires IsFloor(xs, p.x, i) && IsFloor(ys, p.y, j)
    requires EdgesIn(xs, ys, bounds) && forall k | 0 <= k < |cutouts| :: EdgesIn(xs, ys, cutouts[k])
    ensures AgreesAt(p, bounds, cutouts) <==> AgreesAt(Point(xs[i], ys[j]), bounds, cutouts)
  {
    var q := Point(xs[i], ys[j]);
    InIsFloored(p, xs, i, ys, j, bounds);
    forall k | 0 <= k < |cutouts| ensures In(p, cutouts[k]) <==> In(q, cutouts[k]) {
      InIsFloored(p, xs, i, ys, j, cutouts[k]);
    }
    SameHolding(p, q, cutouts);
    AgreesIff(p, bounds, cutouts);
    AgreesIff(q, bounds, cutouts);
  }

  lemma AllEdgesAreListed(bounds: Rect, cutouts: seq<Rect>)
    ensures var rects := [bounds] + cutouts;
            EdgesIn(Xs(rects), Ys(rects), bounds) && forall k | 0 <= k < |cutouts| :: EdgesIn(Xs(rects), Ys(rects), cutouts[k])
  {
    var rects := [bounds] + cutouts;
    EdgesAreListed(rects, 0);
    forall k | 0 <= k < |cutouts| ensures EdgesIn(Xs(rects), Ys(rects), cutouts[k]) {
      EdgesAreListed(rects, k + 1);
    }
  }

  // Path and mask agree at every point of the plane exactly when they agree at the
  // crossings of the finitely many edge lines.
  lemma AgreesEverywhereIff(bounds: Rect, cutouts: seq<Rect>)
    requires Measured(bounds) && forall i | 0 <= i < |cutouts| :: Measured(cutouts[i])
    ensures (forall p :: AgreesAt(p, bounds, cutouts)) <==> AgreesOnGrid(bounds, cutouts)
  {
    if AgreesOnGrid(bounds, cutouts) {
      forall p ensures AgreesAt(p, bounds, cutouts) {
        GridDecides(p, bounds, cutouts);
      }
    }
  }

  lemma GridDecides(p: Point, bounds: Rect, cutouts: seq<Rect>)
    requires Measured(bounds) && forall i | 0 <= i < |cutouts| :: Measured(cutouts[i])
    requires AgreesOnGrid(bounds, cutouts)
    ensures AgreesAt(p, bounds, cutouts)
  {
    var rects := [bounds] + cutouts;
    AllEdgesAreListed(bounds, cutouts);
    if (exists i :: 0 <= i < |Xs(rects)| && Xs(rects)[i] <= p.x) && (exists j :: 0 <= j < |Ys(rects)| && Ys(rects)[j] <= p.y) {
      var i := FloorExists(Xs(rects), p.x);
      var j := FloorExists(Ys(rects), p.y);
      FlooredAgrees(p, Xs(rects), i, Ys(rects), j, bounds, cutouts);
    } else {
      BelowGridAgrees(p, Xs(rects), Ys(rects), bounds, cutouts);
    }
  }

  // ----- rewriting the references

  datatype Svg =
    | CutoutMask(id: string, bounds: Rect, cutouts: seq<Rect>)
    | MaskReference(id: string)
    | ClipPathElement(id: string, outline: seq<Command>)
    | ClipReference(id: string)
    | Other(text: string)

  function MaskIds(svg: seq<Svg>): set<string> {
    set i | 0 <= i < |svg| && svg[i].CutoutMask? :: svg[i].id
  }

  // Both passes: masks to clip paths, collecting their ids, then the references.
  method WithVectorLabelClips(svg: seq<Svg>) returns (clipped: seq<Svg>)
    ensures |clipped| == |svg|
    ensures forall i | 0 <= i < |svg| :: clipped[i] ==
              match svg[i]
              case CutoutMask(id, bounds, cutouts) => ClipPathElement(id, Outline([bounds] + cutouts))
              case MaskReference(id) => if id in MaskIds(svg) then ClipReference(id) else svg[i]
              case _ => svg[i]
  {
    var convertedMaskIds := {};
    var converted := [];
    for i := 0 to |svg|
      invariant |converted| == i && convertedMaskIds == set k | 0 <= k < i && svg[k].CutoutMask? :: svg[k].id
      invariant forall k | 0 <= k < i :: converted[k] ==
                  if svg[k].CutoutMask? then ClipPathElement(svg[k].id, Outline([svg[k].bounds] + svg[k].cutouts)) else svg[k]
    {
      if svg[i].CutoutMask? {
        convertedMaskIds := convertedMaskIds + {svg[i].id};
        converted := converted + [ClipPathElement(svg[i].id, Outline([svg[i].bounds] + svg[i].cutouts))];
      } else {
        converted := converted + [svg[i]];
      }
    }
    clipped := [];
    for i := 0 to |converted|
      invariant |clipped| == i
      invariant forall k | 0 <= k < i :: clipped[k] ==
                  if converted[k].MaskReference? && converted[k].id in convertedMaskIds then ClipReference(converted[k].id) else converted[k]
    {
      clipped := clipped + [if converted[i].MaskReference? && converted[i].id in convertedMaskIds then ClipReference(converted[i].id) else converted[i]];
    }
  }
}
