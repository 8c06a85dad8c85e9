/** figura/scripts/layout-checks.mjs: the print scale of every diagram of a document and
    the size checks at that scale. Lengths are exact reals. */
module LayoutScale {
  import opened Optional

  const POINTS_PER_PIXEL: real := 0.75

  datatype Limits = Limits(columnWidthPoints: real, diagramHeightPoints: real, minimumLabelPoints: real)

  // What the page geometry of every theme gives.
  predicate PositiveLimits(limits: Limits) {
    limits.columnWidthPoints > 0.0 && limits.diagramHeightPoints > 0.0 && limits.minimumLabelPoints > 0.0
  }

  datatype Measurement = Measurement(widthPixels: real, heightPixels: real, fontPixels: seq<real>)

  // Sizes as the viewBox and the font-size properties of an SVG give them, without a sign.
  predicate Measured(m: Measurement) {
    m.widthPixels >= 0.0 && m.heightPixels >= 0.0 && forall i | 0 <= i < |m.fontPixels| :: m.fontPixels[i] >= 0.0
  }

  datatype Diagram = Diagram(ordinal: int, isErd: bool)

  datatype PrintScale = PrintScale(factor: real, setBy: int)

  // Math.min(1, column / width); a width of zero divides to Infinity.
  function DiagramScale(m: Measurement, limits: Limits): real {
    var widthPoints := m.widthPixels * POINTS_PER_PIXEL;
    if widthPoints == 0.0 then 1.0
    else if limits.columnWidthPoints / widthPoints < 1.0 then limits.columnWidthPoints / widthPoints
    else 1.0
  }

  // `erdIndexes.reduce(...)`: the first ERD diagram with the smallest own scale.
  function SharedIndex(diagrams: seq<Diagram>, measurements: seq<Measurement>, limits: Limits): (shared: Option<nat>)
    requires |diagrams| == |measurements|
    ensures shared.Some? ==> shared.value < |diagrams| && diagrams[shared.value].isErd
  {
    if diagrams == [] then None
    else
      var last := |diagrams| - 1;
      var before := SharedIndex(diagrams[..last], measurements[..last], limits);
      if !diagrams[last].isErd then before
      else if before.None? || DiagramScale(measurements[last], limits) < DiagramScale(measurements[before.value], limits) then Some(last)
      else before
  }

  function PrintScaleOf(diagrams: seq<Diagram>, measurements: seq<Measurement>, limits: Limits, i: nat): PrintScale
    requires |diagrams| == |measurements| && i < |diagrams|
  {
    var shared := SharedIndex(diagrams, measurements, limits);
    if diagrams[i].isErd && shared.Some?
    then PrintScale(DiagramScale(measurements[shared.value], limits), diagrams[shared.value].ordinal)
    else PrintScale(DiagramScale(measurements[i], limits), diagrams[i].ordinal)
  }

  // The diagram is no wider than the column at the scale.
  predicate FitsColumn(m: Measurement, limits: Limits, scale: real) {
    m.widthPixels * POINTS_PER_PIXEL * scale <= limits.columnWidthPoints
  }

  // The own scale is the greatest one, at most 1, at which the diagram fits the column.
  lemma OwnScaleIsGreatest(m: Measurement, limits: Limits)
    requires Measured(m) && PositiveLimits(limits)
    ensures 0.0 < DiagramScale(m, limits) <= 1.0
    ensures FitsColumn(m, limits, DiagramScale(m, limits))
    ensures forall s: real | s <= 1.0 && FitsColumn(m, limits, s) :: s <= DiagramScale(m, limits)
  {
    var w := m.widthPixels * POINTS_PER_PIXEL;
    if w > 0.0 {
      var s0 := limits.columnWidthPoints / w;
      assert w * s0 == limits.columnWidthPoints;
      assert s0 > 0.0;
      forall s: real | s <= 1.0 && FitsColumn(m, limits, s) ensures s <= DiagramScale(m, limits) {
        ProductOrder(w, s, s0);
      }
      ProductOrder(w, 1.0, s0);
    }
  }

  lemma ProductOrder(w: real, a: real, b: real)
    requires w > 0.0
    ensures w * a <= w * b <==> a <= b
    ensures w * a < w * b <==> a < b
  {
  }

  lemma {:induction false} SharedIsSmallest(diagrams: seq<Diagram>, measurements: seq<Measurement>, limits: Limits)
    requires |diagrams| == |measurements|
    ensures var shared := SharedIndex(diagrams, measurements, limits);
            forall i | 0 <= i < |diagrams| && diagrams[i].isErd ::
              shared.Some? && DiagramScale(measurements[shared.value], limits) <= DiagramScale(measurements[i], limits)
              && (i < shared.value ==> DiagramScale(measurements[shared.value], limits) < DiagramScale(measurements[i], limits))
  {
    if diagrams != [] {
      SharedIsSmallest(diagrams[..|diagrams| - 1], measurements[..|diagrams| - 1], limits);
    }
  }

  ghost predicate AllErdFit(diagrams: seq<Diagram>, measurements: seq<Measurement>, limits: Limits, scale: real)
    requires |diagrams| == |measurements|
  {
    forall i | 0 <= i < |diagrams| && diagrams[i].isErd :: FitsColumn(measurements[i], limits, scale)
  }

  lemma SmallerScaleFits(m: Measurement, limits: Limits, small: real, large: real)
    requires Measured(m) && 0.0 <= small <= large && FitsColumn(m, limits, large)
    ensures FitsColumn(m, limits, small)
  {
    ProductMonotone(m.widthPixels, small, large);
  }

  // The first ERD diagram whose own scale this is.
  ghost predicate SetsScale(diagrams: seq<Diagram>, measurements: seq<Measurement>, limits: Limits, k: nat, scale: PrintScale)
    requires |diagrams| == |measurements|
  {
    k < |diagrams| && diagrams[k].isErd && diagrams[k].ordinal == scale.setBy && DiagramScale(measurements[k], limits) == scale.factor
    && forall j | 0 <= j < k && diagrams[j].isErd :: DiagramScale(measurements[j], limits) != scale.factor
  }

  lemma SharedSetsScale(diagrams: seq<Diagram>, measurements: seq<Measurement>, limits: Limits, i: nat)
    requires |diagrams| == |measurements| && i < |diagrams| && diagrams[i].isErd
    ensures var shared := SharedIndex(diagrams, measurements, limits);
            shared.Some? && SetsScale(diagrams, measurements, limits, shared.value, PrintScaleOf(diagrams, measurements, limits, i))
  {
    SharedIsSmallest(diagrams, measurements, limits);
  }

  lemma SharedFitsAll(diagrams: seq<Diagram>, measurements: seq<Measurement>, limits: Limits, shared: nat)
    requires |diagrams| == |measurements| && PositiveLimits(limits) && forall k | 0 <= k < |measurements| :: Measured(measurements[k])
    requires SharedIndex(diagrams, measurements, limits) == Some(shared)
    ensures var scale := DiagramScale(measurements[shared], limits);
            && 0.0 < scale <= 1.0 && AllErdFit(diagrams, measurements, limits, scale)
            && forall s: real | s <= 1.0 && AllErdFit(diagrams, measurements, limits, s) :: s <= scale
  {
    var scale := DiagramScale(measurements[shared], limits);
    SharedIsSmallest(diagrams, measurements, limits);
    OwnScaleIsGreatest(measurements[shared], limits);
    forall k | 0 <= k < |diagrams| && diagrams[k].isErd ensures FitsColumn(measurements[k], limits, scale) {
      OwnScaleIsGreatest(measurements[k], limits);
      SmallerScaleFits(measurements[k], limits, scale, DiagramScale(measurements[k], limits));
    }
  }

  // Every print scale is in (0, 1] and fits its diagram to the column. The scale the ERD
  // diagrams share is the greatest one, at most 1, at which all of them fit, and the
  // diagram named in setBy is the first of them with that scale as its own. Any other
  // diagram prints at its own scale.
  lemma PrintScalesFit(diagrams: seq<Diagram>, measurements: seq<Measurement>, limits: Limits, i: nat)
    requires |diagrams| == |measurements| && i < |diagrams| && PositiveLimits(limits)
    requires forall k | 0 <= k < |measurements| :: Measured(measurements[k])
    ensures var scale := PrintScaleOf(diagrams, measurements, limits, i);
            && 0.0 < scale.factor <= 1.0 && FitsColumn(measurements[i], limits, scale.factor)
            && (diagrams[i].isErd ==> exists k: nat :: SetsScale(diagrams, measurements, limits, k, scale))
            && (diagrams[i].isErd ==> AllErdFit(diagrams, measurements, limits, scale.factor)
                                      && forall s: real | s <= 1.0 && AllErdFit(diagrams, measurements, limits, s) :: s <= scale.factor)
            && (!diagrams[i].isErd ==> scale == PrintScale(DiagramScale(measurements[i], limits), diagrams[i].ordinal))
  {
    OwnScaleIsGreatest(measurements[i], limits);
    if diagrams[i].isErd {
      SharedSetsScale(diagrams, measurements, limits, i);
      SharedFitsAll(diagrams, measurements, limits, SharedIndex(diagrams, measurements, limits).value);
    }
  }

  // ----- size problems

  // The limit line is the x of a vertical line or the y of a horizontal one.
  datatype SizeProblem =
    | TooWide(widestReadable: Option<real>)
    | TooTall(tallestFitting: real)

  function Smallest(fonts: seq<real>): (f: real)
    requires fonts != []
    ensures f in fonts && forall i | 0 <= i < |fonts| :: f <= fonts[i]
  {
    if |fonts| == 1 then fonts[0]
    else var f := Smallest(fonts[1..]); if fonts[0] <= f then fonts[0] else f
  }

  predicate LabelsTooSmall(m: Measurement, limits: Limits, scale: real) {
    m.fontPixels != [] && Smallest(m.fontPixels) * POINTS_PER_PIXEL * scale < limits.minimumLabelPoints
  }

  predicate IsTooTall(m: Measurement, limits: Limits, scale: real) {
    m.heightPixels * POINTS_PER_PIXEL * scale > limits.diagramHeightPoints
  }

  function WidestReadable(m: Measurement, limits: Limits): real
    requires m.fontPixels != [] && limits.minimumLabelPoints != 0.0
  {
    ReadableWidth(Smallest(m.fontPixels), limits)
  }

  function ReadableWidth(fontPixels: real, limits: Limits): real
    requires limits.minimumLabelPoints != 0.0
  {
    limits.columnWidthPoints * fontPixels / limits.minimumLabelPoints
  }

  function TallestFitting(limits: Limits, scale: real): real
    requires scale != 0.0
  {
    limits.diagramHeightPoints / (POINTS_PER_PIXEL * scale)
  }

  // ----- what the checks report

  // The size at which something of the drawing prints.
  function Printed(pixels: real, scale: real): real {
    pixels * POINTS_PER_PIXEL * scale
  }

  predicate SomeLabelUnderFloor(m: Measurement, limits: Limits, scale: real) {
    exists k :: 0 <= k < |m.fontPixels| && Printed(m.fontPixels[k], scale) < limits.minimumLabelPoints
  }

  // A line of the width at which a drawing scaled to the column prints its smallest label
  // at the floor.
  ghost predicate AtTheFloor(width: real, m: Measurement, limits: Limits) {
    exists k :: 0 <= k < |m.fontPixels| && (forall j | 0 <= j < |m.fontPixels| :: m.fontPixels[k] <= m.fontPixels[j])
                && width * limits.minimumLabelPoints == limits.columnWidthPoints * m.fontPixels[k]
  }

  // Some label prints under the floor: one problem, with the line when the drawing is
  // scaled down for its own width. It prints taller than the limit: one problem, with the
  // line at the height that prints exactly at the limit. Nothing else.
  ghost predicate Reports(problems: seq<SizeProblem>, diagram: Diagram, m: Measurement, limits: Limits, printScale: PrintScale) {
    && |problems| == (if SomeLabelUnderFloor(m, limits, printScale.factor) then 1 else 0)
                     + (if Printed(m.heightPixels, printScale.factor) > limits.diagramHeightPoints then 1 else 0)
    && (SomeLabelUnderFloor(m, limits, printScale.factor) ==> ReportsWidth(problems[0], diagram, m, limits, printScale))
    && (Printed(m.heightPixels, printScale.factor) > limits.diagramHeightPoints ==>
          ReportsHeight(problems[|problems| - 1], limits, printScale.factor))
  }

  ghost predicate ReportsWidth(problem: SizeProblem, diagram: Diagram, m: Measurement, limits: Limits, printScale: PrintScale) {
    && problem.TooWide?
    && (problem.widestReadable.Some? <==> printScale.setBy == diagram.ordinal && Printed(m.widthPixels, 1.0) > limits.columnWidthPoints)
    && (problem.widestReadable.Some? ==> AtTheFloor(problem.widestReadable.value, m, limits))
  }

  ghost predicate ReportsHeight(problem: SizeProblem, limits: Limits, scale: real) {
    problem.TooTall? && Printed(problem.tallestFitting, scale) == limits.diagramHeightPoints
  }

  method DiagramSizeProblems(diagram: Diagram, m: Measurement, limits: Limits, printScale: PrintScale) returns (problems: seq<SizeProblem>)
    requires PositiveLimits(limits) && printScale.factor > 0.0
    ensures Reports(problems, diagram, m, limits, printScale)
    ensures problems == SizeProblems(diagram, m, limits, printScale)
  {
    problems := [];
    var scale := printScale.factor;
    if m.fontPixels != [] {
      var smallestFontPixels := Smallest(m.fontPixels);
      if smallestFontPixels * POINTS_PER_PIXEL * scale < limits.minimumLabelPoints {
        var isOwnScale := printScale.setBy == diagram.ordinal;
        var line := if isOwnScale && m.widthPixels * POINTS_PER_PIXEL > limits.columnWidthPoints
                    then Some(WidestReadable(m, limits)) else None;
        problems := problems + [TooWide(line)];
      }
    }
    if m.heightPixels * POINTS_PER_PIXEL * scale > limits.diagramHeightPoints {
      problems := problems + [TooTall(TallestFitting(limits, scale))];
    }
    assert problems == SizeProblems(diagram, m, limits, printScale);
    SizeProblemsReport(diagram, m, limits, printScale);
  }

  lemma SizeProblemsReport(diagram: Diagram, m: Measurement, limits: Limits, printScale: PrintScale)
    requires PositiveLimits(limits) && printScale.factor > 0.0
    ensures Reports(SizeProblems(diagram, m, limits, printScale), diagram, m, limits, printScale)
  {
    LabelUnderFloor(m, limits, printScale.factor);
    TallestFittingPrintsAtLimit(limits, printScale.factor);
    if m.fontPixels != [] {
      WidestReadableIsAtTheFloor(m, limits);
    }
  }

  // The smallest label tells for all of them.
  lemma LabelUnderFloor(m: Measurement, limits: Limits, scale: real)
    requires scale > 0.0
    ensures LabelsTooSmall(m, limits, scale) <==> SomeLabelUnderFloor(m, limits, scale)
  {
    if m.fontPixels != [] {
      var f := Smallest(m.fontPixels);
      var k :| 0 <= k < |m.fontPixels| && m.fontPixels[k] == f;
      assert Printed(m.fontPixels[k], scale) == f * POINTS_PER_PIXEL * scale;
      forall j | 0 <= j < |m.fontPixels| ensures Printed(f, scale) <= Printed(m.fontPixels[j], scale) {
        PrintedGrows(f, m.fontPixels[j], scale);
      }
    }
  }

  lemma PrintedGrows(a: real, b: real, scale: real)
    requires scale > 0.0 && a <= b
    ensures Printed(a, scale) <= Printed(b, scale)
  {
    var x, y := a * POINTS_PER_PIXEL, b * POINTS_PER_PIXEL;
    assert x <= y;
    ProductMonotone(scale, x, y);
    assert x * scale == scale * x && y * scale == scale * y;
  }

  lemma WidestReadableIsAtTheFloor(m: Measurement, limits: Limits)
    requires PositiveLimits(limits) && m.fontPixels != []
    ensures AtTheFloor(WidestReadable(m, limits), m, limits)
  {
    var k :| 0 <= k < |m.fontPixels| && m.fontPixels[k] == Smallest(m.fontPixels);
    assert WidestReadable(m, limits) == limits.columnWidthPoints * m.fontPixels[k] / limits.minimumLabelPoints;
    Quotient(limits.columnWidthPoints * m.fontPixels[k], limits.minimumLabelPoints);
  }

  lemma Quotient(a: real, b: real)
    requires b != 0.0
    ensures a / b * b == a
  {
  }

  lemma TallestFittingPrintsAtLimit(limits: Limits, scale: real)
    requires scale > 0.0
    ensures Printed(TallestFitting(limits, scale), scale) == limits.diagramHeightPoints
  {
    var p := POINTS_PER_PIXEL * scale;
    Quotient(limits.diagramHeightPoints, p);
    assert Printed(TallestFitting(limits, scale), scale) == TallestFitting(limits, scale) * p;
  }

  // A drawing has one report: what prints, and which scale it was, determines it.
  lemma ReportIsUnique(a: seq<SizeProblem>, b: seq<SizeProblem>, diagram: Diagram, m: Measurement, limits: Limits, printScale: PrintScale)
    requires PositiveLimits(limits) && printScale.factor > 0.0
    requires Reports(a, diagram, m, limits, printScale) && Reports(b, diagram, m, limits, printScale)
    ensures a == b
  {
    if SomeLabelUnderFloor(m, limits, printScale.factor) && a[0].widestReadable.Some? {
      OneWidthAtTheFloor(a[0].widestReadable.value, b[0].widestReadable.value, m, limits);
    }
    if Printed(m.heightPixels, printScale.factor) > limits.diagramHeightPoints {
      OneHeightAtTheLimit(a[|a| - 1].tallestFitting, b[|b| - 1].tallestFitting, printScale.factor);
    }
  }

  lemma OneWidthAtTheFloor(x: real, y: real, m: Measurement, limits: Limits)
    requires limits.minimumLabelPoints > 0.0 && AtTheFloor(x, m, limits) && AtTheFloor(y, m, limits)
    ensures x == y
  {
    ProductOrder(limits.minimumLabelPoints, x, y);
    ProductOrder(limits.minimumLabelPoints, y, x);
  }

  lemma OneHeightAtTheLimit(x: real, y: real, scale: real)
    requires scale > 0.0 && Printed(x, scale) == Printed(y, scale)
    ensures x == y
  {
    ProductOrder(scale, x * POINTS_PER_PIXEL, y * POINTS_PER_PIXEL);
    ProductOrder(scale, y * POINTS_PER_PIXEL, x * POINTS_PER_PIXEL);
  }

  function SizeProblems(diagram: Diagram, m: Measurement, limits: Limits, printScale: PrintScale): seq<SizeProblem>
    requires PositiveLimits(limits) && printScale.factor > 0.0
  {
    var hasLine := printScale.setBy == diagram.ordinal && m.widthPixels * POINTS_PER_PIXEL > limits.columnWidthPoints;
    (if LabelsTooSmall(m, limits, printScale.factor) then [TooWide(if hasLine then Some(WidestReadable(m, limits)) else None)] else [])
    + (if IsTooTall(m, limits, printScale.factor) then [TooTall(TallestFitting(limits, printScale.factor))] else [])
  }

  // At its own scale below 1 a diagram breaks the label floor exactly when it is wider
  // than the line, and the line then lies inside the drawing.
  lemma WidestReadableIsExact(m: Measurement, limits: Limits)
    requires Measured(m) && PositiveLimits(limits) && m.fontPixels != [] && DiagramScale(m, limits) < 1.0
    ensures LabelsTooSmall(m, limits, DiagramScale(m, limits)) <==> m.widthPixels > WidestReadable(m, limits)
    ensures WidestReadable(m, limits) >= 0.0
  {
    ReadableAtWidth(m, m, limits);
    LineIsNotNegative(limits.columnWidthPoints, Smallest(m.fontPixels), limits.minimumLabelPoints);
  }

  lemma LineIsNotNegative(col: real, f: real, floor: real)
    requires col > 0.0 && f >= 0.0 && floor > 0.0
    ensures col * f / floor >= 0.0
  {
    assert col * f >= 0.0;
  }

  lemma LabelAgainstLine(f: real, s: real, w: real, floor: real, x: real)
    requires s > 0.0 && w > 0.0 && floor > 0.0 && x * floor == w * POINTS_PER_PIXEL * s * f
    ensures f * POINTS_PER_PIXEL * s < floor <==> x < w
  {
    var p := f * POINTS_PER_PIXEL * s;
    assert x * floor == w * p;
    if p < floor { assert w * p < w * floor; ProductOrder(floor, x, w); }
    if x < w { assert x * floor < w * floor; ProductOrder(w, p, floor); }
  }

  // At any scale a diagram fails the height check exactly when it is taller than the line.
  lemma TallestFittingIsExact(m: Measurement, limits: Limits, scale: real)
    requires PositiveLimits(limits) && scale > 0.0
    ensures IsTooTall(m, limits, scale) <==> m.heightPixels > TallestFitting(limits, scale)
    ensures TallestFitting(limits, scale) > 0.0
  {
    var p := POINTS_PER_PIXEL * scale;
    var y := TallestFitting(limits, scale);
    assert p * y == limits.diagramHeightPoints;
    ProductOrder(p, y, m.heightPixels);
    assert m.heightPixels * POINTS_PER_PIXEL * scale == p * m.heightPixels;
    ProductOrder(p, 0.0, y);
  }

  // A line is shown only where the diagram failed at its own scale, so it is the exact one.
  lemma ShownLineIsInside(diagram: Diagram, m: Measurement, limits: Limits)
    requires Measured(m) && PositiveLimits(limits)
    ensures OwnProblems(m, limits) == SizeProblems(diagram, m, limits, PrintScale(DiagramScale(m, limits), diagram.ordinal))
    ensures forall problem | problem in OwnProblems(m, limits) && problem.TooWide? && problem.widestReadable.Some? ::
              0.0 <= problem.widestReadable.value < m.widthPixels
    ensures forall problem | problem in OwnProblems(m, limits) && problem.TooTall? ::
              0.0 < problem.tallestFitting < m.heightPixels
  {
    OwnScaleIsGreatest(m, limits);
    TallestFittingIsExact(m, limits, DiagramScale(m, limits));
    if m.widthPixels * POINTS_PER_PIXEL > limits.columnWidthPoints {
      assert DiagramScale(m, limits) < 1.0;
      if m.fontPixels != [] {
        WidestReadableIsExact(m, limits);
      }
    }
  }

  // The problems of a diagram measured alone, as the splitter measures a part.
  function OwnProblems(m: Measurement, limits: Limits): (problems: seq<SizeProblem>)
    requires Measured(m) && PositiveLimits(limits)
  {
    OwnScaleIsGreatest(m, limits);
    SizeProblems(Diagram(1, true), m, limits, PrintScale(DiagramScale(m, limits), 1))
  }

  // What a part accepted alone keeps at any smaller scale.
  lemma AcceptedStaysShortEnough(m: Measurement, limits: Limits, scale: real)
    requires Measured(m) && PositiveLimits(limits) && OwnProblems(m, limits) == []
    requires 0.0 < scale <= DiagramScale(m, limits)
    ensures !IsTooTall(m, limits, scale)
  {
    NoOwnProblems(m, limits);
    HeightShrinks(m.heightPixels, scale, DiagramScale(m, limits), limits.diagramHeightPoints);
  }

  lemma HeightShrinks(h: real, small: real, large: real, limit: real)
    requires h >= 0.0 && small <= large && h * POINTS_PER_PIXEL * large <= limit
    ensures h * POINTS_PER_PIXEL * small <= limit
  {
    ProductMonotone(h, small, large);
  }

  lemma NoOwnProblems(m: Measurement, limits: Limits)
    requires Measured(m) && PositiveLimits(limits)
    ensures OwnProblems(m, limits) == [] <==>
            !LabelsTooSmall(m, limits, DiagramScale(m, limits)) && !IsTooTall(m, limits, DiagramScale(m, limits))
  {
    OwnScaleIsGreatest(m, limits);
  }

  lemma ProductMonotone(w: real, a: real, b: real)
    requires w >= 0.0 && a <= b
    ensures w * a <= w * b
  {
  }

  ghost predicate AcceptedParts(diagrams: seq<Diagram>, measurements: seq<Measurement>, limits: Limits) {
    |diagrams| == |measurements| && PositiveLimits(limits)
    && (forall k | 0 <= k < |measurements| :: Measured(measurements[k]))
    && (forall k | 0 <= k < |diagrams| && diagrams[k].isErd ::
          measurements[k].fontPixels != [] && OwnProblems(measurements[k], limits) == [])
  }

  // ERD parts each accepted at their own scale pass in one document at the scale they
  // share exactly when each would still be readable at the width of the part that sets
  // the scale: their heights only shrink.
  lemma AcceptedPartPassesIff(diagrams: seq<Diagram>, measurements: seq<Measurement>, limits: Limits, i: nat)
    requires AcceptedParts(diagrams, measurements, limits) && i < |diagrams| && diagrams[i].isErd
    ensures var shared := SharedIndex(diagrams, measurements, limits);
            var scale := PrintScaleOf(diagrams, measurements, limits, i);
            && shared.Some? && scale.factor > 0.0
            && (scale.factor < 1.0 ==>
                  (SizeProblems(diagrams[i], measurements[i], limits, scale) == []
                   <==> measurements[shared.value].widthPixels <= WidestReadable(measurements[i], limits)))
            && (scale.factor == 1.0 ==> SizeProblems(diagrams[i], measurements[i], limits, scale) == [])
  {
    PrintScalesFit(diagrams, measurements, limits, i);
    SharedIsSmallest(diagrams, measurements, limits);
    var setter := measurements[SharedIndex(diagrams, measurements, limits).value];
    var scale := DiagramScale(setter, limits);
    OwnScaleIsGreatest(measurements[i], limits);
    AcceptedStaysShortEnough(measurements[i], limits, scale);
    if scale < 1.0 {
      ReadableAtWidth(setter, measurements[i], limits);
    } else {
      NoOwnProblems(measurements[i], limits);
    }
  }

  lemma ReadableAtWidth(setter: Measurement, m: Measurement, limits: Limits)
    requires Measured(setter) && PositiveLimits(limits) && m.fontPixels != [] && DiagramScale(setter, limits) < 1.0
    ensures LabelsTooSmall(m, limits, DiagramScale(setter, limits)) <==> setter.widthPixels > WidestReadable(m, limits)
  {
    var w, s, f := setter.widthPixels * POINTS_PER_PIXEL, DiagramScale(setter, limits), Smallest(m.fontPixels);
    OwnScaleIsGreatest(setter, limits);
    assert s == limits.columnWidthPoints / w && w * s == limits.columnWidthPoints;
    assert WidestReadable(m, limits) * limits.minimumLabelPoints == limits.columnWidthPoints * f;
    LabelAgainstLine(f, s, setter.widthPixels, limits.minimumLabelPoints, WidestReadable(m, limits));
  }

  // In particular when their smallest labels are of one size.
  lemma EqualLabelsPassTogether(diagrams: seq<Diagram>, measurements: seq<Measurement>, limits: Limits, size: real, i: nat)
    requires AcceptedParts(diagrams, measurements, limits) && i < |diagrams| && diagrams[i].isErd
    requires forall k | 0 <= k < |diagrams| && diagrams[k].isErd :: Smallest(measurements[k].fontPixels) == size
    ensures PrintScaleOf(diagrams, measurements, limits, i).factor > 0.0
    ensures SizeProblems(diagrams[i], measurements[i], limits, PrintScaleOf(diagrams, measurements, limits, i)) == []
  {
    AcceptedPartPassesIff(diagrams, measurements, limits, i);
    var shared := SharedIndex(diagrams, measurements, limits).value;
    var setter := measurements[shared];
    assert diagrams[shared].isErd && Smallest(setter.fontPixels) == size;
    OwnScaleIsGreatest(setter, limits);
    NoOwnProblems(setter, limits);
    if DiagramScale(setter, limits) < 1.0 {
      WidestReadableIsExact(setter, limits);
      assert ReadableWidth(size, limits) == WidestReadable(setter, limits) == WidestReadable(measurements[i], limits);
    }
  }

  // With labels of two sizes it can fail: the wide part with big labels sets a scale at
  // which the small labels of the narrow part fall under the floor.
  lemma MixedLabelsCanFail()
    ensures var limits := Limits(75.0, 1000.0, 6.0);
            var wide, narrow := Measurement(200.0, 10.0, [20.0]), Measurement(100.0, 10.0, [10.0]);
            var diagrams := [Diagram(1, true), Diagram(2, true)];
            && OwnProblems(wide, limits) == [] && OwnProblems(narrow, limits) == []
            && PrintScaleOf(diagrams, [wide, narrow], limits, 1) == PrintScale(0.5, 1)
            && SizeProblems(diagrams[1], narrow, limits, PrintScale(0.5, 1)) == [TooWide(None)]
  {
    var limits := Limits(75.0, 1000.0, 6.0);
    var wide, narrow := Measurement(200.0, 10.0, [20.0]), Measurement(100.0, 10.0, [10.0]);
    assert DiagramScale(wide, limits) == 0.5 && DiagramScale(narrow, limits) == 1.0;
    var diagrams := [Diagram(1, true), Diagram(2, true)];
    assert diagrams[..1] == [Diagram(1, true)] && [wide, narrow][..1] == [wide];
    assert SharedIndex([], [], limits) == None;
    assert SharedIndex([Diagram(1, true)], [wide], limits) == Some(0) by {
      assert [Diagram(1, true)][..0] == [] && [wide][..0] == [];
    }
    assert SharedIndex(diagrams, [wide, narrow], limits) == Some(0);
  }
}
