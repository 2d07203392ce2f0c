// Placing vias along a span: Layout::DistributeVias (src/layout.cc) and the
// via columns of the tap cell (src/atoms/sky130_tap.cc).

module Vias {
  import opened Basics

  // The stretch that a via covers along the axis of its span.
  datatype Via = Via(low: int, high: int)

  /** A via of width w around a point, as Rectangle::CentredAt rounds it. */
  function CentredAt(centre: int, w: nat): Via {
    var low := centre - w / 2;
    Via(low, low + w)
  }

  ghost predicate AllInside(vias: seq<Via>, low: int, high: int) {
    forall i | 0 <= i < |vias| :: low <= vias[i].low && vias[i].high <= high
  }

  predicate AreApart(a: Via, b: Via, separation: int) {
    a.high + separation <= b.low || b.high + separation <= a.low
  }

  ghost predicate AllApart(vias: seq<Via>, separation: int) {
    forall i, j | 0 <= i < j < |vias| :: AreApart(vias[i], vias[j], separation)
  }

  lemma Distribute(n: int, a: int, b: int)
    ensures n * (a + b) == n * a + n * b
  {
  }

  /** The quotient is the greatest number of times that fits. */
  lemma GreatestQuotient(a: nat, b: nat, n: nat)
    requires b > 0
    ensures n <= a / b <==> n * b <= a
  {
    var q := a / b;
    assert a == q * b + a % b;
    if n <= q {
      ProductGrows(n, q, b);
    } else {
      ProductGrows(q + 1, n, b);
      assert (q + 1) * b == q * b + b;
    }
  }

  // ---- distributing vias over a span ---------------------------------------------------------------

  // Rules of a via layer.
  datatype ViaRules = ViaRules(width: nat, height: nat, minSeparation: nat) {
    /** Vias are taken to be squares of the longer side. */
    function Side(): (side: nat)
      ensures side >= width && side >= height && (side == width || side == height)
    {
      if width >= height then width else height
    }

    predicate Valid() {
      width > 0
    }
  }

  function ViaCount(length: nat, rules: ViaRules): nat
    requires rules.Valid()
  {
    length / (rules.Side() + rules.minSeparation)
  }

  function Spacing(length: nat, rules: ViaRules): int
    requires rules.Valid() && ViaCount(length, rules) > 0
  {
    (length - ViaCount(length, rules) * rules.Side()) / ViaCount(length, rules)
  }

  /** What is left between vias respects the minimum, and all of them fit. */
  lemma SpacingFits(length: nat, rules: ViaRules)
    requires rules.Valid() && ViaCount(length, rules) > 0
    ensures Spacing(length, rules) >= rules.minSeparation
    ensures ViaCount(length, rules) * (rules.Side() + Spacing(length, rules)) <= length
  {
    var n, side, separation := ViaCount(length, rules), rules.Side(), rules.minSeparation;
    GreatestQuotient(length, side + separation, n);
    Distribute(n, side, separation);
    var left: nat := length - n * side;
    var spacing := Spacing(length, rules);
    Commutes(separation, n);
    GreatestQuotient(left, n, separation);
    GreatestQuotient(left, n, spacing);
    Commutes(spacing, n);
    Distribute(n, side, spacing);
  }

  lemma Commutes(a: int, b: int)
    ensures a * b == b * a
  {
  }

  /** How far along the span the i-th via is centred. */
  function DistanceTo(i: nat, first: int, step: int): int {
    first + i * step
  }

  lemma StepsAdd(i: nat, j: nat, first: int, step: nat)
    requires i < j
    ensures DistanceTo(i, first, step) + step <= DistanceTo(j, first, step)
    ensures DistanceTo(i + 1, first, step) == DistanceTo(i, first, step) + step
  {
    ProductGrows(i + 1, j, step);
    assert (i + 1) * step == i * step + step;
  }

  /** A span, from its start in one of the two directions of its axis. */
  datatype Span = Span(start: int, end: int) {
    function Length(): nat {
      if end >= start then end - start else start - end
    }

    function PointAt(distance: int): int {
      if end >= start then start + distance else start - distance
    }

    function Low(): int {
      if end >= start then start else end
    }

    function High(): int {
      if end >= start then end else start
    }
  }

  /** The span whose ends are centres of vias covers half a via more on each side. */
  function Axis(span: Span, rules: ViaRules, assumeCentres: bool): Span {
    if assumeCentres then Span(span.PointAt(-(rules.Side() / 2)), span.PointAt(span.Length() + rules.Side() / 2))
    else span
  }

  /** Either way the axis runs as the span does; between centres it is half a via longer at both ends. */
  lemma AxisCovers(span: Span, rules: ViaRules, assumeCentres: bool)
    ensures var axis := Axis(span, rules, assumeCentres);
            var more := if assumeCentres then rules.Side() / 2 else 0;
            && axis.Low() == span.Low() - more && axis.High() == span.High() + more
            && (axis.start <= axis.end <==> span.start <= span.end || axis.Length() == 0)
  {
  }

  /** So many vias, each with the minimum to the next, are no longer than the span. */
  ghost predicate PitchesFit(m: nat, length: nat, rules: ViaRules) {
    m * (rules.Side() + rules.minSeparation) <= length
  }

  lemma CountIsGreatest(length: nat, rules: ViaRules)
    requires rules.Valid()
    ensures forall m: nat :: m <= ViaCount(length, rules) <==> PitchesFit(m, length, rules)
  {
    forall m: nat ensures m <= ViaCount(length, rules) <==> PitchesFit(m, length, rules) {
      GreatestQuotient(length, rules.Side() + rules.minSeparation, m);
    }
  }

  /**
   * Vias of this width, one step from centre to centre: the greatest step that
   * fits into the axis as often as there are vias. The first centre is half a
   * step from the start, rounded down at most twice.
   */
  ghost predicate IsEvenSpread(vias: seq<Via>, axis: Span, first: int, step: int, w: nat) {
    && |vias| * step <= axis.Length() < |vias| * (step + 1)
    && step - 2 <= 2 * first <= step
    && forall i | 0 <= i < |vias| ::
         vias[i].low + w / 2 == axis.PointAt(DistanceTo(i, first, step)) && vias[i].high == vias[i].low + w
  }

  lemma SpreadIsEven(vias: seq<Via>, axis: Span, rules: ViaRules)
    requires rules.Valid() && |vias| == ViaCount(axis.Length(), rules) > 0
    requires
      var spacing := Spacing(axis.Length(), rules);
      AreSpread(vias, axis, spacing / 2 + rules.Side() / 2, rules.Side() + spacing, rules.width)
    ensures exists first, step :: IsEvenSpread(vias, axis, first, step, rules.width)
  {
    SpacingFits(axis.Length(), rules);
    SpacingIsGreatest(axis.Length(), rules);
    hide Axis, ViaCount, Spacing, DistanceTo;
    var spacing := Spacing(axis.Length(), rules);
    assert IsEvenSpread(vias, axis, spacing / 2 + rules.Side() / 2, rules.Side() + spacing, rules.width);
  }

  lemma SpacingIsGreatest(length: nat, rules: ViaRules)
    requires rules.Valid() && ViaCount(length, rules) > 0
    ensures length < ViaCount(length, rules) * (rules.Side() + Spacing(length, rules) + 1)
  {
    SpacingFits(length, rules);
    var n, side, spacing := ViaCount(length, rules), rules.Side(), Spacing(length, rules);
    Distribute(n, side, spacing + 1);
    var left := length - n * side;
    assert left == n * spacing + left % n;
    Distribute(n, spacing, 1);
  }

  /**
   * Rounding puts the odd unit of a via on its high side. On a span that runs
   * backwards that side faces the start, where there is room for it unless
   * vias are of odd width, no taller than wide, and less than two units apart.
   */
  predicate RoundingFits(length: nat, rules: ViaRules)
    requires rules.Valid() && ViaCount(length, rules) > 0
  {
    rules.width % 2 == 0 || rules.Side() > rules.width || Spacing(length, rules) >= 2
  }

  lemma FirstViaFits(length: nat, rules: ViaRules)
    requires rules.Valid() && ViaCount(length, rules) > 0 && Spacing(length, rules) >= 0
    ensures var first := Spacing(length, rules) / 2 + rules.Side() / 2;
            && first >= rules.width / 2
            && (first >= rules.width - rules.width / 2 <==> RoundingFits(length, rules))
            && first + (rules.width - rules.width / 2) <= rules.Side() + Spacing(length, rules)
  {
    hide ViaCount, Spacing;
    var spacing, side, w := Spacing(length, rules), rules.Side(), rules.width;
    assert side >= w;
  }

  /** A via at each step along the axis. */
  ghost predicate AreSpread(vias: seq<Via>, axis: Span, first: int, step: int, w: nat) {
    forall i | 0 <= i < |vias| :: vias[i] == CentredAt(axis.PointAt(DistanceTo(i, first, step)), w)
  }

  lemma NoVias(low: int, high: int, separation: int)
    ensures AllInside([], low, high) && AllApart([], separation)
  {
  }

  lemma SpreadApart(vias: seq<Via>, axis: Span, first: int, step: nat, w: nat, separation: int)
    requires AreSpread(vias, axis, first, step, w) && step >= w + separation
    ensures AllApart(vias, separation)
  {
    forall i, j | 0 <= i < j < |vias| ensures AreApart(vias[i], vias[j], separation) {
      StepsAdd(i, j, first, step);
    }
  }

  lemma SpreadInside(vias: seq<Via>, axis: Span, first: int, step: nat, w: nat)
    requires AreSpread(vias, axis, first, step, w) && |vias| > 0
    requires first >= w / 2 && first + (w - w / 2) <= step && |vias| * step <= axis.Length()
    ensures axis.end >= axis.start ==> AllInside(vias, axis.Low(), axis.High())
    ensures axis.end < axis.start ==> (AllInside(vias, axis.Low(), axis.High()) <==> first >= w - w / 2)
  {
    hide DistanceTo;
    forall i | 0 <= i < |vias|
      ensures first <= DistanceTo(i, first, step) && DistanceTo(i, first, step) + (w - w / 2) <= axis.Length()
    {
      ViaIsWithin(i, |vias|, first, step, w);
    }
    if axis.end < axis.start {
      FirstDistance(first, step);
      assert vias[0] == CentredAt(axis.PointAt(first), w);
    }
  }

  lemma FirstDistance(first: int, step: int)
    ensures DistanceTo(0, first, step) == first
  {
  }

  lemma ViaIsWithin(i: nat, n: nat, first: int, step: nat, w: nat)
    requires i < n && first + (w - w / 2) <= step
    ensures first <= DistanceTo(i, first, step) && DistanceTo(i, first, step) + (w - w / 2) <= n * step
  {
    ProductGrows(i + 1, n, step);
    assert (i + 1) * step == i * step + step;
  }

  /**
   * As many vias as pitches fit into the span, spread evenly: at least the
   * minimum apart, and inside the span. On a span that runs backwards they
   * are inside exactly when rounding leaves room.
   */
  method DistributeVias(rules: ViaRules, start: int, end: int, assumeCentres: bool) returns (vias: seq<Via>)
    requires rules.Valid()
    ensures var axis := Axis(Span(start, end), rules, assumeCentres);
            && (forall m: nat :: m <= |vias| <==> PitchesFit(m, axis.Length(), rules))
            && (vias != [] ==> exists first, step :: IsEvenSpread(vias, axis, first, step, rules.width))
            && AllApart(vias, rules.minSeparation)
            && (axis.end >= axis.start ==> AllInside(vias, axis.Low(), axis.High()))
            && (axis.end < axis.start && vias != [] ==>
                  && ViaCount(axis.Length(), rules) > 0
                  && (AllInside(vias, axis.Low(), axis.High()) <==> RoundingFits(axis.Length(), rules)))
  {
    hide PitchesFit, IsEvenSpread, Axis, CentredAt, AllInside, AllApart, RoundingFits, ViaCount, Spacing, DistanceTo;
    vias := [];
    var side := rules.Side();
    var axis := Axis(Span(start, end), rules, assumeCentres);
    var length := axis.Length();
    var numVias := ViaCount(length, rules);
    CountIsGreatest(length, rules);
    if numVias == 0 {
      NoVias(axis.Low(), axis.High(), rules.minSeparation);
      return;
    }
    var spacing := Spacing(length, rules);
    SpacingFits(length, rules);
    FirstViaFits(length, rules);
    var first := spacing / 2 + side / 2;
    var distance := first;
    FirstDistance(first, side + spacing);
    for i := 0 to numVias
      invariant |vias| == i && distance == DistanceTo(i, first, side + spacing)
      invariant AreSpread(vias, axis, first, side + spacing, rules.width)
    {
      vias := vias + [CentredAt(axis.PointAt(distance), rules.width)];
      StepsAdd(i, i + 1, first, side + spacing);
      distance := distance + side + spacing;
    }
    SpreadApart(vias, axis, first, side + spacing, rules.width, rules.minSeparation);
    SpreadInside(vias, axis, first, side + spacing, rules.width);
    SpreadIsEven(vias, axis, rules);
  }

  /** A via of width 1 on a backward span of length 1 lies outside it. */
  method OutsideByRounding() returns (vias: seq<Via>)
    ensures |vias| == 1 && !AllInside(vias, 0, 1)
  {
    var rules := ViaRules(1, 1, 0);
    assert Axis(Span(1, 0), rules, false) == Span(1, 0) && Span(1, 0).Length() == 1;
    assert PitchesFit(1, 1, rules) && !PitchesFit(2, 1, rules);
    assert ViaCount(1, rules) == 1 && !RoundingFits(1, rules);
    vias := DistributeVias(rules, 1, 0, false);
  }

  // ---- the tap's vias -----------------------------------------------------------------------------

  /** C++ division, which truncates. */
  function Truncated(a: int, b: int): int
    requires b > 0
  {
    if a >= 0 then a / b else -((-a) / b)
  }

  /** So many vias, with spaces between them only, take this much room. */
  function RoomFor(n: int, width: nat, spacing: nat): int {
    n * width + (n - 1) * spacing
  }

  lemma RoomForIsPitches(n: int, width: nat, spacing: nat)
    ensures RoomFor(n, width, spacing) == n * (width + spacing) - spacing
  {
    Distribute(n, width, spacing);
    assert (n - 1) * spacing == n * spacing - spacing;
  }

  /** Exactly the numbers of vias up to the result fit into the span. */
  function HowManyViasFit(spanStart: int, spanEnd: int, width: nat, spacing: nat): (n: int)
    requires width > 0
    ensures forall m: nat | m > 0 :: m <= n <==> RoomFor(m, width, spacing) <= spanEnd - spanStart
  {
    var span := spanEnd - spanStart;
    var n := Truncated(span + spacing, width + spacing);
    assert forall m: nat | m > 0 :: m <= n <==> RoomFor(m, width, spacing) <= span by {
      forall m: nat | m > 0 ensures m <= n <==> RoomFor(m, width, spacing) <= span {
        FitsExactly(m, span, width, spacing);
      }
    }
    n
  }

  lemma FitsExactly(m: nat, span: int, width: nat, spacing: nat)
    requires width > 0 && m > 0
    ensures m <= Truncated(span + spacing, width + spacing) <==> RoomFor(m, width, spacing) <= span
  {
    RoomForIsPitches(m, width, spacing);
    if span + spacing >= 0 {
      GreatestQuotient(span + spacing, width + spacing, m);
    } else {
      ProductGrows(0, m, width + spacing);
    }
  }

  /** The column of vias stays in its span, evenly spaced, and no more would fit. */
  method StackVias(spanStart: int, spanEnd: int, width: nat, spacing: nat) returns (vias: seq<Via>)
    requires width > 0
    ensures AllInside(vias, spanStart, spanEnd) && AllApart(vias, spacing)
    ensures |vias| > 0 ==> vias[0].low == spanStart
    ensures forall k | 0 <= k < |vias| :: vias[k].high == vias[k].low + width
    ensures forall k | 0 < k < |vias| :: vias[k].low == vias[k - 1].high + spacing
    ensures forall m: nat | m > 0 :: m <= |vias| <==> RoomFor(m, width, spacing) <= spanEnd - spanStart
  {
    var numVias := HowManyViasFit(spanStart, spanEnd, width, spacing);
    hide RoomFor, AllInside, AllApart, HowManyViasFit;
    vias := [];
    var y := spanStart;
    var i := 0;
    while i < numVias
      invariant 0 <= i && |vias| == i && (i <= numVias || i == 0)
      invariant y == DistanceTo(i, spanStart, width + spacing)
      invariant forall k | 0 <= k < i ::
        vias[k] == Via(DistanceTo(k, spanStart, width + spacing), DistanceTo(k, spanStart, width + spacing) + width)
    {
      vias := vias + [CentredAt(y + width / 2, width)];
      StepsAdd(i, i + 1, spanStart, width + spacing);
      y := y + width + spacing;
      i := i + 1;
    }
    StackFits(vias, spanStart, spanEnd, width, spacing);
  }

  lemma StackFits(vias: seq<Via>, spanStart: int, spanEnd: int, width: nat, spacing: nat)
    requires |vias| > 0 ==> RoomFor(|vias|, width, spacing) <= spanEnd - spanStart
    requires forall k | 0 <= k < |vias| ::
      vias[k] == Via(DistanceTo(k, spanStart, width + spacing), DistanceTo(k, spanStart, width + spacing) + width)
    ensures AllInside(vias, spanStart, spanEnd) && AllApart(vias, spacing)
    ensures |vias| > 0 ==> vias[0].low == spanStart
    ensures forall k | 0 < k < |vias| :: vias[k].low == vias[k - 1].high + spacing
  {
    var n, step := |vias|, width + spacing;
    forall k | 0 <= k < n ensures spanStart <= vias[k].low && vias[k].high <= spanEnd {
      RoomForIsPitches(n, width, spacing);
      ProductGrows(k + 1, n, step);
      assert (k + 1) * step == k * step + step;
    }
    forall i, j | 0 <= i < j < n ensures AreApart(vias[i], vias[j], spacing) {
      StepsAdd(i, j, spanStart, step);
    }
    forall k | 0 < k < n ensures vias[k].low == vias[k - 1].high + spacing {
      StepsAdd(k - 1, k, spanStart, step);
    }
  }
}
