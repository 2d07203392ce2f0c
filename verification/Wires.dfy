// The test for wires that cross (src/geometry/line.cc, IntersectsInMutualBounds),
// as the dual-output mux applies it: to horizontal wires at one height.

module Wires {

  // From one x position to another.
  datatype Wire = Wire(start: int, end: int) {
    predicate IsPoint() {
      start == end
    }

    function Low(): int {
      if start <= end then start else end
    }

    function High(): int {
      if start <= end then end else start
    }

    predicate Covers(x: int) {
      Low() <= x <= High()
    }
  }

  // Two points at one place leave the source with a quotient of zeros, for
  // which none of its comparisons holds; it ends the program.
  datatype Test = Clear | Crossing | Fatal

  /** Line::ProjectionCoefficient: where a position lies along a wire, from 0 at its start to 1 at its end. */
  function Coefficient(wire: Wire, x: int): real
    requires !wire.IsPoint()
  {
    var length, distance := wire.end - wire.start, x - wire.start;
    SquareIsPositive(length);
    (length * distance) as real / (length * length) as real
  }

  lemma SquareIsPositive(length: int)
    requires length != 0
    ensures length * length > 0
  {
  }

  /** Line::IntersectsInMutualBounds. */
  function IntersectsInMutualBounds(wire: Wire, other: Wire): Test {
    if wire.IsPoint() && other.IsPoint() then
      if wire.start == other.start then Fatal else Clear
    else if wire.IsPoint() then
      if other.Covers(wire.start) then Crossing else Clear
    else if other.IsPoint() then
      if wire.Covers(other.start) then Crossing else Clear
    else
      var start, end := 0.0, Coefficient(wire, wire.end);
      var otherStart, otherEnd := Coefficient(wire, other.start), Coefficient(wire, other.end);
      if otherStart > end || start > otherEnd then Clear else Crossing
  }

  // ---- what the test means --------------------------------------------------------------------

  /** The wires have a position in common. */
  predicate Meet(a: Wire, b: Wire) {
    a.Low() <= b.High() && b.Low() <= a.High()
  }

  predicate Inside(inner: Wire, outer: Wire) {
    outer.Low() <= inner.Low() && inner.High() <= outer.High()
  }

  predicate RunOppositely(a: Wire, b: Wire) {
    (a.start < a.end && b.start > b.end) || (a.start > a.end && b.start < b.end)
  }

  lemma QuotientOrders(p: int, q: int)
    requires q > 0
    ensures p as real / q as real > 1.0 <==> p > q
    ensures p as real / q as real < 0.0 <==> p < 0
  {
    var quotient := p as real / q as real;
    assert quotient * q as real == p as real;
  }

  lemma QuotientOfSame(q: int)
    requires q > 0
    ensures q as real / q as real == 1.0
  {
  }

  lemma ProductsOrder(length: int, distance: int)
    requires length != 0
    ensures length * distance > length * length <==> if length > 0 then distance > length else distance < length
    ensures length * distance < 0 <==> if length > 0 then distance < 0 else distance > 0
  {
    assert length * distance - length * length == length * (distance - length);
    SignOfProduct(length, distance);
    SignOfProduct(length, distance - length);
  }

  lemma SignOfProduct(a: int, b: int)
    requires a != 0
    ensures a * b > 0 <==> if a > 0 then b > 0 else b < 0
    ensures a * b < 0 <==> if a > 0 then b < 0 else b > 0
  {
  }

  /** Coefficients tell what lies beyond the end of a wire and before its start. */
  lemma CoefficientOrders(wire: Wire, x: int)
    requires !wire.IsPoint()
    ensures Coefficient(wire, wire.end) == 1.0
    ensures Coefficient(wire, x) > 1.0 <==> if wire.start < wire.end then x > wire.end else x < wire.end
    ensures Coefficient(wire, x) < 0.0 <==> if wire.start < wire.end then x < wire.start else x > wire.start
  {
    var length, distance := wire.end - wire.start, x - wire.start;
    SquareIsPositive(length);
    ProductsOrder(length, distance);
    QuotientOrders(length * distance, length * length);
    QuotientOfSame(length * length);
  }

  /**
   * Exactly what the test reports: wires that meet, if they run the same way
   * or one is a point; but of wires that run oppositely, only those where the
   * other wire lies inside the tested one.
   */
  lemma ReportsExactly(wire: Wire, other: Wire)
    ensures IntersectsInMutualBounds(wire, other) == Fatal <==>
            wire.IsPoint() && other.IsPoint() && wire.start == other.start
    ensures IntersectsInMutualBounds(wire, other) == Crossing <==>
            if wire.IsPoint() && other.IsPoint() then false
            else if RunOppositely(wire, other) then Inside(other, wire)
            else Meet(wire, other)
  {
    hide Coefficient;
    if !wire.IsPoint() {
      CoefficientOrders(wire, other.start);
      CoefficientOrders(wire, other.end);
    }
  }

  /** Wires that meet without being reported. */
  predicate Missed(wire: Wire, other: Wire) {
    RunOppositely(wire, other) && Meet(wire, other) && !Inside(other, wire)
  }

  /** A clear test means what it should exactly if the wires are not missed. */
  lemma ClearMeansApartExactly(wire: Wire, other: Wire)
    requires IntersectsInMutualBounds(wire, other) == Clear
    ensures !Meet(wire, other) <==> !Missed(wire, other)
  {
    hide IntersectsInMutualBounds;
    ReportsExactly(wire, other);
  }
}
