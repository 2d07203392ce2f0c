// Integer helpers (src/utility.h): multiples, and strip-mining a length into
// parts that are multiples of a unit.

module Utility {

  import opened Basics

  /** The greatest multiple that is no greater than `max`; `max` itself for multiple zero. */
  function LastMultiple(max: nat, multiple: nat): (r: nat)
    ensures r <= max
    ensures multiple > 0 ==> r % multiple == 0 && max < r + multiple
    ensures multiple == 0 ==> r == max
  {
    if multiple == 0 then max
    else if max % multiple == 0 then max
    else MultipleOf(max / multiple, multiple); (max / multiple) * multiple
  }

  /** The least multiple that is no less than `min`; `min` itself for multiple zero. */
  function NextMultiple(min: nat, multiple: nat): (r: nat)
    ensures r >= min
    ensures multiple > 0 ==> r % multiple == 0 && r < min + multiple
    ensures multiple == 0 ==> r == min
  {
    if multiple == 0 then min
    else if min % multiple == 0 then min
    else MultipleOf(min / multiple + 1, multiple); (min / multiple + 1) * multiple
  }

  lemma {:induction false} MultipleOf(q: nat, unit: nat)
    requires unit > 0
    ensures (q * unit) % unit == 0 && (q * unit) / unit == q
  {
    if q > 0 {
      MultipleOf(q - 1, unit);
      assert q * unit == (q - 1) * unit + unit;
      AddUnit((q - 1) * unit, unit);
    }
  }

  lemma AddUnit(a: nat, unit: nat)
    requires unit > 0
    ensures (a + unit) / unit == a / unit + 1 && (a + unit) % unit == a % unit
  {
    var q, r := a / unit, a % unit;
    assert a + unit == (q + 1) * unit + r;
    UniqueDivision(a + unit, unit, q + 1, r);
  }

  lemma AtLeastUnit(n: int, unit: nat)
    requires n >= 1
    ensures n * unit >= unit
  {
    assert n * unit == (n - 1) * unit + unit;
    if n - 1 >= 0 { assert (n - 1) * unit >= 0; }
  }

  lemma Distribute(a: int, b: int, unit: int)
    ensures (a - b) * unit == a * unit - b * unit
  {
  }

  lemma UniqueDivision(a: nat, unit: nat, q: nat, r: nat)
    requires 0 <= r < unit && a == q * unit + r
    ensures a / unit == q && a % unit == r
  {
    DivisionsAgree(unit, q, r, a / unit, a % unit);
  }

  lemma DivisionsAgree(unit: nat, q: nat, r: nat, q': nat, r': nat)
    requires 0 <= r < unit && 0 <= r' < unit && q * unit + r == q' * unit + r'
    ensures q == q' && r == r'
  {
    Distribute(q', q, unit);
    if q < q' {
      AtLeastUnit(q' - q, unit);
    } else if q > q' {
      Distribute(q, q', unit);
      AtLeastUnit(q - q', unit);
    }
  }

  /** `a` rounded down to a multiple of `unit`. */
  function RoundDown(a: nat, unit: nat): nat
    requires unit > 0
  {
    unit * (a / unit)
  }

  predicate IsMultiple(a: int, unit: nat)
    requires unit > 0
  {
    a % unit == 0
  }

  function Sum(parts: seq<int>): int {
    if parts == [] then 0 else Sum(parts[..|parts| - 1]) + parts[|parts| - 1]
  }

  lemma {:induction false} SumUpdate(parts: seq<int>, i: nat, x: int)
    requires i < |parts|
    ensures Sum(parts[i := x]) == Sum(parts) - parts[i] + x
  {
    var after := parts[i := x];
    var front := parts[..|parts| - 1];
    if i == |parts| - 1 {
      assert after[..|parts| - 1] == front;
    } else {
      assert after[..|parts| - 1] == front[i := x];
      SumUpdate(front, i, x);
    }
  }

  lemma {:induction false} SumAtLeast(parts: seq<int>, low: int)
    requires forall k | 0 <= k < |parts| :: parts[k] >= low
    ensures Sum(parts) >= |parts| * low
  {
    if parts != [] {
      SumAtLeast(parts[..|parts| - 1], low);
      assert |parts| * low == (|parts| - 1) * low + low;
    }
  }

  lemma {:induction false} SumAllEqual(parts: seq<int>, x: int)
    requires forall k | 0 <= k < |parts| :: parts[k] == x
    ensures Sum(parts) == |parts| * x
  {
    if parts != [] {
      SumAllEqual(parts[..|parts| - 1], x);
      assert |parts| * x == (|parts| - 1) * x + x;
    }
  }

  // ---- rounding down ----------------------------------------------------------

  lemma RoundDownBounds(a: nat, unit: nat)
    requires unit > 0
    ensures 0 <= RoundDown(a, unit) <= a < RoundDown(a, unit) + unit
    ensures IsMultiple(RoundDown(a, unit), unit)
    ensures a >= unit ==> RoundDown(a, unit) >= unit
  {
    MultipleOf(a / unit, unit);
    if a >= unit {
      DivisionAtLeastOne(a, unit);
      AtLeastUnit(a / unit, unit);
    }
  }

  lemma DivisionAtLeastOne(a: nat, unit: nat)
    requires 0 < unit <= a
    ensures a / unit >= 1
  {
    if a / unit < 1 {
      assert false;
    }
  }

  lemma RoundDownMonotone(a: nat, b: nat, unit: nat)
    requires unit > 0 && a <= b
    ensures RoundDown(a, unit) <= RoundDown(b, unit)
  {
    RoundDownBounds(a, unit);
    RoundDownBounds(b, unit);
    if a / unit > b / unit {
      Distribute(a / unit, b / unit, unit);
      AtLeastUnit(a / unit - b / unit, unit);
    }
  }

  /** Multiples pass through rounding down. */
  lemma RoundDownAdd(m: nat, a: nat, unit: nat)
    requires unit > 0 && IsMultiple(m, unit)
    ensures RoundDown(m + a, unit) == m + RoundDown(a, unit)
  {
    var q, k := m / unit, a / unit;
    assert m == q * unit;
    assert (q + k) * unit == q * unit + k * unit;
    UniqueDivision(m + a, unit, q + k, a % unit);
  }

  lemma MultiplesAdd(a: nat, b: nat, unit: nat)
    requires unit > 0 && IsMultiple(a, unit) && IsMultiple(b, unit)
    ensures IsMultiple(a + b, unit)
    ensures a >= b ==> IsMultiple(a - b, unit)
  {
    var p, q := a / unit, b / unit;
    assert (p + q) * unit == a + b;
    UniqueDivision(a + b, unit, p + q, 0);
    if a >= b {
      Distribute(p, q, unit);
      if p < q {
        Distribute(q, p, unit);
        AtLeastUnit(q - p, unit);
      }
      UniqueDivision(a - b, unit, p - q, 0);
    }
  }

  /** A multiple below `a` is no greater than `a` rounded down. */
  lemma MultipleBelow(m: nat, a: nat, unit: nat)
    requires unit > 0 && IsMultiple(m, unit) && m <= a
    ensures m <= RoundDown(a, unit)
  {
    RoundDownMonotone(m, a, unit);
    RoundDownAdd(m, 0, unit);
  }

  // ---- strip-mining ---------------------------------------------------------------

  /** `length` cut into parts of the greatest size, and what is left of it last. */
  ghost predicate IsStripping(parts: seq<int>, length: int, max: nat, unit: nat)
    requires unit > 0
  {
    && (length < unit <==> parts == [])
    && (parts != [] ==>
          && length >= 0 && Sum(parts) == RoundDown(length, unit)
          && (forall k | 0 <= k < |parts| - 1 :: parts[k] == RoundDown(max, unit))
          && 0 < parts[|parts| - 1] <= RoundDown(max, unit)
          && IsMultiple(parts[|parts| - 1], unit))
  }

  /** Only full parts so far, with `unallocated` to go. */
  ghost predicate FullParts(parts: seq<int>, unallocated: int, length: int, max: nat, unit: nat)
    requires unit > 0
  {
    && Sum(parts) + unallocated == length
    && Sum(parts) >= 0 && IsMultiple(Sum(parts), unit)
    && (forall k | 0 <= k < |parts| :: parts[k] == RoundDown(max, unit))
  }

  lemma OneMoreFullPart(parts: seq<int>, unallocated: int, length: int, max: nat, unit: nat)
    requires unit > 0 && FullParts(parts, unallocated, length, max, unit)
    ensures FullParts(parts + [RoundDown(max, unit)], unallocated - RoundDown(max, unit), length, max, unit)
  {
    RoundDownBounds(max, unit);
    MultiplesAdd(Sum(parts), RoundDown(max, unit), unit);
    assert (parts + [RoundDown(max, unit)])[..|parts|] == parts;
  }

  lemma LastPart(parts: seq<int>, unallocated: int, length: int, max: nat, unit: nat)
    requires unit > 0 && FullParts(parts, unallocated, length, max, unit)
    requires unit <= unallocated <= RoundDown(max, unit)
    ensures IsStripping(parts + [RoundDown(unallocated, unit)], length, max, unit)
  {
    RoundDownBounds(unallocated, unit);
    RoundDownAdd(Sum(parts), unallocated, unit);
    assert (parts + [RoundDown(unallocated, unit)])[..|parts|] == parts;
  }

  lemma NothingLeft(parts: seq<int>, unallocated: int, length: int, max: nat, unit: nat)
    requires 0 < unit <= max && FullParts(parts, unallocated, length, max, unit)
    requires 0 <= unallocated < unit
    ensures IsStripping(parts, length, max, unit)
  {
    RoundDownBounds(max, unit);
    if parts != [] {
      RoundDownAdd(Sum(parts), unallocated, unit);
      UniqueDivision(unallocated, unit, 0, unallocated);
      SumAtLeast(parts, RoundDown(max, unit));
      AtLeastUnit(|parts|, RoundDown(max, unit));
    }
  }

  /** The strip-mining loop. */
  method Strip(length: int, max: nat, unit: nat) returns (lengths: seq<int>)
    requires max >= unit > 0
    ensures IsStripping(lengths, length, max, unit)
  {
    hide IsStripping, FullParts;
    var realMax := (max / unit) * unit;
    RoundDownBounds(max, unit);
    lengths := [];
    var unallocated := length;
    NoPartsYet(length, max, unit);
    while unallocated >= unit
      invariant FullParts(lengths, unallocated, length, max, unit) ||
                (unallocated < 0 && IsStripping(lengths, length, max, unit))
      invariant unallocated >= 0 || IsStripping(lengths, length, max, unit)
    {
      var remainder := unallocated - realMax;
      if remainder >= 0 {
        OneMoreFullPart(lengths, unallocated, length, max, unit);
        lengths := lengths + [realMax];
      } else {
        LastPart(lengths, unallocated, length, max, unit);
        lengths := lengths + [(unallocated / unit) * unit];
      }
      unallocated := remainder;
    }
    if unallocated >= 0 {
      NothingLeft(lengths, unallocated, length, max, unit);
    }
  }

  lemma NoPartsYet(length: int, max: nat, unit: nat)
    requires 0 < unit <= max
    ensures FullParts([], length, length, max, unit)
    ensures length < 0 ==> IsStripping([], length, max, unit)
  {
  }

  // ---- rebalancing -------------------------------------------------------------------

  /**
   * The last part has borrowed from the ones before it until it reached `low`,
   * or there was nothing left above `low` to borrow.
   */
  ghost predicate IsRebalanced(parts: seq<int>, low: int)
    requires parts != []
  {
    && (forall k | 0 <= k < |parts| - 1 :: parts[k] >= low)
    && (parts[|parts| - 1] >= low || forall k | 0 <= k < |parts| - 1 :: parts[k] == low)
  }

  /**
   * Parts lent from the last to the first: one that lent has all behind it
   * down at `low`, and lending went on only until the last part reached it.
   */
  ghost predicate LentFromTheBack(lengths: seq<int>, parts: seq<int>, low: int)
    requires |lengths| == |parts| > 0
  {
    && (forall k | 0 <= k < |parts| - 1 :: lengths[k] <= parts[k])
    && (forall j, k | 0 <= j < k < |parts| - 1 && lengths[j] < parts[j] :: lengths[k] == low)
    && (forall j | 0 <= j < |parts| - 1 && lengths[j] < parts[j] :: lengths[|parts| - 1] <= low)
  }

  /** As if all parts but the last had been of this size. */
  ghost predicate LentByFullParts(lengths: seq<int>, full: int, low: int)
    requires lengths != []
  {
    && (forall j, k | 0 <= j < k < |lengths| - 1 && lengths[j] < full :: lengths[k] == low)
    && (forall j | 0 <= j < |lengths| - 1 && lengths[j] < full :: lengths[|lengths| - 1] <= low)
  }

  /** What the last `m` parts before the final one can spare. */
  function Spare(parts: seq<int>, low: int, m: nat): int
    requires m < |parts|
  {
    if m == 0 then 0 else Spare(parts, low, m - 1) + parts[|parts| - 1 - m] - low
  }

  lemma {:induction false} SpareGrows(parts: seq<int>, low: int, m: nat, n: nat)
    requires m <= n < |parts| && forall k | 0 <= k < |parts| - 1 :: parts[k] >= low
    ensures Spare(parts, low, m) <= Spare(parts, low, n)
  {
    if m < n {
      SpareGrows(parts, low, m, n - 1);
    }
  }

  /** Borrowing from the last parts one after another, all they can spare, never comes to exactly what is missing. */
  ghost predicate NeverExact(parts: seq<int>, low: int)
    requires parts != []
  {
    forall m | 0 <= m < |parts| :: Spare(parts, low, m) != low - parts[|parts| - 1]
  }

  lemma SomethingLeftOver(parts: seq<int>, low: int, m: nat, overflow: int)
    requires m < |parts| && forall k | 0 <= k < |parts| - 1 :: parts[k] >= low
    requires overflow == low - parts[|parts| - 1] - Spare(parts, low, m) >= 0
    requires m == |parts| - 1 || Spare(parts, low, m + 1) > low - parts[|parts| - 1]
    ensures overflow > 0 <==> NeverExact(parts, low)
  {
    if overflow > 0 {
      forall n | 0 <= n < |parts| ensures Spare(parts, low, n) != low - parts[|parts| - 1] {
        if n <= m {
          SpareGrows(parts, low, n, m);
        } else {
          SpareGrows(parts, low, m + 1, n);
        }
      }
    }
  }

  lemma BorrowingKeepsMultiples(parts: seq<int>, i: nat, low: int, unit: nat)
    requires i < |parts| - 1 && unit > 0 && IsMultiple(low, unit) && low >= 0
    requires IsMultiple(parts[i], unit) && IsMultiple(parts[|parts| - 1], unit)
    requires parts[i] >= low >= parts[|parts| - 1] >= 0
    ensures IsMultiple(parts[|parts| - 1] + (parts[i] - low), unit)
    ensures parts[i] - low > low - parts[|parts| - 1] ==> IsMultiple(parts[i] - (low - parts[|parts| - 1]), unit)
  {
    var last := parts[|parts| - 1];
    MultiplesAdd(parts[i], low, unit);
    MultiplesAdd(low, last, unit);
    MultiplesAdd(last, parts[i] - low, unit);
    if parts[i] - low > low - last {
      MultiplesAdd(parts[i], low - last, unit);
    }
  }

  /** Borrows for the last part; `logged` is the error that the minimum could not be satisfied. */
  method Rebalance(parts: seq<int>, low: nat, ghost unit: nat) returns (lengths: seq<int>, logged: bool)
    requires parts != [] && parts[|parts| - 1] <= low
    requires unit > 0 && IsMultiple(low, unit)
    requires forall k | 0 <= k < |parts| :: parts[k] >= 0 && IsMultiple(parts[k], unit)
    requires forall k | 0 <= k < |parts| - 1 :: parts[k] >= low
    ensures |lengths| == |parts| && Sum(lengths) == Sum(parts)
    ensures IsRebalanced(lengths, low)
    ensures parts[|parts| - 1] <= lengths[|parts| - 1] <= low
    ensures LentFromTheBack(lengths, parts, low)
    ensures forall k | 0 <= k < |parts| :: IsMultiple(lengths[k], unit)
    ensures logged <==> NeverExact(parts, low)
  {
    hide NeverExact, IsMultiple, Sum;
    lengths := parts;
    var last := |lengths| - 1;
    var overflow := low - lengths[last];
    var i := last - 1;
    while i >= 0
      invariant -1 <= i < last && |lengths| == |parts|
      invariant overflow == low - lengths[last] >= 0 && lengths[last] >= parts[last]
      invariant overflow == low - parts[last] - Spare(parts, low, last - 1 - i)
      invariant Sum(lengths) == Sum(parts)
      invariant forall k | 0 <= k <= i :: lengths[k] == parts[k]
      invariant forall k | i < k < last :: lengths[k] == low <= parts[k]
      invariant IsMultiple(lengths[last], unit)
    {
      var borrowable := lengths[i] - low;
      BorrowingKeepsMultiples(lengths, i, low, unit);
      if borrowable <= overflow {
        SumUpdate(lengths, i, lengths[i] - borrowable);
        lengths := lengths[i := lengths[i] - borrowable];
        SumUpdate(lengths, last, lengths[last] + borrowable);
        lengths := lengths[last := lengths[last] + borrowable];
        overflow := overflow - borrowable;
      } else {
        SomethingLeftOver(parts, low, last - 1 - i, overflow);
        logged := overflow > 0;
        SumUpdate(lengths, i, lengths[i] - overflow);
        lengths := lengths[i := lengths[i] - overflow];
        SumUpdate(lengths, last, lengths[last] + overflow);
        lengths := lengths[last := lengths[last] + overflow];
        return;
      }
      i := i - 1;
    }
    SomethingLeftOver(parts, low, last, overflow);
    logged := overflow > 0;
  }

  // ---- the whole of StripInUnits --------------------------------------------------------

  lemma StrippingIsSound(parts: seq<int>, length: int, max: nat, unit: nat)
    requires 0 < unit <= max && IsStripping(parts, length, max, unit) && parts != []
    ensures forall k | 0 <= k < |parts| :: 0 < parts[k] <= RoundDown(max, unit) && IsMultiple(parts[k], unit)
    ensures (|parts| - 1) * RoundDown(max, unit) < RoundDown(length, unit) <= |parts| * RoundDown(max, unit)
  {
    var full, front := RoundDown(max, unit), parts[..|parts| - 1];
    RoundDownBounds(max, unit);
    SumAllEqual(front, full);
    assert |parts| * full == (|parts| - 1) * full + full;
  }

  /** Whether the minimum was reached is a question of the sum alone. */
  lemma RebalancedMeansMinimum(parts: seq<int>, low: nat)
    requires parts != [] && IsRebalanced(parts, low)
    ensures (forall k | 0 <= k < |parts| :: parts[k] >= low) <==> Sum(parts) >= |parts| * low
    ensures Sum(parts) < |parts| * low ==> forall k | 0 <= k < |parts| - 1 :: parts[k] == low
  {
    var front, last := parts[..|parts| - 1], parts[|parts| - 1];
    assert |parts| * low == (|parts| - 1) * low + low;
    if last >= low {
      SumAtLeast(parts, low);
    } else {
      SumAllEqual(front, low);
    }
  }

  lemma {:induction false} FullPartsSpare(parts: seq<int>, full: int, low: int, m: nat)
    requires m < |parts| && forall k | 0 <= k < |parts| - 1 :: parts[k] == full
    ensures Spare(parts, low, m) == m * (full - low)
  {
    if m > 0 {
      FullPartsSpare(parts, full, low, m - 1);
      assert m * (full - low) == (m - 1) * (full - low) + (full - low);
    }
  }

  /** What is left for the last of so many parts. */
  function LastPartOf(length: int, max: nat, unit: nat, count: nat): int
    requires unit > 0 && length >= 0 && count > 0
  {
    RoundDown(length, unit) - (count - 1) * RoundDown(max, unit)
  }

  /** What the last of so many parts misses. */
  function Missing(length: int, max: nat, unit: nat, min: nat, count: nat): int
    requires unit > 0 && length >= 0 && count > 0
  {
    RoundDown(min, unit) - LastPartOf(length, max, unit, count)
  }

  /** So many full parts can spare exactly what is missing. */
  predicate SpareExactly(m: nat, full: int, low: int, missing: int) {
    m * (full - low) == missing
  }

  /**
   * When the error is logged: the last of `count` parts is too small, and no
   * number of whole parts can spare exactly what it misses.
   */
  ghost predicate ErrorLogged(length: int, max: nat, unit: nat, min: int, count: nat)
    requires unit > 0 && length >= 0
  {
    && count > 0 && LastPartOf(length, max, unit, count) < min
    && (min >= 0 ==> forall m: nat | m < count ::
          !SpareExactly(m, RoundDown(max, unit), RoundDown(min, unit), Missing(length, max, unit, min, count)))
  }

  lemma NoErrorLogged(parts: seq<int>, length: int, max: nat, unit: nat, min: int)
    requires 0 < unit <= max && length >= 0 && IsStripping(parts, length, max, unit) && parts != []
    ensures parts[|parts| - 1] >= min ==> !ErrorLogged(length, max, unit, min, |parts|)
  {
    LastStripped(parts, length, max, unit);
  }

  lemma AllFull(parts: seq<int>, length: int, max: nat, unit: nat)
    requires unit > 0 && IsStripping(parts, length, max, unit) && parts != []
    ensures forall k | 0 <= k < |parts| - 1 :: parts[k] == RoundDown(max, unit)
  {
  }

  lemma LastStripped(parts: seq<int>, length: int, max: nat, unit: nat)
    requires 0 < unit <= max && length >= 0 && IsStripping(parts, length, max, unit) && parts != []
    ensures parts[|parts| - 1] == LastPartOf(length, max, unit, |parts|)
  {
    SumAllEqual(parts[..|parts| - 1], RoundDown(max, unit));
  }

  lemma NeverExactOfFullParts(parts: seq<int>, full: int, low: int, missing: int)
    requires parts != [] && forall k | 0 <= k < |parts| - 1 :: parts[k] == full
    requires missing == low - parts[|parts| - 1]
    ensures NeverExact(parts, low) <==> forall m: nat | m < |parts| :: !SpareExactly(m, full, low, missing)
  {
    hide Spare;
    forall m: nat | m < |parts|
      ensures Spare(parts, low, m) == missing <==> SpareExactly(m, full, low, missing)
    {
      FullPartsSpare(parts, full, low, m);
    }
    hide SpareExactly;
    if NeverExact(parts, low) {
      forall m: nat | m < |parts| ensures !SpareExactly(m, full, low, missing) {
        assert Spare(parts, low, m) != missing;
      }
    }
  }

  lemma StrippedErrorLogged(parts: seq<int>, length: int, max: nat, unit: nat, min: nat)
    requires 0 < unit <= max && length >= 0 && IsStripping(parts, length, max, unit) && parts != []
    ensures parts[|parts| - 1] < min ==>
              (NeverExact(parts, RoundDown(min, unit)) <==> ErrorLogged(length, max, unit, min, |parts|))
  {
    LastStripped(parts, length, max, unit);
    var missing := Missing(length, max, unit, min, |parts|);
    assert missing == RoundDown(min, unit) - parts[|parts| - 1];
    NeverExactOfFullParts(parts, RoundDown(max, unit), RoundDown(min, unit), missing);
    hide RoundDown, Sum, NeverExact, IsStripping, LastPartOf, SpareExactly, Missing;
  }

  /**
   * Cuts `length` into multiples of `unit` no greater than `max` rounded down,
   * which add up to `length` rounded down. Given a minimum no greater than
   * `max`, every part reaches the minimum rounded down if and only if the sum
   * has that much for each part; otherwise all but the last equal it. Whether
   * an error is logged is another question.
   */
  method StripInUnits(length: int, max: nat, unit: nat, min: Option<int>) returns (lengths: seq<int>, logged: bool)
    requires max >= unit > 0
    requires min.Some? && length >= unit ==> min.value <= max
    ensures lengths == [] <==> length < unit
    ensures lengths != [] ==>
              && Sum(lengths) == RoundDown(length, unit)
              && (forall k | 0 <= k < |lengths| :: 0 < lengths[k] <= RoundDown(max, unit) && IsMultiple(lengths[k], unit))
              && (|lengths| - 1) * RoundDown(max, unit) < RoundDown(length, unit) <= |lengths| * RoundDown(max, unit)
    ensures lengths != [] && (min.None? || min.value <= 0) ==>
              forall k | 0 <= k < |lengths| - 1 :: lengths[k] == RoundDown(max, unit)
    ensures lengths != [] && min.Some? && min.value >= 0 ==>
              && ((forall k | 0 <= k < |lengths| :: lengths[k] >= RoundDown(min.value, unit)) <==>
                  RoundDown(length, unit) >= |lengths| * RoundDown(min.value, unit))
              && (RoundDown(length, unit) < |lengths| * RoundDown(min.value, unit) ==>
                  forall k | 0 <= k < |lengths| - 1 :: lengths[k] == RoundDown(min.value, unit))
              && LentByFullParts(lengths, RoundDown(max, unit), RoundDown(min.value, unit))
    ensures logged <==> length >= unit && min.Some? && ErrorLogged(length, max, unit, min.value, |lengths|)
  {
    hide NeverExact, ErrorLogged;
    logged := false;
    lengths := Strip(length, max, unit);
    if lengths == [] {
      return;
    }
    StrippingIsSound(lengths, length, max, unit);
    AllFull(lengths, length, max, unit);
    if min.Some? && min.value >= 0 {
      RoundDownMonotone(min.value, max, unit);
      RoundDownBounds(min.value, unit);
    }
    if min.Some? {
      NoErrorLogged(lengths, length, max, unit, min.value);
    }
    if min.Some? && lengths[|lengths| - 1] < min.value {
      StrippedErrorLogged(lengths, length, max, unit, min.value);
      var realMin := unit * (min.value / unit);
      MultipleBelow(lengths[|lengths| - 1], min.value, unit);
      lengths, logged := Rebalance(lengths, realMin, unit);
    }
    if min.Some? && min.value >= 0 {
      RebalancedMeansMinimum(lengths, RoundDown(min.value, unit));
    }
  }

  /** 5980 in parts of 460 to 5520 and at least 1380: the minimum is met, and the error is logged. */
  method ErrorLoggedThoughMet() returns (lengths: seq<int>, logged: bool)
    ensures logged && lengths != [] && forall k | 0 <= k < |lengths| :: lengths[k] >= 1380
  {
    assert RoundDown(5520, 460) == 5520 && RoundDown(5980, 460) == 5980 && RoundDown(1380, 460) == 1380;
    hide RoundDown;
    lengths, logged := StripInUnits(5980, 5520, 460, Some(1380));
    assert |lengths| == 2;
  }
}
