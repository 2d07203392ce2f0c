// std::next_permutation, with which Sky130InterconnectMux2 tries the orders of
// rows (src/atoms/sky130_interconnect_mux2.cc): it steps through all
// permutations in lexicographic order.

module Permutations {
  import opened Basics

  predicate Less(a: seq<nat>, b: seq<nat>) {
    |a| == |b| > 0 && (a[0] < b[0] || (a[0] == b[0] && Less(a[1..], b[1..])))
  }

  predicate Ascending(s: seq<nat>) {
    forall j, k | 0 <= j < k < |s| :: s[j] <= s[k]
  }

  predicate Descending(s: seq<nat>) {
    forall j, k | 0 <= j < k < |s| :: s[j] >= s[k]
  }

  ghost predicate ArePermutations(a: seq<nat>, b: seq<nat>) {
    multiset(a) == multiset(b)
  }

  lemma HeadAndTail(s: seq<nat>)
    requires s != []
    ensures multiset(s) == multiset{s[0]} + multiset(s[1..])
  {
    assert s == [s[0]] + s[1..];
  }

  lemma TailsArePermutations(a: seq<nat>, b: seq<nat>)
    requires ArePermutations(a, b) && a != [] && b != [] && a[0] == b[0]
    ensures ArePermutations(a[1..], b[1..])
  {
    HeadAndTail(a);
    HeadAndTail(b);
    assert multiset(a[1..]) == multiset(a) - multiset{a[0]};
    assert multiset(b[1..]) == multiset(b) - multiset{b[0]};
  }

  lemma SameLength(a: seq<nat>, b: seq<nat>)
    requires ArePermutations(a, b)
    ensures |a| == |b|
  {
    assert |multiset(a)| == |a| && |multiset(b)| == |b|;
  }

  lemma HeadIsMember(a: seq<nat>, b: seq<nat>)
    requires ArePermutations(a, b) && b != []
    ensures b[0] in a
  {
    assert b[0] in multiset(b);
  }

  /** Nothing comes before the ascending order. */
  lemma {:induction false} AscendingIsLeast(s: seq<nat>, c: seq<nat>)
    requires Ascending(s) && ArePermutations(s, c)
    ensures s == c || Less(s, c)
  {
    SameLength(s, c);
    if s != [] {
      HeadIsMember(s, c);
      if s[0] == c[0] {
        TailsArePermutations(s, c);
        AscendingIsLeast(s[1..], c[1..]);
        assert s == [s[0]] + s[1..] && c == [c[0]] + c[1..];
      }
    }
  }

  /** Nothing comes after the descending order. */
  lemma {:induction false} DescendingIsGreatest(s: seq<nat>, c: seq<nat>)
    requires Descending(s) && ArePermutations(s, c)
    ensures !Less(s, c)
  {
    SameLength(s, c);
    if s != [] {
      HeadIsMember(s, c);
      if s[0] == c[0] {
        TailsArePermutations(s, c);
        DescendingIsGreatest(s[1..], c[1..]);
      }
    }
  }

  /** A pivot and a descending tail, and what replaces them: the least larger pivot and an ascending tail. */
  predicate IsStep(x: nat, down: seq<nat>, y: nat, up: seq<nat>) {
    && x < y && Descending(down) && Ascending(up)
    && multiset([x] + down) == multiset([y] + up)
    && forall z | z in down :: z <= x || z >= y
  }

  lemma StepHasNoBetween(x: nat, down: seq<nat>, y: nat, up: seq<nat>, c: seq<nat>)
    requires IsStep(x, down, y, up) && ArePermutations([x] + down, c) && Less([x] + down, c)
    ensures c == [y] + up || Less([y] + up, c)
  {
    var a, b := [x] + down, [y] + up;
    assert a[1..] == down && b[1..] == up;
    SameLength(a, c);
    HeadIsMember(a, c);
    if c[0] == x {
      TailsArePermutations(a, c);
      DescendingIsGreatest(down, c[1..]);
    } else if c[0] == y {
      SameLength(a, b);
      TailsArePermutations(b, c);
      AscendingIsLeast(up, c[1..]);
      assert c == [c[0]] + c[1..];
    } else {
      SameLength(a, b);
      assert c[0] in down;
    }
  }

  lemma LessByTails(a: seq<nat>, b: seq<nat>)
    requires |a| == |b| > 0 && a[0] == b[0]
    ensures Less(a, b) <==> Less(a[1..], b[1..])
    ensures a == b <==> a[1..] == b[1..]
  {
    assert a == [a[0]] + a[1..] && b == [b[0]] + b[1..];
  }

  lemma LessByHeads(a: seq<nat>, b: seq<nat>)
    requires |a| == |b| > 0 && a[0] != b[0]
    ensures Less(a, b) <==> a[0] < b[0]
  {
  }

  lemma StepKeepsLength(x: nat, down: seq<nat>, y: nat, up: seq<nat>)
    requires IsStep(x, down, y, up)
    ensures |down| == |up|
  {
    SameLength([x] + down, [y] + up);
  }

  /** The step leaves no permutation between, behind any common prefix. */
  lemma {:induction false} NothingBetween(prefix: seq<nat>, x: nat, down: seq<nat>, y: nat, up: seq<nat>, c: seq<nat>)
    requires IsStep(x, down, y, up)
    requires ArePermutations(prefix + [x] + down, c) && Less(prefix + [x] + down, c)
    ensures c == prefix + [y] + up || Less(prefix + [y] + up, c)
    decreases |prefix|
  {
    var a, b := prefix + [x] + down, prefix + [y] + up;
    StepKeepsLength(x, down, y, up);
    SameLength(a, c);
    hide Less, IsStep, ArePermutations;
    if prefix == [] {
      assert a == [x] + down && b == [y] + up;
      StepHasNoBetween(x, down, y, up, c);
    } else if c[0] == prefix[0] {
      var rest := prefix[1..];
      assert a[1..] == rest + [x] + down && b[1..] == rest + [y] + up;
      TailsArePermutations(a, c);
      LessByTails(a, c);
      LessByTails(b, c);
      NothingBetween(rest, x, down, y, up, c[1..]);
    } else {
      LessByHeads(a, c);
      LessByHeads(b, c);
    }
  }

  lemma {:induction false} StepGoesUp(prefix: seq<nat>, x: nat, down: seq<nat>, y: nat, up: seq<nat>)
    requires IsStep(x, down, y, up)
    ensures Less(prefix + [x] + down, prefix + [y] + up)
    decreases |prefix|
  {
    var a, b := prefix + [x] + down, prefix + [y] + up;
    StepKeepsLength(x, down, y, up);
    assert x < y;
    hide Less, IsStep;
    if prefix == [] {
      LessByHeads(a, b);
    } else {
      StepGoesUp(prefix[1..], x, down, y, up);
      assert a[1..] == prefix[1..] + [x] + down && b[1..] == prefix[1..] + [y] + up;
      LessByTails(a, b);
    }
  }

  lemma {:induction false} ReversedIsPermutation(s: seq<nat>)
    ensures multiset(Reversed(s)) == multiset(s)
  {
    if s != [] {
      ReversedIsPermutation(s[1..]);
      assert Reversed(s) == Reversed(s[1..]) + [s[0]];
      HeadAndTail(s);
    }
  }

  lemma SwapKeepsMembers(x: nat, down: seq<nat>, j: nat)
    requires j < |down|
    ensures multiset([x] + down) == multiset([down[j]] + down[j := x])
  {
    assert multiset(down[j := x]) == multiset(down) - multiset{down[j]} + multiset{x};
  }

  lemma SwappedIsDescending(x: nat, down: seq<nat>, j: nat)
    requires Descending(down) && j < |down| && down[j] > x && forall k | j < k < |down| :: down[k] <= x
    ensures Descending(down[j := x]) && Ascending(Reversed(down[j := x]))
    ensures forall z | z in down :: z <= x || z >= down[j]
  {
  }

  /** Swapping the pivot with the last larger one of a descending tail. */
  lemma SwappedTail(x: nat, down: seq<nat>, j: nat)
    requires Descending(down) && j < |down| && down[j] > x
    requires forall k | j < k < |down| :: down[k] <= x
    ensures IsStep(x, down, down[j], Reversed(down[j := x]))
  {
    SwapKeepsMembers(x, down, j);
    SwappedIsDescending(x, down, j);
    hide Descending, Ascending, Reversed;
    ReversedIsPermutation(down[j := x]);
  }

  /** The place of the pivot: what follows is descending, and it is not. */
  ghost predicate IsPivot(order: seq<nat>, i: nat) {
    0 < i < |order| && order[i - 1] < order[i] && Descending(order[i..])
  }

  /** The next permutation in lexicographic order, or the first one after the last. */
  method NextPermutation(order: seq<nat>) returns (next: seq<nat>, more: bool)
    ensures ArePermutations(order, next)
    ensures more ==> Less(order, next)
    ensures more ==> forall c | ArePermutations(order, c) && Less(order, c) :: c == next || Less(next, c)
    ensures !more ==> Ascending(next) && forall c | ArePermutations(order, c) :: !Less(order, c)
  {
    hide Less, Ascending, ArePermutations;
    if |order| < 2 {
      LastPermutation(order);
      ReversedShort(order);
      return order, false;
    }
    var i := |order| - 1;
    while i > 0 && order[i - 1] >= order[i]
      invariant 0 <= i < |order| && Descending(order[i..])
    {
      i := i - 1;
    }
    if i == 0 {
      assert order[0..] == order;
      LastPermutation(order);
      return Reversed(order), false;
    }
    assert IsPivot(order, i);
    hide Descending;
    var pivot, j := order[i - 1], |order| - 1;
    while order[j] <= pivot
      invariant i <= j < |order| && forall k | j < k < |order| :: order[k] <= pivot
      decreases j
    {
      j := j - 1;
    }
    SwapAndReverse(order, i, j);
    var swapped := order[i - 1 := order[j]][j := pivot];
    return swapped[..i] + Reversed(swapped[i..]), true;
  }

  lemma ReversedShort(order: seq<nat>)
    requires |order| < 2
    ensures Reversed(order) == order
  {
  }

  lemma SwappedPieces(order: seq<nat>, i: nat, j: nat)
    requires 0 < i <= j < |order|
    ensures order == order[..i - 1] + [order[i - 1]] + order[i..]
    ensures order[i..][j - i] == order[j] && forall k {:trigger order[i..][k]} | j - i < k < |order[i..]| ::
        order[i..][k] == order[k + i]
    ensures var swapped := order[i - 1 := order[j]][j := order[i - 1]];
            swapped[i..] == order[i..][j - i := order[i - 1]] && swapped[..i] == order[..i - 1] + [order[j]]
  {
  }

  lemma SwapAndReverse(order: seq<nat>, i: nat, j: nat)
    requires IsPivot(order, i) && i <= j < |order| && order[j] > order[i - 1]
    requires forall k | j < k < |order| :: order[k] <= order[i - 1]
    ensures var swapped := order[i - 1 := order[j]][j := order[i - 1]];
            var next := swapped[..i] + Reversed(swapped[i..]);
            && ArePermutations(order, next) && Less(order, next)
            && forall c | ArePermutations(order, c) && Less(order, c) :: c == next || Less(next, c)
  {
    hide Less, IsStep, Descending, ArePermutations, Reversed;
    var pivot, down := order[i - 1], order[i..];
    assert IsStep(pivot, down, order[j], Reversed(down[j - i := pivot])) by {
      SwappedPieces(order, i, j);
      SwappedTail(pivot, down, j - i);
    }
    hide IsPivot;
    SwappedPieces(order, i, j);
    StepIsNext(order[..i - 1], pivot, down, order[j], Reversed(down[j - i := pivot]));
  }

  lemma LastPermutation(order: seq<nat>)
    requires Descending(order)
    ensures ArePermutations(order, Reversed(order)) && Ascending(Reversed(order))
    ensures forall c | ArePermutations(order, c) :: !Less(order, c)
  {
    hide Less;
    ReversedIsPermutation(order);
    forall c | ArePermutations(order, c) ensures !Less(order, c) {
      DescendingIsGreatest(order, c);
    }
  }

  lemma StepIsNext(prefix: seq<nat>, x: nat, down: seq<nat>, y: nat, up: seq<nat>)
    requires IsStep(x, down, y, up)
    ensures var order, next := prefix + [x] + down, prefix + [y] + up;
            && ArePermutations(order, next) && Less(order, next)
            && forall c | ArePermutations(order, c) && Less(order, c) :: c == next || Less(next, c)
  {
    var order, next := prefix + [x] + down, prefix + [y] + up;
    assert order == prefix + ([x] + down) && next == prefix + ([y] + up);
    assert ArePermutations(order, next);
    hide Less, IsStep, ArePermutations;
    StepGoesUp(prefix, x, down, y, up);
    forall c | ArePermutations(order, c) && Less(order, c) ensures c == next || Less(next, c) {
      NothingBetween(prefix, x, down, y, up, c);
    }
  }

  // ---- there are only so many permutations ------------------------------------------------------------

  function Power(base: nat, n: nat): nat {
    if n == 0 then 1 else base * Power(base, n - 1)
  }

  /** The digits of a sequence read as a number. */
  function Rank(s: seq<nat>, base: nat): nat {
    if s == [] then 0 else s[0] * Power(base, |s| - 1) + Rank(s[1..], base)
  }

  lemma RowOfProducts(digit: nat, base: nat, p: nat, rest: nat)
    requires digit < base && rest < p
    ensures digit * p + rest < base * p
  {
    ProductGrows(digit + 1, base, p);
    assert (digit + 1) * p == digit * p + p;
  }

  lemma {:induction false} RankIsBounded(s: seq<nat>, base: nat)
    requires forall k | 0 <= k < |s| :: s[k] < base
    ensures Rank(s, base) < Power(base, |s|)
  {
    if s != [] {
      RankIsBounded(s[1..], base);
      RowOfProducts(s[0], base, Power(base, |s| - 1), Rank(s[1..], base));
    }
  }

  lemma {:induction false} LessRanksLower(a: seq<nat>, b: seq<nat>, base: nat)
    requires Less(a, b) && forall k | 0 <= k < |a| :: a[k] < base
    ensures Rank(a, base) < Rank(b, base)
    decreases |a|
  {
    if a[0] < b[0] {
      RankIsBounded(a[1..], base);
      RowOfProducts(a[0], b[0], Power(base, |a| - 1), Rank(a[1..], base));
    } else {
      LessRanksLower(a[1..], b[1..], base);
    }
  }
}
