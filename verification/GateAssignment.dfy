// The assignment of gates to memories in the dual-output mux
// (src/atoms/sky130_interconnect_mux2.cc, AssignRow and FindGateAssignment):
// each row takes the nearest gates left, and rows are tried in every order
// until no row has crossing wires.

module GateAssignments {
  import opened Basics
  import opened Permutations
  import opened Wires

  // A gate by its number and the x position of its PMOS contact.
  datatype GateContact = GateContact(number: nat, x: int)

  // A memory, with the x positions of its output ports.
  datatype Flop = Flop(name: nat, q: int, qi: int)

  datatype Assignment = Assignment(gate: GateContact, pVertical: int, pGate: int, nVertical: int, nGate: int)

  // How far from its gate a vertical wire may be, and the pitch of vertical wires.
  datatype Rules = Rules(maxOffset: int, met2Pitch: int)

  // ---- the nearest gate ---------------------------------------------------------------------------

  /** C++ division, which truncates. */
  function Average(a: int, b: int): int {
    if a + b >= 0 then (a + b) / 2 else -((-(a + b)) / 2)
  }

  /** Half the sum, less a half towards zero if the sum is odd. */
  lemma AverageIsHalf(a: int, b: int)
    ensures if a + b >= 0 then 2 * Average(a, b) <= a + b <= 2 * Average(a, b) + 1
            else 2 * Average(a, b) - 1 <= a + b <= 2 * Average(a, b)
  {
  }

  function Distance(gate: GateContact, x: int): nat {
    if gate.x >= x then gate.x - x else x - gate.x
  }

  /** The first of the nearest gates. */
  predicate IsNearest(gates: seq<GateContact>, x: int, k: nat) {
    && k < |gates|
    && (forall i | 0 <= i < |gates| :: Distance(gates[k], x) <= Distance(gates[i], x))
    && (forall i | 0 <= i < k :: Distance(gates[k], x) < Distance(gates[i], x))
  }

  function Nearest(gates: seq<GateContact>, x: int): (k: nat)
    requires gates != []
    ensures IsNearest(gates, x, k)
  {
    if |gates| == 1 then 0
    else
      var k := Nearest(gates[..|gates| - 1], x);
      if Distance(gates[|gates| - 1], x) < Distance(gates[k], x) then |gates| - 1 else k
  }

  lemma OneNearest(gates: seq<GateContact>, x: int, j: nat, k: nat)
    requires IsNearest(gates, x, j) && IsNearest(gates, x, k)
    ensures j == k
  {
    assert Distance(gates[j], x) == Distance(gates[k], x);
  }

  /** std::min_element. */
  method FindNearest(gates: seq<GateContact>, x: int) returns (k: nat)
    requires gates != []
    ensures k == Nearest(gates, x)
  {
    k := 0;
    for i := 1 to |gates|
      invariant IsNearest(gates[..i], x, k)
    {
      if Distance(gates[i], x) < Distance(gates[k], x) {
        k := i;
      }
    }
    assert gates[..|gates|] == gates;
    OneNearest(gates, x, k, Nearest(gates, x));
  }

  ghost predicate DistinctNumbers(gates: seq<GateContact>) {
    forall j, k | 0 <= j < k < |gates| :: gates[j].number != gates[k].number
  }

  function Removed(gates: seq<GateContact>, k: nat): (rest: seq<GateContact>)
    requires k < |gates|
    ensures |rest| == |gates| - 1
  {
    gates[..k] + gates[k + 1..]
  }

  /** The vector while entry `k` is being removed: entries up to `i` have moved down by one. */
  ghost predicate Removing(vector: seq<GateContact>, gates: seq<GateContact>, k: nat, i: nat) {
    && k < i <= |gates| == |vector|
    && (forall m {:trigger vector[m]} | 0 <= m < |gates| :: vector[m] == gates[if k <= m < i - 1 then m + 1 else m])
  }

  lemma RemovingStarts(gates: seq<GateContact>, k: nat)
    requires k < |gates|
    ensures Removing(gates, gates, k, k + 1)
  {
  }

  /** The next entry differs in number from whatever stands in the overwritten place. */
  lemma RemovingStep(vector: seq<GateContact>, gates: seq<GateContact>, k: nat, i: nat)
    requires DistinctNumbers(gates) && Removing(vector, gates, k, i) && i < |gates|
    ensures vector[i].number != vector[k].number
    ensures Removing(vector[i - 1 := vector[i]], gates, k, i + 1)
  {
    assert vector[i] == gates[i];
    assert vector[k] == gates[if i == k + 1 then k else k + 1];
  }

  lemma RemovingEnds(vector: seq<GateContact>, gates: seq<GateContact>, k: nat)
    requires Removing(vector, gates, k, |gates|)
    ensures vector[..|gates| - 1] == Removed(gates, k)
  {
  }

  /**
   * std::remove_if and erase. The number that entries are compared with is
   * read from the vector itself, in a place that the removal overwrites;
   * distinct numbers make that harmless.
   */
  method EraseGate(gates: seq<GateContact>, k: nat) returns (rest: seq<GateContact>)
    requires k < |gates| && DistinctNumbers(gates)
    ensures rest == Removed(gates, k)
  {
    var vector := gates;
    var kept := 0;
    while kept < |vector| && vector[kept].number != vector[k].number
      invariant kept <= k
    {
      kept := kept + 1;
    }
    assert kept == k;
    hide DistinctNumbers, Removing, Removed;
    RemovingStarts(gates, k);
    for i := k + 1 to |vector|
      invariant |vector| == |gates| && kept == i - 1 && Removing(vector, gates, k, i)
    {
      RemovingStep(vector, gates, k, i);
      if vector[i].number != vector[k].number {
        vector := vector[kept := vector[i]];
        kept := kept + 1;
      }
    }
    RemovingEnds(vector, gates, k);
    rest := vector[..kept];
  }

  // ---- one row --------------------------------------------------------------------------------------

  function AssignmentOf(rules: Rules, memory: Flop, gate: GateContact): Assignment {
    var x := gate.x + rules.maxOffset;
    Assignment(gate, x, memory.qi, x - rules.met2Pitch, memory.q)
  }

  datatype RowResult = RowResult(assignments: seq<Assignment>, rest: seq<GateContact>)

  /** Each memory in turn takes the nearest gate that is left. */
  function RowAssignment(rules: Rules, memories: seq<Flop>, gates: seq<GateContact>): (r: RowResult)
    requires |memories| <= |gates|
    ensures |r.assignments| == |memories| && |r.rest| == |gates| - |memories|
  {
    if memories == [] then RowResult([], gates)
    else
      var last := memories[|memories| - 1];
      var before := RowAssignment(rules, memories[..|memories| - 1], gates);
      var k := Nearest(before.rest, Average(last.q, last.qi));
      RowResult(before.assignments + [AssignmentOf(rules, last, before.rest[k])], Removed(before.rest, k))
  }

  function GatesUsed(assignments: seq<Assignment>): (gates: seq<GateContact>)
    ensures |gates| == |assignments|
  {
    seq(|assignments|, i requires 0 <= i < |assignments| => assignments[i].gate)
  }

  lemma RemovedMembers(gates: seq<GateContact>, k: nat)
    requires k < |gates|
    ensures multiset(gates) == multiset{gates[k]} + multiset(Removed(gates, k))
  {
    assert gates == gates[..k] + ([gates[k]] + gates[k + 1..]);
  }

  /** What a row used and what it left are what it was given. */
  lemma {:induction false} RowConservesGates(rules: Rules, memories: seq<Flop>, gates: seq<GateContact>)
    requires |memories| <= |gates|
    ensures var r := RowAssignment(rules, memories, gates);
            multiset(GatesUsed(r.assignments)) + multiset(r.rest) == multiset(gates)
  {
    hide Average, Removed;
    if memories == [] {
      assert GatesUsed([]) == [];
    } else {
      var last := memories[|memories| - 1];
      var before := RowAssignment(rules, memories[..|memories| - 1], gates);
      var k := Nearest(before.rest, Average(last.q, last.qi));
      assert k < |before.rest|;
      hide IsNearest;
      var r := RowAssignment(rules, memories, gates);
      RowConservesGates(rules, memories[..|memories| - 1], gates);
      RemovedMembers(before.rest, k);
      assert GatesUsed(r.assignments) == GatesUsed(before.assignments) + [before.rest[k]];
    }
  }

  /** Each assignment leads from its memory's ports to its gate. */
  lemma {:induction false} RowServesMemories(rules: Rules, memories: seq<Flop>, gates: seq<GateContact>, i: nat)
    requires |memories| <= |gates| && i < |memories|
    ensures var a := RowAssignment(rules, memories, gates).assignments[i];
            a == AssignmentOf(rules, memories[i], a.gate) && Leads(rules, memories[i], a)
  {
    if i < |memories| - 1 {
      RowServesMemories(rules, memories[..|memories| - 1], gates, i);
    }
  }

  /** Left over by a row, or taken by a later memory of it. */
  ghost predicate IsTakenLater(r: RowResult, i: nat, gate: GateContact) {
    gate in r.rest || exists j | i < j < |r.assignments| :: r.assignments[j].gate == gate
  }

  /** What the last memory of a row adds. */
  lemma LastMemoryTakes(before: RowResult, r: RowResult, k: nat, i: nat, gate: GateContact)
    requires k < |before.rest| && r.rest == Removed(before.rest, k)
    requires |r.assignments| == |before.assignments| + 1 && before.assignments == r.assignments[..|before.assignments|]
    requires r.assignments[|before.assignments|].gate == before.rest[k]
    requires IsTakenLater(r, i, gate)
    ensures if i < |before.assignments| then IsTakenLater(before, i, gate) else gate in before.rest
  {
    var n := |before.assignments|;
    if gate !in r.rest {
      var j :| i < j < |r.assignments| && r.assignments[j].gate == gate;
      if j < n {
        assert before.assignments[j].gate == gate;
      }
    }
  }

  lemma NearestInRest(rest: seq<GateContact>, x: int, k: nat, gate: GateContact)
    requires IsNearest(rest, x, k) && gate in rest
    ensures Distance(rest[k], x) <= Distance(gate, x)
  {
  }

  lemma {:induction false} RowTakesNearestToAverage(rules: Rules, memories: seq<Flop>, gates: seq<GateContact>, i: nat, gate: GateContact)
    requires |memories| <= |gates| && i < |memories| && IsTakenLater(RowAssignment(rules, memories, gates), i, gate)
    ensures var x := Average(memories[i].q, memories[i].qi);
            Distance(RowAssignment(rules, memories, gates).assignments[i].gate, x) <= Distance(gate, x)
  {
    hide Average, Distance, IsTakenLater, Removed;
    var n := |memories| - 1;
    var r, before := RowAssignment(rules, memories, gates), RowAssignment(rules, memories[..n], gates);
    var x := Average(memories[n].q, memories[n].qi);
    var k := Nearest(before.rest, x);
    assert IsNearest(before.rest, x, k) && k < |before.rest|;
    assert r == RowResult(before.assignments + [AssignmentOf(rules, memories[n], before.rest[k])], Removed(before.rest, k));
    hide IsNearest, RowAssignment;
    LastMemoryTakes(before, r, k, i, gate);
    if i == n {
      NearestInRest(before.rest, x, k, gate);
    } else {
      RowTakesNearestToAverage(rules, memories[..n], gates, i, gate);
    }
  }

  /** Twice the distance of a gate from the middle between the ports of a memory. */
  function PortOffset(memory: Flop, gate: GateContact): nat {
    var offset := 2 * gate.x - (memory.q + memory.qi);
    if offset >= 0 then offset else -offset
  }

  /** What rounding the middle can cost: nothing if it is a whole number. */
  function Rounding(memory: Flop): nat {
    if (memory.q + memory.qi) % 2 == 0 then 0 else 2
  }

  lemma NearestToPorts(memory: Flop, gate: GateContact, other: GateContact)
    requires Distance(gate, Average(memory.q, memory.qi)) <= Distance(other, Average(memory.q, memory.qi))
    ensures PortOffset(memory, gate) <= PortOffset(memory, other) + Rounding(memory)
  {
    AverageIsHalf(memory.q, memory.qi);
  }

  /**
   * No gate that was still there when a memory chose would have been nearer
   * to the middle between its ports, by more than rounding that middle allows.
   */
  lemma RowTakesNearest(rules: Rules, memories: seq<Flop>, gates: seq<GateContact>, i: nat, gate: GateContact)
    requires |memories| <= |gates| && i < |memories| && IsTakenLater(RowAssignment(rules, memories, gates), i, gate)
    ensures PortOffset(memories[i], RowAssignment(rules, memories, gates).assignments[i].gate) <=
            PortOffset(memories[i], gate) + Rounding(memories[i])
  {
    hide Average, RowAssignment, Distance, PortOffset, Rounding, IsTakenLater;
    RowTakesNearestToAverage(rules, memories, gates, i, gate);
    NearestToPorts(memories[i], RowAssignment(rules, memories, gates).assignments[i].gate, gate);
  }

  lemma RestStaysDistinct(used: seq<GateContact>, rest: seq<GateContact>, gates: seq<GateContact>)
    requires DistinctNumbers(gates) && multiset(used) + multiset(rest) == multiset(gates)
    ensures DistinctNumbers(rest) && DistinctNumbers(used)
    ensures forall g, h | g in used && h in rest :: g.number != h.number
  {
    var both := used + rest;
    assert multiset(both) == multiset(gates);
    DistinctIsOrderless(gates, both);
    forall j, k | 0 <= j < k < |rest| ensures rest[j].number != rest[k].number {
      assert both[|used| + j] == rest[j] && both[|used| + k] == rest[k];
    }
    forall j, k | 0 <= j < k < |used| ensures used[j].number != used[k].number {
      assert both[j] == used[j] && both[k] == used[k];
    }
    forall g, h | g in used && h in rest ensures g.number != h.number {
      var j :| 0 <= j < |used| && used[j] == g;
      var k :| 0 <= k < |rest| && rest[k] == h;
      assert both[j] == g && both[|used| + k] == h;
    }
  }

  /** In another order the numbers are still distinct. */
  lemma {:induction false} DistinctIsOrderless(a: seq<GateContact>, b: seq<GateContact>)
    requires DistinctNumbers(a) && multiset(a) == multiset(b)
    ensures DistinctNumbers(b)
  {
    forall j, k | 0 <= j < k < |b| ensures b[j].number != b[k].number {
      assert b[j] in multiset(b) && b[k] in multiset(b);
      var p :| 0 <= p < |a| && a[p] == b[j];
      var q :| 0 <= q < |a| && a[q] == b[k];
      if p == q {
        TwiceInSequence(b, j, k);
        OnceInOrder(a, p);
        assert false;
      }
      assert if p < q then a[p].number != a[q].number else a[q].number != a[p].number;
    }
  }

  lemma OnceInOrder(s: seq<GateContact>, k: nat)
    requires DistinctNumbers(s) && k < |s|
    ensures multiset(s)[s[k]] == 1
  {
    var front, back := s[..k], s[k + 1..];
    assert s == front + [s[k]] + back;
    assert s[k] !in front && s[k] !in back;
  }

  method AssignRow(rules: Rules, memories: seq<Flop>, gates: seq<GateContact>)
    returns (assignments: seq<Assignment>, rest: seq<GateContact>)
    requires |memories| <= |gates| && DistinctNumbers(gates)
    ensures RowResult(assignments, rest) == RowAssignment(rules, memories, gates) && DistinctNumbers(rest)
  {
    hide DistinctNumbers, Nearest, Removed, AssignmentOf;
    assignments, rest := [], gates;
    for i := 0 to |memories|
      invariant RowResult(assignments, rest) == RowAssignment(rules, memories[..i], gates) && DistinctNumbers(rest)
    {
      var memory := memories[i];
      assert memories[..i + 1][..i] == memories[..i];
      var k := FindNearest(rest, Average(memory.q, memory.qi));
      assignments := assignments + [AssignmentOf(rules, memory, rest[k])];
      rest := EraseGate(rest, k);
      RowConservesGates(rules, memories[..i + 1], gates);
      RestStaysDistinct(GatesUsed(assignments), rest, gates);
    }
    assert memories[..|memories|] == memories;
  }

  // ---- conflicts ------------------------------------------------------------------------------------

  function PWire(a: Assignment): Wire {
    Wire(a.pGate, a.pVertical)
  }

  function NWire(a: Assignment): Wire {
    Wire(a.nGate, a.nVertical)
  }

  /** The test of two assignments: PMOS wires, and then NMOS wires if those are clear. */
  function PairTest(a: Assignment, b: Assignment): Test {
    var p := IntersectsInMutualBounds(PWire(a), PWire(b));
    if p != Clear then p else IntersectsInMutualBounds(NWire(a), NWire(b))
  }

  /** What is found before assignment `i` is tested against assignment `j`, each against those before it. */
  function TestUpTo(row: seq<Assignment>, i: nat, j: nat): Test
    requires j <= i <= |row| && (i == |row| ==> j == 0)
    decreases i, j
  {
    if j > 0 then
      var before := TestUpTo(row, i, j - 1);
      if before != Clear then before else PairTest(row[i], row[j - 1])
    else if i > 0 then TestUpTo(row, i - 1, i - 1)
    else Clear
  }

  function RowTest(row: seq<Assignment>): Test {
    TestUpTo(row, |row|, 0)
  }

  lemma {:induction false} TestSticks(row: seq<Assignment>, i: nat, j: nat, i': nat, j': nat)
    requires j <= i < |row| && j' <= i' <= |row| && (i' == |row| ==> j' == 0)
    requires i < i' || (i == i' && j <= j')
    requires TestUpTo(row, i, j) != Clear
    ensures TestUpTo(row, i', j') == TestUpTo(row, i, j)
    decreases i', j'
  {
    hide PairTest;
    if i < i' || j < j' {
      if j' > 0 {
        TestSticks(row, i, j, i', j' - 1);
      } else {
        TestSticks(row, i, j, i' - 1, i' - 1);
      }
    }
  }

  lemma {:induction false} ClearUpTo(row: seq<Assignment>, i: nat, j: nat)
    requires j <= i <= |row| && (i == |row| ==> j == 0)
    ensures TestUpTo(row, i, j) == Clear ==>
              forall k, m | 0 <= m < k < |row| && (k < i || (k == i && m < j)) :: PairTest(row[k], row[m]) == Clear
    ensures TestUpTo(row, i, j) != Clear ==>
              exists k, m | 0 <= m < k < |row| :: PairTest(row[k], row[m]) == TestUpTo(row, i, j)
    decreases i, j
  {
    hide PairTest;
    if j > 0 {
      ClearUpTo(row, i, j - 1);
    } else if i > 0 {
      ClearUpTo(row, i - 1, i - 1);
    }
  }

  /** A row is clear exactly if all its pairs are. */
  lemma RowTestExactly(row: seq<Assignment>)
    ensures RowTest(row) == Clear <==> forall k, m | 0 <= m < k < |row| :: PairTest(row[k], row[m]) == Clear
    ensures RowTest(row) != Clear ==> exists k, m | 0 <= m < k < |row| :: PairTest(row[k], row[m]) == RowTest(row)
  {
    hide PairTest;
    ClearUpTo(row, |row|, 0);
  }

  /** Each assignment is tested against those before it, up to the first that is not clear. */
  method CheckRow(row: seq<Assignment>) returns (test: Test)
    ensures test == RowTest(row)
  {
    hide PairTest;
    for i := 0 to |row|
      invariant TestUpTo(row, i, 0) == Clear
    {
      for j := 0 to |row|
        invariant TestUpTo(row, i, if j <= i then j else i) == Clear
      {
        if i <= j {
          continue;
        }
        test := PairTest(row[i], row[j]);
        if test != Clear {
          TestSticks(row, i, j + 1, |row|, 0);
          return;
        }
      }
    }
    test := Clear;
  }

  // ---- what a clear row is worth ----------------------------------------------------------------------

  /** No two wires of one kind, from the port to the vertical wire, meet. */
  ghost predicate OverlapFree(row: seq<Assignment>) {
    forall i, j | 0 <= j < i < |row| ::
      && !Meet(Wire(row[i].pGate, row[i].pVertical), Wire(row[j].pGate, row[j].pVertical))
      && !Meet(Wire(row[i].nGate, row[i].nVertical), Wire(row[j].nGate, row[j].nVertical))
  }

  /** Of no two wires that run oppositely and meet, the earlier one sticks out of the later one. */
  ghost predicate NoneMissed(row: seq<Assignment>) {
    forall i, j | 0 <= j < i < |row| ::
      && !Missed(Wire(row[i].pGate, row[i].pVertical), Wire(row[j].pGate, row[j].pVertical))
      && !Missed(Wire(row[i].nGate, row[i].nVertical), Wire(row[j].nGate, row[j].nVertical))
  }

  /** A clear row is free of overlaps if and only if the test has missed none. */
  lemma ClearRowOverlapFreeExactly(row: seq<Assignment>)
    requires RowTest(row) == Clear
    ensures OverlapFree(row) <==> NoneMissed(row)
  {
    RowTestExactly(row);
    hide IntersectsInMutualBounds, Meet, Missed, RowTest;
    forall i, j | 0 <= j < i < |row|
      ensures !Meet(PWire(row[i]), PWire(row[j])) <==> !Missed(PWire(row[i]), PWire(row[j]))
      ensures !Meet(NWire(row[i]), NWire(row[j])) <==> !Missed(NWire(row[i]), NWire(row[j]))
    {
      assert PairTest(row[i], row[j]) == Clear;
      ClearMeansApartExactly(PWire(row[i]), PWire(row[j]));
      ClearMeansApartExactly(NWire(row[i]), NWire(row[j]));
    }
  }

  /** Every wire between these memories and gates runs to the right, or every one to the left. */
  ghost predicate OneSided(rules: Rules, memories: seq<Flop>, gates: seq<GateContact>) {
    || (forall m, g | m in memories && g in gates :: m.qi <= g.x + rules.maxOffset && m.q <= g.x + rules.maxOffset - rules.met2Pitch)
    || (forall m, g | m in memories && g in gates :: m.qi >= g.x + rules.maxOffset && m.q >= g.x + rules.maxOffset - rules.met2Pitch)
  }

  /** Which can be seen before gates are assigned: then nothing is missed. */
  lemma OneSidedMissesNothing(rules: Rules, memories: seq<Flop>, gates: seq<GateContact>, row: seq<Assignment>)
    requires OneSided(rules, memories, gates) && IsServed(rules, memories, row)
    requires forall i | 0 <= i < |row| :: row[i].gate in gates
    ensures OverlapFree(row)
  {
    hide RowTest;
    forall i, j | 0 <= j < i < |row|
      ensures !Missed(PWire(row[i]), PWire(row[j])) && !Missed(NWire(row[i]), NWire(row[j]))
    {
      assert memories[i] in memories && memories[j] in memories;
      assert Leads(rules, memories[i], row[i]) && Leads(rules, memories[j], row[j]);
    }
    ClearRowOverlapFreeExactly(row);
  }

  // ---- rows in an order -----------------------------------------------------------------------------

  ghost predicate RowsExist(rows: seq<seq<Flop>>, order: seq<nat>) {
    forall k | 0 <= k < |order| :: order[k] < |rows|
  }

  function MemoryCount(rows: seq<seq<Flop>>, order: seq<nat>): nat
    requires RowsExist(rows, order)
  {
    if order == [] then 0 else MemoryCount(rows, order[..|order| - 1]) + |rows[order[|order| - 1]]|
  }

  // What trying an order of rows comes to: assignments for all rows and the
  // gates left over, a row with a conflict, or the end of the program.
  datatype Attempt = Found(all: seq<seq<Assignment>>, rest: seq<GateContact>) | Blocked | Aborted

  /** Rows take gates in an order, up to the first that has a conflict. */
  ghost function Greedy(rules: Rules, rows: seq<seq<Flop>>, gates: seq<GateContact>, order: seq<nat>): (o: Attempt)
    requires RowsExist(rows, order) && MemoryCount(rows, order) <= |gates|
    ensures o.Found? ==> |o.all| == |rows| && |o.rest| == |gates| - MemoryCount(rows, order)
    decreases |order|
  {
    if order == [] then Found(seq(|rows|, _ => []), gates)
    else
      var r, before := order[|order| - 1], Greedy(rules, rows, gates, order[..|order| - 1]);
      if !before.Found? then before
      else
        var row := RowAssignment(rules, rows[r], before.rest);
        match RowTest(row.assignments)
        case Clear => Found(before.all[r := row.assignments], row.rest)
        case Crossing => Blocked
        case Fatal => Aborted
  }

  lemma {:induction false} PrefixCount(rows: seq<seq<Flop>>, order: seq<nat>, n: nat)
    requires RowsExist(rows, order) && n <= |order|
    ensures RowsExist(rows, order[..n]) && MemoryCount(rows, order[..n]) <= MemoryCount(rows, order)
  {
    if n < |order| {
      assert order[..|order| - 1][..n] == order[..n];
      PrefixCount(rows, order[..|order| - 1], n);
    } else {
      assert order[..n] == order;
    }
  }

  lemma {:induction false} PrefixFails(rules: Rules, rows: seq<seq<Flop>>, gates: seq<GateContact>, order: seq<nat>, n: nat)
    requires RowsExist(rows, order) && n <= |order| && MemoryCount(rows, order) <= |gates|
    requires RowsExist(rows, order[..n]) && MemoryCount(rows, order[..n]) <= |gates|
    requires !Greedy(rules, rows, gates, order[..n]).Found?
    ensures Greedy(rules, rows, gates, order) == Greedy(rules, rows, gates, order[..n])
  {
    if n < |order| {
      assert order[..|order| - 1][..n] == order[..n];
      PrefixFails(rules, rows, gates, order[..|order| - 1], n);
    } else {
      assert order[..n] == order;
    }
  }

  /** The gates for one order of rows, up to the first row that is not clear. */
  method CheckPermutation(rules: Rules, rows: seq<seq<Flop>>, gates: seq<GateContact>, order: seq<nat>)
    returns (result: Attempt)
    requires RowsExist(rows, order) && MemoryCount(rows, order) <= |gates| && DistinctNumbers(gates)
    ensures result == Greedy(rules, rows, gates, order)
  {
    hide DistinctNumbers, RowTest, RowAssignment;
    var all: seq<seq<Assignment>> := seq(|rows|, _ => []);
    var rest := gates;
    for i := 0 to |order|
      invariant RowsExist(rows, order[..i]) && MemoryCount(rows, order[..i]) <= |gates|
      invariant Greedy(rules, rows, gates, order[..i]) == Found(all, rest) && DistinctNumbers(rest)
    {
      PrefixCount(rows, order, i + 1);
      assert order[..i + 1][..i] == order[..i];
      var row;
      row, rest := AssignRow(rules, rows[order[i]], rest);
      var test := CheckRow(row);
      if test != Clear {
        PrefixFails(rules, rows, gates, order, i + 1);
        return if test == Crossing then Blocked else Aborted;
      }
      all := all[order[i] := row];
    }
    assert order[..|order|] == order;
    return Found(all, rest);
  }

  // ---- what an assignment is worth --------------------------------------------------------------------

  /** The gates that the first n rows use. */
  function GatesOfRows(all: seq<seq<Assignment>>, n: nat): seq<GateContact>
    requires n <= |all|
  {
    if n == 0 then [] else GatesOfRows(all, n - 1) + GatesUsed(all[n - 1])
  }

  function AllGates(all: seq<seq<Assignment>>): seq<GateContact> {
    GatesOfRows(all, |all|)
  }

  /** Wires from the QI port for PMOS and the Q port for NMOS, to vertical wires one pitch apart beside the gate. */
  predicate Leads(rules: Rules, memory: Flop, a: Assignment) {
    && a.pGate == memory.qi && a.pVertical == a.gate.x + rules.maxOffset
    && a.nGate == memory.q && a.nVertical == a.gate.x + rules.maxOffset - rules.met2Pitch
  }

  /** The memories of a row are served one gate each, without conflict. */
  ghost predicate IsServed(rules: Rules, memories: seq<Flop>, row: seq<Assignment>) {
    && |row| == |memories| && RowTest(row) == Clear
    && forall i | 0 <= i < |row| :: Leads(rules, memories[i], row[i])
  }

  /** Every row is served, no gate twice, and the other gates are left over. */
  ghost predicate IsAssignment(
      rules: Rules, rows: seq<seq<Flop>>, gates: seq<GateContact>, all: seq<seq<Assignment>>, rest: seq<GateContact>)
  {
    && |all| == |rows| && (forall r | 0 <= r < |rows| :: IsServed(rules, rows[r], all[r]))
    && multiset(AllGates(all)) + multiset(rest) == multiset(gates)
    && DistinctNumbers(AllGates(all)) && DistinctNumbers(rest)
    && forall g, h | g in AllGates(all) && h in rest :: g.number != h.number
  }

  lemma NoGatesUsed()
    ensures GatesUsed([]) == []
  {
  }

  lemma LastRowGates(all: seq<seq<Assignment>>, n: nat)
    requires 0 < n <= |all|
    ensures multiset(GatesOfRows(all, n)) == multiset(GatesOfRows(all, n - 1)) + multiset(GatesUsed(all[n - 1]))
  {
  }

  lemma AddedLater(a: multiset<GateContact>, b: multiset<GateContact>, c: multiset<GateContact>)
    ensures (a + b) + c == (a + c) + b
  {
  }

  lemma NoneAdded(a: multiset<GateContact>, used: seq<GateContact>)
    requires used == []
    ensures a + multiset(used) == a
  {
  }

  lemma {:induction false} EarlierRowsKeepGates(all: seq<seq<Assignment>>, r: nat, row: seq<Assignment>, n: nat)
    requires n <= r < |all|
    ensures GatesOfRows(all[r := row], n) == GatesOfRows(all, n)
  {
    if n > 0 {
      EarlierRowsKeepGates(all, r, row, n - 1);
    }
  }

  lemma {:induction false} GatesUpdated(all: seq<seq<Assignment>>, r: nat, row: seq<Assignment>, n: nat)
    requires r < n <= |all| && GatesUsed(all[r]) == []
    ensures multiset(GatesOfRows(all[r := row], n)) == multiset(GatesOfRows(all, n)) + multiset(GatesUsed(row))
  {
    LastRowGates(all, n);
    LastRowGates(all[r := row], n);
    hide GatesUsed, GatesOfRows;
    var before := multiset(GatesOfRows(all, n - 1));
    if r == n - 1 {
      EarlierRowsKeepGates(all, r, row, n - 1);
      NoneAdded(before, GatesUsed(all[r]));
    } else {
      assert all[r := row][n - 1] == all[n - 1];
      GatesUpdated(all, r, row, n - 1);
      AddedLater(before, multiset(GatesUsed(row)), multiset(GatesUsed(all[n - 1])));
    }
  }

  lemma {:induction false} NoGates(all: seq<seq<Assignment>>, n: nat)
    requires n <= |all| && forall r | 0 <= r < n :: all[r] == []
    ensures GatesOfRows(all, n) == []
  {
    if n > 0 {
      NoGates(all, n - 1);
    }
  }

  lemma RowIsServed(rules: Rules, memories: seq<Flop>, gates: seq<GateContact>)
    requires |memories| <= |gates| && RowTest(RowAssignment(rules, memories, gates).assignments) == Clear
    ensures IsServed(rules, memories, RowAssignment(rules, memories, gates).assignments)
  {
    hide RowAssignment, AssignmentOf, RowTest;
    forall i | 0 <= i < |memories| ensures Leads(rules, memories[i], RowAssignment(rules, memories, gates).assignments[i]) {
      RowServesMemories(rules, memories, gates, i);
    }
  }

  /** The rows that have had their turn are served; the others have nothing yet. */
  lemma {:induction false} GreedyServes(rules: Rules, rows: seq<seq<Flop>>, gates: seq<GateContact>, order: seq<nat>, r: nat)
    requires RowsExist(rows, order) && MemoryCount(rows, order) <= |gates| && NoDuplicates(order) && r < |rows|
    requires Greedy(rules, rows, gates, order).Found?
    ensures var all := Greedy(rules, rows, gates, order).all;
            if r in order then IsServed(rules, rows[r], all[r]) else all[r] == []
    decreases |order|
  {
    hide RowAssignment, RowTest, IsServed;
    if order != [] {
      var front, last := order[..|order| - 1], order[|order| - 1];
      GreedyServes(rules, rows, gates, front, r);
      assert order == front + [last];
      if r == last {
        RowIsServed(rules, rows[r], Greedy(rules, rows, gates, front).rest);
      }
    }
  }

  lemma {:induction false} GreedyConserves(rules: Rules, rows: seq<seq<Flop>>, gates: seq<GateContact>, order: seq<nat>)
    requires RowsExist(rows, order) && MemoryCount(rows, order) <= |gates| && NoDuplicates(order)
    requires Greedy(rules, rows, gates, order).Found?
    ensures var o := Greedy(rules, rows, gates, order);
            multiset(AllGates(o.all)) + multiset(o.rest) == multiset(gates)
    decreases |order|
  {
    hide GatesOfRows, RowAssignment, RowTest, IsServed;
    if order == [] {
      NoGates(seq(|rows|, _ => []), |rows|);
    } else {
      var front, last := order[..|order| - 1], order[|order| - 1];
      GreedyConserves(rules, rows, gates, front);
      var before := Greedy(rules, rows, gates, front);
      GreedyServes(rules, rows, gates, front, last);
      RowConservesGates(rules, rows[last], before.rest);
      NoGatesUsed();
      GatesUpdated(before.all, last, RowAssignment(rules, rows[last], before.rest).assignments, |rows|);
    }
  }

  function Identity(n: nat): (order: seq<nat>)
    ensures |order| == n && forall k | 0 <= k < n :: order[k] == k
  {
    seq(n, k => k)
  }

  lemma {:induction false} IdentityCounts(n: nat, r: nat)
    ensures multiset(Identity(n))[r] == if r < n then 1 else 0
  {
    if n > 0 {
      IdentityCounts(n - 1, r);
      assert Identity(n) == Identity(n - 1) + [n - 1];
    }
  }

  lemma OrderOfRows(n: nat, order: seq<nat>)
    requires ArePermutations(Identity(n), order)
    ensures |order| == n && NoDuplicates(order)
    ensures forall k | 0 <= k < |order| :: order[k] < n
    ensures forall r | 0 <= r < n :: r in order
  {
    SameLength(Identity(n), order);
    forall j, k | 0 <= j < k < |order| ensures order[j] != order[k] {
      if order[j] == order[k] {
        TwiceInSequence(order, j, k);
        IdentityCounts(n, order[j]);
        assert false;
      }
    }
    forall k | 0 <= k < |order| ensures order[k] < n {
      IdentityCounts(n, order[k]);
      assert order[k] in multiset(order);
    }
    forall r | 0 <= r < n ensures r in order {
      IdentityCounts(n, r);
      assert r in multiset(order);
    }
  }

  lemma GreedyIsAssignment(rules: Rules, rows: seq<seq<Flop>>, gates: seq<GateContact>, order: seq<nat>)
    requires RowsExist(rows, order) && MemoryCount(rows, order) <= |gates| && DistinctNumbers(gates)
    requires ArePermutations(Identity(|rows|), order) && Greedy(rules, rows, gates, order).Found?
    ensures var o := Greedy(rules, rows, gates, order); IsAssignment(rules, rows, gates, o.all, o.rest)
  {
    hide Greedy, AllGates, IsServed, DistinctNumbers, ArePermutations, NoDuplicates;
    OrderOfRows(|rows|, order);
    var o := Greedy(rules, rows, gates, order);
    forall r | 0 <= r < |rows| ensures IsServed(rules, rows[r], o.all[r]) {
      GreedyServes(rules, rows, gates, order, r);
    }
    GreedyConserves(rules, rows, gates, order);
    RestStaysDistinct(AllGates(o.all), o.rest, gates);
  }

  // ---- which gates are taken ------------------------------------------------------------------------

  /** A gate that memory `i` of the `p`-th row to choose could have had: it was left over, or taken later. */
  ghost predicate WasThere(
      order: seq<nat>, all: seq<seq<Assignment>>, rest: seq<GateContact>, p: nat, i: nat, gate: GateContact)
    requires p < |order| && forall k | 0 <= k < |order| :: order[k] < |all|
  {
    || gate in rest
    || (exists j | i < j < |all[order[p]]| :: all[order[p]][j].gate == gate)
    || (exists q, j | p < q < |order| && 0 <= j < |all[order[q]]| :: all[order[q]][j].gate == gate)
  }

  /** Each memory has a gate that is no farther from its ports than any it could have had, but for rounding. */
  ghost predicate TakesNearest(rows: seq<seq<Flop>>, order: seq<nat>, all: seq<seq<Assignment>>, rest: seq<GateContact>) {
    && |all| == |rows| && RowsExist(rows, order)
    && (forall p | 0 <= p < |order| :: |all[order[p]]| == |rows[order[p]]|)
    && forall p, i, gate | 0 <= p < |order| && 0 <= i < |rows[order[p]]| && WasThere(order, all, rest, p, i, gate) ::
         PortOffset(rows[order[p]][i], all[order[p]][i].gate) <=
         PortOffset(rows[order[p]][i], gate) + Rounding(rows[order[p]][i])
  }

  /** What the row that chooses last takes and leaves was there before it. */
  lemma LastRowTakes(rules: Rules, memories: seq<Flop>, gates: seq<GateContact>, gate: GateContact)
    requires |memories| <= |gates|
    requires
      var r := RowAssignment(rules, memories, gates);
      gate in r.rest || exists j | 0 <= j < |r.assignments| :: r.assignments[j].gate == gate
    ensures gate in gates
  {
    hide RowAssignment;
    var r := RowAssignment(rules, memories, gates);
    RowConservesGates(rules, memories, gates);
    if gate !in r.rest {
      var j :| 0 <= j < |r.assignments| && r.assignments[j].gate == gate;
      assert GatesUsed(r.assignments)[j] == gate;
    }
    assert gate in multiset(GatesUsed(r.assignments)) + multiset(r.rest);
  }

  lemma WasThereBefore(
      rules: Rules, rows: seq<seq<Flop>>, front: seq<nat>, last: nat, all: seq<seq<Assignment>>, rest: seq<GateContact>,
      p: nat, i: nat, gate: GateContact)
    requires RowsExist(rows, front) && last < |rows| == |all| && |rows[last]| <= |rest|
    requires NoDuplicates(front + [last]) && p < |front|
    requires
      var row := RowAssignment(rules, rows[last], rest);
      WasThere(front + [last], all[last := row.assignments], row.rest, p, i, gate)
    ensures WasThere(front, all, rest, p, i, gate)
  {
    hide RowAssignment;
    var order := front + [last];
    var row := RowAssignment(rules, rows[last], rest);
    var after: seq<seq<Assignment>> := all[last := row.assignments];
    assert forall k | 0 <= k < |front| :: order[k] == front[k] && order[k] != order[|front|] == last;
    if gate !in row.rest && !exists j | i < j < |after[order[p]]| :: after[order[p]][j].gate == gate {
      var q, j :| p < q < |order| && 0 <= j < |after[order[q]]| && after[order[q]][j].gate == gate;
      if q == |front| {
        LastRowTakes(rules, rows[last], rest, gate);
      } else {
        assert all[front[q]][j].gate == gate;
      }
    } else if gate in row.rest {
      LastRowTakes(rules, rows[last], rest, gate);
    }
  }

  lemma {:induction false} GreedyTakesNearestAt(
      rules: Rules, rows: seq<seq<Flop>>, gates: seq<GateContact>, order: seq<nat>, p: nat, i: nat, gate: GateContact)
    requires RowsExist(rows, order) && MemoryCount(rows, order) <= |gates| && NoDuplicates(order)
    requires Greedy(rules, rows, gates, order).Found? && p < |order| && i < |rows[order[p]]|
    requires
      var o := Greedy(rules, rows, gates, order);
      |o.all[order[p]]| == |rows[order[p]]| && WasThere(order, o.all, o.rest, p, i, gate)
    ensures
      PortOffset(rows[order[p]][i], Greedy(rules, rows, gates, order).all[order[p]][i].gate) <=
      PortOffset(rows[order[p]][i], gate) + Rounding(rows[order[p]][i])
    decreases |order|
  {
    hide RowAssignment, RowTest, PortOffset, Rounding;
    var front, last := order[..|order| - 1], order[|order| - 1];
    assert order == front + [last];
    var before := Greedy(rules, rows, gates, front);
    var row := RowAssignment(rules, rows[last], before.rest);
    if p == |front| {
      assert IsTakenLater(row, i, gate);
      RowTakesNearest(rules, rows[last], before.rest, i, gate);
    } else {
      WasThereBefore(rules, rows, front, last, before.all, before.rest, p, i, gate);
      hide WasThere;
      GreedyTakesNearestAt(rules, rows, gates, front, p, i, gate);
    }
  }

  lemma GreedyTakesNearest(rules: Rules, rows: seq<seq<Flop>>, gates: seq<GateContact>, order: seq<nat>)
    requires RowsExist(rows, order) && MemoryCount(rows, order) <= |gates| && NoDuplicates(order)
    requires Greedy(rules, rows, gates, order).Found?
    ensures var o := Greedy(rules, rows, gates, order); TakesNearest(rows, order, o.all, o.rest)
  {
    hide Greedy, PortOffset, Rounding, WasThere, NoDuplicates;
    var o := Greedy(rules, rows, gates, order);
    forall p | 0 <= p < |order| ensures |o.all[order[p]]| == |rows[order[p]]| {
      GreedyServes(rules, rows, gates, order, order[p]);
    }
    forall p, i, gate | 0 <= p < |order| && 0 <= i < |rows[order[p]]| && WasThere(order, o.all, o.rest, p, i, gate)
      ensures PortOffset(rows[order[p]][i], o.all[order[p]][i].gate) <=
              PortOffset(rows[order[p]][i], gate) + Rounding(rows[order[p]][i])
    {
      GreedyTakesNearestAt(rules, rows, gates, order, p, i, gate);
    }
  }

  // ---- the same memories in any order ---------------------------------------------------------------

  lemma {:induction false} CountOfParts(rows: seq<seq<Flop>>, a: seq<nat>, b: seq<nat>)
    requires RowsExist(rows, a) && RowsExist(rows, b)
    ensures RowsExist(rows, a + b) && MemoryCount(rows, a + b) == MemoryCount(rows, a) + MemoryCount(rows, b)
  {
    if b == [] {
      assert a + b == a;
    } else {
      CountOfParts(rows, a, b[..|b| - 1]);
      assert (a + b)[..|a + b| - 1] == a + b[..|b| - 1];
    }
  }

  lemma CountWithout(rows: seq<seq<Flop>>, order: seq<nat>, k: nat) returns (rest: seq<nat>)
    requires RowsExist(rows, order) && k < |order|
    ensures rest == order[..k] + order[k + 1..] && RowsExist(rows, rest)
    ensures multiset(order) == multiset{order[k]} + multiset(rest)
    ensures MemoryCount(rows, order) == MemoryCount(rows, rest) + |rows[order[k]]|
  {
    rest := order[..k] + order[k + 1..];
    assert order == order[..k] + ([order[k]] + order[k + 1..]);
    CountOfParts(rows, order[..k], order[k + 1..]);
    CountOfParts(rows, [order[k]], order[k + 1..]);
    CountOfParts(rows, order[..k], [order[k]] + order[k + 1..]);
    assert MemoryCount(rows, [order[k]]) == |rows[order[k]]| by {
      assert [order[k]][..0] == [];
    }
  }

  lemma {:induction false} CountIsOrderless(rows: seq<seq<Flop>>, a: seq<nat>, b: seq<nat>)
    requires RowsExist(rows, a) && multiset(a) == multiset(b)
    ensures RowsExist(rows, b) && MemoryCount(rows, a) == MemoryCount(rows, b)
    decreases |a|
  {
    forall k | 0 <= k < |b| ensures b[k] < |rows| {
      assert b[k] in multiset(b);
    }
    SameLength(a, b);
    if a != [] {
      assert a[0] in multiset(a);
      var k :| 0 <= k < |b| && b[k] == a[0];
      var restA := CountWithout(rows, a, 0);
      var restB := CountWithout(rows, b, k);
      assert multiset(restA) == multiset(a) - multiset{a[0]};
      assert multiset(restB) == multiset(b) - multiset{a[0]};
      CountIsOrderless(rows, restA, restB);
    }
  }

  // ---- the search -----------------------------------------------------------------------------------

  lemma {:induction false} LessIsAsymmetric(a: seq<nat>, b: seq<nat>)
    requires Less(a, b)
    ensures !Less(b, a) && a != b
    decreases |a|
  {
    if a[0] == b[0] {
      LessIsAsymmetric(a[1..], b[1..]);
    }
  }

  lemma {:induction false} LessIsTotal(a: seq<nat>, b: seq<nat>)
    requires |a| == |b|
    ensures a == b || Less(a, b) || Less(b, a)
  {
    if a != [] && a[0] == b[0] {
      LessIsTotal(a[1..], b[1..]);
      assert a == [a[0]] + a[1..] && b == [b[0]] + b[1..];
    }
  }

  /** With its rows taken in this order, some row has a conflict. */
  ghost predicate Fails(rules: Rules, rows: seq<seq<Flop>>, gates: seq<GateContact>, order: seq<nat>) {
    && RowsExist(rows, order) && MemoryCount(rows, order) <= |gates|
    && Greedy(rules, rows, gates, order).Blocked?
  }

  /** All orders up to one have failed. */
  ghost predicate FailsBefore(rules: Rules, rows: seq<seq<Flop>>, gates: seq<GateContact>, order: seq<nat>) {
    forall c | ArePermutations(Identity(|rows|), c) && Less(c, order) :: Fails(rules, rows, gates, c)
  }

  lemma IdentityIsFirst(n: nat, c: seq<nat>)
    requires ArePermutations(Identity(n), c)
    ensures !Less(c, Identity(n))
  {
    AscendingIsLeast(Identity(n), c);
    if Less(Identity(n), c) {
      LessIsAsymmetric(Identity(n), c);
    } else if Less(c, c) {
      LessIsAsymmetric(c, c);
    }
  }

  lemma NothingBeforeIdentity(rules: Rules, rows: seq<seq<Flop>>, gates: seq<GateContact>)
    ensures FailsBefore(rules, rows, gates, Identity(|rows|))
  {
    hide Fails, Less;
    forall c | ArePermutations(Identity(|rows|), c) ensures !Less(c, Identity(|rows|)) {
      IdentityIsFirst(|rows|, c);
    }
  }

  lemma NextFailsBefore(rules: Rules, rows: seq<seq<Flop>>, gates: seq<GateContact>, order: seq<nat>, next: seq<nat>)
    requires FailsBefore(rules, rows, gates, order) && Fails(rules, rows, gates, order)
    requires ArePermutations(Identity(|rows|), order)
    requires forall c | ArePermutations(order, c) && Less(order, c) :: c == next || Less(next, c)
    ensures FailsBefore(rules, rows, gates, next)
  {
    hide Fails, Less;
    forall c | ArePermutations(Identity(|rows|), c) && Less(c, next) ensures Fails(rules, rows, gates, c) {
      SameLength(order, c);
      LessIsTotal(c, order);
      if Less(order, c) {
        assert ArePermutations(order, c);
        LessIsAsymmetric(c, next);
        assert false;
      }
    }
  }

  lemma AllFail(rules: Rules, rows: seq<seq<Flop>>, gates: seq<GateContact>, order: seq<nat>)
    requires FailsBefore(rules, rows, gates, order) && Fails(rules, rows, gates, order)
    requires ArePermutations(Identity(|rows|), order)
    requires forall c | ArePermutations(order, c) :: !Less(order, c)
    ensures forall c | ArePermutations(Identity(|rows|), c) :: Fails(rules, rows, gates, c)
  {
    hide Fails, Less;
    forall c | ArePermutations(Identity(|rows|), c) ensures Fails(rules, rows, gates, c) {
      SameLength(order, c);
      LessIsTotal(c, order);
      assert ArePermutations(order, c);
    }
  }

  /** The order is one of the rows and the outcome is its own, after all orders before it failed. */
  ghost predicate IsOutcome(rules: Rules, rows: seq<seq<Flop>>, gates: seq<GateContact>, order: seq<nat>, result: Attempt) {
    && ArePermutations(Identity(|rows|), order) && RowsExist(rows, order) && MemoryCount(rows, order) <= |gates|
    && Greedy(rules, rows, gates, order) == result && FailsBefore(rules, rows, gates, order)
  }

  /**
   * Tries the orders of rows until one has no conflict. What is found serves
   * every memory with one gate of its own; nothing is found only if every
   * order has a conflict.
   */
  method TryOrders(rules: Rules, rows: seq<seq<Flop>>, gates: seq<GateContact>)
    returns (result: Attempt, ghost order: seq<nat>)
    requires DistinctNumbers(gates)
    requires RowsExist(rows, Identity(|rows|)) && MemoryCount(rows, Identity(|rows|)) <= |gates|
    ensures result.Found? ==> IsAssignment(rules, rows, gates, result.all, result.rest)
    ensures result.Found? ==> TakesNearest(rows, order, result.all, result.rest)
    ensures IsOutcome(rules, rows, gates, order, result)
    ensures result.Blocked? ==> forall c | ArePermutations(Identity(|rows|), c) :: Fails(rules, rows, gates, c)
  {
    hide DistinctNumbers, Less, Greedy, FailsBefore, IsAssignment, TakesNearest, ArePermutations, MemoryCount;
    var n := |rows|;
    var rowOrder := Identity(n);
    SelfPermutation(rowOrder);
    NothingBeforeIdentity(rules, rows, gates);
    while true
      invariant ArePermutations(Identity(n), rowOrder) && FailsBefore(rules, rows, gates, rowOrder)
      decreases Power(n, n) - Rank(rowOrder, n)
    {
      PermutedCount(rows, rowOrder);
      OrderOfRows(n, rowOrder);
      result := CheckPermutation(rules, rows, gates, rowOrder);
      order := rowOrder;
      if result.Found? {
        GreedyIsAssignment(rules, rows, gates, rowOrder);
        GreedyTakesNearest(rules, rows, gates, rowOrder);
        return;
      } else if result.Aborted? {
        return;
      }
      var next, more := NextPermutation(rowOrder);
      if !more {
        AllFail(rules, rows, gates, rowOrder);
        return;
      }
      NextFailsBefore(rules, rows, gates, rowOrder, next);
      StillPermutation(rowOrder, next, n);
      OrderOfRows(n, next);
      LessRanksLower(rowOrder, next, n);
      RankIsBounded(next, n);
      rowOrder := next;
    }
  }

  lemma SelfPermutation(order: seq<nat>)
    ensures ArePermutations(order, order)
  {
  }

  lemma StillPermutation(order: seq<nat>, next: seq<nat>, n: nat)
    requires ArePermutations(Identity(n), order) && ArePermutations(order, next)
    ensures ArePermutations(Identity(n), next)
  {
  }

  lemma PermutedCount(rows: seq<seq<Flop>>, order: seq<nat>)
    requires ArePermutations(Identity(|rows|), order) && RowsExist(rows, Identity(|rows|))
    ensures RowsExist(rows, order) && MemoryCount(rows, order) == MemoryCount(rows, Identity(|rows|))
  {
    CountIsOrderless(rows, Identity(|rows|), order);
  }

  // ---- rows of memories -------------------------------------------------------------------------------

  ghost predicate SortedByOutput(row: seq<Flop>) {
    forall j, k | 0 <= j < k < |row| :: row[j].q <= row[k].q
  }

  lemma InsertedSorted(sorted: seq<Flop>, j: nat, flop: Flop)
    requires SortedByOutput(sorted) && j <= |sorted|
    requires (j > 0 ==> sorted[j - 1].q <= flop.q) && forall k | j <= k < |sorted| :: sorted[k].q > flop.q
    ensures SortedByOutput(sorted[..j] + [flop] + sorted[j..])
  {
    var after := sorted[..j] + [flop] + sorted[j..];
    forall k | 0 <= k < |after| ensures after[k] == if k < j then sorted[k] else if k == j then flop else sorted[k - 1] {}
  }

  lemma InsertedMembers(sorted: seq<Flop>, j: nat, flop: Flop)
    requires j <= |sorted|
    ensures multiset(sorted[..j] + [flop] + sorted[j..]) == multiset(sorted) + multiset{flop}
  {
    assert sorted == sorted[..j] + sorted[j..];
  }

  /** Memories of a row from left to right. */
  method SortByOutput(row: seq<Flop>) returns (sorted: seq<Flop>)
    ensures SortedByOutput(sorted) && multiset(sorted) == multiset(row)
  {
    hide SortedByOutput;
    EmptyIsSorted();
    sorted := [];
    for i := 0 to |row|
      invariant SortedByOutput(sorted) && multiset(sorted) == multiset(row[..i])
    {
      var j := |sorted|;
      while j > 0 && sorted[j - 1].q > row[i].q
        invariant 0 <= j <= |sorted| && forall k | j <= k < |sorted| :: sorted[k].q > row[i].q
      {
        j := j - 1;
      }
      InsertedSorted(sorted, j, row[i]);
      InsertedMembers(sorted, j, row[i]);
      assert row[..i + 1] == row[..i] + [row[i]];
      sorted := sorted[..j] + [row[i]] + sorted[j..];
    }
    assert row[..|row|] == row;
  }

  lemma EmptyIsSorted()
    ensures SortedByOutput([])
  {
  }

  /** The memories of a row: a stretch of the scan order, which may run out. */
  function RowOf(scan: seq<Flop>, columns: nat, r: nat): seq<Flop> {
    var from := columns * r;
    if from >= |scan| then [] else scan[from..if from + columns <= |scan| then from + columns else |scan|]
  }

  ghost predicate AreRows(scan: seq<Flop>, columns: nat, rows: seq<seq<Flop>>) {
    forall r | 0 <= r < |rows| :: SortedByOutput(rows[r]) && multiset(rows[r]) == multiset(RowOf(scan, columns, r))
  }

  method CollectRow(scan: seq<Flop>, columns: nat, r: nat) returns (row: seq<Flop>)
    ensures row == RowOf(scan, columns, r)
  {
    row := [];
    var from := columns * r;
    for i := 0 to columns
      invariant from + i <= |scan| || i == 0
      invariant row == if from >= |scan| then [] else scan[from..from + i]
    {
      var c := from + i;
      if c >= |scan| {
        break;
      }
      row := row + [scan[c]];
    }
  }

  /** Rows hold no memory twice, so there are no more in them than in the scan order. */
  lemma {:induction false} RowsWithinScan(scan: seq<Flop>, columns: nat, rows: seq<seq<Flop>>, n: nat)
    requires n <= |rows| && AreRows(scan, columns, rows)
    ensures RowsExist(rows, Identity(n))
    ensures MemoryCount(rows, Identity(n)) == if columns * n <= |scan| then columns * n else |scan|
  {
    if n > 0 {
      RowsWithinScan(scan, columns, rows, n - 1);
      assert Identity(n)[..n - 1] == Identity(n - 1);
      assert columns * n == columns * (n - 1) + columns;
      var last := RowOf(scan, columns, n - 1);
      assert |multiset(rows[n - 1])| == |rows[n - 1]| && |multiset(last)| == |last|;
    }
  }

  /**
   * The gates of the memories of one side, row by row. Given at least as many
   * distinctly numbered gates as memories, each memory gets one gate of its
   * own and no row has a conflict, unless every order of rows has one. The
   * program does not end if gates are in different places.
   */
  method FindGateAssignment(rules: Rules, scan: seq<Flop>, numRows: nat, numColumns: nat, gates: seq<GateContact>)
    returns (rows: seq<seq<Flop>>, result: Attempt, rest: seq<GateContact>, ghost order: seq<nat>)
    requires DistinctNumbers(gates) && |scan| <= |gates|
    ensures |rows| == numRows && AreRows(scan, numColumns, rows)
    ensures IsOutcome(rules, rows, gates, order, result)
    ensures result.Found? ==> IsAssignment(rules, rows, gates, result.all, rest)
    ensures result.Found? ==> TakesNearest(rows, order, result.all, rest)
    ensures result.Blocked? ==>
              rest == gates && forall c | ArePermutations(Identity(numRows), c) :: Fails(rules, rows, gates, c)
    ensures DistinctPlaces(gates) ==> !result.Aborted?
  {
    hide DistinctNumbers, SortedByOutput, IsAssignment, TakesNearest, ArePermutations, Greedy, FailsBefore;
    rows := [];
    for r := 0 to numRows
      invariant |rows| == r && AreRows(scan, numColumns, rows)
    {
      var row := CollectRow(scan, numColumns, r);
      row := SortByOutput(row);
      rows := rows + [row];
    }
    RowsWithinScan(scan, numColumns, rows, numRows);
    hide AreRows, MemoryCount, DistinctPlaces;
    result, order := TryOrders(rules, rows, gates);
    rest := if result.Found? then result.rest else gates;
    if DistinctPlaces(gates) {
      OrderOfRows(numRows, order);
      DistinctPlacesNeverAbort(rules, rows, gates, order);
    }
  }

  // ---- when the program goes on ---------------------------------------------------------------------

  /** Different gates are in different places. */
  ghost predicate DistinctPlaces(gates: seq<GateContact>) {
    forall g, h | g in gates && h in gates && g.number != h.number :: g.x != h.x
  }

  /** Only a pair whose wires are points at one place ends the program: its gates are in one place. */
  lemma FatalPair(rules: Rules, m: Flop, n: Flop, g: GateContact, h: GateContact)
    requires PairTest(AssignmentOf(rules, m, g), AssignmentOf(rules, n, h)) == Fatal
    ensures g.x == h.x
  {
    var a, b := AssignmentOf(rules, m, g), AssignmentOf(rules, n, h);
    ReportsExactly(PWire(a), PWire(b));
    ReportsExactly(NWire(a), NWire(b));
    hide IntersectsInMutualBounds;
  }

  lemma RowNeverAborts(rules: Rules, memories: seq<Flop>, gates: seq<GateContact>)
    requires |memories| <= |gates| && DistinctNumbers(gates) && DistinctPlaces(gates)
    ensures RowTest(RowAssignment(rules, memories, gates).assignments) != Fatal
  {
    hide RowAssignment, RowTest, AssignmentOf, PairTest, DistinctPlaces;
    var row := RowAssignment(rules, memories, gates).assignments;
    RowTestExactly(row);
    if RowTest(row) == Fatal {
      var k, m :| 0 <= m < k < |row| && PairTest(row[k], row[m]) == Fatal;
      RowServesMemories(rules, memories, gates, k);
      RowServesMemories(rules, memories, gates, m);
      FatalPair(rules, memories[k], memories[m], row[k].gate, row[m].gate);
      RowGatesDiffer(rules, memories, gates, m, k);
      assert false;
    }
  }

  lemma RowGatesDiffer(rules: Rules, memories: seq<Flop>, gates: seq<GateContact>, j: nat, k: nat)
    requires |memories| <= |gates| && DistinctNumbers(gates) && DistinctPlaces(gates) && j < k < |memories|
    ensures var row := RowAssignment(rules, memories, gates).assignments; row[j].gate.x != row[k].gate.x
  {
    hide RowAssignment;
    var r := RowAssignment(rules, memories, gates);
    var used := GatesUsed(r.assignments);
    RowConservesGates(rules, memories, gates);
    RestStaysDistinct(used, r.rest, gates);
    UsedIsGiven(used, r.rest, gates, used[j]);
    UsedIsGiven(used, r.rest, gates, used[k]);
    assert used[j].number != used[k].number;
  }

  lemma UsedIsGiven(used: seq<GateContact>, rest: seq<GateContact>, gates: seq<GateContact>, g: GateContact)
    requires multiset(used) + multiset(rest) == multiset(gates)
    ensures g in used || g in rest ==> g in gates
  {
    if g in used || g in rest {
      assert g in multiset(used) + multiset(rest);
    }
  }

  lemma RestStaysPlaced(used: seq<GateContact>, rest: seq<GateContact>, gates: seq<GateContact>)
    requires multiset(used) + multiset(rest) == multiset(gates) && DistinctPlaces(gates)
    ensures DistinctPlaces(rest)
  {
    forall g | g in rest ensures g in gates {
      UsedIsGiven(used, rest, gates, g);
    }
  }

  lemma {:induction false} DistinctPlacesNeverAbort(rules: Rules, rows: seq<seq<Flop>>, gates: seq<GateContact>, order: seq<nat>)
    requires RowsExist(rows, order) && MemoryCount(rows, order) <= |gates| && NoDuplicates(order)
    requires DistinctNumbers(gates) && DistinctPlaces(gates)
    ensures !Greedy(rules, rows, gates, order).Aborted?
    decreases |order|
  {
    hide DistinctPlaces, DistinctNumbers, RowTest, RowAssignment, AllGates;
    if order != [] {
      var front, last := order[..|order| - 1], order[|order| - 1];
      DistinctPlacesNeverAbort(rules, rows, gates, front);
      var before := Greedy(rules, rows, gates, front);
      if before.Found? {
        GreedyConserves(rules, rows, gates, front);
        RestStaysDistinct(AllGates(before.all), before.rest, gates);
        RestStaysPlaced(AllGates(before.all), before.rest, gates);
        RowNeverAborts(rules, rows[last], before.rest);
      }
    }
  }

  // ---- what an assignment may still hold ----------------------------------------------------------------

  /** Wires of found assignments do not overlap if and only if the test has missed none. */
  lemma FoundOverlapFreeExactly(
      rules: Rules, rows: seq<seq<Flop>>, gates: seq<GateContact>, all: seq<seq<Assignment>>, rest: seq<GateContact>)
    requires IsAssignment(rules, rows, gates, all, rest)
    ensures (forall r | 0 <= r < |all| :: OverlapFree(all[r])) <==> (forall r | 0 <= r < |all| :: NoneMissed(all[r]))
  {
    hide OverlapFree, NoneMissed, RowTest, AllGates, DistinctNumbers;
    forall r | 0 <= r < |all| ensures OverlapFree(all[r]) <==> NoneMissed(all[r]) {
      assert IsServed(rules, rows[r], all[r]);
      ClearRowOverlapFreeExactly(all[r]);
    }
  }

  const CLOSE_GATES := [GateContact(0, 0), GateContact(1, 1)]
  const CLOSE_MEMORIES := [Flop(0, 0, 2), Flop(1, 20, 22)]

  lemma CloseRow()
    ensures RowAssignment(Rules(5, 1), CLOSE_MEMORIES, CLOSE_GATES) ==
            RowResult([Assignment(GateContact(1, 1), 6, 2, 5, 0), Assignment(GateContact(0, 0), 5, 22, 4, 20)], [])
  {
    var rules := Rules(5, 1);
    var first := CLOSE_MEMORIES[..1];
    assert first[..0] == [] && CLOSE_MEMORIES[..1] == first && first[0] == Flop(0, 0, 2);
    var k := Nearest(CLOSE_GATES, 1);
    assert k == 1;
    assert Removed(CLOSE_GATES, 1) == [GateContact(0, 0)];
    assert RowAssignment(rules, first, CLOSE_GATES) ==
           RowResult([Assignment(GateContact(1, 1), 6, 2, 5, 0)], [GateContact(0, 0)]);
    assert Removed([GateContact(0, 0)], 0) == [];
  }

  /**
   * Two memories whose wires to the two gates overlap, PMOS on [5, 6] and NMOS
   * on [4, 5]; the wires run oppositely and the search takes them as clear.
   */
  lemma OverlapIsMissed()
    ensures
      var result := Greedy(Rules(5, 1), [CLOSE_MEMORIES], CLOSE_GATES, [0]);
      && result.Found? && |result.all| == 1 && |result.all[0]| == 2
      && var a, b := result.all[0][0], result.all[0][1];
         Meet(Wire(a.pGate, a.pVertical), Wire(b.pGate, b.pVertical)) && Meet(Wire(a.nGate, a.nVertical), Wire(b.nGate, b.nVertical))
  {
    CloseRow();
    var row := RowAssignment(Rules(5, 1), CLOSE_MEMORIES, CLOSE_GATES).assignments;
    ReportsExactly(PWire(row[1]), PWire(row[0]));
    ReportsExactly(NWire(row[1]), NWire(row[0]));
    hide IntersectsInMutualBounds, RowAssignment;
    assert PairTest(row[1], row[0]) == Clear;
    RowTestExactly(row);
    hide RowTest;
    assert [0][..0] == [];
  }

  function Flattened(rows: seq<seq<Flop>>): seq<Flop> {
    if rows == [] then [] else Flattened(rows[..|rows| - 1]) + rows[|rows| - 1]
  }

  /** How much of the scan order the first rows take in. */
  function Taken(scan: seq<Flop>, columns: nat, n: nat): (r: nat)
    ensures r <= |scan|
  {
    if columns * n <= |scan| then columns * n else |scan|
  }

  lemma NextRowTaken(scan: seq<Flop>, columns: nat, n: nat)
    ensures scan[..Taken(scan, columns, n + 1)] == scan[..Taken(scan, columns, n)] + RowOf(scan, columns, n)
  {
    assert columns * (n + 1) == columns * n + columns;
  }

  /** The rows hold each memory of the part of the scan order they take in once. */
  lemma {:induction false} RowsCoverScan(scan: seq<Flop>, columns: nat, rows: seq<seq<Flop>>, n: nat)
    requires n <= |rows| && AreRows(scan, columns, rows)
    ensures multiset(Flattened(rows[..n])) == multiset(scan[..Taken(scan, columns, n)])
  {
    hide RowOf, Taken, SortedByOutput;
    if n > 0 {
      RowsCoverScan(scan, columns, rows, n - 1);
      assert rows[..n][..n - 1] == rows[..n - 1];
      NextRowTaken(scan, columns, n - 1);
    } else {
      NothingTaken(scan, columns);
    }
  }

  lemma NothingTaken(scan: seq<Flop>, columns: nat)
    ensures Taken(scan, columns, 0) == 0
  {
  }
}
