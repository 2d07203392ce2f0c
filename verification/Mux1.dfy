// The single-output interconnect mux (src/atoms/sky130_interconnect_mux1.cc):
// its transmission gates, its memories, the wires between them, and what the
// finished circuit does.

module InterconnectMux1 {
  import opened Basics
  import opened Names
  import opened Snake
  import opened TransmissionGateStack

  const STACK_OUTPUT := "Z"
  const SCAN_IN := "SCAN_IN"
  const SCAN_OUT := "SCAN_OUT"

  function InputName(i: nat): string {
    "X" + Decimal(i)
  }

  function ControlName(g: nat): string {
    "S" + Decimal(g)
  }

  // ---- net sequences ----------------------------------------------------------------------------

  /** Two inputs share an output node; an odd input is left by itself. */
  function NetSequence(n: nat, p: nat): seq<string>
    requires 2 * p < n
  {
    [InputName(2 * p), ControlName(2 * p), STACK_OUTPUT] +
    if 2 * p + 1 < n then [ControlName(2 * p + 1), InputName(2 * p + 1)] else []
  }

  method BuildNetSequences(n: nat) returns (sequences: seq<seq<string>>)
    ensures |sequences| == (n + 1) / 2
    ensures forall p | 0 <= p < |sequences| :: sequences[p] == NetSequence(n, p)
  {
    hide InputName, ControlName;
    sequences := [];
    var last: seq<string> := [];
    for i := 0 to n
      invariant |sequences| == i / 2
      invariant forall p | 0 <= p < |sequences| :: sequences[p] == NetSequence(n, p)
      invariant last == if i % 2 == 0 then [] else [InputName(i - 1), ControlName(i - 1), STACK_OUTPUT]
    {
      if |last| == 0 {
        last := [InputName(i), ControlName(i), STACK_OUTPUT];
      } else {
        last := last + [ControlName(i), InputName(i)];
        assert last == NetSequence(n, i / 2);
        sequences := sequences + [last];
        last := [];
      }
    }
    if last != [] {
      assert last == NetSequence(n, n / 2);
      sequences := sequences + [last];
    }
  }

  /** Gate `g` lies between input `g` and the output. */
  function MuxGate(g: nat): Gate {
    if g % 2 == 0 then Gate(InputName(g), ControlName(g), STACK_OUTPUT) else Gate(STACK_OUTPUT, ControlName(g), InputName(g))
  }

  lemma {:induction false} MuxStack(n: nat, sequences: seq<seq<string>>, q: nat)
    requires q <= |sequences| == (n + 1) / 2
    requires forall p | 0 <= p < |sequences| :: sequences[p] == NetSequence(n, p)
    ensures Buildable(sequences[..q]) && |StackOf(sequences[..q])| == if 2 * q <= n then 2 * q else n
    ensures forall g | 0 <= g < |StackOf(sequences[..q])| :: StackOf(sequences[..q])[g] == MuxGate(g)
  {
    hide InputName, ControlName;
    if q > 0 {
      MuxStack(n, sequences, q - 1);
      assert sequences[..q][..q - 1] == sequences[..q - 1];
      assert sequences[..q][q - 1] == NetSequence(n, q - 1);
    }
  }

  // ---- names ---------------------------------------------------------------------------------------

  /** The name of a memory in a bank of one column. */
  function FlopName(prefix: string, m: Memory): string {
    prefix + "dfxtp_" + Decimal(m.row) + "_i"
  }

  function QNet(prefix: string, m: Memory): string {
    FlopName(prefix, m) + ".Q"
  }

  function QINet(prefix: string, m: Memory): string {
    FlopName(prefix, m) + ".QI"
  }

  lemma SuffixCancels(a: string, b: string, suffix: string)
    requires a + suffix == b + suffix
    ensures a == b
  {
    assert |a| == |b|;
    assert a == (a + suffix)[..|a|] && b == (b + suffix)[..|a|];
  }

  lemma FlopNamesDistinct(prefix: string, a: Memory, b: Memory)
    requires FlopName(prefix, a) == FlopName(prefix, b)
    ensures a.row == b.row
  {
    hide Decimal;
    var p := prefix + "dfxtp_";
    SuffixCancels(p + Decimal(a.row), p + Decimal(b.row), "_i");
    PrefixedDecimalInjective(p, a.row, b.row);
  }

  /** The nets of memories end in what no other net ends in. */
  lemma FlopNetsDistinct(prefix: string, a: Memory, b: Memory)
    ensures QNet(prefix, a) != QINet(prefix, b)
    ensures QNet(prefix, a) !in {SCAN_IN, SCAN_OUT} && QINet(prefix, a) !in {SCAN_IN, SCAN_OUT}
    ensures QNet(prefix, a) == QNet(prefix, b) ==> a.row == b.row
    ensures QINet(prefix, a) == QINet(prefix, b) ==> a.row == b.row
  {
    var x, y := FlopName(prefix, a), FlopName(prefix, b);
    hide FlopName;
    assert (x + ".Q")[|x| + 1] == 'Q' && (y + ".QI")[|y| + 2] == 'I' && (x + ".QI")[|x| + 2] == 'I';
    assert SCAN_IN[|SCAN_IN| - 1] == 'N' && SCAN_OUT[|SCAN_OUT| - 1] == 'T';
    if QNet(prefix, a) == QNet(prefix, b) {
      SuffixCancels(x, y, ".Q");
      FlopNamesDistinct(prefix, a, b);
    }
    if QINet(prefix, a) == QINet(prefix, b) {
      SuffixCancels(x, y, ".QI");
      FlopNamesDistinct(prefix, a, b);
    }
  }

  /** Controls, their complements, and inputs have different names. */
  lemma StackNamesDistinct(a: nat, b: nat)
    ensures ControlName(a) == ControlName(b) ==> a == b
    ensures Complement(ControlName(a)) == Complement(ControlName(b)) ==> a == b
    ensures ControlName(a) != Complement(ControlName(b))
    ensures InputName(a) == InputName(b) ==> a == b
    ensures InputName(a) != STACK_OUTPUT
    ensures InputName(a) != ControlName(b) && InputName(a) != Complement(ControlName(b))
  {
    var s, t := Decimal(a), Decimal(b);
    assert s[|s| - 1] in s;
    assert ("S" + s)[|s|] == s[|s| - 1];
    assert ("S" + t + "_B")[|t| + 2] == 'B';
    assert ("X" + s)[0] == 'X';
    hide Decimal;
    if ControlName(a) == ControlName(b) {
      PrefixedDecimalInjective("S", a, b);
    }
    if Complement(ControlName(a)) == Complement(ControlName(b)) {
      SuffixCancels(ControlName(a), ControlName(b), "_B");
      PrefixedDecimalInjective("S", a, b);
    }
    if InputName(a) == InputName(b) {
      PrefixedDecimalInjective("X", a, b);
    }
  }

  // ---- the wired circuit -------------------------------------------------------------------------

  datatype Instance = Stack | Flop(memory: Memory)

  datatype Pin = Pin(instance: Instance, port: string)

  type Connections = map<Pin, string>

  function ControlPin(g: nat): Pin {
    Pin(Stack, ControlName(g))
  }

  function ComplementPin(g: nat): Pin {
    Pin(Stack, Complement(ControlName(g)))
  }

  function InputPin(i: nat): Pin {
    Pin(Stack, InputName(i))
  }

  class Wiring {
    var connections: Connections
    var ports: seq<string>

    constructor ()
      ensures connections == map[] && ports == []
    {
      connections, ports := map[], [];
    }

    /** Instance::Connect: a pin that is connected elsewhere is fatal. */
    method Connect(pin: Pin, net: string)
      requires pin in connections ==> connections[pin] == net
      modifies `connections
      ensures connections == old(connections)[pin := net]
    {
      connections := connections[pin := net];
    }

    method AddPort(net: string)
      modifies `ports
      ensures ports == old(ports) + [net]
    {
      ports := ports + [net];
    }
  }

  // A memory wired to a gate, and the net its output drives.
  datatype Assignment = Assignment(gate: nat, memory: Memory, net: string)

  /** The four pins of an assignment, on the nets they belong on. */
  function Wired(c: Connections, prefix: string, a: Assignment): Connections {
    c[ComplementPin(a.gate) := a.net][Pin(Flop(a.memory), "Q") := a.net]
     [ControlPin(a.gate) := QINet(prefix, a.memory)][Pin(Flop(a.memory), "QI") := QINet(prefix, a.memory)]
  }

  function AllWired(c: Connections, prefix: string, assignments: seq<Assignment>): Connections {
    if assignments == [] then c
    else Wired(AllWired(c, prefix, assignments[..|assignments| - 1]), prefix, assignments[|assignments| - 1])
  }

  /** No pin of the assignment is connected. */
  predicate IsUnwired(c: Connections, a: Assignment) {
    && ComplementPin(a.gate) !in c && ControlPin(a.gate) !in c
    && Pin(Flop(a.memory), "Q") !in c && Pin(Flop(a.memory), "QI") !in c
  }

  predicate IsWired(c: Connections, prefix: string, a: Assignment) {
    && ComplementPin(a.gate) in c && c[ComplementPin(a.gate)] == a.net
    && ControlPin(a.gate) in c && c[ControlPin(a.gate)] == QINet(prefix, a.memory)
    && Pin(Flop(a.memory), "Q") in c && c[Pin(Flop(a.memory), "Q")] == a.net
    && Pin(Flop(a.memory), "QI") in c && c[Pin(Flop(a.memory), "QI")] == QINet(prefix, a.memory)
  }

  predicate Apart(a: Assignment, b: Assignment) {
    a.gate != b.gate && a.memory != b.memory
  }

  lemma WiredKeepsOthers(c: Connections, prefix: string, a: Assignment, b: Assignment)
    requires Apart(a, b)
    ensures IsWired(c, prefix, b) ==> IsWired(Wired(c, prefix, a), prefix, b)
    ensures IsUnwired(c, b) ==> IsUnwired(Wired(c, prefix, a), b)
  {
    StackNamesDistinct(a.gate, b.gate);
    StackNamesDistinct(b.gate, a.gate);
    hide ControlName, Complement, QINet;
  }

  lemma WiredIsWired(c: Connections, prefix: string, a: Assignment)
    ensures IsWired(Wired(c, prefix, a), prefix, a)
  {
    StackNamesDistinct(a.gate, a.gate);
    hide ControlName, Complement, QINet;
  }

  lemma {:induction false} AllAreWired(c: Connections, prefix: string, assignments: seq<Assignment>, k: nat)
    requires k < |assignments|
    requires forall i, j | 0 <= i < j < |assignments| :: Apart(assignments[i], assignments[j])
    ensures IsWired(AllWired(c, prefix, assignments), prefix, assignments[k])
  {
    hide Wired, IsWired;
    var n := |assignments| - 1;
    if k == n {
      WiredIsWired(AllWired(c, prefix, assignments[..n]), prefix, assignments[n]);
    } else {
      AllAreWired(c, prefix, assignments[..n], k);
      assert Apart(assignments[k], assignments[n]);
      WiredKeepsOthers(AllWired(c, prefix, assignments[..n]), prefix, assignments[n], assignments[k]);
    }
  }

  lemma {:induction false} OthersStayUnwired(c: Connections, prefix: string, assignments: seq<Assignment>, a: Assignment)
    requires IsUnwired(c, a) && forall i | 0 <= i < |assignments| :: Apart(assignments[i], a)
    ensures IsUnwired(AllWired(c, prefix, assignments), a)
  {
    hide Wired, IsUnwired;
    if assignments != [] {
      var n := |assignments| - 1;
      OthersStayUnwired(c, prefix, assignments[..n], a);
      WiredKeepsOthers(AllWired(c, prefix, assignments[..n]), prefix, assignments[n], a);
    }
  }

  // ---- assigning memories to gates ------------------------------------------------------------------

  /** Bottom memories, counted from the mux, take even gates and top ones odd gates. */
  function AssignedGate(bottom: nat, k: nat): nat {
    if k < bottom then 2 * k else 2 * (k - bottom) + 1
  }

  /** The memory and net of the k-th assignment, with bottom memories first and each side reversed. */
  function AssignmentAt(prefix: string, bottom: seq<Memory>, top: seq<Memory>, k: nat): Assignment
    requires top != [] && k < |bottom| + |top|
  {
    var m := if k < |bottom| then bottom[|bottom| - 1 - k] else top[|top| - 1 - (k - |bottom|)];
    Assignment(AssignedGate(|bottom|, k), m, OutputNet(prefix, top[|top| - 1], m))
  }

  /** The output of the last memory of the chain leaves the cell. */
  function OutputNet(prefix: string, last: Memory, m: Memory): string {
    if m == last then SCAN_OUT else QNet(prefix, m)
  }

  lemma AssignmentsApart(prefix: string, bottom: seq<Memory>, top: seq<Memory>, j: nat, k: nat)
    requires top != [] && NoDuplicates(bottom + top) && j < |bottom| + |top| && k < |bottom| + |top| && j != k
    ensures Apart(AssignmentAt(prefix, bottom, top, j), AssignmentAt(prefix, bottom, top, k))
  {
    hide QNet;
    var s := bottom + top;
    assert forall i | 0 <= i < |bottom| :: s[i] == bottom[i];
    assert forall i | 0 <= i < |top| :: s[|bottom| + i] == top[i];
  }

  function Assignments(prefix: string, bottom: seq<Memory>, top: seq<Memory>, n: nat): (r: seq<Assignment>)
    requires top != [] && n <= |bottom| + |top|
  {
    seq(n, k requires 0 <= k < n => AssignmentAt(prefix, bottom, top, k))
  }

  lemma NextIsUnwired(prefix: string, bottom: seq<Memory>, top: seq<Memory>, c: Connections, k: nat)
    requires top != [] && NoDuplicates(bottom + top) && k < |bottom| + |top|
    requires c == AllWired(map[], prefix, Assignments(prefix, bottom, top, k))
    ensures IsUnwired(c, AssignmentAt(prefix, bottom, top, k))
  {
    hide IsUnwired, Apart, AssignmentAt, NoDuplicates, AllWired;
    var a := AssignmentAt(prefix, bottom, top, k);
    assert IsUnwired(map[], a) by { EmptyIsUnwired(a); }
    forall i | 0 <= i < k ensures Apart(Assignments(prefix, bottom, top, k)[i], a) {
      AssignmentsApart(prefix, bottom, top, i, k);
    }
    OthersStayUnwired(map[], prefix, Assignments(prefix, bottom, top, k), a);
  }

  lemma EmptyIsUnwired(a: Assignment)
    ensures IsUnwired(map[], a)
  {
  }

  lemma NextIsWired(prefix: string, bottom: seq<Memory>, top: seq<Memory>, k: nat)
    requires top != [] && k < |bottom| + |top|
    ensures AllWired(map[], prefix, Assignments(prefix, bottom, top, k + 1)) ==
            Wired(AllWired(map[], prefix, Assignments(prefix, bottom, top, k)), prefix, AssignmentAt(prefix, bottom, top, k))
  {
    hide Wired, AssignmentAt;
    var more := Assignments(prefix, bottom, top, k + 1);
    assert more[..k] == Assignments(prefix, bottom, top, k);
  }

  // ---- drawing the routes ---------------------------------------------------------------------------

  /** Connects one output of a memory to one control of a gate. */
  method ConnectMemoryToControl(
      w: Wiring, prefix: string, memory: Memory, gate: nat, complement: bool, outputs: map<Memory, string>)
    requires memory in outputs
    requires (if complement then ComplementPin(gate) else ControlPin(gate)) !in w.connections
    requires Pin(Flop(memory), if complement then "Q" else "QI") !in w.connections
    modifies w
    ensures w.ports == old(w.ports)
    ensures w.connections ==
            if complement then old(w.connections)[ComplementPin(gate) := outputs[memory]][Pin(Flop(memory),
                "Q") := outputs[memory]]
            else old(w.connections)[ControlPin(gate) := QINet(prefix, memory)][Pin(Flop(memory),
                "QI") := QINet(prefix, memory)]
  {
    hide ControlName, QINet;
    var port := if complement then "Q" else "QI";
    var net := if port == "Q" then outputs[memory] else QINet(prefix, memory);
    w.Connect(if complement then ComplementPin(gate) else ControlPin(gate), net);
    w.Connect(Pin(Flop(memory), port), net);
  }

  method WireGate(w: Wiring, prefix: string, a: Assignment, outputs: map<Memory, string>)
    requires a.memory in outputs && outputs[a.memory] == a.net && IsUnwired(w.connections, a)
    modifies w
    ensures w.ports == old(w.ports) && w.connections == Wired(old(w.connections), prefix, a)
  {
    StackNamesDistinct(a.gate, a.gate);
    hide ControlName, QINet, Complement;
    ConnectMemoryToControl(w, prefix, a.memory, a.gate, true, outputs);
    ConnectMemoryToControl(w, prefix, a.memory, a.gate, false, outputs);
  }

  /** The nets that memory outputs were given. */
  ghost predicate OutputsAre(prefix: string, bottom: seq<Memory>, top: seq<Memory>, outputs: map<Memory, string>, n: nat)
    requires top != [] && n <= |bottom| + |top|
  {
    forall k | 0 <= k < n ::
      var a := AssignmentAt(prefix, bottom, top, k);
      a.memory in outputs && outputs[a.memory] == a.net
  }

  lemma NextOutput(prefix: string, bottom: seq<Memory>, top: seq<Memory>, outputs: map<Memory, string>, k: nat)
    requires top != [] && NoDuplicates(bottom + top) && k < |bottom| + |top|
    requires OutputsAre(prefix, bottom, top, outputs, k)
    ensures var a := AssignmentAt(prefix, bottom, top, k);
            OutputsAre(prefix, bottom, top, outputs[a.memory := a.net], k + 1)
  {
    hide AssignmentAt, NoDuplicates;
    var a := AssignmentAt(prefix, bottom, top, k);
    forall i | 0 <= i < k ensures AssignmentAt(prefix, bottom, top, i).memory != a.memory {
      AssignmentsApart(prefix, bottom, top, i, k);
    }
  }

  lemma NothingWired(prefix: string, bottom: seq<Memory>, top: seq<Memory>)
    requires top != []
    ensures OutputsAre(prefix, bottom, top, map[], 0)
    ensures AllWired(map[], prefix, Assignments(prefix, bottom, top, 0)) == map[]
  {
  }

  lemma BottomIsNotLast(bottom: seq<Memory>, top: seq<Memory>, k: nat)
    requires top != [] && NoDuplicates(bottom + top) && k < |bottom|
    ensures bottom[k] != top[|top| - 1]
  {
    var s := bottom + top;
    assert s[k] == bottom[k] && s[|s| - 1] == top[|top| - 1];
  }

  /** Each gate below the number of memories gets one memory; no connection is made twice. */
  method ConnectMemories(w: Wiring, prefix: string, bottom: seq<Memory>,
      top: seq<Memory>) returns (outputs: map<Memory, string>)
    requires top != [] && NoDuplicates(bottom + top) && w.connections == map[]
    modifies w
    ensures w.ports == old(w.ports)
    ensures w.connections == AllWired(map[], prefix, Assignments(prefix, bottom, top, |bottom| + |top|))
    ensures OutputsAre(prefix, bottom, top, outputs, |bottom| + |top|)
  {
    hide Wired, AllWired, IsUnwired, NoDuplicates, OutputsAre, QNet, Assignments;
    outputs := map[];
    NothingWired(prefix, bottom, top);
    for c := 0 to |bottom|
      invariant w.ports == old(w.ports)
      invariant w.connections == AllWired(map[], prefix, Assignments(prefix, bottom, top, c))
      invariant OutputsAre(prefix, bottom, top, outputs, c)
    {
      var memory := bottom[|bottom| - 1 - c];
      NextIsUnwired(prefix, bottom, top, w.connections, c);
      NextIsWired(prefix, bottom, top, c);
      NextOutput(prefix, bottom, top, outputs, c);
      BottomIsNotLast(bottom, top, |bottom| - 1 - c);
      outputs := outputs[memory := QNet(prefix, memory)];
      WireGate(w, prefix, Assignment(2 * c, memory, outputs[memory]), outputs);
    }
    for c := 0 to |top|
      invariant w.ports == old(w.ports)
      invariant w.connections == AllWired(map[], prefix, Assignments(prefix, bottom, top, |bottom| + c))
      invariant OutputsAre(prefix, bottom, top, outputs, |bottom| + c)
    {
      var memory := top[|top| - 1 - c];
      NextIsUnwired(prefix, bottom, top, w.connections, |bottom| + c);
      NextIsWired(prefix, bottom, top, |bottom| + c);
      NextOutput(prefix, bottom, top, outputs, |bottom| + c);
      var net := if memory == top[|top| - 1] then SCAN_OUT else QNet(prefix, memory);
      outputs := outputs[memory := net];
      WireGate(w, prefix, Assignment(2 * c + 1, memory, outputs[memory]), outputs);
    }
  }

  // ---- the scan chain and the inputs ------------------------------------------------------------------

  function DataPin(m: Memory): Pin {
    Pin(Flop(m), "D")
  }

  /** Only data pins differ, and those of the listed memories only. */
  ghost predicate OnlyDataAdded(before: Connections, after: Connections, scan: seq<Memory>) {
    && (forall p | p in before :: p in after && after[p] == before[p])
    && (forall p | p in after && p !in before :: p.port == "D" && p.instance.Flop? && p.instance.memory in scan)
  }

  lemma NoDataAdded(before: Connections, scan: seq<Memory>)
    ensures OnlyDataAdded(before, before, scan)
  {
  }

  lemma DataAdded(before: Connections, after: Connections, scan: seq<Memory>, k: nat, net: string)
    requires OnlyDataAdded(before, after, scan) && k < |scan| && DataPin(scan[k]) !in after
    ensures OnlyDataAdded(before, after[DataPin(scan[k]) := net], scan)
  {
  }

  /** Each memory's data comes from the output of the one before it; the first from SCAN_IN. */
  method DrawScanChain(w: Wiring, scan: seq<Memory>, outputs: map<Memory, string>)
    requires |scan| > 0 && NoDuplicates(scan)
    requires forall k | 0 <= k < |scan| :: scan[k] in outputs && DataPin(scan[k]) !in w.connections
    modifies w
    ensures w.ports == old(w.ports) + [SCAN_IN, SCAN_OUT]
    ensures OnlyDataAdded(old(w.connections), w.connections, scan)
    ensures DataPin(scan[0]) in w.connections && w.connections[DataPin(scan[0])] == SCAN_IN
    ensures forall k | 0 < k < |scan| ::
              DataPin(scan[k]) in w.connections && w.connections[DataPin(scan[k])] == outputs[scan[k - 1]]
  {
    hide OnlyDataAdded;
    ghost var before := w.connections;
    NoDataAdded(before, scan);
    for k := 0 to |scan| - 1
      invariant w.ports == old(w.ports) && OnlyDataAdded(before, w.connections, scan)
      invariant forall i | 0 < i <= k ::
                  DataPin(scan[i]) in w.connections && w.connections[DataPin(scan[i])] == outputs[scan[i - 1]]
      invariant forall i | 0 <= i < |scan| && (i == 0 || k < i) :: DataPin(scan[i]) !in w.connections
    {
      var memory, next := scan[k], scan[k + 1];
      assert scan[0] != next;
      DataAdded(before, w.connections, scan, k + 1, outputs[memory]);
      w.Connect(DataPin(next), outputs[memory]);
    }
    DataAdded(before, w.connections, scan, 0, SCAN_IN);
    w.Connect(DataPin(scan[0]), SCAN_IN);
    w.AddPort(SCAN_IN);
    w.AddPort(SCAN_OUT);
  }

  function InputNames(n: nat): seq<string> {
    seq(n, i requires 0 <= i < n => InputName(i))
  }

  method DrawInputs(w: Wiring, n: nat)
    requires forall i | 0 <= i < n :: InputPin(i) !in w.connections
    modifies w
    ensures w.ports == old(w.ports) + InputNames(n)
    ensures forall i | 0 <= i < n :: InputPin(i) in w.connections && w.connections[InputPin(i)] == InputName(i)
    ensures forall p | p in old(w.connections) :: p in w.connections && w.connections[p] == old(w.connections)[p]
    ensures forall p | p in w.connections && p.instance.Flop? :: p in old(w.connections)
  {
    hide InputName;
    forall i: nat, j: nat | i != j ensures InputName(i) != InputName(j) {
      StackNamesDistinct(i, j);
    }
    for i := 0 to n
      invariant w.ports == old(w.ports) + InputNames(n)[..i]
      invariant forall k | 0 <= k < i :: InputPin(k) in w.connections && w.connections[InputPin(k)] == InputName(k)
      invariant forall k | i <= k < n :: InputPin(k) !in w.connections
      invariant forall p | p in old(w.connections) :: p in w.connections && w.connections[p] == old(w.connections)[p]
      invariant forall p | p in w.connections && p.instance.Flop? :: p in old(w.connections)
    {
      w.AddPort(InputName(i));
      w.Connect(InputPin(i), InputName(i));
    }
  }

  // ---- the whole mux --------------------------------------------------------------------------------

  /** Where in the scan chain the memory of a gate sits, for n memories. */
  function Position(n: nat, g: nat): nat
    requires g < n
  {
    if g % 2 == 0 then n - n / 2 - 1 - g / 2 else n - 1 - g / 2
  }

  /** The gate of the memory at a place in the scan chain. */
  function GateOf(n: nat, k: nat): nat
    requires k < n
  {
    if k < n - n / 2 then 2 * (n - n / 2 - 1 - k) else 2 * (n - 1 - k) + 1
  }

  /** Each gate has exactly one memory, and each memory one gate. */
  lemma OneMemoryPerGate(n: nat)
    ensures forall g | 0 <= g < n :: Position(n, g) < n && GateOf(n, Position(n, g)) == g
    ensures forall k | 0 <= k < n :: GateOf(n, k) < n && Position(n, GateOf(n, k)) == k
  {
  }

  function ScanNet(prefix: string, scan: seq<Memory>, k: nat): string
    requires k < |scan|
  {
    OutputNet(prefix, scan[|scan| - 1], scan[k])
  }

  ghost predicate IsMuxStack(n: nat, gates: seq<Gate>) {
    |gates| == n && forall g | 0 <= g < n :: gates[g] == MuxGate(g)
  }

  /** The pins of the memory at a place in the scan chain. */
  predicate IsInChain(n: nat, prefix: string, scan: seq<Memory>, c: Connections, k: nat)
    requires k < |scan| == n
  {
    && IsWired(c, prefix, Assignment(GateOf(n, k), scan[k], ScanNet(prefix, scan, k)))
    && DataPin(scan[k]) in c && c[DataPin(scan[k])] == if k == 0 then SCAN_IN else ScanNet(prefix, scan, k - 1)
  }

  /** The wires around gates and memories: controls, scan chain and inputs. */
  ghost predicate IsMuxWiring(n: nat, prefix: string, scan: seq<Memory>, c: Connections) {
    && |scan| == n && NoDuplicates(scan) && (forall k | 0 <= k < n :: scan[k].column == 0)
    && (forall k | 0 <= k < n :: IsInChain(n, prefix, scan, c, k))
    && (forall i | 0 <= i < n :: InputPin(i) in c && c[InputPin(i)] == InputName(i))
  }

  lemma AssignmentOf(prefix: string, bottom: seq<Memory>, top: seq<Memory>, n: nat, k: nat) returns (i: nat)
    requires |top| == n / 2 > 0 && |bottom| == n - n / 2 && k < n
    ensures i < n && AssignmentAt(prefix, bottom, top, i) ==
                     Assignment(GateOf(n, k), (bottom + top)[k], ScanNet(prefix, bottom + top, k))
  {
    hide QNet;
    i := if k < |bottom| then |bottom| - 1 - k else |bottom| + (n - 1 - k);
    assert (bottom + top)[n - 1] == top[|top| - 1];
  }

  lemma WiringIsComplete(prefix: string, bottom: seq<Memory>, top: seq<Memory>, n: nat, k: nat)
    requires |top| == n / 2 > 0 && |bottom| == n - n / 2 && k < n && NoDuplicates(bottom + top)
    ensures IsWired(AllWired(map[], prefix, Assignments(prefix, bottom, top, n)), prefix,
                    Assignment(GateOf(n, k), (bottom + top)[k], ScanNet(prefix, bottom + top, k)))
  {
    hide AssignmentAt, NoDuplicates, Apart, IsWired, AllWired, ScanNet, GateOf;
    var all := Assignments(prefix, bottom, top, n);
    forall i, j | 0 <= i < j < n ensures Apart(all[i], all[j]) {
      AssignmentsApart(prefix, bottom, top, i, j);
    }
    var i := AssignmentOf(prefix, bottom, top, n, k);
    AllAreWired(map[], prefix, all, i);
  }

  lemma OutputOf(prefix: string, bottom: seq<Memory>, top: seq<Memory>, outputs: map<Memory, string>, n: nat, k: nat)
    requires |top| == n / 2 > 0 && |bottom| == n - n / 2 && k < n && OutputsAre(prefix, bottom, top, outputs, n)
    ensures (bottom + top)[k] in outputs && outputs[(bottom + top)[k]] == ScanNet(prefix, bottom + top, k)
  {
    hide AssignmentAt, ScanNet;
    var i := AssignmentOf(prefix, bottom, top, n, k);
  }

  /** Controls only: neither data pins nor inputs are connected yet. */
  lemma {:induction false} OnlyControlsWired(prefix: string, assignments: seq<Assignment>)
    ensures forall m :: DataPin(m) !in AllWired(map[], prefix, assignments)
    ensures forall i :: InputPin(i) !in AllWired(map[], prefix, assignments)
  {
    hide ControlName, InputName, Complement, QINet;
    if assignments != [] {
      var a := assignments[|assignments| - 1];
      OnlyControlsWired(prefix, assignments[..|assignments| - 1]);
      forall i: nat ensures InputName(i) != ControlName(a.gate) && InputName(i) != Complement(ControlName(a.gate)) {
        StackNamesDistinct(i, a.gate);
      }
    }
  }

  lemma KeepsWired(before: Connections, after: Connections, prefix: string, a: Assignment)
    requires forall p | p in before :: p in after && after[p] == before[p]
    requires IsWired(before, prefix, a)
    ensures IsWired(after, prefix, a)
  {
  }

  /** The row of the gates lies between the rows of memories, in scan order one memory per row. */
  ghost predicate AreRowsOfMux(n: nat, scan: seq<Memory>) {
    |scan| == n && forall k | 0 <= k < n :: scan[k] == Memory(if k < n - n / 2 then k else k + 1, 0)
  }

  lemma SidesAreRows(n: nat, bottom: seq<Memory>, top: seq<Memory>)
    requires IsSnake(0, n - n / 2, 1, bottom) && IsSnake(n - n / 2 + 1, n / 2, 1, top)
    ensures |bottom| == n - n / 2 && |top| == n / 2 && AreRowsOfMux(n, bottom + top)
  {
    forall k | 0 <= k < n ensures (bottom + top)[k] == Memory(if k < n - n / 2 then k else k + 1, 0) {
      hide IsSnake;
      if k < n - n / 2 {
        SnakeOfOneColumn(0, n - n / 2, bottom, k);
      } else {
        SnakeOfOneColumn(n - n / 2 + 1, n / 2, top, k - (n - n / 2));
      }
    }
  }

  lemma RowsAreDistinct(n: nat, scan: seq<Memory>)
    requires AreRowsOfMux(n, scan)
    ensures NoDuplicates(scan) && forall k | 0 <= k < n :: scan[k].column == 0
  {
  }

  method BuildStack(n: nat) returns (gates: seq<Gate>)
    ensures IsMuxStack(n, gates)
  {
    var sequences := BuildNetSequences(n);
    MuxStack(n, sequences, |sequences|);
    assert sequences[..|sequences|] == sequences;
    hide StackOf, MuxGate;
    gates := Build(sequences);
  }

  /** The wires of the finished mux; no pin is ever connected twice. */
  method DrawRoutes(w: Wiring, n: nat, prefix: string, bottom: seq<Memory>, top: seq<Memory>)
    requires |top| == n / 2 > 0 && |bottom| == n - n / 2 && NoDuplicates(bottom + top)
    requires forall k | 0 <= k < n :: (bottom + top)[k].column == 0
    requires w.connections == map[]
    modifies w
    ensures IsMuxWiring(n, prefix, bottom + top, w.connections)
    ensures w.ports == old(w.ports) + [SCAN_IN, SCAN_OUT] + InputNames(n)
  {
    hide AllWired, OutputsAre, NoDuplicates, IsWired, ScanNet, GateOf, InputNames, InputName, Assignments;
    var scan := bottom + top;
    var outputs := ConnectMemories(w, prefix, bottom, top);
    OnlyControlsWired(prefix, Assignments(prefix, bottom, top, n));
    ghost var controls := w.connections;
    forall k | 0 <= k < n ensures scan[k] in outputs && outputs[scan[k]] == ScanNet(prefix, scan, k) {
      OutputOf(prefix, bottom, top, outputs, n, k);
    }
    DrawScanChain(w, scan, outputs);
    ghost var chained := w.connections;
    DrawInputs(w, n);
    forall k | 0 <= k < n ensures IsInChain(n, prefix, scan, w.connections, k) {
      WiringIsComplete(prefix, bottom, top, n, k);
      KeepsWired(controls, w.connections, prefix, Assignment(GateOf(n, k), scan[k], ScanNet(prefix, scan, k)));
      assert DataPin(scan[k]) in chained;
    }
  }

  // ---- where memories lie -----------------------------------------------------------------------------

  /**
   * The memory that controls gate `g`. Even gates take the bottom rows from
   * the gates downwards, odd gates the top rows from the top downwards.
   */
  function ControllingMemory(n: nat, g: nat): Memory
    requires g < n
  {
    Memory(if g % 2 == 0 then n - n / 2 - (g / 2 + 1) else n - n / 2 + (n / 2 - g / 2), 0)
  }

  /** The net a memory drives: the one that leaves the mux, for the topmost memory. */
  function DrivenNet(n: nat, prefix: string, row: nat): string {
    if row == n then "SCAN_OUT" else prefix + "dfxtp_" + Decimal(row) + "_i.Q"
  }

  predicate IsOn(c: Connections, pin: Pin, net: string) {
    pin in c && c[pin] == net
  }

  /** Gate `g` is controlled by the two outputs of its memory. */
  predicate IsControlled(n: nat, prefix: string, c: Connections, g: nat)
    requires g < n
  {
    var m := ControllingMemory(n, g);
    && IsOn(c, Pin(Stack, "S" + Decimal(g) + "_B"), DrivenNet(n, prefix, m.row))
    && IsOn(c, Pin(Flop(m), "Q"), DrivenNet(n, prefix, m.row))
    && IsOn(c, Pin(Stack, "S" + Decimal(g)), prefix + "dfxtp_" + Decimal(m.row) + "_i.QI")
    && IsOn(c, Pin(Flop(m), "QI"), prefix + "dfxtp_" + Decimal(m.row) + "_i.QI")
  }

  /** The scan chain runs upwards from row to row, past the row of the gates. */
  predicate IsChained(n: nat, prefix: string, c: Connections, row: nat)
    requires n > 1
  {
    IsOn(c, Pin(Flop(Memory(row, 0)), "D"),
         if row == 0 then "SCAN_IN"
         else if row == n - n / 2 + 1 then DrivenNet(n, prefix, row - 2)
         else DrivenNet(n, prefix, row - 1))
  }

  /** Everything that is wired, by rows. */
  ghost predicate IsWiredByRows(n: nat, prefix: string, c: Connections)
    requires n > 1
  {
    && (forall g | 0 <= g < n :: IsControlled(n, prefix, c, g))
    && (forall row | 0 <= row <= n && row != n - n / 2 :: IsChained(n, prefix, c, row))
    && (forall i | 0 <= i < n :: IsOn(c, Pin(Stack, "X" + Decimal(i)), "X" + Decimal(i)))
  }

  lemma FlopNets(prefix: string, row: nat)
    ensures QNet(prefix, Memory(row, 0)) == prefix + "dfxtp_" + Decimal(row) + "_i.Q"
    ensures QINet(prefix, Memory(row, 0)) == prefix + "dfxtp_" + Decimal(row) + "_i.QI"
  {
    hide Decimal;
    var name := prefix + "dfxtp_" + Decimal(row);
    assert name + "_i" + ".Q" == name + "_i.Q" && name + "_i" + ".QI" == name + "_i.QI";
  }

  lemma ScanNetOf(n: nat, prefix: string, scan: seq<Memory>, k: nat)
    requires AreRowsOfMux(n, scan) && k < n && n > 1
    ensures ScanNet(prefix, scan, k) == DrivenNet(n, prefix, scan[k].row)
  {
    hide QNet, Decimal;
    FlopNets(prefix, scan[k].row);
  }

  /** The place of a gate's memory, and its row. */
  lemma PositionIsRow(n: nat, g: nat)
    requires g < n
    ensures var k := Position(n, g); k < n && ControllingMemory(n, g) == Memory(if k < n - n / 2 then k else k + 1, 0)
  {
  }

  lemma GateIsControlled(n: nat, prefix: string, scan: seq<Memory>, c: Connections, g: nat)
    requires n > 1 && AreRowsOfMux(n, scan) && IsMuxWiring(n, prefix, scan, c) && g < n
    ensures IsControlled(n, prefix, c, g)
  {
    hide ScanNet, QINet, Decimal, DrivenNet, NoDuplicates, ControllingMemory;
    PositionIsRow(n, g);
    OneMemoryPerGate(n);
    var k := Position(n, g);
    assert GateOf(n, k) == g;
    assert IsInChain(n, prefix, scan, c, k);
    hide GateOf, Position;
    ScanNetOf(n, prefix, scan, k);
    FlopNets(prefix, scan[k].row);
  }

  lemma RowIsChained(n: nat, prefix: string, scan: seq<Memory>, c: Connections, row: nat)
    requires n > 1 && AreRowsOfMux(n, scan) && IsMuxWiring(n, prefix, scan, c) && row <= n && row != n - n / 2
    ensures IsChained(n, prefix, c, row)
  {
    hide ScanNet, QINet, Decimal, DrivenNet, NoDuplicates, IsWired;
    var k := if row < n - n / 2 then row else row - 1;
    assert scan[k] == Memory(row, 0);
    assert IsInChain(n, prefix, scan, c, k);
    if k > 0 {
      ScanNetOf(n, prefix, scan, k - 1);
    }
  }

  /** So wiring in scan order is wiring by rows. */
  lemma WiringByRows(n: nat, prefix: string, scan: seq<Memory>, c: Connections)
    requires n > 1 && AreRowsOfMux(n, scan) && IsMuxWiring(n, prefix, scan, c)
    ensures IsWiredByRows(n, prefix, c)
  {
    forall g | 0 <= g < n ensures IsControlled(n, prefix, c, g) {
      GateIsControlled(n, prefix, scan, c, g);
    }
    forall row | 0 <= row <= n && row != n - n / 2 ensures IsChained(n, prefix, c, row) {
      RowIsChained(n, prefix, scan, c, row);
    }
    hide IsControlled, IsChained, IsInChain, AreRowsOfMux, NoDuplicates, Decimal;
    forall i | 0 <= i < n ensures IsOn(c, Pin(Stack, "X" + Decimal(i)), "X" + Decimal(i)) {
      assert InputPin(i) in c;
    }
  }

  /**
   * The single-output mux for n inputs: gates, memories in scan order, and
   * the wires. With fewer than three inputs the bottom side is too small.
   */
  method Generate(n: nat, prefix: string, insideOut: bool) returns (w: Wiring, gates: seq<Gate>, scan: seq<Memory>)
    requires n >= 3
    ensures fresh(w) && IsMuxStack(n, gates) && IsMuxWiring(n, prefix, scan, w.connections)
    ensures AreRowsOfMux(n, scan) && IsWiredByRows(n, prefix, w.connections)
    ensures w.ports == [SCAN_IN, SCAN_OUT] + InputNames(n)
  {
    hide IsMuxStack, IsMuxWiring, IsSnake, NoDuplicates, AreRowsOfMux, IsWiredByRows;
    gates := BuildStack(n);
    var rowsTop := n / 2;
    var rowsBottom := n - rowsTop;
    var bottom := AddMemoriesVertically(0, rowsBottom, 1, insideOut);
    var top := AddMemoriesVertically(rowsBottom + 1, rowsTop, 1, insideOut);
    SidesAreRows(n, bottom, top);
    RowsAreDistinct(n, bottom + top);
    w := new Wiring();
    DrawRoutes(w, n, prefix, bottom, top);
    scan := bottom + top;
    WiringByRows(n, prefix, scan, w.connections);
  }
}
