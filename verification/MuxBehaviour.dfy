// What the generated single-output mux does: its memories form a shift
// register, and each stored bit decides whether one input reaches the output
// (src/atoms/sky130_interconnect_mux1.cc).

module MuxBehaviour {
  import opened Basics
  import opened InterconnectMux1
  import opened Snake
  import opened TransmissionGateStack

  // What can drive a net: the scan input, or an output of the k-th memory.
  datatype Driver = ScanInput | Output(k: nat) | Inverted(k: nat)

  // A mux with what its memories hold, in scan order.
  datatype Mux = Mux(n: nat, prefix: string, gates: seq<Gate>, scan: seq<Memory>, wires: Connections)

  ghost predicate IsMux(m: Mux) {
    m.n >= 3 && IsMuxStack(m.n, m.gates) && IsMuxWiring(m.n, m.prefix, m.scan, m.wires)
  }

  predicate IsDriver(m: Mux, d: Driver) {
    d.ScanInput? || d.k < m.n
  }

  function DriverPin(m: Mux, d: Driver): Pin
    requires !d.ScanInput? && d.k < |m.scan|
  {
    Pin(Flop(m.scan[d.k]), if d.Output? then "Q" else "QI")
  }

  /** The net a driver is connected to. */
  ghost function DriverNet(m: Mux, d: Driver): string
    requires IsMux(m) && IsDriver(m, d)
  {
    if d.ScanInput? then SCAN_IN
    else
      DriverPinIsWired(m, d);
      m.wires[DriverPin(m, d)]
  }

  lemma DriverPinIsWired(m: Mux, d: Driver)
    requires IsMux(m) && IsDriver(m, d) && !d.ScanInput?
    ensures DriverPin(m, d) in m.wires
    ensures m.wires[DriverPin(m, d)] == if d.Output? then ScanNet(m.prefix, m.scan, d.k) else QINet(m.prefix, m.scan[d.k])
  {
    hide QINet, ScanNet, GateOf, ControlName;
    assert IsInChain(m.n, m.prefix, m.scan, m.wires, d.k);
  }

  /** Each memory also drives the inverse of what it stores. */
  predicate Value(m: Mux, state: seq<bool>, scanIn: bool, d: Driver)
    requires |state| == m.n && IsDriver(m, d)
  {
    match d
    case ScanInput => scanIn
    case Output(k) => state[k]
    case Inverted(k) => !state[k]
  }

  /** A net is high when a driver drives it high. */
  ghost predicate High(m: Mux, state: seq<bool>, scanIn: bool, net: string)
    requires IsMux(m) && |state| == m.n
  {
    exists d | IsDriver(m, d) :: DriverNet(m, d) == net && Value(m, state, scanIn, d)
  }

  lemma MemoriesInDifferentRows(m: Mux, j: nat, k: nat)
    requires IsMux(m) && j < m.n && k < m.n && j != k
    ensures m.scan[j].row != m.scan[k].row
  {
    assert m.scan[if j < k then j else k] != m.scan[if j < k then k else j];
    assert m.scan[j].column == m.scan[k].column == 0;
  }

  /** No net has two drivers. */
  lemma OneDriver(m: Mux, d: Driver, e: Driver)
    requires IsMux(m) && IsDriver(m, d) && IsDriver(m, e) && DriverNet(m, d) == DriverNet(m, e)
    ensures d == e
  {
    hide IsMuxWiring, IsMuxStack, QNet, QINet, NoDuplicates;
    ScanLength(m);
    if !d.ScanInput? {
      DriverPinIsWired(m, d);
      FlopNetsDistinct(m.prefix, m.scan[d.k], m.scan[d.k]);
    }
    if !e.ScanInput? {
      DriverPinIsWired(m, e);
      FlopNetsDistinct(m.prefix, m.scan[e.k], m.scan[e.k]);
    }
    if !d.ScanInput? && !e.ScanInput? {
      FlopNetsDistinct(m.prefix, m.scan[d.k], m.scan[e.k]);
      FlopNetsDistinct(m.prefix, m.scan[e.k], m.scan[d.k]);
      if d.k != e.k {
        MemoriesInDifferentRows(m, d.k, e.k);
      }
    }
  }

  lemma ScanLength(m: Mux)
    requires IsMux(m)
    ensures |m.scan| == |m.gates| == m.n
  {
  }

  /** So a net carries the value of its driver. */
  lemma NetCarriesDriver(m: Mux, state: seq<bool>, scanIn: bool, d: Driver)
    requires IsMux(m) && |state| == m.n && IsDriver(m, d)
    ensures High(m, state, scanIn, DriverNet(m, d)) <==> Value(m, state, scanIn, d)
  {
    hide IsMux, DriverNet;
    if High(m, state, scanIn, DriverNet(m, d)) {
      var e :| IsDriver(m, e) && DriverNet(m, e) == DriverNet(m, d) && Value(m, state, scanIn, e);
      OneDriver(m, d, e);
    }
  }

  // ---- the scan chain is a shift register ---------------------------------------------------------

  lemma DataPinIsWired(m: Mux, k: nat)
    requires IsMux(m) && k < m.n
    ensures k < |m.scan| && DataPin(m.scan[k]) in m.wires
    ensures m.wires[DataPin(m.scan[k])] == DriverNet(m, if k == 0 then ScanInput else Output(k - 1))
  {
    hide QINet, ScanNet, GateOf, ControlName;
    assert IsInChain(m.n, m.prefix, m.scan, m.wires, k);
    if k > 0 {
      DriverPinIsWired(m, Output(k - 1));
    }
  }

  /** On a clock edge each memory takes the value at its data pin. */
  ghost function Tick(m: Mux, state: seq<bool>, scanIn: bool): (next: seq<bool>)
    requires IsMux(m) && |state| == m.n
    ensures |next| == m.n
  {
    seq(m.n, k requires 0 <= k < m.n =>
      DataPinIsWired(m, k);
      High(m, state, scanIn, m.wires[DataPin(m.scan[k])]))
  }

  lemma TickShifts(m: Mux, state: seq<bool>, scanIn: bool)
    requires IsMux(m) && |state| == m.n
    ensures Tick(m, state, scanIn) == [scanIn] + state[..m.n - 1]
  {
    var next := Tick(m, state, scanIn);
    forall k | 0 <= k < m.n ensures next[k] == ([scanIn] + state[..m.n - 1])[k] {
      hide IsMux, High, DriverNet;
      DataPinIsWired(m, k);
      NetCarriesDriver(m, state, scanIn, if k == 0 then ScanInput else Output(k - 1));
    }
  }

  ghost function Shifted(m: Mux, state: seq<bool>, bits: seq<bool>): (next: seq<bool>)
    requires IsMux(m) && |state| == m.n
    ensures |next| == m.n
  {
    if bits == [] then state else Tick(m, Shifted(m, state, bits[..|bits| - 1]), bits[|bits| - 1])
  }

  /** Every memory's bit moves one place down the chain with each tick. */
  lemma {:induction false} ShiftedBits(m: Mux, state: seq<bool>, bits: seq<bool>, k: nat)
    requires IsMux(m) && |state| == m.n && k < m.n
    ensures Shifted(m, state, bits)[k] == if k < |bits| then bits[|bits| - 1 - k] else state[k - |bits|]
  {
    if bits != [] {
      hide IsMux, Tick;
      var before := bits[..|bits| - 1];
      TickShifts(m, Shifted(m, state, before), bits[|bits| - 1]);
      if k > 0 {
        ShiftedBits(m, state, before, k - 1);
      }
    }
  }

  // ---- what the gates connect -----------------------------------------------------------------------

  lemma GatePinsAreWired(m: Mux, g: nat)
    requires IsMux(m) && g < m.n
    ensures g < |m.gates| && Position(m.n, g) < m.n
    ensures ControlPin(g) in m.wires && ComplementPin(g) in m.wires
    ensures m.wires[ControlPin(g)] == DriverNet(m, Inverted(Position(m.n, g)))
    ensures m.wires[ComplementPin(g)] == DriverNet(m, Output(Position(m.n, g)))
  {
    hide QINet, ScanNet, ControlName, Complement;
    OneMemoryPerGate(m.n);
    var k := Position(m.n, g);
    assert GateOf(m.n, k) == g;
    hide Position, GateOf;
    assert IsInChain(m.n, m.prefix, m.scan, m.wires, k);
    DriverPinIsWired(m, Inverted(k));
    DriverPinIsWired(m, Output(k));
  }

  /** A gate connects its sides when its NMOS or its PMOS transistor conducts. */
  ghost function Conducting(m: Mux, state: seq<bool>, scanIn: bool): (on: seq<bool>)
    requires IsMux(m) && |state| == m.n
    ensures |on| == m.n
  {
    seq(m.n, g requires 0 <= g < m.n =>
      GatePinsAreWired(m, g);
      High(m, state, scanIn, m.wires[ControlPin(g)]) || !High(m, state, scanIn, m.wires[ComplementPin(g)]))
  }

  /** The transistors of a gate agree; a stored 0 turns both on. */
  lemma GateConducts(m: Mux, state: seq<bool>, scanIn: bool, g: nat)
    requires IsMux(m) && |state| == m.n && g < m.n
    ensures Position(m.n, g) < m.n
    ensures Conducting(m, state, scanIn)[g] <==> !state[Position(m.n, g)]
  {
    var on := Conducting(m, state, scanIn);
    hide IsMux, High, DriverNet, Position;
    GatePinsAreWired(m, g);
    var k := Position(m.n, g);
    NetCarriesDriver(m, state, scanIn, Output(k));
    NetCarriesDriver(m, state, scanIn, Inverted(k));
  }

  lemma InputBridge(m: Mux, on: seq<bool>, g: nat, c: string)
    requires IsMux(m) && |on| == m.n && g < m.n
    ensures Bridged(m.gates, on, InputName(g), c) || Bridged(m.gates, on, c, InputName(g)) ==> on[g] && c == STACK_OUTPUT
    ensures on[g] ==> Bridged(m.gates, on, InputName(g), STACK_OUTPUT) && Bridged(m.gates, on, STACK_OUTPUT, InputName(g))
  {
    hide InputName, ControlName, IsMuxWiring;
    assert forall h | 0 <= h < m.n :: m.gates[h] == MuxGate(h);
    StackNamesDistinct(g, g);
    forall h: nat | InputName(h) == InputName(g) ensures h == g {
      StackNamesDistinct(g, h);
    }
    if on[g] {
      assert m.gates[g] == MuxGate(g);
    }
  }

  /** Input g reaches the output exactly when gate g conducts. */
  lemma InputReachesOutput(m: Mux, on: seq<bool>, g: nat)
    requires IsMux(m) && |on| == m.n && g < m.n
    ensures Joined(m.gates, on, InputName(g), STACK_OUTPUT) <==> on[g]
    ensures Joined(m.gates, on, STACK_OUTPUT, InputName(g)) <==> on[g]
  {
    StackNamesDistinct(g, g);
    hide IsMux, Bridged, Path, InputName;
    InputBridge(m, on, g, STACK_OUTPUT);
    if on[g] {
      BridgeJoins(m.gates, on, InputName(g), STACK_OUTPUT);
      BridgeJoins(m.gates, on, STACK_OUTPUT, InputName(g));
    }
    if Joined(m.gates, on, InputName(g), STACK_OUTPUT) {
      var p :| Path(m.gates, on, InputName(g), STACK_OUTPUT, p);
      EndsAreBridged(m.gates, on, InputName(g), STACK_OUTPUT, p);
      var c :| Bridged(m.gates, on, InputName(g), c);
      InputBridge(m, on, g, c);
    }
    if Joined(m.gates, on, STACK_OUTPUT, InputName(g)) {
      var p :| Path(m.gates, on, STACK_OUTPUT, InputName(g), p);
      EndsAreBridged(m.gates, on, STACK_OUTPUT, InputName(g), p);
      var c :| Bridged(m.gates, on, c, InputName(g));
      InputBridge(m, on, g, c);
    }
  }

  /** Two inputs are shorted exactly when both their gates conduct. */
  lemma InputsShorted(m: Mux, on: seq<bool>, a: nat, b: nat)
    requires IsMux(m) && |on| == m.n && a < m.n && b < m.n && a != b
    ensures Joined(m.gates, on, InputName(a), InputName(b)) <==> on[a] && on[b]
  {
    StackNamesDistinct(a, b);
    hide IsMux, Bridged, Path, InputName;
    if on[a] && on[b] {
      InputReachesOutput(m, on, a);
      InputReachesOutput(m, on, b);
      JoinedThrough(m.gates, on, InputName(a), STACK_OUTPUT, InputName(b));
    }
    if Joined(m.gates, on, InputName(a), InputName(b)) {
      var p :| Path(m.gates, on, InputName(a), InputName(b), p);
      EndsAreBridged(m.gates, on, InputName(a), InputName(b), p);
      var c :| Bridged(m.gates, on, InputName(a), c);
      InputBridge(m, on, a, c);
      var d :| Bridged(m.gates, on, d, InputName(b));
      InputBridge(m, on, b, d);
    }
  }

  // ---- end to end -----------------------------------------------------------------------------------

  /** The output is connected to input g iff the memory wired to gate g holds a 0. */
  lemma StoredBitSelectsInput(m: Mux, state: seq<bool>, scanIn: bool, g: nat)
    requires IsMux(m) && |state| == m.n && g < m.n
    ensures Position(m.n, g) < m.n
    ensures Joined(m.gates, Conducting(m, state, scanIn), STACK_OUTPUT, InputName(g)) <==> !state[Position(m.n, g)]
  {
    hide IsMux, Joined, Conducting, InputName;
    GateConducts(m, state, scanIn, g);
    InputReachesOutput(m, Conducting(m, state, scanIn), g);
  }

  /**
   * Of n bits, the one that ends up at gate `g`: the first bits go to the odd
   * gates in order, the others to the even gates.
   */
  function BitOf(n: nat, g: nat): (i: nat)
    requires g < n
    ensures i < n
  {
    if g % 2 == 1 then g / 2 else n / 2 + g / 2
  }

  lemma BitOfPosition(n: nat, g: nat)
    requires g < n
    ensures Position(n, g) < n && BitOf(n, g) == n - 1 - Position(n, g)
  {
  }

  /**
   * Whatever the memories held before: after shifting in one bit per memory,
   * the output is connected to input g iff the bit that ended up at gate g
   * is 0, and inputs a and b are shorted iff both their bits are 0.
   */
  lemma ShiftedBitsSelectInputs(m: Mux, state: seq<bool>, bits: seq<bool>, scanIn: bool)
    requires IsMux(m) && |state| == |bits| == m.n
    ensures var on := Conducting(m, Shifted(m, state, bits), scanIn);
            forall g | 0 <= g < m.n :: Joined(m.gates, on, "Z", InputName(g)) <==> !bits[BitOf(m.n, g)]
    ensures var on := Conducting(m, Shifted(m, state, bits), scanIn);
            forall a, b | 0 <= a < m.n && 0 <= b < m.n && a != b ::
              Joined(m.gates, on, InputName(a), InputName(b)) <==> !bits[BitOf(m.n, a)] && !bits[BitOf(m.n, b)]
  {
    hide IsMux, Joined, Conducting, InputName, Shifted, Position, BitOf;
    var held := Shifted(m, state, bits);
    var on := Conducting(m, held, scanIn);
    forall g | 0 <= g < m.n
      ensures on[g] <==> !bits[BitOf(m.n, g)]
      ensures Joined(m.gates, on, STACK_OUTPUT, InputName(g)) <==> on[g]
    {
      BitOfPosition(m.n, g);
      GateConducts(m, held, scanIn, g);
      ShiftedBits(m, state, bits, Position(m.n, g));
      InputReachesOutput(m, on, g);
    }
    forall a, b | 0 <= a < m.n && 0 <= b < m.n && a != b
      ensures Joined(m.gates, on, InputName(a), InputName(b)) <==> on[a] && on[b]
    {
      InputsShorted(m, on, a, b);
    }
  }

  lemma LastOutputLeaves(m: Mux)
    requires IsMux(m)
    ensures DriverNet(m, Output(m.n - 1)) == SCAN_OUT
  {
    ScanLength(m);
    hide IsMux;
    DriverPinIsWired(m, Output(m.n - 1));
  }

  /** What has been shifted in leaves at SCAN_OUT n ticks later. */
  lemma ScanOutDelaysScanIn(m: Mux, state: seq<bool>, bits: seq<bool>)
    requires IsMux(m) && |state| == m.n
    ensures DriverNet(m, Output(m.n - 1)) == SCAN_OUT
    ensures var held := Shifted(m, state, bits);
            High(m, held, false, SCAN_OUT) <==> if m.n <= |bits| then bits[|bits| - m.n] else state[m.n - 1 - |bits|]
  {
    hide IsMuxStack, IsMuxWiring, High, DriverNet, Shifted;
    LastOutputLeaves(m);
    ShiftedBits(m, state, bits, m.n - 1);
    NetCarriesDriver(m, Shifted(m, state, bits), false, Output(m.n - 1));
  }

  /** A generated mux behaves like this. */
  method GenerateMux(n: nat, prefix: string, insideOut: bool) returns (m: Mux)
    requires n >= 3
    ensures m.n == n && m.prefix == prefix && IsMux(m)
    ensures AreRowsOfMux(n, m.scan) && IsWiredByRows(n, prefix, m.wires)
  {
    hide IsMuxStack, IsMuxWiring, AreRowsOfMux, IsWiredByRows;
    var w, gates, scan := Generate(n, prefix, insideOut);
    m := Mux(n, prefix, gates, scan, w.connections);
  }
}
