// The dual-output interconnect mux (src/atoms/sky130_interconnect_mux2.cc):
// one sequence of nets in which neighbouring inputs share the two outputs in
// turn, and how many gates and memories fall on each side.

module InterconnectMux2 {
  import opened InterconnectMux1
  import opened Names
  import opened TransmissionGateStack

  function OutputName(o: nat): string {
    "Z" + Decimal(o)
  }

  /** A control is named after the input and the output it connects. */
  function PathName(input: nat, output: nat): string {
    "S" + Decimal(input) + "_" + Decimal(output)
  }

  function ControlInput(c: nat): nat {
    (c + 1) / 2
  }

  function ControlOutput(c: nat): nat {
    (c / 2) % 2 + (c % 2) / 2
  }

  /** Input, control, output, control, input, ... with the outputs taking turns. */
  function NetAt(i: nat): string {
    if i % 2 == 1 then PathName(ControlInput(i / 2), ControlOutput(i / 2))
    else if i % 4 == 0 then InputName(i / 4)
    else OutputName((i / 4) % 2)
  }

  function InputsIn(i: nat): nat {
    (i + 3) / 4
  }

  function ControlsIn(i: nat): nat {
    i / 2
  }

  function OutputAfter(i: nat): nat {
    ((i + 1) / 4) % 2
  }

  lemma NoneDealt()
    ensures InputsIn(0) == 0 && ControlsIn(0) == 0 && OutputAfter(0) == 0
  {
  }

  /** What is due after `i` nets, in terms of the inputs, controls and outputs among them. */
  lemma NextNet(i: nat)
    ensures NetAt(i) ==
            if i % 2 == 1 then PathName(ControlInput(ControlsIn(i)), ControlOutput(ControlsIn(i)))
            else if i % 4 == 0 then InputName(InputsIn(i))
            else OutputName(OutputAfter(i))
  {
    hide InputName, OutputName, PathName, ControlInput, ControlOutput;
    ParityOfQuarter(i);
    var q, r := i / 4, i % 4;
    if r == 0 {
      Quarters(i + 3, q, 3);
    } else if r == 2 {
      Quarters(i + 1, q, 3);
    }
  }

  lemma Halves(x: int, q: int, r: int)
    requires x == 2 * q + r && 0 <= r < 2
    ensures x / 2 == q && x % 2 == r
  {
  }

  lemma Quarters(x: int, q: int, r: int)
    requires x == 4 * q + r && 0 <= r < 4
    ensures x / 4 == q && x % 4 == r
  {
  }

  lemma ParityOfQuarter(i: nat)
    ensures i % 2 == (i % 4) % 2
  {
    var q, r := i / 4, i % 4;
    Halves(i, 2 * q + r / 2, r % 2);
  }

  lemma InputsAdvance(i: nat)
    ensures InputsIn(i + 1) == InputsIn(i) + if i % 4 == 0 then 1 else 0
  {
    var q, r := i / 4, i % 4;
    Quarters(i + 4, q + 1, r);
    if r == 0 {
      Quarters(i + 3, q, 3);
    } else {
      Quarters(i + 3, q + 1, r - 1);
    }
  }

  lemma ControlsAdvance(i: nat)
    ensures ControlsIn(i + 1) == ControlsIn(i) + if i % 2 == 1 then 1 else 0
  {
    var q, r := i / 2, i % 2;
    if r == 0 {
      Halves(i + 1, q, 1);
    } else {
      Halves(i + 1, q + 1, 0);
    }
  }

  lemma OutputAdvances(i: nat)
    ensures OutputAfter(i + 1) == if i % 4 == 2 then (OutputAfter(i) + 1) % 2 else OutputAfter(i)
  {
    var q, r := i / 4, i % 4;
    if r == 2 {
      Quarters(i + 1, q, 3);
      Quarters(i + 2, q + 1, 0);
    } else if r == 3 {
      Quarters(i + 1, q + 1, 0);
      Quarters(i + 2, q + 1, 1);
    } else {
      Quarters(i + 1, q, r + 1);
      Quarters(i + 2, q, r + 2);
    }
  }

  /** The last net is the last input. */
  lemma InputsDecideLength(i: nat, n: nat)
    ensures InputsIn(i) < n <==> i < if n == 0 then 0 else 4 * n - 3
  {
    var q := InputsIn(i);
    assert 4 * q <= i + 3 < 4 * q + 4;
  }

  /** There are four nets for each input but the last, which has one. */
  method BuildNetSequence(n: nat) returns (sequence: seq<string>)
    ensures |sequence| == if n == 0 then 0 else 4 * n - 3
    ensures forall k | 0 <= k < |sequence| :: sequence[k] == NetAt(k)
  {
    hide InputName, OutputName, PathName, NetAt, InputsIn, ControlsIn, OutputAfter;
    sequence := [];
    var inputNum, controlNum, outputNum := 0, 0, 0;
    var i := 0;
    NoneDealt();
    InputsDecideLength(0, n);
    while inputNum < n
      invariant i == |sequence| && inputNum == InputsIn(i) && controlNum == ControlsIn(i) && outputNum == OutputAfter(i)
      invariant i <= if n == 0 then 0 else 4 * n - 3
      invariant inputNum < n <==> i < if n == 0 then 0 else 4 * n - 3
      invariant forall k | 0 <= k < |sequence| :: sequence[k] == NetAt(k)
      decreases 4 * n - i
    {
      NextNet(i);
      ParityOfQuarter(i);
      InputsAdvance(i);
      ControlsAdvance(i);
      OutputAdvances(i);
      if i % 2 == 1 {
        sequence := sequence + [PathName((controlNum + 1) / 2, (controlNum / 2) % 2 + (controlNum % 2) / 2)];
        controlNum := controlNum + 1;
      } else if i % 4 == 0 {
        sequence := sequence + [InputName(inputNum)];
        inputNum := inputNum + 1;
      } else {
        sequence := sequence + [OutputName(outputNum)];
        outputNum := (outputNum + 1) % 2;
      }
      i := i + 1;
      InputsDecideLength(i, n);
    }
  }

  /** The nets on either side of the control with a number. */
  function PathGate(c: nat): Gate {
    var input, output := InputName(ControlInput(c)), OutputName(ControlOutput(c));
    if c % 2 == 0 then Gate(input, PathName(ControlInput(c), ControlOutput(c)), output)
    else Gate(output, PathName(ControlInput(c), ControlOutput(c)), input)
  }

  ghost predicate IsDualStack(n: nat, gates: seq<Gate>) {
    n > 0 && |gates| == 2 * (n - 1) && forall c | 0 <= c < |gates| :: gates[c] == PathGate(c)
  }

  /** Every control lies between the input and the output of its name. */
  lemma ControlsNameTheirPaths(n: nat, nets: seq<string>)
    requires n > 1 && |nets| == 4 * n - 3 && forall k | 0 <= k < |nets| :: nets[k] == NetAt(k)
    ensures IsDualStack(n, GatesOf(nets))
  {
    hide InputName, OutputName, PathName;
    forall c | 0 <= c < 2 * (n - 1) ensures GatesOf(nets)[c] == PathGate(c) {
      ControlIsBetween(c);
    }
  }

  /** Gate Si_o lies between Xi and Zo. */
  predicate ConnectsByName(gate: Gate, input: nat, output: nat) {
    && gate.control == "S" + Decimal(input) + "_" + Decimal(output)
    && Between(gate, "Z" + Decimal(output), "X" + Decimal(input))
  }

  /** The input has a path to the output, through this gate. */
  predicate IsForPath(n: nat, gate: Gate, input: nat, output: nat) {
    output < 2 && HasPath(n, output, input) && ConnectsByName(gate, input, output)
  }

  ghost predicate HasItsPath(n: nat, gate: Gate) {
    exists input: nat, output: nat :: IsForPath(n, gate, input, output)
  }

  /** The gates are those for the paths there are, one for each. */
  lemma GatesAreForPaths(n: nat, gates: seq<Gate>)
    requires IsDualStack(n, gates)
    ensures forall c | 0 <= c < |gates| :: HasItsPath(n, gates[c])
    ensures forall input: nat, output: nat | output < 2 && HasPath(n, output, input) ::
              exists c :: 0 <= c < |gates| && IsForPath(n, gates[c], input, output)
    ensures forall c, d | 0 <= c < d < |gates| :: gates[c].control != gates[d].control
  {
    hide HasPath, ControlInput, ControlOutput, ControlOf, ConnectsByName, PathGate, Decimal;
    forall c | 0 <= c < |gates| ensures HasItsPath(n, gates[c]) {
      PathsOfControls(n, c);
      GateConnects(c);
      assert IsForPath(n, gates[c], ControlInput(c), ControlOutput(c));
    }
    forall input: nat, output: nat | output < 2 && HasPath(n, output, input)
      ensures exists c :: 0 <= c < |gates| && IsForPath(n, gates[c], input, output)
    {
      ControlsOfPaths(n, output, input);
      GateConnects(ControlOf(output, input));
      assert IsForPath(n, gates[ControlOf(output, input)], input, output);
    }
    forall c, d | 0 <= c < d < |gates| ensures gates[c].control != gates[d].control {
      if gates[c].control == gates[d].control {
        ControlNamesDistinct(n, gates, c, d);
      }
    }
  }

  lemma GateConnects(c: nat)
    ensures ConnectsByName(PathGate(c), ControlInput(c), ControlOutput(c))
  {
    hide ControlInput, ControlOutput, Decimal;
  }

  lemma ControlIsBetween(c: nat)
    ensures Gate(NetAt(2 * c), NetAt(2 * c + 1), NetAt(2 * c + 2)) == PathGate(c)
  {
    hide InputName, OutputName, PathName;
    assert (2 * c + 1) / 2 == c;
    if c % 2 == 0 {
      assert (2 * c) % 4 == 0 && (2 * c) / 4 == c / 2 && (2 * c + 2) % 4 == 2 && (2 * c + 2) / 4 == c / 2;
    } else {
      assert (2 * c) % 4 == 2 && (2 * c) / 4 == c / 2 && (2 * c + 2) % 4 == 0 && (2 * c + 2) / 4 == (c + 1) / 2;
    }
  }

  /** One gate for each path from an input to an output, and as many memories. */
  method BuildStack(n: nat) returns (gates: seq<Gate>)
    requires n > 1
    ensures IsDualStack(n, gates)
  {
    var sequence := BuildNetSequence(n);
    ControlsNameTheirPaths(n, sequence);
    gates := Build([sequence]);
    assert [sequence][..0] == [] && StackOf([]) == [];
  }

  // ---- which paths there are ---------------------------------------------------------------------

  lemma PathNamesDistinct(a: nat, b: nat, i: nat, j: nat)
    requires a < 2 && b < 2 && PathName(i, a) == PathName(j, b)
    ensures a == b && i == j
  {
    assert Decimal(a) == [Digit(a)] && Decimal(b) == [Digit(b)];
    var s, t := "S" + Decimal(i), "S" + Decimal(j);
    hide Decimal;
    assert PathName(i, a)[|s| + 1] == Digit(a) && PathName(j, b)[|t| + 1] == Digit(b);
    assert |PathName(i, a)| == |s| + 2 && |PathName(j, b)| == |t| + 2;
    assert PathName(i, a) == s + ("_" + Decimal(a)) && PathName(j, b) == t + ("_" + Decimal(b));
    SuffixCancels(s, t, "_" + Decimal(a));
    PrefixedDecimalInjective("S", i, j);
  }

  /** No two controls have the same name. */
  lemma ControlNamesDistinct(n: nat, gates: seq<Gate>, c: nat, d: nat)
    requires IsDualStack(n, gates) && c < |gates| && d < |gates| && gates[c].control == gates[d].control
    ensures c == d
  {
    hide InputName, OutputName, PathName, ControlInput, ControlOutput, ControlOf;
    assert gates[c] == PathGate(c) && gates[d] == PathGate(d);
    ControlIsFound(c);
    ControlIsFound(d);
    PathNamesDistinct(ControlOutput(c), ControlOutput(d), ControlInput(c), ControlInput(d));
  }

  predicate Between(gate: Gate, a: string, b: string) {
    (gate.left == a && gate.right == b) || (gate.left == b && gate.right == a)
  }

  /** Some gate lies between an output and an input. */
  ghost predicate Reaches(gates: seq<Gate>, output: nat, input: nat) {
    exists c | 0 <= c < |gates| :: Between(gates[c], OutputName(output), InputName(input))
  }

  lemma InputsAreNotOutputs(i: nat, o: nat)
    ensures InputName(i) != OutputName(o)
  {
    assert InputName(i)[0] == 'X' && OutputName(o)[0] == 'Z';
  }

  lemma GateIsBetween(c: nat, output: nat, input: nat)
    ensures Between(PathGate(c), OutputName(output), InputName(input)) <==>
            ControlInput(c) == input && ControlOutput(c) == output
  {
    InputsAreNotOutputs(ControlInput(c), output);
    InputsAreNotOutputs(input, ControlOutput(c));
    if InputName(ControlInput(c)) == InputName(input) {
      PrefixedDecimalInjective("X", ControlInput(c), input);
    }
    if OutputName(ControlOutput(c)) == OutputName(output) {
      PrefixedDecimalInjective("Z", ControlOutput(c), output);
    }
    hide InputName, OutputName, PathName;
  }

  /** An input has a path to one output on its left and to the other on its right. */
  predicate HasPath(n: nat, output: nat, input: nat) {
    input < n && ((input % 2 == output && input < n - 1) || (input % 2 != output && input > 0))
  }

  lemma ControlIsFound(c: nat)
    ensures ControlOutput(c) < 2 && (ControlInput(c) > 0 || ControlOutput(c) == 0)
    ensures ControlOf(ControlOutput(c), ControlInput(c)) == c
  {
    var q, r := c / 2, c % 2;
    assert c == 2 * q + r;
    if r == 0 {
      Halves(c + 1, q, 1);
    } else {
      Halves(c + 1, q + 1, 0);
      NextParity(q);
    }
  }

  lemma NextParity(q: nat)
    ensures (q + 1) % 2 == 1 - q % 2
  {
  }

  lemma PathsOfControls(n: nat, c: nat)
    requires n > 0 && c < 2 * (n - 1)
    ensures ControlOutput(c) < 2 && HasPath(n, ControlOutput(c), ControlInput(c))
  {
    hide ControlInput, ControlOutput;
    ControlIsFound(c);
    assert ControlInput(c) <= n - 1;
  }

  /** The control of a path: on the right of the input, or on its left. */
  function ControlOf(output: nat, input: nat): nat
    requires input > 0 || output == 0
  {
    if input % 2 == output then 2 * input else 2 * input - 1
  }

  lemma ControlsOfPaths(n: nat, output: nat, input: nat)
    requires output < 2 && HasPath(n, output, input)
    ensures input > 0 || output == 0
    ensures var c := ControlOf(output, input); c < 2 * (n - 1) && ControlInput(c) == input && ControlOutput(c) == output
  {
  }

  lemma ReachesExactly(n: nat, gates: seq<Gate>, output: nat, input: nat)
    requires IsDualStack(n, gates) && output < 2
    ensures Reaches(gates, output, input) <==> HasPath(n, output, input)
  {
    hide PathGate, InputName, OutputName, Between, HasPath, ControlInput, ControlOutput, ControlOf;
    if Reaches(gates, output, input) {
      var c :| 0 <= c < |gates| && Between(gates[c], OutputName(output), InputName(input));
      assert gates[c] == PathGate(c);
      GateIsBetween(c, output, input);
      PathsOfControls(n, c);
    }
    if HasPath(n, output, input) {
      ControlsOfPaths(n, output, input);
      var c := ControlOf(output, input);
      GateIsBetween(c, output, input);
      assert gates[c] == PathGate(c);
    }
  }

  ghost function InputsReached(n: nat, gates: seq<Gate>, output: nat): set<nat> {
    set i: nat | i < n && Reaches(gates, output, i)
  }

  function Range(lo: nat, hi: nat): (r: set<nat>)
    requires lo <= hi
    ensures |r| == hi - lo && forall i: nat :: i in r <==> lo <= i < hi
    decreases hi
  {
    if lo == hi then {} else Range(lo, hi - 1) + {hi - 1}
  }

  /** The first input an output reaches, and the one after the last. */
  function ReachBounds(n: nat, output: nat): (bounds: (nat, nat))
    requires n > 1 && output < 2
    ensures bounds.0 <= bounds.1 <= n
  {
    (output, if (n + output) % 2 == 0 then n else n - 1)
  }

  lemma ReachIsRange(n: nat, gates: seq<Gate>, output: nat)
    requires n > 1 && IsDualStack(n, gates) && output < 2
    ensures InputsReached(n, gates, output) == Range(ReachBounds(n, output).0, ReachBounds(n, output).1)
  {
    hide IsDualStack, Reaches, Range;
    var reached := InputsReached(n, gates, output);
    forall i: nat ensures i in reached <==> ReachBounds(n, output).0 <= i < ReachBounds(n, output).1 {
      ReachesExactly(n, gates, output, i);
    }
  }

  /**
   * For an odd number of inputs the mux is two (n-1):1 muxes: the first output
   * misses the last input and the second output the first one. For an even
   * number one output reaches all inputs and the other misses two.
   */
  lemma OutputsReach(n: nat, gates: seq<Gate>)
    requires n > 1 && IsDualStack(n, gates)
    ensures n % 2 == 1 ==> InputsReached(n, gates, 0) == Range(0, n - 1) && InputsReached(n, gates, 1) == Range(1, n)
    ensures n % 2 == 0 ==> InputsReached(n, gates, 0) == Range(0, n) && InputsReached(n, gates, 1) == Range(1, n - 1)
    ensures forall o | 0 <= o < 2 :: |InputsReached(n, gates, o)| == n - 1 <==> n % 2 == 1
  {
    hide InputsReached, IsDualStack, Range;
    ReachIsRange(n, gates, 0);
    ReachIsRange(n, gates, 1);
  }

  // ---- sides -------------------------------------------------------------------------------------------

  function NumMemories(n: nat): nat
    requires n > 0
  {
    (n - 1) * 2
  }

  /** Rows of two memories: those above the gates and those below. */
  method SplitRows(n: nat) returns (rowsTop: nat, rowsBottom: nat)
    requires n > 0
    ensures rowsTop + rowsBottom == n - 1 && rowsTop <= rowsBottom <= rowsTop + 1
  {
    var rows := (NumMemories(n) + 1) / 2;
    rowsTop := rows / 2;
    rowsBottom := rows - rowsTop;
  }

  /** Gates are dealt to the sides in turn. */
  method SplitGates(gates: seq<Gate>) returns (bottom: seq<nat>, top: seq<nat>)
    ensures |bottom| == (|gates| + 1) / 2 && forall k | 0 <= k < |bottom| :: bottom[k] == 2 * k
    ensures |top| == |gates| / 2 && forall k | 0 <= k < |top| :: top[k] == 2 * k + 1
  {
    bottom, top := [], [];
    for g := 0 to |gates|
      invariant |bottom| == (g + 1) / 2 && forall k | 0 <= k < |bottom| :: bottom[k] == 2 * k
      invariant |top| == g / 2 && forall k | 0 <= k < |top| :: top[k] == 2 * k + 1
    {
      if g % 2 == 0 {
        bottom := bottom + [g];
      } else {
        top := top + [g];
      }
    }
  }

  /** Each side has as many gates as memories exactly for an odd number of inputs. */
  method SidesMatch(n: nat, gates: seq<Gate>) returns (matching: bool)
    requires n > 1 && IsDualStack(n, gates)
    ensures matching <==> n % 2 == 1
  {
    var rowsTop, rowsBottom := SplitRows(n);
    var bottom, top := SplitGates(gates);
    matching := |bottom| == 2 * rowsBottom && |top| == 2 * rowsTop;
  }
}
