// Stacks of transmission gates: how sequences of net names become gates
// (src/atoms/sky130_transmission_gate_stack.cc), and which nets a stack joins
// when some of its gates conduct.

module TransmissionGateStack {

  // A gate between two nets. The NMOS transistor is driven by the control net,
  // the PMOS transistor by its complement, which has "_B" appended.
  datatype Gate = Gate(left: string, control: string, right: string)

  function Complement(control: string): string {
    control + "_B"
  }

  /** Nets and controls alternate in a sequence; each control is a gate. */
  function GatesOf(nets: seq<string>): (gates: seq<Gate>)
    requires |nets| >= 3
    ensures |gates| == (|nets| - 1) / 2
  {
    seq((|nets| - 1) / 2, i requires 0 <= i < (|nets| - 1) / 2 => Gate(nets[2 * i], nets[2 * i + 1], nets[2 * i + 2]))
  }

  ghost predicate Buildable(sequences: seq<seq<string>>) {
    forall k | 0 <= k < |sequences| :: |sequences[k]| >= 3
  }

  /** The gates of all sequences, left to right. */
  function StackOf(sequences: seq<seq<string>>): seq<Gate>
    requires Buildable(sequences)
  {
    if sequences == [] then [] else StackOf(sequences[..|sequences| - 1]) + GatesOf(sequences[|sequences| - 1])
  }

  method BuildSequence(nets: seq<string>, gates: seq<Gate>) returns (gates': seq<Gate>)
    requires |nets| >= 3
    ensures gates' == gates + GatesOf(nets)
  {
    gates' := gates;
    var numGates := (|nets| - 1) / 2;
    for i := 0 to numGates
      invariant gates' == gates + GatesOf(nets)[..i]
    {
      gates' := gates' + [Gate(nets[2 * i], nets[2 * i + 1], nets[2 * i + 2])];
    }
  }

  method Build(sequences: seq<seq<string>>) returns (gates: seq<Gate>)
    requires Buildable(sequences)
    ensures gates == StackOf(sequences)
  {
    gates := [];
    for i := 0 to |sequences|
      invariant gates == StackOf(sequences[..i])
    {
      gates := BuildSequence(sequences[i], gates);
      assert sequences[..i + 1][..i] == sequences[..i];
    }
    assert sequences[..|sequences|] == sequences;
  }

  // ---- which nets are joined ------------------------------------------------------------------

  /** Some conducting gate lies between two nets. */
  ghost predicate Bridged(gates: seq<Gate>, on: seq<bool>, a: string, b: string) {
    exists g | 0 <= g < |gates| && g < |on| && on[g] ::
      (gates[g].left == a && gates[g].right == b) || (gates[g].left == b && gates[g].right == a)
  }

  ghost predicate Path(gates: seq<Gate>, on: seq<bool>, a: string, b: string, p: seq<string>)
    decreases |p|
  {
    && p != [] && p[|p| - 1] == b
    && if |p| == 1 then a == b
       else Path(gates, on, a, p[|p| - 2], p[..|p| - 1]) && Bridged(gates, on, p[|p| - 2], b)
  }

  /** A chain of conducting gates connects two nets. */
  ghost predicate Joined(gates: seq<Gate>, on: seq<bool>, a: string, b: string) {
    exists p :: Path(gates, on, a, b, p)
  }

  lemma BridgeJoins(gates: seq<Gate>, on: seq<bool>, a: string, b: string)
    requires Bridged(gates, on, a, b)
    ensures Joined(gates, on, a, b)
  {
    hide Bridged;
    assert Path(gates, on, a, a, [a]);
    assert [a, b][..1] == [a];
    assert Path(gates, on, a, b, [a, b]);
  }

  lemma {:induction false} PathsCompose(
      gates: seq<Gate>, on: seq<bool>, a: string, b: string, c: string, p: seq<string>, q: seq<string>)
    requires Path(gates, on, a, b, p) && Path(gates, on, b, c, q)
    ensures Joined(gates, on, a, c)
    decreases |q|
  {
    hide Bridged;
    if |q| > 1 {
      var d := q[|q| - 2];
      PathsCompose(gates, on, a, b, d, p, q[..|q| - 1]);
      var r :| Path(gates, on, a, d, r);
      assert (r + [c])[..|r|] == r;
      assert Path(gates, on, a, c, r + [c]);
    }
  }

  lemma JoinedThrough(gates: seq<Gate>, on: seq<bool>, a: string, b: string, c: string)
    requires Joined(gates, on, a, b) && Joined(gates, on, b, c)
    ensures Joined(gates, on, a, c)
  {
    hide Path, Bridged;
    var p :| Path(gates, on, a, b, p);
    var q :| Path(gates, on, b, c, q);
    PathsCompose(gates, on, a, b, c, p, q);
  }

  /** What leaves a net, and what enters one, goes through a gate there. */
  lemma {:induction false} EndsAreBridged(gates: seq<Gate>, on: seq<bool>, a: string, b: string, p: seq<string>)
    requires Path(gates, on, a, b, p) && a != b
    ensures exists c :: Bridged(gates, on, a, c)
    ensures exists c :: Bridged(gates, on, c, b)
    decreases |p|
  {
    hide Bridged;
    var d := p[|p| - 2];
    assert Bridged(gates, on, d, b);
    if d != a {
      EndsAreBridged(gates, on, a, d, p[..|p| - 1]);
    }
  }
}
