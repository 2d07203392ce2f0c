// What flattening preserves: two pins are on one net of the flattened circuit
// exactly when they were on one net of the hierarchy, provided names are
// hygienic; and hygiene is also necessary (src/circuit.cc, Circuit::Flatten).

module Connectivity {
  import opened Netlists
  import opened Hierarchies

  // A net of the elaborated hierarchy: one known by a name that is visible in
  // the outer circuit, or a signal private to one instance.
  datatype Net = Shared(name: string) | Private(instance: nat, signal: nat)

  // A signal of the outer circuit, or of the circuit of one of its instances.
  datatype Node = OuterNode(signal: nat) | InnerNode(instance: nat, signal: nat)

  ghost predicate IsNode<M>(h: Hierarchy<M>, x: Node)
    requires h.Valid()
  {
    match x
    case OuterNode(s) => s < |h.outer.signals|
    case InnerNode(i, s) => i < |h.inner| && s < |h.inner[i].signals|
  }

  ghost predicate IsPrivate<M>(h: Hierarchy<M>, i: nat, s: nat)
    requires h.Valid() && i < |h.inner| && s < |h.inner[i].signals|
  {
    !h.Connected(i, s) && s !in h.inner[i].globals
  }

  /** The net of the hierarchy that a signal belongs to. */
  ghost function NetOf<M>(h: Hierarchy<M>, x: Node): Net
    requires h.Valid() && h.WholeSignals() && IsNode(h, x)
  {
    match x
    case OuterNode(s) => Shared(h.outer.signals[s].name)
    case InnerNode(i, s) =>
      var name := h.inner[i].signals[s].name;
      if IsPrivate(h, i, s) then Private(i, s)
      else if h.Connected(i, s) then
        assert h.outer.instances[i].connections[name].Below(|h.outer.signals|);
        Shared(h.outer.signals[h.outer.instances[i].connections[name].signal].name)
      else Shared(name)
  }

  /** The name of the flattened signal that a signal becomes. */
  ghost function NameOf<M>(h: Hierarchy<M>, addPrefixes: bool, x: Node): string
    requires h.Valid() && h.WholeSignals() && IsNode(h, x)
  {
    match x
    case OuterNode(s) => h.outer.signals[s].name
    case InnerNode(i, s) => h.FlatName(addPrefixes, i, s)
  }

  /** A name that is not prefixed: of an outer signal or of an unconnected global. */
  ghost predicate IsSharedName<M>(h: Hierarchy<M>, name: string)
    requires h.Valid()
  {
    || name in h.outer.index
    || exists i, g | 0 <= i < |h.inner| && g in h.inner[i].globals ::
         !h.Connected(i, g) && h.inner[i].signals[g].name == name
  }

  function PrefixedName<M>(h: Hierarchy<M>, addPrefixes: bool, i: nat, s: nat): string
    requires i < |h.inner| && i < |h.outer.instances| && s < |h.inner[i].signals|
  {
    MapSignalNameForAdd(h.Prefix(addPrefixes, i), h.inner[i].signals[s].name, {})
  }

  /** A private signal named like an outer net that its instance is connected to. */
  ghost predicate Captured<M>(h: Hierarchy<M>, i: nat, s: nat)
    requires h.Valid() && h.WholeSignals() && IsNode(h, InnerNode(i, s))
  {
    IsPrivate(h, i, s) && h.inner[i].signals[s].name in h.Refs(i)
  }

  /** A private signal whose prefixed name is in use in the outer circuit. */
  ghost predicate PrefixTaken<M>(h: Hierarchy<M>, addPrefixes: bool, i: nat, s: nat)
    requires h.Valid() && h.WholeSignals() && IsNode(h, InnerNode(i, s))
  {
    IsPrivate(h, i, s) && IsSharedName(h, PrefixedName(h, addPrefixes, i, s))
  }

  /** Two private signals with the same prefixed name. */
  ghost predicate PrefixClash<M>(h: Hierarchy<M>, addPrefixes: bool, i: nat, s: nat, j: nat, t: nat)
    requires h.Valid() && h.WholeSignals() && IsNode(h, InnerNode(i, s)) && IsNode(h, InnerNode(j, t))
  {
    && IsPrivate(h, i, s) && IsPrivate(h, j, t) && (i, s) != (j, t)
    && PrefixedName(h, addPrefixes, i, s) == PrefixedName(h, addPrefixes, j, t)
  }

  /**
   * Name hygiene. No private signal is taken for a reference to an outer net,
   * and no prefixed name is merged silently into one that is in use.
   */
  ghost predicate Hygienic<M>(h: Hierarchy<M>, addPrefixes: bool)
    requires h.Valid() && h.WholeSignals()
  {
    && (forall i, s | IsNode(h, InnerNode(i, s)) :: !Captured(h, i, s) && !PrefixTaken(h, addPrefixes, i, s))
    && (forall i, s, j, t | IsNode(h, InnerNode(i, s)) && IsNode(h, InnerNode(j, t)) ::
          !PrefixClash(h, addPrefixes, i, s, j, t))
  }

  /** Flattened names are equal exactly for signals on one net. */
  ghost predicate NamesFollowNets<M>(h: Hierarchy<M>, addPrefixes: bool)
    requires h.Valid() && h.WholeSignals()
  {
    forall x, y | IsNode(h, x) && IsNode(h, y) ::
      NameOf(h, addPrefixes, x) == NameOf(h, addPrefixes, y) <==> NetOf(h, x) == NetOf(h, y)
  }

  lemma RefsAreOuterNames<M>(h: Hierarchy<M>, i: nat, name: string)
    requires h.Valid() && h.WholeSignals() && i < |h.inner| && name in h.Refs(i)
    ensures name in h.outer.index
  {
    var x :| x in h.outer.instances[i].connections
             && h.ExternalName(i, h.outer.instances[i].connections.Keys, x) == name;
    assert h.outer.instances[i].connections[x].Below(|h.outer.signals|);
  }

  /** Hygienic or not, a shared net keeps its name, which is a shared name. */
  lemma SharedKeepsName<M>(h: Hierarchy<M>, addPrefixes: bool, x: Node)
    requires h.Valid() && h.WholeSignals() && IsNode(h, x) && NetOf(h, x).Shared?
    ensures NameOf(h, addPrefixes, x) == NetOf(h, x).name
    ensures IsSharedName(h, NameOf(h, addPrefixes, x))
  {
    if x.InnerNode? && h.Connected(x.instance, x.signal) {
      var p := h.inner[x.instance].signals[x.signal].name;
      assert h.ExternalName(x.instance, {p}, p) == NetOf(h, x).name;
      assert h.outer.instances[x.instance].connections[p].Below(|h.outer.signals|);
    }
  }

  lemma PrivateGetsPrefix<M>(h: Hierarchy<M>, addPrefixes: bool, i: nat, s: nat)
    requires h.Valid() && h.WholeSignals() && IsNode(h, InnerNode(i, s)) && IsPrivate(h, i, s)
    ensures NameOf(h, addPrefixes, InnerNode(i, s)) ==
            if Captured(h, i, s) then h.inner[i].signals[s].name else PrefixedName(h, addPrefixes, i, s)
  {
  }

  lemma NameDecidesNet<M>(h: Hierarchy<M>, addPrefixes: bool, x: Node, y: Node)
    requires h.Valid() && h.WholeSignals() && IsNode(h, x) && IsNode(h, y)
    requires Hygienic(h, addPrefixes)
    ensures NameOf(h, addPrefixes, x) == NameOf(h, addPrefixes, y) <==> NetOf(h, x) == NetOf(h, y)
  {
    var a, b := NetOf(h, x), NetOf(h, y);
    if a.Shared? { SharedKeepsName(h, addPrefixes, x); } else { PrivateGetsPrefix(h, addPrefixes, x.instance, x.signal); }
    if b.Shared? { SharedKeepsName(h, addPrefixes, y); } else { PrivateGetsPrefix(h, addPrefixes, y.instance, y.signal); }
    if a.Private? {
      assert !PrefixTaken(h, addPrefixes, x.instance, x.signal);
      if b.Private? {
        assert !PrefixClash(h, addPrefixes, x.instance, x.signal, y.instance, y.signal);
      }
    } else if b.Private? {
      assert !PrefixTaken(h, addPrefixes, y.instance, y.signal);
    }
  }

  lemma SharedNameHasNode<M>(h: Hierarchy<M>, addPrefixes: bool, name: string) returns (x: Node)
    requires h.Valid() && h.WholeSignals() && IsSharedName(h, name)
    ensures IsNode(h, x) && NetOf(h, x) == Shared(name) && NameOf(h, addPrefixes, x) == name
  {
    if name in h.outer.index {
      x := OuterNode(h.outer.index[name]);
    } else {
      var i, g :| 0 <= i < |h.inner| && g in h.inner[i].globals
                  && !h.Connected(i, g) && h.inner[i].signals[g].name == name;
      x := InnerNode(i, g);
    }
  }

  /** Every way of breaking hygiene puts two different nets on one name. */
  lemma UnhygienicMerges<M>(h: Hierarchy<M>, addPrefixes: bool) returns (x: Node, y: Node)
    requires h.Valid() && h.WholeSignals() && !Hygienic(h, addPrefixes)
    ensures IsNode(h, x) && IsNode(h, y)
    ensures NameOf(h, addPrefixes, x) == NameOf(h, addPrefixes, y) && NetOf(h, x) != NetOf(h, y)
  {
    if i: nat, s: nat :| IsNode(h, InnerNode(i, s)) && Captured(h, i, s) {
      x := InnerNode(i, s);
      PrivateGetsPrefix(h, addPrefixes, i, s);
      RefsAreOuterNames(h, i, h.inner[i].signals[s].name);
      y := SharedNameHasNode(h, addPrefixes, h.inner[i].signals[s].name);
    } else if i: nat, s: nat :| IsNode(h, InnerNode(i, s)) && PrefixTaken(h, addPrefixes, i, s) {
      x := InnerNode(i, s);
      PrivateGetsPrefix(h, addPrefixes, i, s);
      y := SharedNameHasNode(h, addPrefixes, PrefixedName(h, addPrefixes, i, s));
    } else {
      var i: nat, s: nat, j: nat, t: nat :| IsNode(h, InnerNode(i, s)) && IsNode(h, InnerNode(j, t)) &&
          PrefixClash(h, addPrefixes, i, s, j, t);
      x, y := InnerNode(i, s), InnerNode(j, t);
      PrivateGetsPrefix(h, addPrefixes, i, s);
      PrivateGetsPrefix(h, addPrefixes, j, t);
    }
  }

  /** Flattened names follow nets if and only if the hierarchy is hygienic. */
  lemma HygieneIsExact<M>(h: Hierarchy<M>, addPrefixes: bool)
    requires h.Valid() && h.WholeSignals()
    ensures NamesFollowNets(h, addPrefixes) <==> Hygienic(h, addPrefixes)
  {
    if Hygienic(h, addPrefixes) {
      forall x, y | IsNode(h, x) && IsNode(h, y)
        ensures NameOf(h, addPrefixes, x) == NameOf(h, addPrefixes, y) <==> NetOf(h, x) == NetOf(h, y)
      {
        NameDecidesNet(h, addPrefixes, x, y);
      }
    } else {
      var x, y := UnhygienicMerges(h, addPrefixes);
    }
  }

  // ---- pins of the flattened circuit ------------------------------------

  /** `result` is the hierarchy flattened by visiting its instances in this order. */
  ghost predicate Flattened<M>(h: Hierarchy<M>, addPrefixes: bool, order: seq<nat>, result: Netlist<M>)
    requires h.Valid() && h.WholeSignals() && forall k | 0 <= k < |order| :: order[k] < |h.inner|
  {
    result.Valid() && FlatUpTo(h, addPrefixes, order, result, result.instances)
  }

  /** Once the old instances are erased, what is left is the flattened hierarchy. */
  lemma OldInstancesErased<M>(h: Hierarchy<M>, addPrefixes: bool, order: seq<nat>, n: Netlist<M>, result: Netlist<M>)
    requires h.Valid() && h.WholeSignals() && forall k | 0 <= k < |order| :: order[k] < |h.inner|
    requires n.Valid() && FlatSoFar(h, addPrefixes, order, n)
    requires result == n.(instances := n.instances[|h.outer.instances|..])
    ensures Flattened(h, addPrefixes, order, result)
  {
    SuffixIsValid(n, |h.outer.instances|);
    SameTableSameInstances(h, addPrefixes, Sources(h, order), n, result, result.instances);
  }

  lemma SuffixIsValid<M>(n: Netlist<M>, base: nat)
    requires n.Valid() && base <= |n.instances|
    ensures n.(instances := n.instances[base..]).Valid()
  {
    var result := n.(instances := n.instances[base..]);
    forall k | 0 <= k < |result.instances| ensures result.instances[k] == n.instances[base + k] {}
    forall i, p | 0 <= i < |result.instances| && p in result.instances[i].connections
      ensures result.instances[i].connections[p].Below(|result.signals|)
    {
      assert n.instances[base + i].connections[p].Below(|n.signals|);
    }
  }

  lemma SameTableSameInstances<M>(
    h: Hierarchy<M>, addPrefixes: bool, sources: seq<(nat, nat)>, n: Netlist<M>, after: Netlist<M>, flat: seq<Instance<M>>)
    requires h.Valid() && h.WholeSignals()
    requires after.index == n.index && after.signals == n.signals
    requires InstancesFlat(h, addPrefixes, sources, n, flat)
    ensures InstancesFlat(h, addPrefixes, sources, after, flat)
  {
    forall k | 0 <= k < |sources|
      ensures sources[k].0 < |h.inner| && sources[k].1 < |h.inner[sources[k].0].instances|
      ensures InstanceFlat(h, addPrefixes, sources[k].0, sources[k].1, after, flat[k])
    {
      SameTableSameInstance(h, addPrefixes, sources[k].0, sources[k].1, n, after, flat[k]);
    }
  }

  lemma SameTableSameInstance<M>(
    h: Hierarchy<M>, addPrefixes: bool, i: nat, a: nat, n: Netlist<M>, after: Netlist<M>, b: Instance<M>)
    requires h.Valid() && h.WholeSignals() && i < |h.inner| && a < |h.inner[i].instances|
    requires after.index == n.index && after.signals == n.signals
    requires InstanceFlat(h, addPrefixes, i, a, n, b)
    ensures InstanceFlat(h, addPrefixes, i, a, after, b)
  {
    forall p | p in h.inner[i].instances[a].connections
      ensures ConnectionFlat(h, addPrefixes, i, h.inner[i].instances[a].connections[p], after, b.connections[p])
    {
      assert ConnectionFlat(h, addPrefixes, i, h.inner[i].instances[a].connections[p], n, b.connections[p]);
    }
  }

  // Pin `port` of instance `instance` of a flat circuit.
  datatype Pin = Pin(instance: nat, port: string)

  ghost predicate IsPin<M>(n: Netlist<M>, pin: Pin) {
    pin.instance < |n.instances| && pin.port in n.instances[pin.instance].connections
  }

  /** The signal of the hierarchy that a pin of the flattened circuit was connected to. */
  ghost function PinNode<M>(h: Hierarchy<M>, addPrefixes: bool, order: seq<nat>, result: Netlist<M>, pin: Pin): (x: Node)
    requires h.Valid() && h.WholeSignals() && forall k | 0 <= k < |order| :: order[k] < |h.inner|
    requires InstancesFlat(h, addPrefixes, Sources(h, order), result, result.instances) && IsPin(result, pin)
    ensures IsNode(h, x)
  {
    var (i, a) := Sources(h, order)[pin.instance];
    assert InstanceFlat(h, addPrefixes, i, a, result, result.instances[pin.instance]);
    InnerNode(i, h.inner[i].instances[a].connections[pin.port].signal)
  }

  lemma PinHasName<M>(h: Hierarchy<M>, addPrefixes: bool, order: seq<nat>, result: Netlist<M>, pin: Pin)
    requires h.Valid() && h.WholeSignals() && forall k | 0 <= k < |order| :: order[k] < |h.inner|
    requires InstancesFlat(h, addPrefixes, Sources(h, order), result, result.instances) && IsPin(result, pin)
    requires result.Indexed()
    ensures
      var c := result.instances[pin.instance].connections[pin.port];
      && !c.ToConcatenation? && c.signal < |result.signals|
      && result.signals[c.signal].name == NameOf(h, addPrefixes, PinNode(h, addPrefixes, order, result, pin))
  {
    var (i, a) := Sources(h, order)[pin.instance];
    var b := result.instances[pin.instance];
    assert InstanceFlat(h, addPrefixes, i, a, result, b);
    assert ConnectionFlat(h, addPrefixes, i, h.inner[i].instances[a].connections[pin.port], result, b.connections[pin.port]);
  }

  /**
   * Flattening preserves connectivity: two pins of flattened instances are
   * connected to one signal exactly when they were on one net of the
   * hierarchy, and likewise a pin and a signal of the outer circuit.
   */
  lemma FlatteningPreservesConnectivity<M>(
    h: Hierarchy<M>, addPrefixes: bool, order: seq<nat>, result: Netlist<M>, p: Pin, q: Pin, outer: nat)
    requires h.Valid() && h.WholeSignals() && forall k | 0 <= k < |order| :: order[k] < |h.inner|
    requires Flattened(h, addPrefixes, order, result) && Hygienic(h, addPrefixes)
    requires IsPin(result, p) && IsPin(result, q) && outer < |h.outer.signals|
    ensures
      var c, d := result.instances[p.instance].connections[p.port], result.instances[q.instance].connections[q.port];
      var x, y := PinNode(h, addPrefixes, order, result, p), PinNode(h, addPrefixes, order, result, q);
      && !c.ToConcatenation? && !d.ToConcatenation?
      && (c.signal == d.signal <==> NetOf(h, x) == NetOf(h, y))
      && (c.signal == outer <==> NetOf(h, x) == NetOf(h, OuterNode(outer)))
  {
    var x, y := PinNode(h, addPrefixes, order, result, p), PinNode(h, addPrefixes, order, result, q);
    PinHasName(h, addPrefixes, order, result, p);
    PinHasName(h, addPrefixes, order, result, q);
    NameDecidesNet(h, addPrefixes, x, y);
    NameDecidesNet(h, addPrefixes, x, OuterNode(outer));
    assert result.signals[outer] == h.outer.signals[outer];
  }

  /**
   * A pin leads to the same bits afterwards, if its signal has the width it
   * had: it may have become part of an outer net, whose own width stays.
   */
  lemma PinKeepsItsBits<M>(h: Hierarchy<M>, addPrefixes: bool, order: seq<nat>, result: Netlist<M>, pin: Pin)
    requires h.Valid() && h.WholeSignals() && forall k | 0 <= k < |order| :: order[k] < |h.inner|
    requires InstancesFlat(h, addPrefixes, Sources(h, order), result, result.instances) && IsPin(result, pin)
    ensures pin.instance < |Sources(h, order)|
    ensures
      var (i, a) := Sources(h, order)[pin.instance];
      && i < |h.inner| && a < |h.inner[i].instances| && pin.port in h.inner[i].instances[a].connections
      && var c, d := h.inner[i].instances[a].connections[pin.port], result.instances[pin.instance].connections[pin.port];
         && !c.ToConcatenation? && !d.ToConcatenation?
         && c.signal < |h.inner[i].signals| && d.signal < |result.signals|
         && var width := h.inner[i].signals[c.signal].width;
            result.signals[d.signal].width == width && (c.ToSlice? ==> 0 <= c.low <= c.high < width) ==>
              forall bit: nat :: LeadsToBit(d, width, bit) <==> LeadsToBit(c, width, bit)
  {
    hide Hierarchy.WholeSignals, Netlist.Indexed, Netlist.InstancesNamed, Sources;
    var (i, a) := Sources(h, order)[pin.instance];
    var b := result.instances[pin.instance];
    assert InstanceFlat(h, addPrefixes, i, a, result, b);
    var c := h.inner[i].instances[a].connections[pin.port];
    assert c.Below(|h.inner[i].signals|);
    assert ConnectionFlat(h, addPrefixes, i, c, result, b.connections[pin.port]);
  }

  /** `order` visits each of the first `n` instances once. */
  ghost predicate VisitsEach(order: seq<nat>, n: nat) {
    && |order| == n
    && (forall k | 0 <= k < n :: order[k] < n)
    && (forall k, l | 0 <= k < l < n :: order[k] != order[l])
    && (forall i | 0 <= i < n :: i in order)
  }

  /** How far flattening got: the first `k` instances of the order, into `n`. */
  ghost predicate FlattenedUpTo<M>(h: Hierarchy<M>, addPrefixes: bool, order: seq<nat>, k: nat, n: Netlist<M>)
    requires h.Valid() && VisitsEach(order, |h.inner|)
  {
    && k <= |order| && n.Valid() && h.outer.instances <= n.instances && h.outer.signals <= n.signals
    && (forall j | 0 <= j < k :: Stageable(h, order[j]))
    && FlatSoFar(h, addPrefixes, order[..k], n)
  }

  lemma NothingFlattened<M>(h: Hierarchy<M>, addPrefixes: bool, order: seq<nat>)
    requires h.Valid() && VisitsEach(order, |h.inner|)
    ensures FlattenedUpTo(h, addPrefixes, order, 0, h.outer)
  {
    hide FlatSoFar, Stageable, Netlist.Bounded, Netlist.Indexed, Netlist.InstancesNamed;
    FlatStart(h, addPrefixes);
    assert order[..0] == [];
  }

  /** The next instance has not been visited. */
  lemma NextToFlatten<M>(h: Hierarchy<M>, addPrefixes: bool, order: seq<nat>, k: nat, n: Netlist<M>)
    requires h.Valid() && VisitsEach(order, |h.inner|) && k < |order| && FlattenedUpTo(h, addPrefixes, order, k, n)
    ensures n.Valid() && h.outer.instances <= n.instances && h.outer.signals <= n.signals
    ensures order[k] < |h.inner| && order[k] !in order[..k] && forall j | 0 <= j < |order[..k]| :: order[..k][j] < |h.inner|
    ensures FlatSoFar(h, addPrefixes, order[..k], n)
  {
    hide FlatSoFar, Stageable, Netlist.Valid, Hierarchy.Valid;
  }

  lemma OneMoreFlattened<M>(
    h: Hierarchy<M>, addPrefixes: bool, order: seq<nat>, k: nat, n: Netlist<M>, after: Netlist<M>)
    requires h.Valid() && VisitsEach(order, |h.inner|) && k < |order| && FlattenedUpTo(h, addPrefixes, order, k, n)
    requires after.Valid() && n.instances <= after.instances && n.signals <= after.signals && Stageable(h, order[k])
    requires FlatSoFar(h, addPrefixes, order[..k] + [order[k]], after)
    ensures FlattenedUpTo(h, addPrefixes, order, k + 1, after)
  {
    hide FlatSoFar, Stageable, Netlist.Valid, Hierarchy.Valid;
    assert order[..k + 1] == order[..k] + [order[k]];
    PrefixTransitive(h.outer.instances, n.instances, after.instances);
    PrefixTransitive(h.outer.signals, n.signals, after.signals);
  }

  /** With all instances visited the hierarchy was flattenable, and is flattened once the old ones are erased. */
  lemma AllFlattened<M>(h: Hierarchy<M>, addPrefixes: bool, order: seq<nat>, n: Netlist<M>)
    requires h.Valid() && VisitsEach(order, |h.inner|) && FlattenedUpTo(h, addPrefixes, order, |order|, n)
    ensures h.WholeSignals() && h.Flattenable(addPrefixes) && |h.outer.instances| <= |n.instances|
    ensures Flattened(h, addPrefixes, order, n.(instances := n.instances[|h.outer.instances|..]))
  {
    assert |h.outer.instances| == |h.inner|;
    hide FlatSoFar, Stageable, Netlist.Valid, Hierarchy.Valid, Hierarchy.Flattenable, Flattened;
    assert order[..|order|] == order;
    forall i: nat | i < |h.inner| ensures i in order && Stageable(h, i) {
      assert i in order;
      var j :| 0 <= j < |order| && order[j] == i;
    }
    FlattenableWhenDone(h, addPrefixes, order, n);
    FlattenableIsWhole(h, addPrefixes);
    OldInstancesErased(h, addPrefixes, order, n, n.(instances := n.instances[|h.outer.instances|..]));
  }

  lemma FlattenableIsWhole<M>(h: Hierarchy<M>, addPrefixes: bool)
    requires h.Valid() && h.Flattenable(addPrefixes)
    ensures h.WholeSignals()
  {
  }

  lemma {:induction false} SourceOccurs<M>(h: Hierarchy<M>, visited: seq<nat>, i: nat, a: nat)
    requires forall k | 0 <= k < |visited| :: visited[k] < |h.inner|
    requires i in visited && i < |h.inner| && a < |h.inner[i].instances|
    ensures (i, a) in Sources(h, visited)
  {
    var last, front := visited[|visited| - 1], visited[..|visited| - 1];
    assert visited == front + [last];
    if i == last {
      var tail := seq(|h.inner[i].instances|, b requires b >= 0 => (i, b));
      assert tail[a] == (i, a) && (i, a) in tail;
    } else {
      SourceOccurs(h, front, i, a);
    }
  }

  lemma {:induction false} SourceUnique<M>(h: Hierarchy<M>, visited: seq<nat>, k: nat, l: nat)
    requires forall k | 0 <= k < |visited| :: visited[k] < |h.inner|
    requires forall k, l | 0 <= k < l < |visited| :: visited[k] != visited[l]
    requires k < l < |Sources(h, visited)|
    ensures Sources(h, visited)[k] != Sources(h, visited)[l]
  {
    var last, front := visited[|visited| - 1], visited[..|visited| - 1];
    var before := Sources(h, front);
    if l < |before| {
      SourceUnique(h, front, k, l);
    } else if k < |before| {
      SourcesInRange(h, front);
      assert before[k].0 in front && Sources(h, visited)[l].0 == last;
    }
  }

  /** Whatever the order, each instance of each flattened circuit arrives exactly once. */
  lemma EachInstanceArrivesOnce<M>(h: Hierarchy<M>, order: seq<nat>)
    requires h.Valid() && VisitsEach(order, |h.inner|)
    ensures forall i, a | 0 <= i < |h.inner| && 0 <= a < |h.inner[i].instances| :: (i, a) in Sources(h, order)
    ensures forall k, l | 0 <= k < l < |Sources(h, order)| :: Sources(h, order)[k] != Sources(h, order)[l]
  {
    forall i, a | 0 <= i < |h.inner| && 0 <= a < |h.inner[i].instances| ensures (i, a) in Sources(h, order) {
      SourceOccurs(h, order, i, a);
    }
    forall k, l | 0 <= k < l < |Sources(h, order)| ensures Sources(h, order)[k] != Sources(h, order)[l] {
      SourceUnique(h, order, k, l);
    }
  }

  // Port "p" of instance "u" is on outer net "a"; the circuit of "u" has a
  // private signal that is also named "a".
  const SAME_NAME_INSIDE: Hierarchy<int> := Hierarchy(
    Netlist([Signal("a", 1)], map["a" := 0], [], {}, [Instance("u", 0, map["p" := ToSignal(0)])], {"u"}),
    [Netlist([Signal("p", 1), Signal("a", 1)], map["p" := 0, "a" := 1], [Port(0, NoDirection)], {}, [], {})])

  lemma SameNameOutsideIsValid()
    ensures SAME_NAME_INSIDE.outer.Valid()
  {
  }

  lemma SameNameInsideIsValid()
    ensures SAME_NAME_INSIDE.inner[0].Valid()
  {
  }

  lemma SameNameIsFlattenable()
    ensures SAME_NAME_INSIDE.Valid() && SAME_NAME_INSIDE.Flattenable(true)
  {
    hide Netlist.Valid;
    SameNameOutsideIsValid();
    SameNameInsideIsValid();
  }

  /**
   * Hygiene cannot be dropped: flattening takes the private signal for a
   * reference to the outer net and shorts the two.
   */
  lemma PrivateSignalIsCaptured()
    ensures
      var h := SAME_NAME_INSIDE;
      && h.Valid() && h.Flattenable(true)
      && IsNode(h, InnerNode(0, 0)) && IsNode(h, InnerNode(0, 1))
      && NameOf(h, true, InnerNode(0, 1)) == NameOf(h, true, InnerNode(0, 0)) == "a"
      && NetOf(h, InnerNode(0, 1)) != NetOf(h, InnerNode(0, 0))
      && !Hygienic(h, true)
  {
    var h := SAME_NAME_INSIDE;
    SameNameIsFlattenable();
    var ports := h.outer.instances[0].connections.Keys;
    assert "p" in ports && h.ExternalName(0, ports, "p") == "a";
    assert "a" !in ports && Captured(h, 0, 1);
    PrivateGetsPrefix(h, true, 0, 1);
  }
}
