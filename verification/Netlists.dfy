// The value of a circuit: its signals, ports, instances and lookup tables, and
// what it means to merge one circuit into another (src/circuit.h,
// src/circuit.cc). A pointer to a signal is its position in `signals`.

module Netlists {

  datatype Signal = Signal(name: string, width: nat)

  datatype Direction = Input | Output | Inout | NoDirection

  datatype Port = Port(signal: nat, direction: Direction)

  datatype Connection =
    | ToSignal(signal: nat)
    | ToSlice(signal: nat, low: int, high: int)
    | ToConcatenation
  {
    /** The signals this connection refers to are all below `n`. */
    predicate Below(n: nat) {
      ToConcatenation? || signal < n
    }
  }

  // `M` is the type of references to the circuit an instance instantiates.
  datatype Instance<M> = Instance(name: string, master: M, connections: map<string, Connection>)

  datatype Netlist<M> = Netlist(
    signals: seq<Signal>,
    index: map<string, nat>,
    ports: seq<Port>,
    globals: set<nat>,
    instances: seq<Instance<M>>,
    instanceNames: set<string>)
  {
    /** Every reference to a signal is to one of this circuit's own signals. */
    ghost predicate Bounded() {
      && (forall s | 0 <= s < |signals| :: signals[s].name != "")
      && (forall p | p in ports :: p.signal < |signals|)
      && (forall g | g in globals :: g < |signals|)
      && (forall i, p | 0 <= i < |instances| && p in instances[i].connections ::
            instances[i].connections[p].Below(|signals|))
    }

    /** The name table finds every signal by its own name, and nothing else. */
    ghost predicate Indexed() {
      && (forall x | x in index :: index[x] < |signals| && signals[index[x]].name == x)
      && (forall s | 0 <= s < |signals| :: signals[s].name in index && index[signals[s].name] == s)
    }

    /** Instance names are distinct and all reserved. */
    ghost predicate InstancesNamed() {
      && (forall i | 0 <= i < |instances| :: instances[i].name in instanceNames)
      && (forall i, j | 0 <= i < j < |instances| :: instances[i].name != instances[j].name)
    }

    ghost predicate Valid() {
      Bounded() && Indexed() && InstancesNamed()
    }

    ghost function PortNames(): set<string>
      requires Bounded()
    {
      set p | p in ports :: signals[p.signal].name
    }

    predicate HasPortNamed(name: string)
      requires forall p | p in ports :: p.signal < |signals|
    {
      exists p | p in ports :: signals[p.signal].name == name
    }

    predicate HasConcatenation(i: nat)
      requires i < |instances|
    {
      exists p | p in instances[i].connections :: instances[i].connections[p].ToConcatenation?
    }
  }

  function MapSignalNameForAdd(prefix: string, name: string, skip: set<string>): string {
    if prefix == "" || name in skip then name else prefix + "__" + name
  }

  /** The name under which signal `s` of `other` is known after it was merged. */
  function MapName<M>(other: Netlist<M>, s: nat, prefix: string, refs: set<string>): string
    requires s < |other.signals|
  {
    if s in other.globals then other.signals[s].name
    else MapSignalNameForAdd(prefix, other.signals[s].name, refs)
  }

  ghost function MappedNames<M>(other: Netlist<M>, prefix: string, refs: set<string>): set<string> {
    set s | 0 <= s < |other.signals| :: MapName(other, s, prefix, refs)
  }

  /** A slice of a whole signal is stored as a connection to that signal. */
  function SliceOrSignal(t: nat, low: int, high: int, width: nat): Connection {
    if high - low + 1 == width then ToSignal(t) else ToSlice(t, low, high)
  }

  /** A bit of its signal that a connection leads to, in a signal of this width. */
  predicate LeadsToBit(c: Connection, width: nat, bit: nat) {
    match c
    case ToSignal(_) => bit < width
    case ToSlice(_, low, high) => low <= bit <= high
    case ToConcatenation => false
  }

  /** A slice within its signal leads to the same bits, whichever way it is stored. */
  lemma SliceKeepsBits(t: nat, low: nat, high: nat, width: nat)
    requires low <= high < width
    ensures var c := SliceOrSignal(t, low, high, width);
            && !c.ToConcatenation? && c.signal == t
            && (c.ToSignal? <==> low == 0 && high == width - 1)
            && forall bit: nat :: LeadsToBit(c, width, bit) <==> low <= bit <= high
  {
  }

  ghost predicate ConnectionMapped<M>(
    other: Netlist<M>, c: Connection, prefix: string, refs: set<string>, after: Netlist<M>, d: Connection)
    requires c.Below(|other.signals|)
  {
    && !c.ToConcatenation?
    && MapName(other, c.signal, prefix, refs) in after.index
    && var t := after.index[MapName(other, c.signal, prefix, refs)];
       && t < |after.signals|
       && d == if c.ToSignal? then ToSignal(t)
               else SliceOrSignal(t, c.low, c.high, after.signals[t].width)
  }

  /** Instance `b` of `after` is the copy of instance `a` of `other`. */
  ghost predicate InstanceMapped<M>(
    other: Netlist<M>, a: Instance<M>, prefix: string, refs: set<string>, after: Netlist<M>, b: Instance<M>)
    requires forall p | p in a.connections :: a.connections[p].Below(|other.signals|)
  {
    && b.name == MapSignalNameForAdd(prefix, a.name, {})
    && b.master == a.master
    && b.connections.Keys == a.connections.Keys
    && forall p | p in a.connections ::
         ConnectionMapped(other, a.connections[p], prefix, refs, after, b.connections[p])
  }

  /** `copies` are the copies of the first `n` instances of `other`, in order. */
  ghost predicate InstancesMapped<M>(
    other: Netlist<M>, n: nat, prefix: string, refs: set<string>, after: Netlist<M>, copies: seq<Instance<M>>)
    requires other.Bounded() && n <= |other.instances|
  {
    && |copies| == n
    && forall a | 0 <= a < n ::
         InstanceMapped(other, other.instances[a], prefix, refs, after, copies[a])
  }

  lemma InstancesMappedStep<M>(
    other: Netlist<M>, n: nat, prefix: string, refs: set<string>, before: Netlist<M>, after: Netlist<M>,
    copies: seq<Instance<M>>, copy: Instance<M>)
    requires other.Bounded() && n < |other.instances|
    requires before.signals == after.signals && before.index == after.index
    requires InstancesMapped(other, n, prefix, refs, before, copies)
    requires InstanceMapped(other, other.instances[n], prefix, refs, after, copy)
    ensures InstancesMapped(other, n + 1, prefix, refs, after, copies + [copy])
    ensures MappedInstanceNames(other, n + 1, prefix) ==
            MappedInstanceNames(other, n, prefix) + {MapSignalNameForAdd(prefix, other.instances[n].name, {})}
  {
    forall a | 0 <= a < n ensures InstanceMapped(other, other.instances[a], prefix, refs, after, copies[a]) {
      forall p | p in other.instances[a].connections
        ensures ConnectionMapped(other, other.instances[a].connections[p], prefix, refs, after, copies[a].connections[p])
      {
        assert ConnectionMapped(other, other.instances[a].connections[p], prefix, refs, before, copies[a].connections[p]);
      }
    }
  }

  ghost function MappedInstanceNames<M>(other: Netlist<M>, n: nat, prefix: string): set<string>
    requires n <= |other.instances|
  {
    set a | 0 <= a < n :: MapSignalNameForAdd(prefix, other.instances[a].name, {})
  }

  /** `after` holds the signals of `before` where they were, and `names` besides. */
  ghost predicate Grown<M>(before: Netlist<M>, after: Netlist<M>, names: set<string>) {
    && before.signals <= after.signals
    && after.Indexed()
    && after.index.Keys == before.index.Keys + names
    && (forall s | 0 <= s < |after.signals| :: after.signals[s].name != "")
  }

  /** `n` with a signal of this name: the existing one, or else a new one. */
  function WithSignal<M>(n: Netlist<M>, name: string, width: nat): Netlist<M> {
    if name in n.index then n
    else n.(signals := n.signals + [Signal(name, width)], index := n.index[name := |n.signals|])
  }

  lemma WithSignalBounded<M>(n: Netlist<M>, name: string, width: nat)
    requires n.Bounded() && name != ""
    ensures WithSignal(n, name, width).Bounded()
  {
    var m := WithSignal(n, name, width);
    forall i, p | 0 <= i < |m.instances| && p in m.instances[i].connections
      ensures m.instances[i].connections[p].Below(|m.signals|)
    {
      assert n.instances[i].connections[p].Below(|n.signals|);
    }
  }

  lemma WithSignalIndexed<M>(n: Netlist<M>, name: string, width: nat)
    requires n.Indexed()
    ensures var m := WithSignal(n, name, width);
      && m.Indexed() && name in m.index && n.signals <= m.signals && m.index.Keys == n.index.Keys + {name}
      && forall x | x in n.index :: x in m.index && m.index[x] == n.index[x]
  {
  }

  lemma WithSignalGrows<M>(before: Netlist<M>, n: Netlist<M>, names: set<string>, name: string, width: nat)
    requires before.Indexed() && n.Valid() && Grown(before, n, names) && name != ""
    ensures var m := WithSignal(n, name, width);
      && m.Valid()
      && Grown(before, m, names + {name})
      && name in m.index
      && forall x | x in n.index :: x in m.index && m.index[x] == n.index[x]
  {
    WithSignalBounded(n, name, width);
    WithSignalIndexed(n, name, width);
    hide Netlist.Bounded, Netlist.Indexed;
  }

  /** `signal` has the mapped name and the width of some signal of `other`. */
  ghost predicate IsCopy<M>(other: Netlist<M>, prefix: string, refs: set<string>, signal: Signal) {
    exists s | 0 <= s < |other.signals| ::
      MapName(other, s, prefix, refs) == signal.name && other.signals[s].width == signal.width
  }

  /** Each signal that merging `other` created has the width of the one it copies. */
  ghost predicate WidthsCopied<M>(
    before: Netlist<M>, other: Netlist<M>, prefix: string, refs: set<string>, after: Netlist<M>)
  {
    forall k | |before.signals| <= k < |after.signals| :: IsCopy(other, prefix, refs, after.signals[k])
  }

  ghost predicate IsGlobalCopy<M>(other: Netlist<M>, signal: Signal)
    requires other.Bounded()
  {
    exists g | g in other.globals :: other.signals[g] == signal
  }

  /** Each new signal is a copy of a global signal of `other`. */
  ghost predicate CopiedFrom<M>(before: Netlist<M>, other: Netlist<M>, after: Netlist<M>)
    requires other.Bounded()
  {
    forall k | |before.signals| <= k < |after.signals| :: IsGlobalCopy(other, after.signals[k])
  }

  /** The globals `gs` of `other`, except those that refer to existing signals here. */
  ghost predicate GlobalsMerged<M>(
    before: Netlist<M>, other: Netlist<M>, gs: set<nat>, refs: set<string>, after: Netlist<M>)
    requires other.Bounded() && gs <= other.globals
  {
    && (forall g | g in gs :: other.signals[g].name in after.index)
    && forall t :: t in after.globals <==>
         || t in before.globals
         || exists g | g in gs :: other.signals[g].name !in refs && after.index[other.signals[g].name] == t
  }

  ghost function GlobalNames<M>(other: Netlist<M>, gs: set<nat>): set<string>
    requires other.Bounded() && gs <= other.globals
  {
    set g | g in gs :: other.signals[g].name
  }

  /** Marking one more global signal `g` of `other`, once its name is in the table. */
  lemma GlobalMarked<M>(
    before: Netlist<M>, other: Netlist<M>, done: set<nat>, g: nat, refs: set<string>, n: Netlist<M>, after: Netlist<M>)
    requires other.Bounded() && done <= other.globals && g in other.globals
    requires GlobalsMerged(before, other, done, refs, n)
    requires other.signals[g].name in after.index
    requires forall x | x in n.index :: x in after.index && after.index[x] == n.index[x]
    requires
      var name := other.signals[g].name;
      after.globals == if name in refs then n.globals else n.globals + {after.index[name]}
    ensures GlobalsMerged(before, other, done + {g}, refs, after)
  {
    forall t
      ensures t in after.globals <==>
                || t in before.globals
                || exists g' | g' in done + {g} :: other.signals[g'].name !in refs &&
                    after.index[other.signals[g'].name] == t
    {
      if t in n.globals && t !in before.globals {
        var g' :| g' in done && other.signals[g'].name !in refs && n.index[other.signals[g'].name] == t;
        assert g' in done + {g};
      } else if t in after.globals && t !in before.globals {
        assert g in done + {g};
      }
      if g' :| g' in done + {g} && other.signals[g'].name !in refs && after.index[other.signals[g'].name] == t {
        if g' in done {
          assert n.index[other.signals[g'].name] == t;
        }
      }
    }
  }

  lemma MarkedIsValid<M>(m: Netlist<M>, after: Netlist<M>, t: nat)
    requires m.Valid() && t < |m.signals| && after in {m, m.(globals := m.globals + {t})}
    ensures after.Valid()
  {
    assert after.Bounded() by {
      forall i, p | 0 <= i < |after.instances| && p in after.instances[i].connections
        ensures after.instances[i].connections[p].Below(|after.signals|)
      {
        assert m.instances[i].connections[p].Below(|m.signals|);
      }
    }
  }

  lemma GlobalCopied<M>(before: Netlist<M>, other: Netlist<M>, n: Netlist<M>, g: nat)
    requires other.Bounded() && g in other.globals && CopiedFrom(before, other, n)
    ensures CopiedFrom(before, other, WithSignal(n, other.signals[g].name, other.signals[g].width))
  {
    var m := WithSignal(n, other.signals[g].name, other.signals[g].width);
    forall k | |before.signals| <= k < |m.signals| ensures IsGlobalCopy(other, m.signals[k]) {
      if k < |n.signals| {
        assert m.signals[k] == n.signals[k];
      } else {
        assert other.signals[g] == m.signals[k];
      }
    }
  }

  lemma GlobalNamesStep<M>(other: Netlist<M>, done: set<nat>, g: nat)
    requires other.Bounded() && done <= other.globals && g in other.globals
    ensures other.signals[g].name != ""
    ensures GlobalNames(other, done + {g}) == GlobalNames(other, done) + {other.signals[g].name}
  {
  }

  /** One more global signal `g` of `other`: find or add it, and mark it global. */
  lemma GlobalStep<M>(
    before: Netlist<M>, other: Netlist<M>, done: set<nat>, g: nat, refs: set<string>, n: Netlist<M>, after: Netlist<M>)
    requires before.Indexed() && other.Bounded() && n.Valid()
    requires done <= other.globals && g in other.globals
    requires Grown(before, n, GlobalNames(other, done)) && CopiedFrom(before, other, n)
    requires GlobalsMerged(before, other, done, refs, n)
    requires
      var name := other.signals[g].name;
      var m := WithSignal(n, name, other.signals[g].width);
      after == if name in refs then m else m.(globals := m.globals + {m.index[name]})
    ensures after.Valid()
    ensures Grown(before, after, GlobalNames(other, done + {g})) && CopiedFrom(before, other, after)
    ensures GlobalsMerged(before, other, done + {g}, refs, after)
  {
    var name := other.signals[g].name;
    var m := WithSignal(n, name, other.signals[g].width);
    GlobalNamesStep(other, done, g);
    WithSignalGrows(before, n, GlobalNames(other, done), name, other.signals[g].width);
    GlobalCopied(before, other, n, g);
    assert m.globals == n.globals;
    hide WithSignal, GlobalNames, GlobalsMerged, IsGlobalCopy;
    MarkedIsValid(m, after, m.index[name]);
    GlobalMarked(before, other, done, g, refs, n, after);
    SameSignalsGrown(before, m, after, GlobalNames(other, done + {g}));
    hide Netlist.Bounded, Netlist.Indexed, Grown;
  }

  lemma SameSignalsGrown<M>(before: Netlist<M>, m: Netlist<M>, after: Netlist<M>, names: set<string>)
    requires Grown(before, m, names) && after.signals == m.signals && after.index == m.index
    ensures Grown(before, after, names)
  {
  }

  lemma GlobalsStable<M>(
    before: Netlist<M>, other: Netlist<M>, refs: set<string>, n: Netlist<M>, after: Netlist<M>)
    requires other.Bounded()
    requires GlobalsMerged(before, other, other.globals, refs, n)
    requires after.globals == n.globals
    requires forall x | x in n.index :: x in after.index && after.index[x] == n.index[x]
    ensures GlobalsMerged(before, other, other.globals, refs, after)
  {
    forall t
      ensures t in after.globals <==>
                || t in before.globals
                || exists g | g in other.globals :: other.signals[g].name !in refs && after.index[other.signals[g].name] == t
    {
      if g :| g in other.globals && other.signals[g].name !in refs && after.index[other.signals[g].name] == t {
        assert n.index[other.signals[g].name] == t;
      }
      if g :| g in other.globals && other.signals[g].name !in refs && n.index[other.signals[g].name] == t {
        assert after.index[other.signals[g].name] == t;
      }
    }
  }

  /** The names of the globals of `other` and of its first `k` signals, once merged. */
  ghost function NamesUpTo<M>(other: Netlist<M>, k: nat, prefix: string, refs: set<string>): set<string>
    requires k <= |other.signals|
  {
    set s | 0 <= s < |other.signals| && (s < k || s in other.globals) :: MapName(other, s, prefix, refs)
  }

  lemma NamesUpToStep<M>(other: Netlist<M>, k: nat, prefix: string, refs: set<string>)
    requires k < |other.signals|
    ensures NamesUpTo(other, k + 1, prefix, refs) == NamesUpTo(other, k, prefix, refs) + {MapName(other, k, prefix, refs)}
  {
    var a, b := NamesUpTo(other, k, prefix, refs), NamesUpTo(other, k + 1, prefix, refs);
    forall x | x in b ensures x in a + {MapName(other, k, prefix, refs)} {
      var s :| 0 <= s < |other.signals| && (s < k + 1 || s in other.globals) && MapName(other, s, prefix, refs) == x;
      if s != k {
        assert s < k || s in other.globals;
      }
    }
  }

  lemma GlobalsFirst<M>(before: Netlist<M>, other: Netlist<M>, prefix: string, refs: set<string>, after: Netlist<M>)
    requires other.Bounded() && CopiedFrom(before, other, after)
    ensures WidthsCopied(before, other, prefix, refs, after)
    ensures GlobalNames(other, other.globals) == NamesUpTo(other, 0, prefix, refs)
  {
    forall k | |before.signals| <= k < |after.signals|
      ensures IsCopy(other, prefix, refs, after.signals[k])
    {
      assert IsGlobalCopy(other, after.signals[k]);
      var g :| g in other.globals && other.signals[g] == after.signals[k];
      assert MapName(other, g, prefix, refs) == after.signals[k].name;
    }
    forall g | g in other.globals ensures other.signals[g].name in NamesUpTo(other, 0, prefix, refs) {
      assert MapName(other, g, prefix, refs) == other.signals[g].name;
    }
    forall x | x in NamesUpTo(other, 0, prefix, refs) ensures x in GlobalNames(other, other.globals) {
      var s :| 0 <= s < |other.signals| && s in other.globals && MapName(other, s, prefix, refs) == x;
    }
  }

  /** One more signal `k` of `other`: find or add it under its mapped name. */
  lemma SignalStep<M>(
    before: Netlist<M>, other: Netlist<M>, k: nat, prefix: string, refs: set<string>, n: Netlist<M>, after: Netlist<M>)
    requires before.Indexed() && other.Bounded() && n.Valid() && k < |other.signals|
    requires Grown(before, n, NamesUpTo(other, k, prefix, refs)) && WidthsCopied(before, other, prefix, refs, n)
    requires GlobalsMerged(before, other, other.globals, refs, n)
    requires after == if k in other.globals then n
                      else WithSignal(n, MapName(other, k, prefix, refs), other.signals[k].width)
    ensures after.Valid()
    ensures Grown(before, after, NamesUpTo(other, k + 1, prefix, refs)) && WidthsCopied(before, other, prefix, refs, after)
    ensures GlobalsMerged(before, other, other.globals, refs, after)
  {
    NamesUpToStep(other, k, prefix, refs);
    var name := MapName(other, k, prefix, refs);
    if k in other.globals {
      assert name in NamesUpTo(other, k, prefix, refs);
    } else {
      assert name != "";
      WithSignalGrows(before, n, NamesUpTo(other, k, prefix, refs), name, other.signals[k].width);
      GlobalsStable(before, other, refs, n, after);
      forall i | |before.signals| <= i < |after.signals|
        ensures IsCopy(other, prefix, refs, after.signals[i])
      {
        if i < |n.signals| {
          assert after.signals[i] == n.signals[i];
        } else {
          assert MapName(other, k, prefix, refs) == after.signals[i].name;
        }
      }
    }
  }

  ghost function MappedPortNames<M>(other: Netlist<M>, k: nat, prefix: string, refs: set<string>): set<string>
    requires other.Bounded() && k <= |other.ports|
  {
    set j | 0 <= j < k :: MapName(other, other.ports[j].signal, prefix, refs)
  }

  lemma NoPortNames<M>(other: Netlist<M>, prefix: string, refs: set<string>)
    requires other.Bounded()
    ensures MappedPortNames(other, 0, prefix, refs) == {}
  {
  }

  lemma MappedPortNamesStep<M>(other: Netlist<M>, k: nat, prefix: string, refs: set<string>)
    requires other.Bounded() && k < |other.ports|
    ensures other.ports[k].signal < |other.signals|
    ensures MappedPortNames(other, k + 1, prefix, refs) ==
            MappedPortNames(other, k, prefix, refs) + {MapName(other, other.ports[k].signal, prefix, refs)}
    ensures MapName(other, other.ports[k].signal, prefix, refs) in MappedNames(other, prefix, refs)
  {
    assert other.ports[k] in other.ports;
  }

  lemma MappedPortNamesAll<M>(other: Netlist<M>, prefix: string, refs: set<string>)
    requires other.Bounded()
    ensures MappedPortNames(other, |other.ports|, prefix, refs) ==
            set p | p in other.ports :: MapName(other, p.signal, prefix, refs)
  {
    forall p | p in other.ports
      ensures MapName(other, p.signal, prefix, refs) in MappedPortNames(other, |other.ports|, prefix, refs)
    {
      var j :| 0 <= j < |other.ports| && other.ports[j] == p;
    }
  }

  ghost predicate NameTaken(signals: seq<Signal>, ports: seq<Port>, name: string) {
    exists p | p in ports :: p.signal < |signals| && signals[p.signal].name == name
  }

  /**
   * The ports once the first `k` of `other` were added: in order, each on its
   * merged signal and in its direction, unless a port of that name is there.
   */
  ghost function PortsAfter<M>(
    signals: seq<Signal>, index: map<string, nat>, ports: seq<Port>,
    other: Netlist<M>, k: nat, prefix: string, refs: set<string>): seq<Port>
    requires other.Bounded() && k <= |other.ports|
  {
    if k == 0 then ports
    else
      var before, p := PortsAfter(signals, index, ports, other, k - 1, prefix, refs), other.ports[k - 1];
      var name := MapName(other, p.signal, prefix, refs);
      if NameTaken(signals, before, name) || name !in index then before else before + [Port(index[name], p.direction)]
  }

  lemma NoPortsAdded<M>(n: Netlist<M>, other: Netlist<M>, prefix: string, refs: set<string>)
    requires other.Bounded()
    ensures PortsAfter(n.signals, n.index, n.ports, other, 0, prefix, refs) == n.ports
  {
  }

  lemma PortsAfterOneMore<M>(n: Netlist<M>, start: seq<Port>, other: Netlist<M>, k: nat, prefix: string, refs: set<string>)
    requires n.Bounded() && n.Indexed() && other.Bounded() && k < |other.ports|
    requires n.ports == PortsAfter(n.signals, n.index, start, other, k, prefix, refs)
    requires other.ports[k].signal < |other.signals| && MapName(other, other.ports[k].signal, prefix, refs) in n.index
    ensures
      var s := n.index[MapName(other, other.ports[k].signal, prefix, refs)];
      s < |n.signals| && n.signals[s].name == MapName(other, other.ports[k].signal, prefix, refs)
    ensures
      var name := MapName(other, other.ports[k].signal, prefix, refs);
      PortsAfter(n.signals, n.index, start, other, k + 1, prefix, refs) ==
      if n.HasPortNamed(name) then n.ports else n.ports + [Port(n.index[name], other.ports[k].direction)]
  {
  }

  /** The ports whose signal does not have the name, in order. */
  ghost function PortsWithout(ports: seq<Port>, signals: seq<Signal>, name: string): (r: seq<Port>)
    requires forall p | p in ports :: p.signal < |signals|
    ensures forall p :: p in r <==> p in ports && signals[p.signal].name != name
  {
    if ports == [] then []
    else
      var front, last := PortsWithout(ports[..|ports| - 1], signals, name), ports[|ports| - 1];
      if signals[last.signal].name != name then front + [last] else front
  }

  ghost predicate PortsMerged<M>(
    before: Netlist<M>, other: Netlist<M>, prefix: string, refs: set<string>, after: Netlist<M>)
    requires before.Bounded() && other.Bounded() && after.Bounded()
  {
    && before.ports <= after.ports
    && after.ports == PortsAfter(after.signals, after.index, before.ports, other, |other.ports|, prefix, refs)
    && after.PortNames() == before.PortNames() +
         set p | p in other.ports :: MapName(other, p.signal, prefix, refs)
  }

  /** The whole effect of merging `other` into `before` under a name prefix. */
  ghost predicate Merged<M>(
    before: Netlist<M>, other: Netlist<M>, prefix: string, refs: set<string>, after: Netlist<M>)
    requires before.Bounded() && other.Bounded()
  {
    && after.Bounded()
    && Grown(before, after, MappedNames(other, prefix, refs))
    && WidthsCopied(before, other, prefix, refs, after)
    && GlobalsMerged(before, other, other.globals, refs, after)
    && PortsMerged(before, other, prefix, refs, after)
    && before.instances <= after.instances
    && InstancesMapped(other, |other.instances|, prefix, refs, after, after.instances[|before.instances|..])
    && after.instanceNames == before.instanceNames + MappedInstanceNames(other, |other.instances|, prefix)
  }

  lemma MergedNamesKnown<M>(before: Netlist<M>, after: Netlist<M>, names: set<string>)
    requires Grown(before, after, names)
    ensures names <= after.index.Keys
  {
  }

  lemma SamePortNames<M>(before: Netlist<M>, after: Netlist<M>)
    requires before.Bounded() && after.Bounded() && before.signals <= after.signals && before.ports == after.ports
    ensures before.PortNames() == after.PortNames()
  {
    assert forall p | p in before.ports :: before.signals[p.signal].name == after.signals[p.signal].name;
  }

  /** Signals, then ports, then instances: together that is the merge. */
  lemma MergedInSteps<M>(
    before: Netlist<M>, merged: Netlist<M>, ported: Netlist<M>, after: Netlist<M>,
    other: Netlist<M>, prefix: string, refs: set<string>)
    requires before.Bounded() && other.Bounded() && merged.Bounded() && ported.Bounded() && after.Bounded()
    requires merged.ports == before.ports && merged.instances == before.instances
    requires merged.instanceNames == before.instanceNames
    requires Grown(before, merged, MappedNames(other, prefix, refs)) && WidthsCopied(before, other, prefix, refs, merged)
    requires GlobalsMerged(before, other, other.globals, refs, merged)
    requires ported == merged.(ports := ported.ports) && PortsMerged(merged, other, prefix, refs, ported)
    requires after == ported.(instances := after.instances, instanceNames := after.instanceNames)
    requires before.instances <= after.instances
    requires InstancesMapped(other, |other.instances|, prefix, refs, after, after.instances[|before.instances|..])
    requires after.instanceNames == before.instanceNames + MappedInstanceNames(other, |other.instances|, prefix)
    ensures Merged(before, other, prefix, refs, after)
  {
    assert before.signals <= merged.signals;
    SamePortNames(before, merged);
    SamePortNames(ported, after);
    assert WidthsCopied(before, other, prefix, refs, after);
    assert Grown(before, after, MappedNames(other, prefix, refs));
    assert GlobalsMerged(before, other, other.globals, refs, after);
    hide Netlist.Bounded, Netlist.PortNames, InstancesMapped, Grown, WidthsCopied, GlobalsMerged, PortsAfter;
  }

  /** Exactly when merging the first `n` instances of `other` is not fatal. */
  ghost predicate CanMerge<M>(other: Netlist<M>, n: nat, prefix: string, taken: set<string>)
    requires n <= |other.instances|
  {
    && (forall a | 0 <= a < n :: !other.HasConcatenation(a))
    && (forall a | 0 <= a < n :: MapSignalNameForAdd(prefix, other.instances[a].name, {}) !in taken)
    && (forall a, b | 0 <= a < b < n ::
          MapSignalNameForAdd(prefix, other.instances[a].name, {}) !=
          MapSignalNameForAdd(prefix, other.instances[b].name, {}))
  }

  lemma NothingMergedYet<M>(other: Netlist<M>, prefix: string, refs: set<string>, taken: set<string>, n: Netlist<M>)
    requires other.Bounded()
    ensures CanMerge(other, 0, prefix, taken)
    ensures InstancesMapped(other, 0, prefix, refs, n, [])
    ensures MappedInstanceNames(other, 0, prefix) == {}
  {
  }

  /** What the check of instance `n` decides about merging the first `n + 1`. */
  lemma CanMergeStep<M>(other: Netlist<M>, n: nat, prefix: string, taken: set<string>)
    requires n < |other.instances| && CanMerge(other, n, prefix, taken)
    ensures
      var name := MapSignalNameForAdd(prefix, other.instances[n].name, {});
      CanMerge(other, n + 1, prefix, taken) <==>
        !other.HasConcatenation(n) && name !in taken + MappedInstanceNames(other, n, prefix)
    ensures CanMerge(other, |other.instances|, prefix, taken) ==> CanMerge(other, n + 1, prefix, taken)
  {
    var name := MapSignalNameForAdd(prefix, other.instances[n].name, {});
    if name in MappedInstanceNames(other, n, prefix) {
      var a :| 0 <= a < n && MapSignalNameForAdd(prefix, other.instances[a].name, {}) == name;
      assert !CanMerge(other, n + 1, prefix, taken);
    } else {
      forall a | 0 <= a < n ensures MapSignalNameForAdd(prefix, other.instances[a].name, {}) != name {
        assert MapSignalNameForAdd(prefix, other.instances[a].name, {}) in MappedInstanceNames(other, n, prefix);
      }
    }
  }

  /** Connecting the newest instance to merged signals keeps a circuit valid. */
  lemma NewestReconnected<M>(
    other: Netlist<M>, i: nat, prefix: string, refs: set<string>, n: Netlist<M>, after: Netlist<M>)
    requires other.Bounded() && i < |other.instances| && n.Valid() && n.instances != []
    requires
      var last := |n.instances| - 1;
      && |after.instances| == last + 1
      && after == n.(instances := after.instances)
      && after.instances[..last] == n.instances[..last]
      && after.instances[last].name == n.instances[last].name
      && after.instances[last].connections.Keys == other.instances[i].connections.Keys
      && forall p | p in other.instances[i].connections ::
           ConnectionMapped(other, other.instances[i].connections[p], prefix, refs, after,
               after.instances[last].connections[p])
    ensures after.Valid()
  {
    var last := |n.instances| - 1;
    assert forall j | 0 <= j < last :: after.instances[j] == after.instances[..last][j] == n.instances[j];
    forall j, p | 0 <= j < |after.instances| && p in after.instances[j].connections
      ensures after.instances[j].connections[p].Below(|after.signals|)
    {
      if j < last {
        assert n.instances[j].connections[p].Below(|n.signals|);
      } else {
        assert ConnectionMapped(other, other.instances[i].connections[p], prefix, refs, after,
            after.instances[last].connections[p]);
      }
    }
  }
}
