// One level of hierarchy: a circuit together with the circuits its instances
// instantiate. What flattening makes of it, the nets its elaboration has, and
// when the two agree (src/circuit.cc, Circuit::Flatten).

module Hierarchies {
  import opened Netlists

  // `inner[i]` is the circuit instantiated by `outer.instances[i]`.
  datatype Hierarchy<M> = Hierarchy(outer: Netlist<M>, inner: seq<Netlist<M>>)
  {
    ghost predicate Valid() {
      && |inner| == |outer.instances|
      && outer.Valid()
      && forall i | 0 <= i < |inner| :: inner[i].Valid()
    }

    /** Every instance is connected through whole signals, to signals its circuit has. */
    ghost predicate WholeSignals() {
      && |inner| == |outer.instances|
      && forall i, p | 0 <= i < |inner| && p in outer.instances[i].connections ::
           outer.instances[i].connections[p].ToSignal? && p in inner[i].index
    }

    function Prefix(addPrefixes: bool, i: nat): string
      requires i < |outer.instances|
    {
      if addPrefixes then outer.instances[i].name else ""
    }

    /** The outer net on connected port `x` of instance `i`, or the name itself. */
    ghost function ExternalName(i: nat, done: set<string>, x: string): string
      requires Valid() && WholeSignals() && i < |inner|
    {
      if x in outer.instances[i].connections && x in done then
        assert outer.instances[i].connections[x].Below(|outer.signals|);
        outer.signals[outer.instances[i].connections[x].signal].name
      else x
    }

    /** The names of the outer nets that instance `i` is connected to. */
    ghost function Refs(i: nat): set<string>
      requires Valid() && WholeSignals() && i < |inner|
    {
      set x | x in outer.instances[i].connections :: ExternalName(i, outer.instances[i].connections.Keys, x)
    }

    ghost predicate Connected(i: nat, s: nat)
      requires i < |inner| && i < |outer.instances| && s < |inner[i].signals|
    {
      inner[i].signals[s].name in outer.instances[i].connections
    }

    /** The name of signal `s` of instance `i` in the flattened circuit. */
    ghost function FlatName(addPrefixes: bool, i: nat, s: nat): string
      requires Valid() && WholeSignals() && i < |inner| && s < |inner[i].signals|
    {
      var x := inner[i].signals[s].name;
      if Connected(i, s) then ExternalName(i, {x}, x)
      else if s in inner[i].globals then x
      else MapSignalNameForAdd(Prefix(addPrefixes, i), x, Refs(i))
    }

    function FlatInstanceName(addPrefixes: bool, i: nat, a: nat): string
      requires i < |inner| && i < |outer.instances| && a < |inner[i].instances|
    {
      MapSignalNameForAdd(Prefix(addPrefixes, i), inner[i].instances[a].name, {})
    }

    ghost function FlatNames(addPrefixes: bool, i: nat): set<string>
      requires Valid() && WholeSignals() && i < |inner|
    {
      set s | 0 <= s < |inner[i].signals| :: FlatName(addPrefixes, i, s)
    }

    /** Exactly when flattening is not fatal. */
    ghost predicate Flattenable(addPrefixes: bool) {
      && WholeSignals()
      && (forall i, a | 0 <= i < |inner| && 0 <= a < |inner[i].instances| :: !inner[i].HasConcatenation(a))
      && (forall i, a | 0 <= i < |inner| && 0 <= a < |inner[i].instances| ::
            FlatInstanceName(addPrefixes, i, a) !in outer.instanceNames)
      && (forall i, a, j, b | 0 <= i < |inner| && 0 <= a < |inner[i].instances|
                              && 0 <= j < |inner| && 0 <= b < |inner[j].instances| && (i, a) != (j, b) ::
            FlatInstanceName(addPrefixes, i, a) != FlatInstanceName(addPrefixes, j, b))
    }
  }

  // ---- the staging copy -------------------------------------------------

  ghost predicate ConnectionStaged<M>(m: Netlist<M>, c: Connection, staged: Netlist<M>, d: Connection)
    requires c.Below(|m.signals|)
  {
    && !c.ToConcatenation?
    && m.signals[c.signal].name in staged.index
    && var t := staged.index[m.signals[c.signal].name];
       d == if c.ToSignal? then ToSignal(t) else SliceOrSignal(t, c.low, c.high, m.signals[c.signal].width)
  }

  ghost predicate InstanceStaged<M>(m: Netlist<M>, a: Instance<M>, staged: Netlist<M>, b: Instance<M>)
    requires forall p | p in a.connections :: a.connections[p].Below(|m.signals|)
  {
    && b.name == a.name && b.master == a.master
    && b.connections.Keys == a.connections.Keys
    && forall p | p in a.connections :: ConnectionStaged(m, a.connections[p], staged, b.connections[p])
  }

  /** Entry `x` of the staging table finds the copy of signal `x`, under its current name. */
  ghost predicate EntryStaged<M>(h: Hierarchy<M>, i: nat, done: set<string>, staged: Netlist<M>, x: string)
    requires h.Valid() && h.WholeSignals() && i < |h.inner| && x in h.inner[i].index && x in staged.index
  {
    var m := h.inner[i];
    var t := staged.index[x];
    && t < |staged.signals|
    && staged.signals[t].name == h.ExternalName(i, done, x)
    && staged.signals[t].width == m.signals[m.index[x]].width
    && (t in staged.globals <==> m.index[x] in m.globals)
  }

  ghost predicate HasEntry<M>(n: Netlist<M>, t: nat) {
    exists x | x in n.index :: n.index[x] == t
  }

  ghost predicate HasPort<M>(n: Netlist<M>, t: nat) {
    exists p | p in n.ports :: p.signal == t
  }

  /** The copy of signal `x` is a port as long as `x` is one that is not connected yet. */
  ghost predicate PortStaged<M>(m: Netlist<M>, done: set<string>, staged: Netlist<M>, x: string)
    requires m.Bounded() && x in staged.index
  {
    HasPort(staged, staged.index[x]) <==> x in m.PortNames() && x !in done
  }

  /**
   * `staged` is a copy of the circuit of instance `i` in which the signals of
   * the ports in `done` carry the name of the outer net. Its name table is
   * untouched by the renaming: it still finds signals by their old names.
   */
  ghost predicate Staged<M>(h: Hierarchy<M>, i: nat, done: set<string>, staged: Netlist<M>)
    requires h.Valid() && h.WholeSignals() && i < |h.inner|
  {
    var m := h.inner[i];
    && staged.Bounded()
    && staged.index.Keys == m.index.Keys
    && (forall x | x in m.index :: EntryStaged(h, i, done, staged, x))
    && (forall x, y | x in m.index && y in m.index && x != y :: staged.index[x] != staged.index[y])
    && (forall t | 0 <= t < |staged.signals| :: HasEntry(staged, t))
    && (forall x | x in m.index :: PortStaged(m, done, staged, x))
    && |staged.instances| == |m.instances|
    && (forall a | 0 <= a < |m.instances| :: InstanceStaged(m, m.instances[a], staged, staged.instances[a]))
  }

  const EMPTY_NAMES: set<string> := {}

  lemma UnmappedNames<M>(m: Netlist<M>)
    requires m.Valid()
    ensures MappedNames(m, "", {}) == m.index.Keys
    ensures (set p | p in m.ports :: MapName(m, p.signal, "", {})) == m.PortNames()
  {
    forall s | 0 <= s < |m.signals| ensures MapName(m, s, "", {}) == m.signals[s].name {}
    forall x | x in m.index ensures x in MappedNames(m, "", {}) {
      assert MapName(m, m.index[x], "", {}) == x;
    }
    forall p | p in m.ports ensures MapName(m, p.signal, "", {}) == m.signals[p.signal].name {}
  }

  lemma MergedNames<M>(m: Netlist<M>, staged: Netlist<M>)
    requires m.Valid() && Merged(Netlist([], map[], [], {}, [], {}), m, "", {}, staged)
    ensures staged.index.Keys == m.index.Keys
    ensures staged.PortNames() == m.PortNames()
  {
    UnmappedNames(m);
    hide MapName, MappedNames, GlobalsMerged, WidthsCopied, InstancesMapped, PortsAfter, Netlist.Valid;
  }

  /** In a copy without prefix or references, signal `x` is the copy of signal `x`. */
  lemma CopyOf<M>(m: Netlist<M>, staged: Netlist<M>, x: string)
    requires m.Valid() && x in m.index && x in staged.index
    requires Merged(Netlist([], map[], [], {}, [], {}), m, "", {}, staged)
    ensures staged.index[x] < |staged.signals| && staged.signals[staged.index[x]].name == x
    ensures staged.signals[staged.index[x]].width == m.signals[m.index[x]].width
  {
    hide GlobalsMerged, PortsMerged, InstancesMapped, Netlist.PortNames;
    var t := staged.index[x];
    assert IsCopy(m, "", {}, staged.signals[t]);
    var s :| 0 <= s < |m.signals| && MapName(m, s, "", {}) == x && m.signals[s].width == staged.signals[t].width;
    assert s == m.index[x];
  }

  lemma CopyIsGlobal<M>(m: Netlist<M>, staged: Netlist<M>, x: string)
    requires m.Valid() && x in m.index && x in staged.index
    requires Merged(Netlist([], map[], [], {}, [], {}), m, "", {}, staged)
    ensures staged.index[x] in staged.globals <==> m.index[x] in m.globals
  {
    hide PortsMerged, InstancesMapped, Netlist.PortNames, WidthsCopied;
    var s, t := m.index[x], staged.index[x];
    if t in staged.globals {
      var g :| g in m.globals && staged.index[m.signals[g].name] == t;
      assert g == s;
    }
    if s in m.globals {
      assert m.signals[s].name !in EMPTY_NAMES && staged.index[m.signals[s].name] == t;
    }
  }

  lemma CopyIsPort<M>(m: Netlist<M>, staged: Netlist<M>, x: string)
    requires m.Valid() && x in m.index && x in staged.index
    requires Merged(Netlist([], map[], [], {}, [], {}), m, "", {}, staged)
    ensures HasPort(staged, staged.index[x]) <==> x in m.PortNames()
  {
    MergedNames(m, staged);
    hide GlobalsMerged, PortsMerged, InstancesMapped, WidthsCopied, MappedNames, Netlist.Valid;
    var t := staged.index[x];
    if HasPort(staged, t) {
      var p :| p in staged.ports && p.signal == t;
      assert staged.signals[p.signal].name in staged.PortNames();
    }
    if x in staged.PortNames() {
      var p :| p in staged.ports && staged.signals[p.signal].name == x;
      assert p.signal == t;
    }
  }

  lemma MergedEntry<M>(h: Hierarchy<M>, i: nat, staged: Netlist<M>, x: string)
    requires h.Valid() && h.WholeSignals() && i < |h.inner| && x in h.inner[i].index && x in staged.index
    requires Merged(Netlist([], map[], [], {}, [], {}), h.inner[i], "", {}, staged)
    ensures EntryStaged(h, i, {}, staged, x)
    ensures PortStaged(h.inner[i], {}, staged, x)
  {
    assert h.inner[i].Valid();
    hide Merged, Hierarchy.WholeSignals, Hierarchy.Valid, HasPort;
    CopyOf(h.inner[i], staged, x);
    CopyIsGlobal(h.inner[i], staged, x);
    CopyIsPort(h.inner[i], staged, x);
  }

  lemma MergedInstance<M>(m: Netlist<M>, staged: Netlist<M>, a: nat)
    requires m.Valid() && Merged(Netlist([], map[], [], {}, [], {}), m, "", {}, staged)
    requires a < |m.instances| && a < |staged.instances|
    requires forall s | 0 <= s < |m.signals| :: m.signals[s].name in staged.index
    requires forall s | 0 <= s < |m.signals| ::
               staged.signals[staged.index[m.signals[s].name]].width == m.signals[s].width
    ensures InstanceStaged(m, m.instances[a], staged, staged.instances[a])
  {
    assert InstanceMapped(m, m.instances[a], "", {}, staged, staged.instances[0..][a]);
    var b := staged.instances[a];
    forall p | p in m.instances[a].connections
      ensures ConnectionStaged(m, m.instances[a].connections[p], staged, b.connections[p])
    {
      var c := m.instances[a].connections[p];
      assert ConnectionMapped(m, c, "", {}, staged, b.connections[p]) && c.Below(|m.signals|);
    }
  }

  /** Merging a circuit into an empty one, without prefix, makes a staging copy. */
  lemma MergedIsStaged<M>(h: Hierarchy<M>, i: nat, staged: Netlist<M>)
    requires h.Valid() && h.WholeSignals() && i < |h.inner|
    requires Merged(Netlist([], map[], [], {}, [], {}), h.inner[i], "", {}, staged)
    ensures Staged(h, i, {}, staged)
  {
    var m := h.inner[i];
    MergedNames(m, staged);
    forall x | x in m.index ensures EntryStaged(h, i, {}, staged, x) && PortStaged(m, {}, staged, x) {
      MergedEntry(h, i, staged, x);
    }
    forall t | 0 <= t < |staged.signals| ensures HasEntry(staged, t) {
      assert staged.index[staged.signals[t].name] == t;
    }
    assert |staged.instances[0..]| == |m.instances|;
    forall s | 0 <= s < |m.signals|
      ensures m.signals[s].name in staged.index
      ensures staged.signals[staged.index[m.signals[s].name]].width == m.signals[s].width
    {
      assert EntryStaged(h, i, {}, staged, m.signals[s].name);
    }
    forall a | 0 <= a < |m.instances| ensures InstanceStaged(m, m.instances[a], staged, staged.instances[a]) {
      MergedInstance(m, staged, a);
    }
  }

  /** `after` is `n` without port `p`, whose signal now carries the name of the outer net. */
  ghost predicate IsPortRenaming<M>(h: Hierarchy<M>, i: nat, p: string, n: Netlist<M>, after: Netlist<M>)
    requires h.Valid() && h.WholeSignals() && i < |h.inner|
    requires n.Bounded()
  {
    && p in n.index && n.index[p] < |n.signals|
    && after == n.(signals := after.signals, ports := after.ports)
    && after.signals == n.signals[n.index[p] := n.signals[n.index[p]].(name := h.ExternalName(i, {p}, p))]
    && (forall q :: q in after.ports <==> q in n.ports && n.signals[q.signal].name != p)
  }

  lemma EntryRenamed<M>(h: Hierarchy<M>, i: nat, done: set<string>, p: string, n: Netlist<M>, after: Netlist<M>, x: string)
    requires h.Valid() && h.WholeSignals() && i < |h.inner| && n.Bounded()
    requires p !in done && IsPortRenaming(h, i, p, n, after)
    requires p in h.outer.instances[i].connections
    requires x in h.inner[i].index && x in n.index
    requires EntryStaged(h, i, done, n, x) && EntryStaged(h, i, done, n, p)
    requires PortStaged(h.inner[i], done, n, x)
    requires x != p ==> n.index[x] != n.index[p]
    ensures EntryStaged(h, i, done + {p}, after, x)
    ensures PortStaged(h.inner[i], done + {p}, after, x)
  {
    var t := n.index[x];
    if HasPort(after, t) {
      var q :| q in after.ports && q.signal == t;
      assert q in n.ports;
      assert HasPort(n, t);
    }
    if HasPort(n, t) && x != p {
      var q :| q in n.ports && q.signal == t;
      assert n.signals[t].name == x;
      assert q in after.ports;
    }
  }

  lemma InstancesUnaffected<M>(m: Netlist<M>, n: Netlist<M>, after: Netlist<M>)
    requires m.Bounded() && |n.instances| == |m.instances|
    requires after.instances == n.instances && after.index == n.index
    requires forall a | 0 <= a < |m.instances| :: InstanceStaged(m, m.instances[a], n, n.instances[a])
    ensures forall a | 0 <= a < |m.instances| :: InstanceStaged(m, m.instances[a], after, after.instances[a])
  {
    forall a | 0 <= a < |m.instances| ensures InstanceStaged(m, m.instances[a], after, after.instances[a]) {
      assert InstanceStaged(m, m.instances[a], n, n.instances[a]);
      forall q | q in m.instances[a].connections
        ensures ConnectionStaged(m, m.instances[a].connections[q], after, after.instances[a].connections[q])
      {
        assert ConnectionStaged(m, m.instances[a].connections[q], n, n.instances[a].connections[q]);
      }
    }
  }

  lemma RenamedBounded<M>(h: Hierarchy<M>, i: nat, p: string, n: Netlist<M>, after: Netlist<M>)
    requires h.Valid() && h.WholeSignals() && i < |h.inner| && n.Bounded()
    requires p in h.outer.instances[i].connections && IsPortRenaming(h, i, p, n, after)
    ensures after.Bounded()
  {
    assert h.ExternalName(i, {p}, p) != "" by {
      assert h.outer.instances[i].connections[p].Below(|h.outer.signals|);
    }
    forall a, q | 0 <= a < |after.instances| && q in after.instances[a].connections
      ensures after.instances[a].connections[q].Below(|after.signals|)
    {
      assert n.instances[a].connections[q].Below(|n.signals|);
    }
  }

  lemma SameEntries<M>(n: Netlist<M>, after: Netlist<M>)
    requires n.index == after.index && |n.signals| == |after.signals|
    requires forall t | 0 <= t < |n.signals| :: HasEntry(n, t)
    ensures forall t | 0 <= t < |after.signals| :: HasEntry(after, t)
  {
    forall t | 0 <= t < |after.signals| ensures HasEntry(after, t) {
      assert HasEntry(n, t);
      var x :| x in n.index && n.index[x] == t;
      assert after.index[x] == t;
    }
  }

  /** Renaming one more connected port brings the staging copy one step closer. */
  lemma PortRenamed<M>(h: Hierarchy<M>, i: nat, done: set<string>, p: string, n: Netlist<M>, after: Netlist<M>)
    requires h.Valid() && h.WholeSignals() && i < |h.inner|
    requires Staged(h, i, done, n)
    requires p in h.outer.instances[i].connections && p !in done
    requires IsPortRenaming(h, i, p, n, after)
    ensures Staged(h, i, done + {p}, after)
  {
    var m := h.inner[i];
    RenamedBounded(h, i, p, n, after);
    InstancesUnaffected(m, n, after);
    SameEntries(n, after);
    PortRenamedEntries(h, i, done, p, n, after);
    hide EntryStaged, PortStaged, HasEntry, InstanceStaged, Netlist.Bounded, Netlist.PortNames;
  }

  lemma PortRenamedEntries<M>(h: Hierarchy<M>, i: nat, done: set<string>, p: string, n: Netlist<M>, after: Netlist<M>)
    requires h.Valid() && h.WholeSignals() && i < |h.inner|
    requires Staged(h, i, done, n)
    requires p in h.outer.instances[i].connections && p !in done
    requires IsPortRenaming(h, i, p, n, after)
    ensures forall x | x in h.inner[i].index ::
              x in after.index && EntryStaged(h, i, done + {p}, after, x) && PortStaged(h.inner[i], done + {p}, after, x)
  {
    var m := h.inner[i];
    assert p in m.index;
    hide EntryStaged, PortStaged, HasEntry, InstanceStaged, Netlist.PortNames;
    forall x | x in m.index
      ensures EntryStaged(h, i, done + {p}, after, x)
      ensures PortStaged(m, done + {p}, after, x)
    {
      assert EntryStaged(h, i, done, n, x) && EntryStaged(h, i, done, n, p) && PortStaged(m, done, n, x);
      EntryRenamed(h, i, done, p, n, after, x);
    }
  }

  /** The state of the renaming loop, which means something only if all connections are whole signals. */
  ghost predicate StagedSoFar<M>(h: Hierarchy<M>, i: nat, done: set<string>, rewrites: set<string>, staged: Netlist<M>)
    requires h.Valid() && i < |h.inner|
  {
    h.WholeSignals() ==>
      && Staged(h, i, done, staged)
      && rewrites == RewritesFor(h, i, done)
  }

  ghost function RewritesFor<M>(h: Hierarchy<M>, i: nat, done: set<string>): set<string>
    requires h.Valid() && h.WholeSignals() && i < |h.inner|
  {
    set p | p in done :: h.ExternalName(i, done, p)
  }

  lemma RewritesOneMore<M>(h: Hierarchy<M>, i: nat, done: set<string>, p: string)
    requires h.Valid() && h.WholeSignals() && i < |h.inner|
    requires p !in done
    ensures RewritesFor(h, i, done + {p}) == RewritesFor(h, i, done) + {h.ExternalName(i, {p}, p)}
  {
    assert h.ExternalName(i, {p}, p) == h.ExternalName(i, done + {p}, p);
    forall q | q in done ensures h.ExternalName(i, done, q) == h.ExternalName(i, done + {p}, q) {}
  }

  /** A connection leads to an outer net, which has a name. */
  lemma OutsideName<M>(h: Hierarchy<M>, i: nat, p: string)
    requires h.Valid() && i < |h.inner| && p in h.outer.instances[i].connections
    requires h.outer.instances[i].connections[p].ToSignal?
    ensures h.outer.instances[i].connections[p].signal < |h.outer.signals|
    ensures h.outer.signals[h.outer.instances[i].connections[p].signal].name != ""
  {
    assert h.outer.instances[i].connections[p].Below(|h.outer.signals|);
  }

  lemma StagedOneMore<M>(
    h: Hierarchy<M>, i: nat, done: set<string>, rewrites: set<string>, p: string, outside: string,
    n: Netlist<M>, after: Netlist<M>)
    requires h.Valid() && i < |h.inner| && n.Bounded()
    requires StagedSoFar(h, i, done, rewrites, n)
    requires done <= h.outer.instances[i].connections.Keys
    requires p in h.outer.instances[i].connections && p !in done
    requires
      var c := h.outer.instances[i].connections[p];
      c.ToSignal? && c.signal < |h.outer.signals| && outside == h.outer.signals[c.signal].name
    requires p in n.index && n.index[p] < |n.signals|
    requires after == n.(signals := after.signals, ports := after.ports)
    requires after.signals == n.signals[n.index[p] := n.signals[n.index[p]].(name := outside)]
    requires forall q :: q in after.ports <==> q in n.ports && n.signals[q.signal].name != p
    ensures StagedSoFar(h, i, done + {p}, rewrites + {outside}, after)
  {
    if h.WholeSignals() {
      RewritesOneMore(h, i, done, p);
      assert IsPortRenaming(h, i, p, n, after);
      PortRenamed(h, i, done, p, n, after);
    }
  }

  // ---- the flattened circuit --------------------------------------------

  /** Where the instances of the flattened circuit come from: (outer instance, inner instance). */
  ghost function Sources<M>(h: Hierarchy<M>, visited: seq<nat>): seq<(nat, nat)>
    requires forall k | 0 <= k < |visited| :: visited[k] < |h.inner|
  {
    if visited == [] then []
    else
      var i := visited[|visited| - 1];
      Sources(h, visited[..|visited| - 1]) + seq(|h.inner[i].instances|, a requires a >= 0 => (i, a))
  }

  lemma {:induction false} SourcesInRange<M>(h: Hierarchy<M>, visited: seq<nat>)
    requires forall k | 0 <= k < |visited| :: visited[k] < |h.inner|
    ensures forall k | 0 <= k < |Sources(h, visited)| ::
              var (i, a) := Sources(h, visited)[k]; i in visited && a < |h.inner[i].instances|
  {
    if visited != [] {
      SourcesInRange(h, visited[..|visited| - 1]);
    }
  }

  ghost predicate ConnectionFlat<M>(
    h: Hierarchy<M>, addPrefixes: bool, i: nat, c: Connection, n: Netlist<M>, d: Connection)
    requires h.Valid() && h.WholeSignals() && i < |h.inner| && c.Below(|h.inner[i].signals|)
  {
    && !c.ToConcatenation?
    && h.FlatName(addPrefixes, i, c.signal) in n.index
    && var t := n.index[h.FlatName(addPrefixes, i, c.signal)];
       && t < |n.signals|
       && d == if c.ToSignal? || c.high - c.low + 1 == h.inner[i].signals[c.signal].width then ToSignal(t)
               else SliceOrSignal(t, c.low, c.high, n.signals[t].width)
  }

  /** `b` is instance `a` of the circuit of instance `i`, one level up. */
  ghost predicate InstanceFlat<M>(
    h: Hierarchy<M>, addPrefixes: bool, i: nat, a: nat, n: Netlist<M>, b: Instance<M>)
    requires h.Valid() && h.WholeSignals() && i < |h.inner| && a < |h.inner[i].instances|
  {
    var source := h.inner[i].instances[a];
    && b.name == h.FlatInstanceName(addPrefixes, i, a)
    && b.master == source.master
    && b.connections.Keys == source.connections.Keys
    && forall p | p in source.connections ::
         && source.connections[p].Below(|h.inner[i].signals|)
         && ConnectionFlat(h, addPrefixes, i, source.connections[p], n, b.connections[p])
  }

  ghost predicate InstancesFlat<M>(
    h: Hierarchy<M>, addPrefixes: bool, sources: seq<(nat, nat)>, n: Netlist<M>, flat: seq<Instance<M>>)
    requires h.Valid() && h.WholeSignals()
  {
    && |flat| == |sources|
    && forall k | 0 <= k < |sources| ::
         && sources[k].0 < |h.inner| && sources[k].1 < |h.inner[sources[k].0].instances|
         && InstanceFlat(h, addPrefixes, sources[k].0, sources[k].1, n, flat[k])
  }

  ghost function FlatInstanceNames<M>(h: Hierarchy<M>, addPrefixes: bool, i: nat): set<string>
    requires h.Valid() && i < |h.inner|
  {
    set a | 0 <= a < |h.inner[i].instances| :: h.FlatInstanceName(addPrefixes, i, a)
  }

  ghost function FlatPortNames<M>(h: Hierarchy<M>, addPrefixes: bool, i: nat): set<string>
    requires h.Valid() && h.WholeSignals() && i < |h.inner|
  {
    set p | p in h.inner[i].ports && !h.Connected(i, p.signal) :: h.FlatName(addPrefixes, i, p.signal)
  }

  ghost function FlatGlobals<M>(h: Hierarchy<M>, i: nat): set<string>
    requires h.Valid() && h.WholeSignals() && i < |h.inner|
  {
    set g | g in h.inner[i].globals && !h.Connected(i, g) && h.inner[i].signals[g].name !in h.Refs(i) ::
      h.inner[i].signals[g].name
  }

  // The names that flattening some instances adds to the outer circuit.
  datatype Added = Added(names: set<string>, instanceNames: set<string>, portNames: set<string>, globals: set<string>)

  ghost function AddedBy<M>(h: Hierarchy<M>, addPrefixes: bool, visited: seq<nat>): Added
    requires h.Valid() && h.WholeSignals() && forall k | 0 <= k < |visited| :: visited[k] < |h.inner|
  {
    if visited == [] then Added({}, {}, {}, {})
    else
      var i := visited[|visited| - 1];
      var before := AddedBy(h, addPrefixes, visited[..|visited| - 1]);
      Added(before.names + h.FlatNames(addPrefixes, i),
            before.instanceNames + FlatInstanceNames(h, addPrefixes, i),
            before.portNames + FlatPortNames(h, addPrefixes, i),
            before.globals + FlatGlobals(h, i))
  }

  /** The names in `n` are those of the outer circuit and those added. */
  ghost predicate NamesAre<M>(outer: Netlist<M>, added: Added, n: Netlist<M>)
    requires outer.Bounded() && n.Bounded()
  {
    && outer.signals <= n.signals
    && n.index.Keys == outer.index.Keys + added.names
    && n.instanceNames == outer.instanceNames + added.instanceNames
    && n.PortNames() == outer.PortNames() + added.portNames
  }

  /** The globals of `n` are those of the outer circuit and the signals of these names. */
  ghost predicate GlobalsAre<M>(outer: set<nat>, names: set<string>, n: Netlist<M>) {
    && outer <= n.globals
    && (forall x | x in names :: x in n.index && n.index[x] in n.globals)
    && (forall t | t in n.globals :: t in outer || exists x | x in names :: x in n.index && n.index[x] == t)
  }

  /**
   * `n` is the outer circuit after the instances in `visited` were flattened
   * into it, with `flat` the instances that gave.
   */
  ghost predicate FlatUpTo<M>(
    h: Hierarchy<M>, addPrefixes: bool, visited: seq<nat>, n: Netlist<M>, flat: seq<Instance<M>>)
    requires h.Valid() && h.WholeSignals() && forall k | 0 <= k < |visited| :: visited[k] < |h.inner|
  {
    && n.Bounded() && n.Indexed()
    && NamesAre(h.outer, AddedBy(h, addPrefixes, visited), n)
    && GlobalsAre(h.outer.globals, AddedBy(h, addPrefixes, visited).globals, n)
    && InstancesFlat(h, addPrefixes, Sources(h, visited), n, flat)
  }

  lemma StagedName<M>(h: Hierarchy<M>, addPrefixes: bool, i: nat, staged: Netlist<M>, x: string)
    requires h.Valid() && h.WholeSignals() && i < |h.inner|
    requires Staged(h, i, h.outer.instances[i].connections.Keys, staged)
    requires x in h.inner[i].index
    ensures staged.index[x] < |staged.signals|
    ensures MapName(staged, staged.index[x], h.Prefix(addPrefixes, i), h.Refs(i)) ==
            h.FlatName(addPrefixes, i, h.inner[i].index[x])
  {
    assert EntryStaged(h, i, h.outer.instances[i].connections.Keys, staged, x);
  }

  lemma StagedNames<M>(h: Hierarchy<M>, addPrefixes: bool, i: nat, staged: Netlist<M>)
    requires h.Valid() && h.WholeSignals() && i < |h.inner|
    requires Staged(h, i, h.outer.instances[i].connections.Keys, staged)
    ensures MappedNames(staged, h.Prefix(addPrefixes, i), h.Refs(i)) == h.FlatNames(addPrefixes, i)
    ensures MappedInstanceNames(staged, |staged.instances|, h.Prefix(addPrefixes, i)) == FlatInstanceNames(h, addPrefixes, i)
  {
    var m, prefix, refs := h.inner[i], h.Prefix(addPrefixes, i), h.Refs(i);
    forall y | y in MappedNames(staged, prefix, refs) ensures y in h.FlatNames(addPrefixes, i) {
      var t :| 0 <= t < |staged.signals| && MapName(staged, t, prefix, refs) == y;
      assert HasEntry(staged, t);
      var x :| x in staged.index && staged.index[x] == t;
      StagedName(h, addPrefixes, i, staged, x);
    }
    forall s | 0 <= s < |m.signals| ensures h.FlatName(addPrefixes, i, s) in MappedNames(staged, prefix, refs) {
      StagedName(h, addPrefixes, i, staged, m.signals[s].name);
    }
    forall a | 0 <= a < |m.instances| ensures staged.instances[a].name == m.instances[a].name {
      assert InstanceStaged(m, m.instances[a], staged, staged.instances[a]);
    }
    forall y | y in MappedInstanceNames(staged, |staged.instances|, prefix)
        ensures y in FlatInstanceNames(h, addPrefixes, i) {
      var a :| 0 <= a < |m.instances| && MapSignalNameForAdd(prefix, staged.instances[a].name, {}) == y;
      assert h.FlatInstanceName(addPrefixes, i, a) == y;
    }
    forall y | y in FlatInstanceNames(h, addPrefixes, i)
        ensures y in MappedInstanceNames(staged, |staged.instances|, prefix) {
      var a :| 0 <= a < |m.instances| && h.FlatInstanceName(addPrefixes, i, a) == y;
      assert MapSignalNameForAdd(prefix, staged.instances[a].name, {}) == y;
    }
  }

  lemma StagedPortNames<M>(h: Hierarchy<M>, addPrefixes: bool, i: nat, staged: Netlist<M>)
    requires h.Valid() && h.WholeSignals() && i < |h.inner|
    requires Staged(h, i, h.outer.instances[i].connections.Keys, staged)
    ensures (set p | p in staged.ports :: MapName(staged, p.signal, h.Prefix(addPrefixes, i), h.Refs(i))) ==
            FlatPortNames(h, addPrefixes, i)
  {
    var m, prefix, refs := h.inner[i], h.Prefix(addPrefixes, i), h.Refs(i);
    var done := h.outer.instances[i].connections.Keys;
    forall p | p in staged.ports ensures MapName(staged, p.signal, prefix, refs) in FlatPortNames(h, addPrefixes, i) {
      assert HasEntry(staged, p.signal);
      var x :| x in staged.index && staged.index[x] == p.signal;
      assert HasPort(staged, staged.index[x]) && PortStaged(m, done, staged, x);
      StagedName(h, addPrefixes, i, staged, x);
      var q :| q in m.ports && m.signals[q.signal].name == x;
      assert q.signal == m.index[x] && !h.Connected(i, q.signal);
    }
    forall q | q in m.ports && !h.Connected(i, q.signal)
      ensures exists p | p in staged.ports ::
                MapName(staged, p.signal, prefix, refs) == h.FlatName(addPrefixes, i, q.signal)
    {
      var x := m.signals[q.signal].name;
      assert x in m.PortNames() && PortStaged(m, done, staged, x);
      var p :| p in staged.ports && p.signal == staged.index[x];
      StagedName(h, addPrefixes, i, staged, x);
    }
  }

  lemma StagedGlobals<M>(
    h: Hierarchy<M>, i: nat, staged: Netlist<M>, n: Netlist<M>, after: Netlist<M>)
    requires h.Valid() && h.WholeSignals() && i < |h.inner| && n.Bounded()
    requires Staged(h, i, h.outer.instances[i].connections.Keys, staged)
    requires GlobalsMerged(n, staged, staged.globals, h.Refs(i), after)
    ensures forall t :: t in after.globals <==>
              || t in n.globals
              || exists x | x in FlatGlobals(h, i) :: x in after.index && after.index[x] == t
    ensures forall x | x in FlatGlobals(h, i) :: x in after.index
  {
    var m, done := h.inner[i], h.outer.instances[i].connections.Keys;
    forall t | t in after.globals && t !in n.globals
      ensures exists x | x in FlatGlobals(h, i) :: x in after.index && after.index[x] == t
    {
      var g :| g in staged.globals && staged.signals[g].name !in h.Refs(i) && after.index[staged.signals[g].name] == t;
      assert HasEntry(staged, g);
      var x :| x in staged.index && staged.index[x] == g;
      assert EntryStaged(h, i, done, staged, x);
      assert m.index[x] in m.globals && m.signals[m.index[x]].name == x;
      assert x in FlatGlobals(h, i);
    }
    forall x | x in FlatGlobals(h, i) ensures x in after.index && after.index[x] in after.globals {
      assert EntryStaged(h, i, done, staged, x);
      var g := staged.index[x];
      assert g in staged.globals && staged.signals[g].name == x;
    }
  }

  lemma InstanceStays<M>(
    h: Hierarchy<M>, addPrefixes: bool, i: nat, a: nat, n: Netlist<M>, after: Netlist<M>, b: Instance<M>)
    requires h.Valid() && h.WholeSignals() && i < |h.inner| && a < |h.inner[i].instances|
    requires n.Indexed() && after.Indexed() && n.signals <= after.signals
    requires InstanceFlat(h, addPrefixes, i, a, n, b)
    ensures InstanceFlat(h, addPrefixes, i, a, after, b)
  {
    var source := h.inner[i].instances[a];
    forall p | p in source.connections
      ensures ConnectionFlat(h, addPrefixes, i, source.connections[p], after, b.connections[p])
    {
      assert ConnectionFlat(h, addPrefixes, i, source.connections[p], n, b.connections[p]);
      var t := n.index[h.FlatName(addPrefixes, i, source.connections[p].signal)];
      assert after.signals[t] == n.signals[t];
    }
  }

  lemma InstanceArrives<M>(
    h: Hierarchy<M>, addPrefixes: bool, i: nat, a: nat, staged: Netlist<M>, after: Netlist<M>, b: Instance<M>)
    requires h.Valid() && h.WholeSignals() && i < |h.inner| && a < |h.inner[i].instances|
    requires Staged(h, i, h.outer.instances[i].connections.Keys, staged)
    requires InstanceMapped(staged, staged.instances[a], h.Prefix(addPrefixes, i), h.Refs(i), after, b)
    ensures InstanceFlat(h, addPrefixes, i, a, after, b)
  {
    var m := h.inner[i];
    var source, middle := m.instances[a], staged.instances[a];
    assert InstanceStaged(m, source, staged, middle);
    forall p | p in source.connections
      ensures source.connections[p].Below(|m.signals|)
      ensures ConnectionFlat(h, addPrefixes, i, source.connections[p], after, b.connections[p])
    {
      assert m.instances[a].connections[p].Below(|m.signals|);
      assert ConnectionStaged(m, source.connections[p], staged, middle.connections[p]);
      assert ConnectionMapped(staged, middle.connections[p], h.Prefix(addPrefixes, i), h.Refs(i), after, b.connections[p]);
      StagedName(h, addPrefixes, i, staged, m.signals[source.connections[p].signal].name);
    }
  }

  lemma NewInstancesArrive<M>(
    h: Hierarchy<M>, addPrefixes: bool, i: nat, staged: Netlist<M>, after: Netlist<M>, new_: seq<Instance<M>>)
    requires h.Valid() && h.WholeSignals() && i < |h.inner|
    requires Staged(h, i, h.outer.instances[i].connections.Keys, staged)
    requires InstancesMapped(staged, |staged.instances|, h.Prefix(addPrefixes, i), h.Refs(i), after, new_)
    ensures |new_| == |h.inner[i].instances|
    ensures forall a | 0 <= a < |new_| :: InstanceFlat(h, addPrefixes, i, a, after, new_[a])
  {
    forall a | 0 <= a < |new_| ensures InstanceFlat(h, addPrefixes, i, a, after, new_[a]) {
      InstanceArrives(h, addPrefixes, i, a, staged, after, new_[a]);
    }
  }

  lemma InstancesArrive<M>(
    h: Hierarchy<M>, addPrefixes: bool, visited: seq<nat>, i: nat, n: Netlist<M>,
    after: Netlist<M>, flat: seq<Instance<M>>, new_: seq<Instance<M>>)
    requires h.Valid() && h.WholeSignals() && i < |h.inner|
    requires forall k | 0 <= k < |visited| :: visited[k] < |h.inner|
    requires n.Indexed() && after.Indexed() && n.signals <= after.signals
    requires InstancesFlat(h, addPrefixes, Sources(h, visited), n, flat)
    requires |new_| == |h.inner[i].instances|
    requires forall a | 0 <= a < |new_| :: InstanceFlat(h, addPrefixes, i, a, after, new_[a])
    ensures InstancesFlat(h, addPrefixes, Sources(h, visited + [i]), after, flat + new_)
  {
    var sources, all := Sources(h, visited), Sources(h, visited + [i]);
    assert (visited + [i])[..|visited|] == visited;
    assert all == sources + seq(|h.inner[i].instances|, a requires a >= 0 => (i, a));
    forall k | 0 <= k < |all|
      ensures all[k].0 < |h.inner| && all[k].1 < |h.inner[all[k].0].instances|
      ensures InstanceFlat(h, addPrefixes, all[k].0, all[k].1, after, (flat + new_)[k])
    {
      if k < |sources| {
        assert all[k] == sources[k];
        InstanceStays(h, addPrefixes, sources[k].0, sources[k].1, n, after, flat[k]);
      } else {
        assert all[k] == (i, k - |sources|) && (flat + new_)[k] == new_[k - |sources|];
      }
    }
  }

  lemma GlobalsArrive<M>(outer: set<nat>, names: set<string>, more: set<string>, n: Netlist<M>, after: Netlist<M>)
    requires n.Indexed() && after.Indexed() && n.signals <= after.signals
    requires GlobalsAre(outer, names, n)
    requires forall t :: t in after.globals <==>
               t in n.globals || exists x | x in more :: x in after.index && after.index[x] == t
    requires forall x | x in more :: x in after.index
    ensures GlobalsAre(outer, names + more, after)
  {
    forall x | x in n.index ensures x in after.index && after.index[x] == n.index[x] {
      assert after.signals[n.index[x]].name == x;
    }
  }

  lemma AddedByOneMore<M>(h: Hierarchy<M>, addPrefixes: bool, visited: seq<nat>, i: nat)
    requires h.Valid() && h.WholeSignals() && i < |h.inner|
    requires forall k | 0 <= k < |visited| :: visited[k] < |h.inner|
    ensures
      var was := AddedBy(h, addPrefixes, visited);
      AddedBy(h, addPrefixes, visited + [i]) ==
        Added(was.names + h.FlatNames(addPrefixes, i), was.instanceNames + FlatInstanceNames(h, addPrefixes, i),
              was.portNames + FlatPortNames(h, addPrefixes, i), was.globals + FlatGlobals(h, i))
  {
    assert (visited + [i])[..|visited|] == visited;
  }

  lemma NamesArrive<M>(
    outer: Netlist<M>, was: Added, n: Netlist<M>, staged: Netlist<M>, prefix: string, refs: set<string>,
    after: Netlist<M>, now: Added)
    requires outer.Bounded() && n.Bounded() && staged.Bounded()
    requires NamesAre(outer, was, n) && Merged(n, staged, prefix, refs, after)
    requires now.names == was.names + MappedNames(staged, prefix, refs)
    requires now.instanceNames == was.instanceNames + MappedInstanceNames(staged, |staged.instances|, prefix)
    requires now.portNames == was.portNames + set p | p in staged.ports :: MapName(staged, p.signal, prefix, refs)
    ensures NamesAre(outer, now, after)
  {
    hide GlobalsMerged, WidthsCopied, InstancesMapped, PortsAfter, MapName, Netlist.Bounded;
    PrefixTransitive(outer.signals, n.signals, after.signals);
  }

  lemma NamesFlattened<M>(
    h: Hierarchy<M>, addPrefixes: bool, visited: seq<nat>, i: nat, n: Netlist<M>, staged: Netlist<M>,
    after: Netlist<M>, flat: seq<Instance<M>>)
    requires h.Valid() && h.WholeSignals() && i < |h.inner|
    requires forall k | 0 <= k < |visited| :: visited[k] < |h.inner|
    requires forall k | 0 <= k < |visited + [i]| :: (visited + [i])[k] < |h.inner|
    requires n.Bounded() && staged.Bounded() && n.instances <= after.instances
    requires FlatUpTo(h, addPrefixes, visited, n, flat)
    requires Staged(h, i, h.outer.instances[i].connections.Keys, staged)
    requires Merged(n, staged, h.Prefix(addPrefixes, i), h.Refs(i), after)
    ensures NamesAre(h.outer, AddedBy(h, addPrefixes, visited + [i]), after)
  {
    hide Staged, NamesAre, GlobalsAre, InstancesFlat, Merged, AddedBy, Sources, Hierarchy.WholeSignals;
    hide Netlist.Bounded, Netlist.Indexed, Netlist.InstancesNamed;
    AddedByOneMore(h, addPrefixes, visited, i);
    StagedNames(h, addPrefixes, i, staged);
    StagedPortNames(h, addPrefixes, i, staged);
    var was, now := AddedBy(h, addPrefixes, visited), AddedBy(h, addPrefixes, visited + [i]);
    NamesArrive(h.outer, was, n, staged, h.Prefix(addPrefixes, i), h.Refs(i), after, now);
  }

  lemma InstancesFlattened<M>(
    h: Hierarchy<M>, addPrefixes: bool, visited: seq<nat>, i: nat, n: Netlist<M>, staged: Netlist<M>,
    after: Netlist<M>, flat: seq<Instance<M>>)
    requires h.Valid() && h.WholeSignals() && i < |h.inner|
    requires forall k | 0 <= k < |visited| :: visited[k] < |h.inner|
    requires forall k | 0 <= k < |visited + [i]| :: (visited + [i])[k] < |h.inner|
    requires n.Bounded() && staged.Bounded() && n.instances <= after.instances
    requires FlatUpTo(h, addPrefixes, visited, n, flat)
    requires Staged(h, i, h.outer.instances[i].connections.Keys, staged)
    requires Merged(n, staged, h.Prefix(addPrefixes, i), h.Refs(i), after)
    ensures InstancesFlat(h, addPrefixes, Sources(h, visited + [i]), after, flat + after.instances[|n.instances|..])
  {
    var new_ := after.instances[|n.instances|..];
    NewInstancesArrive(h, addPrefixes, i, staged, after, new_);
    InstancesArrive(h, addPrefixes, visited, i, n, after, flat, new_);
  }

  lemma GlobalsFlattened<M>(
    h: Hierarchy<M>, addPrefixes: bool, visited: seq<nat>, i: nat, n: Netlist<M>, staged: Netlist<M>,
    after: Netlist<M>, flat: seq<Instance<M>>)
    requires h.Valid() && h.WholeSignals() && i < |h.inner|
    requires forall k | 0 <= k < |visited| :: visited[k] < |h.inner|
    requires forall k | 0 <= k < |visited + [i]| :: (visited + [i])[k] < |h.inner|
    requires n.Bounded() && staged.Bounded() && n.instances <= after.instances
    requires FlatUpTo(h, addPrefixes, visited, n, flat)
    requires Staged(h, i, h.outer.instances[i].connections.Keys, staged)
    requires Merged(n, staged, h.Prefix(addPrefixes, i), h.Refs(i), after)
    ensures GlobalsAre(h.outer.globals, AddedBy(h, addPrefixes, visited + [i]).globals, after)
  {
    AddedByOneMore(h, addPrefixes, visited, i);
    StagedGlobals(h, i, staged, n, after);
    GlobalsArrive(h.outer.globals, AddedBy(h, addPrefixes, visited).globals, FlatGlobals(h, i), n, after);
  }

  /** Merging the staging copy of one more instance flattens one more instance. */
  lemma InstanceFlattened<M>(
    h: Hierarchy<M>, addPrefixes: bool, visited: seq<nat>, i: nat, n: Netlist<M>, staged: Netlist<M>,
    after: Netlist<M>, flat: seq<Instance<M>>)
    requires h.Valid() && h.WholeSignals() && i < |h.inner|
    requires forall k | 0 <= k < |visited| :: visited[k] < |h.inner|
    requires forall k | 0 <= k < |visited + [i]| :: (visited + [i])[k] < |h.inner|
    requires n.Bounded() && staged.Bounded() && n.instances <= after.instances
    requires FlatUpTo(h, addPrefixes, visited, n, flat)
    requires Staged(h, i, h.outer.instances[i].connections.Keys, staged)
    requires Merged(n, staged, h.Prefix(addPrefixes, i), h.Refs(i), after)
    ensures FlatUpTo(h, addPrefixes, visited + [i], after, flat + after.instances[|n.instances|..])
  {
    NamesFlattened(h, addPrefixes, visited, i, n, staged, after, flat);
    InstancesFlattened(h, addPrefixes, visited, i, n, staged, after, flat);
    GlobalsFlattened(h, addPrefixes, visited, i, n, staged, after, flat);
  }

  // ---- when flattening is fatal -------------------------------------------

  /** The instances flattened so far have names that are distinct and were free. */
  ghost predicate NamesFree<M>(h: Hierarchy<M>, addPrefixes: bool, visited: seq<nat>)
    requires h.Valid() && forall k | 0 <= k < |visited| :: visited[k] < |h.inner|
  {
    && (forall i, a | i in visited && 0 <= a < |h.inner[i].instances| ::
          !h.inner[i].HasConcatenation(a) && h.FlatInstanceName(addPrefixes, i, a) !in h.outer.instanceNames)
    && (forall i, a, j, b | i in visited && 0 <= a < |h.inner[i].instances|
                            && j in visited && 0 <= b < |h.inner[j].instances| && (i, a) != (j, b) ::
          h.FlatInstanceName(addPrefixes, i, a) != h.FlatInstanceName(addPrefixes, j, b))
  }

  lemma {:induction false} AddedInstanceNames<M>(h: Hierarchy<M>, addPrefixes: bool, visited: seq<nat>, name: string)
    requires h.Valid() && h.WholeSignals() && forall k | 0 <= k < |visited| :: visited[k] < |h.inner|
    ensures name in AddedBy(h, addPrefixes, visited).instanceNames <==>
            exists i, a | i in visited && 0 <= a < |h.inner[i].instances| :: h.FlatInstanceName(addPrefixes, i, a) == name
  {
    if visited != [] {
      var last, front := visited[|visited| - 1], visited[..|visited| - 1];
      assert visited == front + [last];
      AddedInstanceNames(h, addPrefixes, front, name);
      if name in FlatInstanceNames(h, addPrefixes, last) {
        var a :| 0 <= a < |h.inner[last].instances| && h.FlatInstanceName(addPrefixes, last, a) == name;
        assert last in visited;
      }
    }
  }

  lemma StagedInstance<M>(m: Netlist<M>, a: Instance<M>, staged: Netlist<M>, b: Instance<M>)
    requires forall p | p in a.connections :: a.connections[p].Below(|m.signals|)
    requires InstanceStaged(m, a, staged, b)
    ensures a.name == b.name && forall p | p in b.connections :: !b.connections[p].ToConcatenation?
  {
    forall p | p in b.connections ensures !b.connections[p].ToConcatenation? {
      assert ConnectionStaged(m, a.connections[p], staged, b.connections[p]);
    }
  }

  lemma StagedNamesSame<M>(h: Hierarchy<M>, addPrefixes: bool, i: nat, staged: Netlist<M>)
    requires h.Valid() && h.WholeSignals() && i < |h.inner|
    requires Staged(h, i, h.outer.instances[i].connections.Keys, staged)
    ensures |staged.instances| == |h.inner[i].instances|
    ensures forall a | 0 <= a < |staged.instances| ::
              && !staged.HasConcatenation(a)
              && MapSignalNameForAdd(h.Prefix(addPrefixes, i), staged.instances[a].name, {}) ==
                 h.FlatInstanceName(addPrefixes, i, a)
  {
    var m := h.inner[i];
    assert m.Bounded();
    assert forall a | 0 <= a < |m.instances| :: InstanceStaged(m, m.instances[a], staged, staged.instances[a]);
    hide Staged, Hierarchy.Valid, Hierarchy.WholeSignals, InstanceStaged, EntryStaged, PortStaged, HasEntry;
    forall a | 0 <= a < |m.instances|
      ensures !staged.HasConcatenation(a) && staged.instances[a].name == m.instances[a].name
    {
      StagedInstance(m, m.instances[a], staged, staged.instances[a]);
    }
  }

  /** Merging one more staging copy succeeds exactly when its instance names are free. */
  lemma MergeSucceeds<M>(h: Hierarchy<M>, addPrefixes: bool, visited: seq<nat>, i: nat, staged: Netlist<M>)
    requires h.Valid() && h.WholeSignals() && i < |h.inner| && i !in visited
    requires forall k | 0 <= k < |visited| :: visited[k] < |h.inner|
    requires NamesFree(h, addPrefixes, visited)
    requires Staged(h, i, h.outer.instances[i].connections.Keys, staged)
    requires forall a | 0 <= a < |h.inner[i].instances| :: !h.inner[i].HasConcatenation(a)
    ensures CanMerge(staged, |staged.instances|, h.Prefix(addPrefixes, i),
                     h.outer.instanceNames + AddedBy(h, addPrefixes, visited).instanceNames)
            <==> NamesFree(h, addPrefixes, visited + [i])
  {
    StagedNamesSame(h, addPrefixes, i, staged);
    forall a | 0 <= a < |h.inner[i].instances|
      ensures h.FlatInstanceName(addPrefixes, i, a) in AddedBy(h, addPrefixes, visited).instanceNames <==>
              exists j, b | j in visited && 0 <= b < |h.inner[j].instances| ::
                h.FlatInstanceName(addPrefixes, j, b) == h.FlatInstanceName(addPrefixes, i, a)
    {
      AddedInstanceNames(h, addPrefixes, visited, h.FlatInstanceName(addPrefixes, i, a));
    }
    NamesFreeOneMore(h, addPrefixes, visited, i);
    if CanMerge(staged, |staged.instances|, h.Prefix(addPrefixes, i),
                h.outer.instanceNames + AddedBy(h, addPrefixes, visited).instanceNames) {
      forall a, b | 0 <= a < |h.inner[i].instances| && 0 <= b < |h.inner[i].instances| && a != b
        ensures h.FlatInstanceName(addPrefixes, i, a) != h.FlatInstanceName(addPrefixes, i, b)
      {
        var lo, hi := if a < b then a else b, if a < b then b else a;
        assert MapSignalNameForAdd(h.Prefix(addPrefixes, i), staged.instances[lo].name, {}) !=
               MapSignalNameForAdd(h.Prefix(addPrefixes, i), staged.instances[hi].name, {});
      }
      forall a | 0 <= a < |h.inner[i].instances|
        ensures h.FlatInstanceName(addPrefixes, i, a) !in
                h.outer.instanceNames + AddedBy(h, addPrefixes, visited).instanceNames
      {
        assert MapSignalNameForAdd(h.Prefix(addPrefixes, i), staged.instances[a].name, {}) ==
               h.FlatInstanceName(addPrefixes, i, a);
      }
    }
  }

  lemma NamesFreeOneMore<M>(h: Hierarchy<M>, addPrefixes: bool, visited: seq<nat>, i: nat)
    requires h.Valid() && i < |h.inner| && i !in visited
    requires forall k | 0 <= k < |visited| :: visited[k] < |h.inner|
    requires NamesFree(h, addPrefixes, visited)
    requires forall a | 0 <= a < |h.inner[i].instances| :: !h.inner[i].HasConcatenation(a)
    ensures NamesFree(h, addPrefixes, visited + [i]) <==>
              && (forall a | 0 <= a < |h.inner[i].instances| ::
                    h.FlatInstanceName(addPrefixes, i, a) !in h.outer.instanceNames)
              && (forall a, b | 0 <= a < |h.inner[i].instances| && 0 <= b < |h.inner[i].instances| && a != b ::
                    h.FlatInstanceName(addPrefixes, i, a) != h.FlatInstanceName(addPrefixes, i, b))
              && (forall a, j, b | 0 <= a < |h.inner[i].instances| && j in visited && 0 <= b < |h.inner[j].instances| ::
                    h.FlatInstanceName(addPrefixes, j, b) != h.FlatInstanceName(addPrefixes, i, a))
  {
    var all := visited + [i];
    assert i in all && forall j :: j in all <==> j in visited || j == i;
  }

  /** Instance `i` can be staged: whole-signal connections to its own signals, no concatenations inside. */
  ghost predicate Stageable<M>(h: Hierarchy<M>, i: nat)
    requires h.Valid() && i < |h.inner|
  {
    && (forall p | p in h.outer.instances[i].connections ::
          h.outer.instances[i].connections[p].ToSignal? && p in h.inner[i].index)
    && (forall a | 0 <= a < |h.inner[i].instances| :: !h.inner[i].HasConcatenation(a))
  }

  /** The state of the flattening loop, which means something only if all connections are whole signals. */
  ghost predicate FlatSoFar<M>(h: Hierarchy<M>, addPrefixes: bool, visited: seq<nat>, n: Netlist<M>)
    requires h.Valid() && forall k | 0 <= k < |visited| :: visited[k] < |h.inner|
  {
    && |h.outer.instances| <= |n.instances|
    && (h.WholeSignals() ==>
          && NamesFree(h, addPrefixes, visited)
          && FlatUpTo(h, addPrefixes, visited, n, n.instances[|h.outer.instances|..]))
  }

  lemma FlatStart<M>(h: Hierarchy<M>, addPrefixes: bool)
    requires h.Valid()
    ensures FlatSoFar(h, addPrefixes, [], h.outer)
  {
  }

  lemma NamesFreeAfterMerge<M>(
    h: Hierarchy<M>, addPrefixes: bool, visited: seq<nat>, i: nat, staged: Netlist<M>, n: Netlist<M>)
    requires h.Valid() && h.WholeSignals() && i < |h.inner| && i !in visited
    requires forall k | 0 <= k < |visited| :: visited[k] < |h.inner|
    requires FlatSoFar(h, addPrefixes, visited, n) && Stageable(h, i)
    requires Staged(h, i, h.outer.instances[i].connections.Keys, staged)
    ensures CanMerge(staged, |staged.instances|, h.Prefix(addPrefixes, i), n.instanceNames) <==>
            NamesFree(h, addPrefixes, visited + [i])
  {
    MergeSucceeds(h, addPrefixes, visited, i, staged);
  }

  lemma FlatAfterMerge<M>(
    h: Hierarchy<M>, addPrefixes: bool, visited: seq<nat>, i: nat, staged: Netlist<M>, n: Netlist<M>, after: Netlist<M>)
    requires h.Valid() && h.WholeSignals() && i < |h.inner|
    requires forall k | 0 <= k < |visited| :: visited[k] < |h.inner|
    requires forall k | 0 <= k < |visited + [i]| :: (visited + [i])[k] < |h.inner|
    requires n.Bounded() && staged.Bounded()
    requires FlatSoFar(h, addPrefixes, visited, n)
    requires Staged(h, i, h.outer.instances[i].connections.Keys, staged)
    requires Merged(n, staged, h.Prefix(addPrefixes, i), h.Refs(i), after)
    ensures |h.outer.instances| <= |after.instances|
    ensures FlatUpTo(h, addPrefixes, visited + [i], after, after.instances[|h.outer.instances|..])
  {
    var base := |h.outer.instances|;
    InstanceFlattened(h, addPrefixes, visited, i, n, staged, after, n.instances[base..]);
    SuffixGrows(n.instances, after.instances, base);
  }

  lemma SuffixGrows<T>(a: seq<T>, b: seq<T>, base: nat)
    requires base <= |a| && a <= b
    ensures b[base..] == a[base..] + b[|a|..]
  {
  }

  lemma NamesFreeNecessary<M>(h: Hierarchy<M>, addPrefixes: bool, visited: seq<nat>)
    requires h.Valid() && h.Flattenable(addPrefixes) && forall k | 0 <= k < |visited| :: visited[k] < |h.inner|
    ensures NamesFree(h, addPrefixes, visited)
  {
  }

  /**
   * What merging the staging copy of instance `i` decides: either one more
   * instance is flattened, or the hierarchy cannot be flattened in any order.
   */
  lemma MergeDecides<M>(
    h: Hierarchy<M>, addPrefixes: bool, visited: seq<nat>, i: nat, staged: Netlist<M>, rewrites: set<string>,
    n: Netlist<M>, after: Netlist<M>, merged: bool)
    requires h.Valid() && i < |h.inner| && i !in visited
    requires forall k | 0 <= k < |visited| :: visited[k] < |h.inner|
    requires n.Bounded() && staged.Bounded()
    requires FlatSoFar(h, addPrefixes, visited, n) && Stageable(h, i)
    requires StagedSoFar(h, i, h.outer.instances[i].connections.Keys, rewrites, staged)
    requires merged == CanMerge(staged, |staged.instances|, h.Prefix(addPrefixes, i), n.instanceNames)
    requires merged ==> Merged(n, staged, h.Prefix(addPrefixes, i), rewrites, after)
    ensures merged ==> FlatSoFar(h, addPrefixes, visited + [i], after)
    ensures !merged ==> !h.Flattenable(addPrefixes)
  {
    hide Staged, FlatUpTo, NamesFree, Grown, WidthsCopied, GlobalsMerged, PortsMerged, InstancesMapped, CanMerge, Stageable;
    hide Netlist.Bounded, Netlist.Indexed, Netlist.InstancesNamed, Hierarchy.WholeSignals;
    if h.WholeSignals() {
      NamesFreeAfterMerge(h, addPrefixes, visited, i, staged, n);
      if merged {
        FlatAfterMerge(h, addPrefixes, visited, i, staged, n, after);
      } else if h.Flattenable(addPrefixes) {
        NamesFreeNecessary(h, addPrefixes, visited + [i]);
      }
    }
  }

  lemma FlattenableWhenDone<M>(h: Hierarchy<M>, addPrefixes: bool, order: seq<nat>, n: Netlist<M>)
    requires h.Valid() && forall k | 0 <= k < |order| :: order[k] < |h.inner|
    requires forall i: nat | i < |h.inner| :: i in order
    requires forall i | 0 <= i < |h.inner| :: Stageable(h, i)
    requires FlatSoFar(h, addPrefixes, order, n)
    ensures h.Flattenable(addPrefixes)
  {
    forall i, p | 0 <= i < |h.inner| && p in h.outer.instances[i].connections
      ensures h.outer.instances[i].connections[p].ToSignal? && p in h.inner[i].index
    {
      assert Stageable(h, i);
    }
  }

  lemma PrefixTransitive<T>(a: seq<T>, b: seq<T>, c: seq<T>)
    requires a <= b <= c
    ensures a <= c
  {
  }
}
