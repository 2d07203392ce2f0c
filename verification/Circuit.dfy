// Circuit (src/circuit.h, src/circuit.cc): building a circuit, merging another
// circuit into it, and flattening one level of hierarchy. An operation that
// aborts the program in the source (LOG(FATAL)) returns `ok == false`.

module Circuits {
  import opened Names
  import opened Netlists
  import opened Hierarchies
  import opened Connectivity

  const DEFAULT_NET_PREFIX := "n_"

  class Circuit {
    var signals: seq<Signal>
    var signalsByName: map<string, nat>
    var ports: seq<Port>
    var globals: set<nat>
    var instances: seq<Instance<Circuit>>
    var instanceNames: set<string>
    var unnamedNetCount: nat

    ghost function Value(): Netlist<Circuit>
      reads this
    {
      Netlist(signals, signalsByName, ports, globals, instances, instanceNames)
    }

    ghost predicate Valid()
      reads this
    {
      Value().Valid()
    }

    constructor ()
      ensures Valid()
      ensures Value() == Netlist([], map[], [], {}, [], {})
    {
      signals, signalsByName, ports, globals := [], map[], [], {};
      instances, instanceNames, unnamedNetCount := [], {}, 0;
    }

    method GenerateDefaultName() returns (name: string)
      modifies this`unnamedNetCount
      ensures name == DEFAULT_NET_PREFIX + Decimal(old(unnamedNetCount))
      ensures unnamedNetCount == old(unnamedNetCount) + 1
    {
      name := DEFAULT_NET_PREFIX + Decimal(unnamedNetCount);
      unnamedNetCount := unnamedNetCount + 1;
    }

    method AddSignal(name: string, width: nat) returns (ok: bool, signal: nat)
      requires Value().Indexed()
      modifies this`signals, this`signalsByName, this`unnamedNetCount
      ensures Value().Indexed()
      ensures
        var mapped := if name == "" then DEFAULT_NET_PREFIX + Decimal(old(unnamedNetCount)) else name;
        && ok == (mapped !in old(signalsByName))
        && if ok then
             && signal == |old(signals)|
             && signals == old(signals) + [Signal(mapped, width)]
             && signalsByName == old(signalsByName)[mapped := signal]
           else
             signals == old(signals) && signalsByName == old(signalsByName)
    {
      var mapped := name;
      if name == "" {
        mapped := GenerateDefaultName();
      }
      if mapped in signalsByName {
        return false, 0;
      }
      ok, signal := true, |signals|;
      signals := signals + [Signal(mapped, width)];
      signalsByName := signalsByName[mapped := signal];
    }

    /** Finds the signal of this name, or adds it; an existing width is kept. */
    method GetOrAddSignal(name: string, width: nat) returns (ok: bool, signal: nat)
      requires Value().Indexed()
      modifies this`signals, this`signalsByName, this`unnamedNetCount
      ensures Value().Indexed()
      ensures name in old(signalsByName) || name != "" ==>
                && ok
                && Value() == WithSignal(old(Value()), name, width)
                && name in signalsByName && signal == signalsByName[name]
      ensures name == "" && "" !in old(signalsByName) ==>
                var default := DEFAULT_NET_PREFIX + Decimal(old(unnamedNetCount));
                && ok == (default !in old(signalsByName))
                && (ok ==> signal == |old(signals)|)
                && (ok ==> signalsByName == old(signalsByName)[default := signal])
                && (ok ==> signals == old(signals) + [Signal(default, width)])
    {
      if name in signalsByName {
        ok, signal := true, signalsByName[name];
      } else {
        ok, signal := AddSignal(name, width);
      }
    }

    /** Adds a port for a signal unless a port of that name exists already. */
    method AddPort(signal: nat, direction: Direction)
      requires Valid() && signal < |signals|
      modifies this`ports
      ensures Valid() && old(ports) <= ports
      ensures ports == if old(Value().HasPortNamed(signals[signal].name))
                       then old(ports) else old(ports) + [Port(signal, direction)]
      ensures Value().PortNames() == old(Value().PortNames()) + {signals[signal].name}
    {
      for k := 0 to |ports|
        invariant ports == old(ports)
        invariant forall j | 0 <= j < k :: signals[ports[j].signal].name != signals[signal].name
      {
        if signals[ports[k].signal].name == signals[signal].name {
          assert ports[k] in ports;
          return;
        }
      }
      ghost var added := Port(signal, direction);
      ports := ports + [Port(signal, direction)];
      assert added in ports;
    }

    /** Removes every port whose signal now has this name. */
    method RemovePort(name: string)
      requires Value().Bounded()
      modifies this`ports
      ensures ports == PortsWithout(old(ports), signals, name)
      ensures forall p :: p in ports <==> p in old(ports) && signals[p.signal].name != name
    {
      var kept: seq<Port> := [];
      for k := 0 to |ports|
        invariant ports == old(ports)
        invariant kept == PortsWithout(ports[..k], signals, name)
      {
        assert ports[..k + 1][..k] == ports[..k];
        assert ports[k] in ports;
        if signals[ports[k].signal].name != name {
          kept := kept + [ports[k]];
        }
      }
      assert ports[..|ports|] == ports;
      ports := kept;
    }

    method AddInstance(name: string, master: Circuit) returns (ok: bool)
      requires Valid()
      modifies this`instances, this`instanceNames
      ensures ok == (name !in old(instanceNames))
      ensures ok ==> Valid()
      ensures ok ==> instances == old(instances) + [Instance(name, master, map[])]
      ensures ok ==> instanceNames == old(instanceNames) + {name}
      ensures !ok ==> instances == old(instances) && instanceNames == old(instanceNames)
    {
      ok := name !in instanceNames;
      if ok {
        instances := instances + [Instance(name, master, map[])];
        instanceNames := instanceNames + {name};
      }
    }

    /** Copies the global signals of `other`; they keep their names. */
    method MergeGlobals(other: Circuit, refs: set<string>)
      requires other != this && Valid() && other.Value().Bounded()
      modifies this`signals, this`signalsByName, this`globals, this`unnamedNetCount
      ensures Valid()
      ensures Grown(old(Value()), Value(), GlobalNames(other.Value(), other.globals))
      ensures CopiedFrom(old(Value()), other.Value(), Value())
      ensures GlobalsMerged(old(Value()), other.Value(), other.globals, refs, Value())
    {
      ghost var before, o := Value(), other.Value();
      var todo := other.globals;
      ghost var done: set<nat> := {};
      while todo != {}
        invariant done !! todo && done + todo == other.globals
        invariant Valid()
        invariant Grown(before, Value(), GlobalNames(o, done))
        invariant CopiedFrom(before, o, Value())
        invariant GlobalsMerged(before, o, done, refs, Value())
      {
        var g :| g in todo;
        ghost var n := Value();
        assert o.signals[g].name != "";
        var _, signal := GetOrAddSignal(other.signals[g].name, other.signals[g].width);
        if signals[signal].name !in refs {
          globals := globals + {signal};
        }
        GlobalStep(before, o, done, g, refs, n, Value());
        todo, done := todo - {g}, done + {g};
      }
    }

    /** Copies every signal of `other` under its mapped name: globals first, then the rest in order. */
    method MergeSignals(other: Circuit, prefix: string, refs: set<string>)
      requires other != this && Valid() && other.Value().Bounded()
      modifies this`signals, this`signalsByName, this`globals, this`unnamedNetCount
      ensures Valid()
      ensures Grown(old(Value()), Value(), MappedNames(other.Value(), prefix, refs))
      ensures WidthsCopied(old(Value()), other.Value(), prefix, refs, Value())
      ensures GlobalsMerged(old(Value()), other.Value(), other.globals, refs, Value())
    {
      ghost var before, o := Value(), other.Value();
      MergeGlobals(other, refs);
      GlobalsFirst(before, o, prefix, refs, Value());
      for k := 0 to |other.signals|
        invariant Valid()
        invariant Grown(before, Value(), NamesUpTo(o, k, prefix, refs))
        invariant WidthsCopied(before, o, prefix, refs, Value())
        invariant GlobalsMerged(before, o, o.globals, refs, Value())
      {
        ghost var n := Value();
        assert o.signals[k].name != "";
        if k !in other.globals {
          var _, _ := GetOrAddSignal(
            MapSignalNameForAdd(prefix, other.signals[k].name, refs), other.signals[k].width);
        }
        SignalStep(before, o, k, prefix, refs, n, Value());
      }
      assert NamesUpTo(o, |o.signals|, prefix, refs) == MappedNames(o, prefix, refs);
    }

    /** Copies the ports of `other`; their signals have been merged already. */
    method MergePorts(other: Circuit, prefix: string, refs: set<string>)
      requires other != this && Valid() && other.Value().Bounded()
      requires MappedNames(other.Value(), prefix, refs) <= signalsByName.Keys
      modifies this`ports
      ensures Valid()
      ensures PortsMerged(old(Value()), other.Value(), prefix, refs, Value())
    {
      hide Netlist.InstancesNamed, Netlist.HasPortNamed, Netlist.PortNames, MappedPortNames, MappedNames, PortsAfter;
      hide MapSignalNameForAdd, Netlist.Indexed, Netlist.Bounded;
      ghost var before, o := Value(), other.Value();
      NoPortNames(o, prefix, refs);
      NoPortsAdded(before, o, prefix, refs);
      for k := 0 to |other.ports|
        invariant Valid() && before.ports <= ports
        invariant ports == PortsAfter(signals, signalsByName, before.ports, o, k, prefix, refs)
        invariant Value().PortNames() == before.PortNames() + MappedPortNames(o, k, prefix, refs)
      {
        var p := other.ports[k];
        MappedPortNamesStep(o, k, prefix, refs);
        PortsAfterOneMore(Value(), before.ports, o, k, prefix, refs);
        var name := if p.signal in other.globals then other.signals[p.signal].name
                    else MapSignalNameForAdd(prefix, other.signals[p.signal].name, refs);
        AddPort(signalsByName[name], p.direction);
      }
      MappedPortNamesAll(o, prefix, refs);
    }

    /** Connects the newest instance like instance `i` of `other`, port by port in any order. */
    method Reconnect(other: Circuit, i: nat, prefix: string, refs: set<string>) returns (ok: bool)
      requires other != this && Value().Indexed() && other.Value().Bounded() && i < |other.instances|
      requires MappedNames(other.Value(), prefix, refs) <= signalsByName.Keys
      requires |instances| > 0 && instances[|instances| - 1].connections == map[]
      modifies this`instances
      ensures ok == !other.Value().HasConcatenation(i)
      ensures ok ==>
                && |instances| == |old(instances)|
                && instances[..|instances| - 1] == old(instances)[..|instances| - 1]
                && var b, was, a := instances[|instances| - 1], old(instances)[|instances| - 1], other.instances[i];
                   && b == was.(connections := b.connections)
                   && b.connections.Keys == a.connections.Keys
                   && forall p | p in a.connections ::
                        ConnectionMapped(other.Value(), a.connections[p], prefix, refs, Value(), b.connections[p])
    {
      ghost var o := other.Value();
      var source := other.instances[i].connections;
      var last := |instances| - 1;
      var todo := source.Keys;
      while todo != {}
        invariant todo <= source.Keys
        invariant |instances| == last + 1 && instances[..last] == old(instances)[..last]
        invariant instances[last] == old(instances)[last].(connections := instances[last].connections)
        invariant instances[last].connections.Keys == source.Keys - todo
        invariant forall p | p in instances[last].connections ::
                    ConnectionMapped(o, source[p], prefix, refs, Value(), instances[last].connections[p])
      {
        var p :| p in todo;
        var c := source[p];
        assert c == o.instances[i].connections[p] && c.Below(|o.signals|);
        if c.ToConcatenation? {
          return false;
        }
        var mergedName := if c.signal in other.globals then other.signals[c.signal].name
                          else MapSignalNameForAdd(prefix, other.signals[c.signal].name, refs);
        assert mergedName == MapName(o, c.signal, prefix, refs) && mergedName in MappedNames(o, prefix, refs);
        var signal := signalsByName[mergedName];
        var connection := if c.ToSignal? then ToSignal(signal)
                          else SliceOrSignal(signal, c.low, c.high, signals[signal].width);
        instances := instances[last := instances[last].(
          connections := instances[last].connections[p := connection])];
        todo := todo - {p};
      }
      forall p | p in o.instances[i].connections ensures !o.instances[i].connections[p].ToConcatenation? {
        assert ConnectionMapped(o, source[p], prefix, refs, Value(), instances[last].connections[p]);
      }
      ok := true;
    }

    /** Copies instance `i` of `other`, reconnecting each of its ports to the merged signal. */
    method MergeInstance(other: Circuit, i: nat, prefix: string, refs: set<string>) returns (ok: bool)
      requires other != this && Valid() && other.Value().Bounded() && i < |other.instances|
      requires MappedNames(other.Value(), prefix, refs) <= signalsByName.Keys
      modifies this`instances, this`instanceNames
      ensures ok == (MapSignalNameForAdd(prefix, other.instances[i].name, {}) !in old(instanceNames)
                     && !other.Value().HasConcatenation(i))
      ensures ok ==>
                && Valid()
                && |instances| == |old(instances)| + 1 && old(instances) <= instances
                && InstanceMapped(other.Value(), other.instances[i], prefix, refs, Value(), instances[|old(instances)|])
                && instanceNames == old(instanceNames) + {MapSignalNameForAdd(prefix, other.instances[i].name, {})}
    {
      ghost var before, o := Value(), other.Value();
      ok := AddInstance(MapSignalNameForAdd(prefix, other.instances[i].name, {}), other.instances[i].master);
      if ok {
        ghost var n := Value();
        ok := Reconnect(other, i, prefix, refs);
        if ok {
          assert instances == before.instances + [instances[|before.instances|]];
          NewestReconnected(o, i, prefix, refs, n, Value());
        }
      }
    }

    method MergeInstances(other: Circuit, prefix: string, refs: set<string>) returns (ok: bool)
      requires other != this && Valid() && other.Value().Bounded()
      requires MappedNames(other.Value(), prefix, refs) <= signalsByName.Keys
      modifies this`instances, this`instanceNames
      ensures ok == CanMerge(other.Value(), |other.instances|, prefix, old(instanceNames))
      ensures ok ==>
                && Valid()
                && old(instances) <= instances
                && InstancesMapped(other.Value(), |other.instances|, prefix, refs, Value(), instances[|old(instances)|..])
                && instanceNames == old(instanceNames) + MappedInstanceNames(other.Value(), |other.instances|, prefix)
    {
      hide CanMerge, InstancesMapped, InstanceMapped, MappedInstanceNames, Netlist.Valid;
      ghost var o := other.Value();
      ghost var base := |instances|;
      NothingMergedYet(o, prefix, refs, instanceNames, Value());
      assert instances[base..] == [];
      for i := 0 to |other.instances|
        invariant Valid() && old(instances) <= instances && |instances| == base + i
        invariant CanMerge(o, i, prefix, old(instanceNames))
        invariant InstancesMapped(o, i, prefix, refs, Value(), instances[base..])
        invariant instanceNames == old(instanceNames) + MappedInstanceNames(o, i, prefix)
      {
        ghost var was := Value();
        CanMergeStep(o, i, prefix, old(instanceNames));
        var added := MergeInstance(other, i, prefix, refs);
        if !added {
          return false;
        }
        InstancesMappedStep(o, i, prefix, refs, was, Value(), was.instances[base..], instances[base + i]);
        assert instances[base..] == was.instances[base..] + [instances[base + i]];
      }
      ok := true;
    }

    /**
     * Merges `other` into this circuit under a name prefix; signals named in
     * `refs` are references to existing signals here and keep their names.
     */
    method AddCircuit(other: Circuit, prefix: string, refs: set<string>) returns (ok: bool)
      requires other != this && Valid() && other.Value().Bounded()
      modifies this
      ensures ok == CanMerge(other.Value(), |other.instances|, prefix, old(instanceNames))
      ensures ok ==> Valid() && Merged(old(Value()), other.Value(), prefix, refs, Value())
    {
      hide Netlist.Bounded, Netlist.Indexed, Netlist.InstancesNamed, Grown, WidthsCopied, GlobalsMerged, PortsMerged;
      hide InstancesMapped, CanMerge, Merged, MappedNames;
      ghost var before, o := Value(), other.Value();
      MergeSignals(other, prefix, refs);
      ghost var merged := Value();
      MergedNamesKnown(before, merged, MappedNames(o, prefix, refs));
      MergePorts(other, prefix, refs);
      ghost var ported := Value();
      ok := MergeInstances(other, prefix, refs);
      if ok {
        MergedInSteps(before, merged, ported, Value(), o, prefix, refs);
      }
    }

    // ---- flattening ------------------------------------------------------

    /** This circuit together with the circuits that its instances instantiate. */
    ghost function Elaboration(): Hierarchy<Circuit>
      reads this, set k | 0 <= k < |instances| :: instances[k].master
    {
      Hierarchy(Value(), seq(|instances|, k requires 0 <= k < |instances|
        reads this, set k | 0 <= k < |instances| :: instances[k].master => instances[k].master.Value()))
    }

    /** Removes a port and gives its signal another name; the name table is left alone. */
    method RenamePort(port: string, outside: string)
      requires Value().Bounded() && outside != ""
      requires port in signalsByName && signalsByName[port] < |signals|
      modifies this`signals, this`ports
      ensures Value().Bounded()
      ensures signals == old(signals)[signalsByName[port] := old(signals)[signalsByName[port]].(name := outside)]
      ensures forall p :: p in ports <==> p in old(ports) && old(signals)[p.signal].name != port
    {
      ghost var n := Value();
      var toReplace := signalsByName[port];
      RemovePort(port);
      signals := signals[toReplace := signals[toReplace].(name := outside)];
      forall a, q | 0 <= a < |instances| && q in instances[a].connections
        ensures instances[a].connections[q].Below(|signals|)
      {
        assert n.instances[a].connections[q].Below(|n.signals|);
      }
    }

    /** Renames the signals of the connected ports of `staging` to the outer nets, in any order. */
    method RenamePorts(instance: Instance<Circuit>, staging: Circuit, ghost h: Hierarchy<Circuit>, ghost i: nat)
      returns (ok: bool, rewrites: set<string>)
      requires staging != this && h.Valid() && i < |h.inner| && instance == h.outer.instances[i]
      requires h.outer.signals <= signals
      requires staging.Value().Bounded() && staging.signalsByName.Keys == h.inner[i].index.Keys
      requires forall x | x in staging.signalsByName :: staging.signalsByName[x] < |staging.signals|
      requires StagedSoFar(h, i, {}, {}, staging.Value())
      modifies staging
      ensures ok ==> staging.Value().Bounded()
      ensures ok <==> forall p | p in instance.connections ::
                        instance.connections[p].ToSignal? && p in h.inner[i].index
      ensures ok ==> StagedSoFar(h, i, instance.connections.Keys, rewrites, staging.Value())
    {
      hide StagedSoFar, Netlist.Bounded, Netlist.Indexed, Netlist.InstancesNamed;
      rewrites := {};
      var todo := instance.connections.Keys;
      ghost var done: set<string> := {};
      while todo != {}
        invariant done !! todo && done + todo == instance.connections.Keys
        invariant staging.Value().Bounded() && staging.signalsByName == old(staging.signalsByName)
        invariant |staging.signals| == old(|staging.signals|)
        invariant forall p | p in done :: instance.connections[p].ToSignal? && p in h.inner[i].index
        invariant StagedSoFar(h, i, done, rewrites, staging.Value())
      {
        var p :| p in todo;
        if !instance.connections[p].ToSignal? || p !in staging.signalsByName {
          return false, rewrites;
        }
        OutsideName(h, i, p);
        var outside := signals[instance.connections[p].signal].name;
        ghost var n := staging.Value();
        staging.RenamePort(p, outside);
        StagedOneMore(h, i, done, rewrites, p, outside, n, staging.Value());
        rewrites := rewrites + {outside};
        todo, done := todo - {p}, done + {p};
      }
      ok := true;
    }

    /** Makes the staging copy of instance `i`: its circuit, connected to the outer nets by name. */
    method Stage(instance: Instance<Circuit>, ghost h: Hierarchy<Circuit>, ghost i: nat)
      returns (ok: bool, staging: Circuit, rewrites: set<string>)
      requires h.Valid() && i < |h.inner|
      requires instance == h.outer.instances[i] && instance.master.Value() == h.inner[i]
      requires h.outer.signals <= signals
      ensures fresh(staging) && (ok ==> staging.Value().Bounded())
      ensures ok <==>
                && (forall p | p in instance.connections ::
                      instance.connections[p].ToSignal? && p in h.inner[i].index)
                && (forall a | 0 <= a < |h.inner[i].instances| :: !h.inner[i].HasConcatenation(a))
      ensures ok ==> StagedSoFar(h, i, instance.connections.Keys, rewrites, staging.Value())
    {
      staging := new Circuit();
      rewrites := {};
      ok := staging.AddCircuit(instance.master, "", {});
      if ok {
        if h.WholeSignals() {
          MergedIsStaged(h, i, staging.Value());
        }
        MergedNames(h.inner[i], staging.Value());
        ok, rewrites := RenamePorts(instance, staging, h, i);
      }
    }

    /** Flattens instance `i` into this circuit, which keeps its old instances for now. */
    method FlattenInstance(addPrefixes: bool, i: nat, ghost h: Hierarchy<Circuit>, ghost visited: seq<nat>)
      returns (ok: bool)
      requires h.Valid() && Valid() && i < |h.inner| && i !in visited
      requires forall k | 0 <= k < |visited| :: visited[k] < |h.inner|
      requires h.outer.instances <= instances && h.outer.signals <= signals
      requires instances[i].master != this && instances[i].master.Value() == h.inner[i]
      requires FlatSoFar(h, addPrefixes, visited, Value())
      modifies this
      ensures ok ==> Valid() && old(instances) <= instances && old(signals) <= signals
      ensures ok ==> Stageable(h, i) && FlatSoFar(h, addPrefixes, visited + [i], Value())
      ensures !ok ==> !h.Flattenable(addPrefixes)
    {
      ghost var n := Value();
      assert instances[i] == h.outer.instances[i];
      var prefix := if addPrefixes then instances[i].name else "";
      var staged, staging, rewrites := Stage(instances[i], h, i);
      if !staged {
        return false;
      }
      assert Stageable(h, i);
      ok := AddCircuit(staging, prefix, rewrites);
      MergeDecides(h, addPrefixes, visited, i, staging.Value(), rewrites, n, Value(), ok);
    }

    /** The circuits that the instances of a hierarchy refer to have the values it gives them. */
    ghost predicate Instantiates(h: Hierarchy<Circuit>)
      reads set j | 0 <= j < |h.outer.instances| :: h.outer.instances[j].master
    {
      |h.inner| == |h.outer.instances| && forall j | 0 <= j < |h.inner| :: h.outer.instances[j].master.Value() == h.inner[j]
    }

    lemma ElaborationIsSound()
      requires Elaboration().Valid()
      ensures Valid() && Elaboration().outer == Value() && |Elaboration().inner| == |instances|
      ensures Instantiates(Elaboration())
    {
    }

    lemma OrderLength(order: seq<nat>, n: nat)
      requires VisitsEach(order, n)
      ensures |order| == n
    {
    }

    lemma MasterOf(h: Hierarchy<Circuit>, i: nat)
      requires Instantiates(h) && i < |h.inner| && h.outer.instances <= instances
      ensures i < |instances| && instances[i].master.Value() == h.inner[i]
    {
      assert instances[i] == h.outer.instances[i];
    }

    /**
     * Replaces every instance by the instances of the circuit it instantiates,
     * visiting the instances in `order`. Fatal exactly when the hierarchy is
     * not flattenable; otherwise the result is the flattened hierarchy.
     */
    method Flatten(addPrefixes: bool, order: seq<nat>) returns (ok: bool)
      requires Elaboration().Valid() && VisitsEach(order, |instances|)
      requires forall k | 0 <= k < |instances| :: instances[k].master != this
      modifies this
      ensures ok == old(Elaboration()).Flattenable(addPrefixes)
      ensures ok ==> Flattened(old(Elaboration()), addPrefixes, order, Value())
    {
      ElaborationIsSound();
      hide Elaboration, Instantiates, FlatSoFar, Stageable, FlattenedUpTo, Flattened, VisitsEach;
      hide Hierarchy.Flattenable, Hierarchy.Valid, Netlist.Valid;
      ghost var h := Elaboration();
      var count := |instances|;
      OrderLength(order, count);
      NothingFlattened(h, addPrefixes, order);
      for k := 0 to count
        invariant FlattenedUpTo(h, addPrefixes, order, k, Value()) && Instantiates(h)
      {
        ghost var n := Value();
        NextToFlatten(h, addPrefixes, order, k, n);
        MasterOf(h, order[k]);
        ok := FlattenInstance(addPrefixes, order[k], h, order[..k]);
        if !ok {
          return;
        }
        OneMoreFlattened(h, addPrefixes, order, k, n, Value());
      }
      AllFlattened(h, addPrefixes, order, Value());
      instances := instances[count..];
      ok := true;
    }
  }
}
