// What flattening makes of names, read off the names themselves
// (src/circuit.cc, MapSignalNameForAdd and Circuit::Flatten): when names tell
// that no two nets are merged and that flattening succeeds.

module PrefixedNames {
  import opened Netlists
  import opened Hierarchies
  import opened Connectivity

  // ---- names and prefixes ---------------------------------------------------------------------

  /** Two underscores stand nowhere in the name, and none ends it. */
  predicate IsPlain(s: string) {
    && s != "" && s[|s| - 1] != '_'
    && forall k | 0 <= k < |s| - 1 :: s[k] != '_' || s[k + 1] != '_'
  }

  /** The name starts with an instance's name and two underscores. */
  predicate IsUnder(name: string, instance: string) {
    instance + "__" <= name
  }

  lemma UnderscoresFollow(p: string, x: string)
    ensures var s := p + "__" + x;
            |s| == |p| + 2 + |x| && s[|p|] == '_' && s[|p| + 1] == '_' && s[..|p|] == p && s[|p| + 2..] == x
  {
  }

  lemma PlainIsNoLonger(p: string, q: string, x: string, y: string)
    requires IsPlain(q) && p + "__" + x == q + "__" + y
    ensures |p| >= |q|
  {
    UnderscoresFollow(p, x);
    StartsAlike(q, "__" + y);
    assert q + ("__" + y) == p + "__" + x;
    assert p + "__" + x != [];
  }

  lemma StartsAlike(q: string, rest: string)
    ensures forall k | 0 <= k < |q| :: (q + rest)[k] == q[k]
  {
  }

  /** With plain prefixes, a prefixed name tells the prefix and the name. */
  lemma PrefixedNamesSplit(p: string, q: string, x: string, y: string)
    requires IsPlain(p) && IsPlain(q) && p + "__" + x == q + "__" + y
    ensures p == q && x == y
  {
    PlainIsNoLonger(p, q, x, y);
    PlainIsNoLonger(q, p, y, x);
    UnderscoresFollow(p, x);
    UnderscoresFollow(q, y);
  }

  lemma IsUnderItsPrefix(p: string, x: string)
    ensures IsUnder(p + "__" + x, p)
  {
    UnderscoresFollow(p, x);
  }

  /** Prefixing keeps different names different, and makes names that show their prefix. */
  lemma PrefixingSeparates(prefix: string, x: string, y: string, skip: set<string>)
    requires prefix != "" && x !in skip && y !in skip
    ensures IsUnder(MapSignalNameForAdd(prefix, x, skip), prefix)
    ensures MapSignalNameForAdd(prefix, x, skip)[|prefix| + 2..] == x
    ensures x != y ==> MapSignalNameForAdd(prefix, x, skip) != MapSignalNameForAdd(prefix, y, skip)
  {
    UnderscoresFollow(prefix, x);
    UnderscoresFollow(prefix, y);
  }

  // ---- the names of a flattened hierarchy -------------------------------------------------------

  /** A private signal that is not captured gets its instance's name, two underscores and its own. */
  lemma PrivateNames<M>(h: Hierarchy<M>, i: nat, s: nat)
    requires h.Valid() && h.WholeSignals() && IsNode(h, InnerNode(i, s)) && IsPrivate(h, i, s)
    requires h.outer.instances[i].name != ""
    ensures PrefixedName(h, true, i, s) == h.outer.instances[i].name + "__" + h.inner[i].signals[s].name
    ensures !Captured(h, i, s) ==>
              NameOf(h, true, InnerNode(i, s)) == h.outer.instances[i].name + "__" + h.inner[i].signals[s].name
    ensures PrefixedName(h, false, i, s) == NameOf(h, false, InnerNode(i, s)) == h.inner[i].signals[s].name
  {
    PrivateGetsPrefix(h, true, i, s);
    PrivateGetsPrefix(h, false, i, s);
  }

  lemma InstanceNames<M>(h: Hierarchy<M>, i: nat, a: nat)
    requires h.Valid() && i < |h.inner| && a < |h.inner[i].instances|
    ensures h.outer.instances[i].name != "" ==>
              h.FlatInstanceName(true, i, a) == h.outer.instances[i].name + "__" + h.inner[i].instances[a].name
    ensures h.FlatInstanceName(false, i, a) == h.inner[i].instances[a].name
  {
  }

  /** The instances of the flattened circuit carry these names. */
  lemma FlattenedInstanceNames<M>(h: Hierarchy<M>, addPrefixes: bool, order: seq<nat>, result: Netlist<M>, k: nat)
    requires h.Valid() && h.WholeSignals() && forall m | 0 <= m < |order| :: order[m] < |h.inner|
    requires Flattened(h, addPrefixes, order, result) && k < |result.instances|
    ensures k < |Sources(h, order)|
    ensures
      var (i, a) := Sources(h, order)[k];
      && i < |h.inner| && a < |h.inner[i].instances|
      && var inner := h.inner[i].instances[a];
         && result.instances[k].master == inner.master && result.instances[k].connections.Keys == inner.connections.Keys
         && (!addPrefixes ==> result.instances[k].name == inner.name)
         && (addPrefixes && h.outer.instances[i].name != "" ==>
               result.instances[k].name == h.outer.instances[i].name + "__" + inner.name)
  {
    hide Hierarchy.WholeSignals, Netlist.Valid, Netlist.Bounded, Netlist.Indexed;
    var (i, a) := Sources(h, order)[k];
    assert InstanceFlat(h, addPrefixes, i, a, result, result.instances[k]);
    InstanceNames(h, i, a);
  }

  // ---- hierarchies with plain names ---------------------------------------------------------------

  /**
   * What can be read off the names: those of outer instances are plain, and
   * neither a shared name nor a reserved instance name starts with one of
   * them and two underscores.
   */
  ghost predicate PlainNames<M>(h: Hierarchy<M>)
    requires h.Valid()
  {
    && (forall i | 0 <= i < |h.inner| :: IsPlain(h.outer.instances[i].name))
    && (forall i, x | 0 <= i < |h.inner| && IsSharedName(h, x) :: !IsUnder(x, h.outer.instances[i].name))
    && (forall i, x | 0 <= i < |h.inner| && x in h.outer.instanceNames :: !IsUnder(x, h.outer.instances[i].name))
  }

  ghost predicate NoneCaptured<M>(h: Hierarchy<M>)
    requires h.Valid() && h.WholeSignals()
  {
    forall i, s | IsNode(h, InnerNode(i, s)) :: !Captured(h, i, s)
  }

  ghost predicate NoConcatenations<M>(h: Hierarchy<M>) {
    forall i, a | 0 <= i < |h.inner| && 0 <= a < |h.inner[i].instances| :: !h.inner[i].HasConcatenation(a)
  }

  lemma OneInstanceOfAName<M>(n: Netlist<M>, a: nat, b: nat)
    requires n.InstancesNamed() && a < |n.instances| && b < |n.instances|
    ensures n.instances[a].name == n.instances[b].name ==> a == b
  {
  }

  lemma OneSignalOfAName<M>(h: Hierarchy<M>, i: nat, s: nat, t: nat)
    requires h.Valid() && IsNode(h, InnerNode(i, s)) && IsNode(h, InnerNode(i, t))
    ensures h.inner[i].signals[s].name == h.inner[i].signals[t].name ==> s == t
  {
    hide Netlist.Bounded, Netlist.InstancesNamed;
    assert h.inner[i].Indexed();
  }

  lemma PlainNamesDoNotClash<M>(h: Hierarchy<M>, i: nat, s: nat, j: nat, t: nat)
    requires h.Valid() && h.WholeSignals() && PlainNames(h)
    requires IsNode(h, InnerNode(i, s)) && IsNode(h, InnerNode(j, t))
    ensures !PrefixClash(h, true, i, s, j, t) && !PrefixTaken(h, true, i, s)
  {
    hide Netlist.Bounded, Netlist.Indexed, Netlist.InstancesNamed, Hierarchy.WholeSignals, IsSharedName, IsPrivate, IsPlain;
    hide PrefixedName, IsUnder;
    var u, v := h.outer.instances[i].name, h.outer.instances[j].name;
    PlainIsNotEmpty(u);
    PlainIsNotEmpty(v);
    IsUnderItsPrefix(u, h.inner[i].signals[s].name);
    OneInstanceOfAName(h.outer, i, j);
    if i == j {
      OneSignalOfAName(h, i, s, t);
    }
    if IsPrivate(h, i, s) {
      PrivateNames(h, i, s);
    }
    if IsPrivate(h, j, t) {
      PrivateNames(h, j, t);
    }
    if u + "__" + h.inner[i].signals[s].name == v + "__" + h.inner[j].signals[t].name {
      PrefixedNamesSplit(u, v, h.inner[i].signals[s].name, h.inner[j].signals[t].name);
    }
  }

  lemma PlainIsNotEmpty(s: string)
    requires IsPlain(s)
    ensures s != ""
  {
  }

  /** With plain names and prefixes, only a captured signal breaks hygiene. */
  lemma PlainNamesAreHygienicExactly<M>(h: Hierarchy<M>)
    requires h.Valid() && h.WholeSignals() && PlainNames(h)
    ensures Hygienic(h, true) <==> NoneCaptured(h)
    ensures NamesFollowNets(h, true) <==> NoneCaptured(h)
  {
    hide Hierarchy.Valid, Hierarchy.WholeSignals, PlainNames, Captured, PrefixTaken, PrefixClash, NamesFollowNets, IsNode;
    HygieneIsExact(h, true);
    if NoneCaptured(h) {
      forall i, s, j, t | IsNode(h, InnerNode(i, s)) && IsNode(h, InnerNode(j, t))
        ensures !PrefixClash(h, true, i, s, j, t) && !PrefixTaken(h, true, i, s)
      {
        PlainNamesDoNotClash(h, i, s, j, t);
      }
    }
  }

  lemma PlainInstanceNamesDiffer<M>(h: Hierarchy<M>, i: nat, a: nat, j: nat, b: nat)
    requires h.Valid() && PlainNames(h)
    requires i < |h.inner| && a < |h.inner[i].instances| && j < |h.inner| && b < |h.inner[j].instances|
    ensures h.FlatInstanceName(true, i, a) !in h.outer.instanceNames
    ensures (i, a) != (j, b) ==> h.FlatInstanceName(true, i, a) != h.FlatInstanceName(true, j, b)
  {
    hide Netlist.Bounded, Netlist.Indexed, IsSharedName, IsPlain, Hierarchy.FlatInstanceName;
    var u, v := h.outer.instances[i].name, h.outer.instances[j].name;
    var x, y := h.inner[i].instances[a].name, h.inner[j].instances[b].name;
    PlainIsNotEmpty(u);
    PlainIsNotEmpty(v);
    InstanceNames(h, i, a);
    InstanceNames(h, j, b);
    IsUnderItsPrefix(u, x);
    OneInstanceOfAName(h.outer, i, j);
    if i == j {
      OneInstanceOfAName(h.inner[i], a, b);
    }
    if u + "__" + x == v + "__" + y {
      PrefixedNamesSplit(u, v, x, y);
    }
  }

  /** With plain names and prefixes, flattening succeeds exactly without concatenations, and through whole signals. */
  lemma PlainNamesAreFlattenableExactly<M>(h: Hierarchy<M>)
    requires h.Valid() && PlainNames(h)
    ensures h.Flattenable(true) <==> h.WholeSignals() && NoConcatenations(h)
  {
    hide PlainNames, Hierarchy.FlatInstanceName, Hierarchy.WholeSignals, Netlist.HasConcatenation, Netlist.Valid;
    if h.WholeSignals() && NoConcatenations(h) {
      forall i, a, j, b | 0 <= i < |h.inner| && 0 <= a < |h.inner[i].instances|
                          && 0 <= j < |h.inner| && 0 <= b < |h.inner[j].instances|
        ensures h.FlatInstanceName(true, i, a) !in h.outer.instanceNames
        ensures (i, a) != (j, b) ==> h.FlatInstanceName(true, i, a) != h.FlatInstanceName(true, j, b)
      {
        PlainInstanceNamesDiffer(h, i, a, j, b);
      }
    }
  }

  /**
   * Flattening with prefixes, seen through names alone: pins share a signal
   * afterwards exactly if they shared a net before.
   */
  lemma PlainFlatteningPreservesConnectivity<M>(
    h: Hierarchy<M>, order: seq<nat>, result: Netlist<M>, p: Pin, q: Pin, outer: nat)
    requires h.Valid() && h.WholeSignals() && forall k | 0 <= k < |order| :: order[k] < |h.inner|
    requires PlainNames(h) && NoneCaptured(h) && Flattened(h, true, order, result)
    requires IsPin(result, p) && IsPin(result, q) && outer < |h.outer.signals|
    ensures
      var c, d := result.instances[p.instance].connections[p.port], result.instances[q.instance].connections[q.port];
      var x, y := PinNode(h, true, order, result, p), PinNode(h, true, order, result, q);
      && !c.ToConcatenation? && !d.ToConcatenation?
      && (c.signal == d.signal <==> NetOf(h, x) == NetOf(h, y))
      && (c.signal == outer <==> NetOf(h, x) == NetOf(h, OuterNode(outer)))
  {
    hide PlainNames, NoneCaptured, Hygienic, Hierarchy.WholeSignals, NetOf, Netlist.Valid, NamesFollowNets;
    PlainNamesAreHygienicExactly(h);
    FlatteningPreservesConnectivity(h, true, order, result, p, q, outer);
  }

  // ---- without prefixes -------------------------------------------------------------------------------

  /** Without prefixes private signals need names of their own, everywhere. */
  lemma UnprefixedHygieneExactly<M>(h: Hierarchy<M>)
    requires h.Valid() && h.WholeSignals() && forall i | 0 <= i < |h.inner| :: h.outer.instances[i].name != ""
    ensures Hygienic(h, false) <==>
            && (forall i: nat, s: nat | IsNode(h, InnerNode(i, s)) && IsPrivate(h, i, s) ::
                  !IsSharedName(h, h.inner[i].signals[s].name))
            && (forall i: nat, s: nat, j: nat, t: nat | IsNode(h, InnerNode(i, s)) && IsPrivate(h, i, s)
                                    && IsNode(h, InnerNode(j, t)) && IsPrivate(h, j, t) && (i, s) != (j, t) ::
                  h.inner[i].signals[s].name != h.inner[j].signals[t].name)
  {
    hide Hierarchy.WholeSignals, IsSharedName, Netlist.Valid, IsPrivate, PrefixedName;
    forall i: nat, s: nat | IsNode(h, InnerNode(i, s)) && IsPrivate(h, i, s)
      ensures PrefixedName(h, false, i, s) == h.inner[i].signals[s].name
      ensures Captured(h, i, s) ==> IsSharedName(h, h.inner[i].signals[s].name)
    {
      PrivateNames(h, i, s);
      if Captured(h, i, s) {
        RefsAreOuterNames(h, i, h.inner[i].signals[s].name);
        OuterNamesAreShared(h, h.inner[i].signals[s].name);
      }
    }
  }

  lemma OuterNamesAreShared<M>(h: Hierarchy<M>, name: string)
    requires h.Valid() && name in h.outer.index
    ensures IsSharedName(h, name)
  {
  }

  /** Without prefixes instances need names of their own, everywhere. */
  lemma UnprefixedFlattenableExactly<M>(h: Hierarchy<M>)
    requires h.Valid()
    ensures h.Flattenable(false) <==>
            && h.WholeSignals() && NoConcatenations(h)
            && (forall i, a | 0 <= i < |h.inner| && 0 <= a < |h.inner[i].instances| ::
                  h.inner[i].instances[a].name !in h.outer.instanceNames)
            && (forall i, a, j, b | 0 <= i < |h.inner| && 0 <= a < |h.inner[i].instances|
                                    && 0 <= j < |h.inner| && 0 <= b < |h.inner[j].instances| && (i, a) != (j, b) ::
                  h.inner[i].instances[a].name != h.inner[j].instances[b].name)
  {
    hide Hierarchy.WholeSignals, Netlist.HasConcatenation, Netlist.Valid, Hierarchy.FlatInstanceName;
    forall i, a | 0 <= i < |h.inner| && 0 <= a < |h.inner[i].instances|
      ensures h.FlatInstanceName(false, i, a) == h.inner[i].instances[a].name
    {
      InstanceNames(h, i, a);
    }
  }
}
