// PhysicalPropertiesDatabase (src/physical_properties_database.cc): which via
// layer connects which two layers, and stacks of vias between any two layers.

module PhysicalDb {
  import opened Basics
  import opened ViaPaths
  import opened ViaSearch

  // What a via needs to be drawn: its layer and the two layers it connects.
  datatype Via = Via(layer: Layer, left: Layer, right: Layer)

  /** The lesser layer first. */
  function OrderLayers(one: Layer, another: Layer): (Layer, Layer) {
    if another.number < one.number then (another, one) else (one, another)
  }

  class PhysicalPropertiesDatabase {
    // The via layer for a pair of layers, indexed by the lesser layer first.
    var viaLayers: map<Layer, map<Layer, Layer>>
    // The cost of a via into each layer that has rules.
    var viaCost: map<Layer, real>

    ghost predicate Valid()
      reads this
    {
      forall a, b | a in viaLayers && b in viaLayers[a] :: OrderLayers(a, b) == (a, b)
    }

    /** Every layer that a via connects has rules, with a cost that is not negative. */
    ghost predicate HasRules()
      reads this
    {
      forall a, b | a in viaLayers && b in viaLayers[a] ::
        a in viaCost && b in viaCost && viaCost[a] >= 0.0 && viaCost[b] >= 0.0
    }

    constructor ()
      ensures Valid() && viaLayers == map[] && viaCost == map[]
    {
      viaLayers, viaCost := map[], map[];
    }

    function GetViaLayer(left: Layer, right: Layer): Option<Layer>
      reads this
    {
      var (first, second) := OrderLayers(left, right);
      if first in viaLayers && second in viaLayers[first] then Some(viaLayers[first][second]) else None
    }

    /** The layers that vias connect. */
    function Layers(): set<Layer>
      reads this
    {
      viaLayers.Keys + set a, b | a in viaLayers && b in viaLayers[a] :: b
    }

    /** The layers that one via connects to a layer: those with a via layer in between. */
    function Neighbours(source: Layer): (ls: set<Layer>)
      reads this
      ensures forall v :: v in ls <==> GetViaLayer(source, v).Some?
    {
      set v | v in Layers() && GetViaLayer(source, v).Some?
    }

    /** The graph that the search explores. */
    function ViaGraph(): Graph
      reads this
    {
      Graph(map u | u in Layers() :: Neighbours(u), viaCost)
    }

    lemma ConnectedLayersAreKnown(u: Layer, v: Layer)
      requires GetViaLayer(u, v).Some?
      ensures u in Layers() && v in Layers()
      ensures HasRules() ==> v in viaCost && viaCost[v] >= 0.0
    {
      var (a, b) := OrderLayers(u, v);
      assert a in viaLayers && b in viaLayers[a];
      if HasRules() {
        assert a in viaCost && b in viaCost && viaCost[a] >= 0.0 && viaCost[b] >= 0.0;
      }
    }

    lemma AdjacentMeansVia(u: Layer, v: Layer)
      ensures ViaGraph().Adjacent(u, v) <==> GetViaLayer(u, v).Some?
    {
      if GetViaLayer(u, v).Some? {
        ConnectedLayersAreKnown(u, v);
      }
      hide GetViaLayer, Layers;
    }

    lemma GraphIsSound()
      requires Valid()
      ensures HasRules() ==> ViaGraph().Valid()
      ensures Symmetric(ViaGraph())
      ensures forall u, v :: ViaGraph().Adjacent(u, v) <==> GetViaLayer(u, v).Some?
    {
      hide GetViaLayer, Layers, HasRules, Valid;
      var g := ViaGraph();
      forall u, v
        ensures g.Adjacent(u, v) <==> GetViaLayer(u, v).Some?
        ensures GetViaLayer(u, v) == GetViaLayer(v, u)
        ensures g.Adjacent(u, v) && HasRules() ==> v in g.neighbours && v in g.enter && g.enter[v] >= 0.0
      {
        AdjacentMeansVia(u, v);
        SymmetricLookup(u, v);
        if g.Adjacent(u, v) {
          ConnectedLayersAreKnown(u, v);
        }
      }
      forall u, v | u in g.neighbours && v in g.neighbours[u]
        ensures HasRules() ==> v in g.neighbours && v in g.enter && g.enter[v] >= 0.0
      {
        assert g.Adjacent(u, v);
      }
    }

    /**
     * Makes a via layer known for two layers. Nothing else changes; it is
     * fatal to connect two layers through a second, different via layer.
     */
    method AddViaLayer(one: Layer, another: Layer, viaLayer: Layer) returns (ok: bool)
      requires Valid()
      modifies this`viaLayers
      ensures Valid()
      ensures ok == (old(GetViaLayer(one, another)) in {None, Some(viaLayer)})
      ensures ok ==> GetViaLayer(one, another) == GetViaLayer(another, one) == Some(viaLayer)
      ensures forall a, b | OrderLayers(a, b) != OrderLayers(one, another) || !ok ::
                GetViaLayer(a, b) == old(GetViaLayer(a, b))
    {
      var existing := GetViaLayer(one, another);
      if existing.Some? {
        return existing.value == viaLayer;
      }
      var (first, second) := OrderLayers(one, another);
      var inner := if first in viaLayers then viaLayers[first] else map[];
      viaLayers := viaLayers[first := inner[second := viaLayer]];
      ok := true;
    }

    /** Greater layers are found directly, lesser layers by looking through the whole table. */
    method FindLayersReachableThroughOneVia(source: Layer) returns (reachable: set<Layer>)
      requires Valid()
      ensures reachable == Neighbours(source)
    {
      reachable := {};
      if source in viaLayers {
        reachable := viaLayers[source].Keys;
      }
      var todo := viaLayers.Keys;
      while todo != {}
        invariant todo <= viaLayers.Keys
        invariant forall v :: v in reachable <==>
                    || (source in viaLayers && v in viaLayers[source])
                    || (v in viaLayers && v !in todo && v != source && source in viaLayers[v])
      {
        var maybe :| maybe in todo;
        if maybe != source && source in viaLayers[maybe] {
          reachable := reachable + {maybe};
        }
        todo := todo - {maybe};
      }
      forall v ensures v in reachable <==> GetViaLayer(source, v).Some? {
        var (a, b) := OrderLayers(source, v);
      }
    }

    /** Fatal without a via layer between the two layers, which is why it is demanded here. */
    function GetRoutingViaInfoOrDie(left: Layer, right: Layer): Via
      requires GetViaLayer(left, right).Some?
      reads this
    {
      Via(GetViaLayer(left, right).value, left, right)
    }

    /** A hop of a path, and the via for it. */
    predicate IsHop(from: Layer, to: Layer, via: Via)
      reads this
    {
      GetViaLayer(from, to) == Some(via.layer) && via.right == from && via.left == to
    }

    /** `stack` has a via for each hop of the path `p`, on the via layer that connects its ends. */
    ghost predicate StackAlong(p: seq<Layer>, stack: seq<Via>)
      reads this
    {
      && |stack| == |p| - 1
      && forall k {:trigger stack[k]} | 0 <= k < |stack| :: IsHop(p[k], p[k + 1], stack[k])
    }

    /** A via layer connects this layer of a stack to the one below. */
    predicate HasVia(layerStack: seq<Layer>, k: nat)
      requires 0 < k < |layerStack|
      reads this
    {
      GetViaLayer(layerStack[k], layerStack[k - 1]).Some?
    }

    ghost predicate AllHaveVias(layerStack: seq<Layer>)
      reads this
    {
      forall k | 0 < k < |layerStack| :: HasVia(layerStack, k)
    }

    /** The vias along a layer stack, which is in reverse. */
    method BuildStack(layerStack: seq<Layer>) returns (viaStack: seq<Via>)
      requires layerStack != [] && AllHaveVias(layerStack)
      ensures StackAlong(Reversed(layerStack), viaStack)
    {
      hide GetViaLayer;
      var n := |layerStack|;
      viaStack := [];
      var i := n - 1;
      while i > 0
        invariant 0 <= i < n && |viaStack| == n - 1 - i
        invariant forall k {:trigger viaStack[k]} | 0 <= k < |viaStack| ::
                    IsHop(layerStack[n - 1 - k], layerStack[n - 2 - k], viaStack[k])
      {
        assert HasVia(layerStack, i);
        SymmetricLookup(layerStack[i - 1], layerStack[i]);
        viaStack := viaStack + [GetRoutingViaInfoOrDie(layerStack[i - 1], layerStack[i])];
        i := i - 1;
      }
      ghost var path := Reversed(layerStack);
      forall k | 0 <= k < n - 1 ensures IsHop(path[k], path[k + 1], viaStack[k]) {
        assert path[k] == layerStack[n - 1 - k] && path[k + 1] == layerStack[n - 2 - k];
      }
    }

    /** A path between two layers can be walked both ways, and has a via layer for every hop. */
    lemma PathBothWays(p: seq<Layer>, from: Layer, to: Layer)
      requires Valid() && ViaGraph().Path(p, from, to)
      ensures ViaGraph().Path(Reversed(p), to, from)
      ensures AllHaveVias(p)
    {
      hide ViaGraph, GetViaLayer;
      GraphIsSound();
      ReversedPath(ViaGraph(), p, from, to);
      forall k | 0 < k < |p| ensures HasVia(p, k) {
        assert ViaGraph().Adjacent(p[k - 1], p[k - 1 + 1]);
        SymmetricLookup(p[k - 1], p[k]);
      }
    }

    /** Ready to be turned into vias, for a path that is cheapest both ways. */
    lemma LayerStackIsReady(layerStack: seq<Layer>, from: Layer, to: Layer)
      requires Valid() && ViaGraph().Cheapest(Reversed(layerStack), from, to)
      ensures layerStack != [] && AllHaveVias(layerStack)
      ensures ViaGraph().Cheapest(Reversed(Reversed(layerStack)), to, from)
    {
      assert Reversed(Reversed(layerStack)) == layerStack;
      hide ViaGraph, GetViaLayer;
      GraphIsSound();
      ReversedCheapest(ViaGraph(), Reversed(layerStack), from, to);
      PathBothWays(layerStack, to, from);
    }

    // ---- ways between layers, by the tables alone ---------------------------------------------

    /** Layers of which each is connected to the next through some via layer. */
    ghost predicate IsWay(p: seq<Layer>, from: Layer, to: Layer)
      reads this
    {
      && p != [] && p[0] == from && p[|p| - 1] == to
      && forall k {:trigger p[k]} | 0 < k < |p| :: GetViaLayer(p[k - 1], p[k]).Some?
    }

    ghost predicate HasCosts(p: seq<Layer>)
      reads this
    {
      forall k | 0 < k < |p| :: p[k] in viaCost
    }

    /** The via costs of the layers after the first, added up. */
    ghost function WayCost(p: seq<Layer>): real
      requires HasCosts(p)
      reads this
    {
      if |p| <= 1 then 0.0 else WayCost(p[..|p| - 1]) + viaCost[p[|p| - 1]]
    }

    /** The paths of the graph are the ways, and cost what their layers cost. */
    lemma PathsAreWays(p: seq<Layer>, from: Layer, to: Layer)
      ensures ViaGraph().Path(p, from, to) <==> IsWay(p, from, to)
    {
      hide GetViaLayer, ViaGraph;
      forall k | 0 < k < |p| ensures ViaGraph().Adjacent(p[k - 1], p[k]) <==> GetViaLayer(p[k - 1], p[k]).Some? {
        AdjacentMeansVia(p[k - 1], p[k]);
      }
      if IsWay(p, from, to) {
        forall k | 0 <= k < |p| - 1 ensures ViaGraph().Adjacent(p[k], p[k + 1]) {
          assert ViaGraph().Adjacent(p[k + 1 - 1], p[k + 1]) <==> GetViaLayer(p[k + 1 - 1], p[k + 1]).Some?;
        }
      }
      if ViaGraph().Path(p, from, to) {
        forall k | 0 < k < |p| ensures GetViaLayer(p[k - 1], p[k]).Some? {
          assert ViaGraph().Adjacent(p[k - 1], p[k - 1 + 1]);
        }
      }
    }

    lemma {:induction false} PathCostsWhatLayersCost(p: seq<Layer>)
      requires HasCosts(p)
      ensures ViaGraph().Cost(p) == WayCost(p)
    {
      if |p| > 1 {
        PathCostsWhatLayersCost(p[..|p| - 1]);
      }
    }

    lemma WaysHaveCosts(p: seq<Layer>, from: Layer, to: Layer)
      requires HasRules() && IsWay(p, from, to)
      ensures HasCosts(p)
    {
      hide GetViaLayer, Layers, HasRules;
      forall k | 0 < k < |p| ensures p[k] in viaCost {
        ConnectedLayersAreKnown(p[k - 1], p[k]);
      }
    }

    /** No way between the two layers costs less. */
    ghost predicate IsCheapestWay(p: seq<Layer>, from: Layer, to: Layer)
      reads this
    {
      && IsWay(p, from, to) && HasCosts(p)
      && forall q | IsWay(q, from, to) :: HasCosts(q) && WayCost(p) <= WayCost(q)
    }

    lemma CheapestIsCheapestWay(p: seq<Layer>, from: Layer, to: Layer)
      requires HasRules()
      ensures ViaGraph().Cheapest(p, from, to) <==> IsCheapestWay(p, from, to)
    {
      hide GetViaLayer, Layers, HasRules, ViaGraph, IsWay, HasCosts, Graph.Path, WayCost;
      forall q ensures ViaGraph().Path(q, from, to) <==> IsWay(q, from, to) {
        PathsAreWays(q, from, to);
      }
      forall q | IsWay(q, from, to) ensures HasCosts(q) && ViaGraph().Cost(q) == WayCost(q) {
        WaysHaveCosts(q, from, to);
        PathCostsWhatLayersCost(q);
      }
    }

    /** `stack` follows a way that is cheapest in both directions. */
    ghost predicate IsCheapestStack(from: Layer, to: Layer, stack: seq<Via>)
      reads this
    {
      exists p :: StackAlong(p, stack) && IsCheapestWay(p, from, to) && IsCheapestWay(Reversed(p), to, from)
    }

    ghost predicate Connected(from: Layer, to: Layer)
      reads this
    {
      exists p :: IsWay(p, from, to)
    }

    lemma ConnectedBothWays(from: Layer, to: Layer)
      requires Valid() && Connected(from, to)
      ensures Connected(to, from)
    {
      hide ViaGraph, GetViaLayer, IsWay;
      var p :| IsWay(p, from, to);
      PathsAreWays(p, from, to);
      PathBothWays(p, from, to);
      PathsAreWays(Reversed(p), to, from);
    }

    /**
     * The vias of a cheapest way from one layer to another, whichever of the
     * two comes first; none for equal layers, and nothing exactly when no
     * sequence of vias connects them.
     */
    method FindViaStack(lhs: Layer, rhs: Layer) returns (r: Option<seq<Via>>)
      requires Valid() && HasRules()
      ensures lhs == rhs ==> r == Some([])
      ensures lhs != rhs ==> (r.Some? <==> Connected(lhs, rhs)) && (r.Some? <==> Connected(rhs, lhs))
      ensures lhs.number < rhs.number && r.Some? ==> IsCheapestStack(lhs, rhs, r.value)
      ensures lhs.number > rhs.number && r.Some? ==> IsCheapestStack(rhs, lhs, r.value)
    {
      if lhs == rhs {
        return Some([]);
      }
      var (from, to) := OrderLayers(lhs, rhs);
      if Connected(lhs, rhs) { ConnectedBothWays(lhs, rhs); }
      if Connected(rhs, lhs) { ConnectedBothWays(rhs, lhs); }
      r := FindOrderedStack(from, to);
    }

    lemma CheapestHasPath(p: seq<Layer>, from: Layer, to: Layer)
      requires ViaGraph().Cheapest(p, from, to)
      ensures ViaGraph().Path(p, from, to)
    {
    }

    method FindOrderedStack(from: Layer, to: Layer) returns (r: Option<seq<Via>>)
      requires Valid() && HasRules() && from != to
      ensures r.Some? <==> Connected(from, to)
      ensures r.Some? ==> IsCheapestStack(from, to, r.value)
    {
      hide StackAlong, ViaGraph, GetViaLayer, IsWay, IsCheapestWay, Graph.Path, Graph.Cheapest;
      GraphIsSound();
      forall q ensures ViaGraph().Path(q, from, to) <==> IsWay(q, from, to) {
        PathsAreWays(q, from, to);
      }
      var found := FindLayerStack(ViaGraph(), from, to);
      if found.None? {
        return None;
      }
      ghost var path := Reversed(found.value);
      CheapestHasPath(path, from, to);
      CheapestIsCheapestWay(path, from, to);
      CheapestIsCheapestWay(Reversed(path), to, from);
      LayerStackIsReady(found.value, from, to);
      var viaStack := BuildStack(found.value);
      r := Some(viaStack);
    }

    lemma SymmetricLookup(a: Layer, b: Layer)
      ensures GetViaLayer(a, b) == GetViaLayer(b, a)
    {
      assert a.number == b.number ==> a == b;
    }
  }
}
