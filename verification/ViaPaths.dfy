// Paths over the graph of layers that a single via connects, and their cost:
// entering a layer costs the via cost of that layer, leaving one is free.

module ViaPaths {
  import opened Basics

  // Layers are known by an internal number.
  datatype Layer = Layer(number: int)

  // The graph that the search sees: the layers one via away from each layer.
  datatype Graph = Graph(neighbours: map<Layer, set<Layer>>, enter: map<Layer, real>) {

    /** Every layer of the graph has rules, with a cost that is not negative. */
    ghost predicate Valid() {
      forall u, v | u in neighbours && v in neighbours[u] :: v in neighbours && v in enter && enter[v] >= 0.0
    }

    predicate Adjacent(u: Layer, v: Layer) {
      u in neighbours && v in neighbours[u]
    }

    /** `p` goes from one layer to the next through one via each. */
    ghost predicate Path(p: seq<Layer>, from: Layer, to: Layer) {
      && p != [] && p[0] == from && p[|p| - 1] == to
      && forall k | 0 <= k < |p| - 1 :: Adjacent(p[k], p[k + 1])
    }

    /** The cost of a via into layer `v`. */
    function Enter(v: Layer): real {
      if v in enter then enter[v] else 0.0
    }

    /** The cost of the layers a path enters, which are all but its first. */
    ghost function Cost(p: seq<Layer>): real {
      if |p| <= 1 then 0.0 else Cost(p[..|p| - 1]) + Enter(p[|p| - 1])
    }

    /** Putting a layer in front adds the cost of the layer that was first. */
    lemma {:induction false} CostInFront(x: Layer, p: seq<Layer>)
      requires p != []
      ensures Cost([x] + p) == Enter(p[0]) + Cost(p)
    {
      var q := [x] + p;
      assert q[..|q| - 1] == [x] + p[..|p| - 1];
      if |p| > 1 {
        CostInFront(x, p[..|p| - 1]);
      }
    }

    /** No path is cheaper. */
    ghost predicate Cheapest(p: seq<Layer>, from: Layer, to: Layer) {
      Path(p, from, to) && forall q | Path(q, from, to) :: Cost(p) <= Cost(q)
    }
  }

  ghost predicate Symmetric(g: Graph) {
    forall u, v | g.Adjacent(u, v) :: g.Adjacent(v, u)
  }

  lemma ReversedPath(g: Graph, p: seq<Layer>, from: Layer, to: Layer)
    requires Symmetric(g) && g.Path(p, from, to)
    ensures g.Path(Reversed(p), to, from)
  {
    var r := Reversed(p);
    forall k | 0 <= k < |r| - 1 ensures g.Adjacent(r[k], r[k + 1]) {
      assert g.Adjacent(p[|p| - 2 - k], p[|p| - 2 - k + 1]);
    }
  }

  /** The two ends trade places in the cost of a path walked the other way. */
  lemma {:induction false} ReversedCost(g: Graph, p: seq<Layer>)
    requires p != []
    ensures g.Cost(Reversed(p)) + g.Enter(p[|p| - 1]) == g.Cost(p) + g.Enter(p[0])
  {
    if |p| == 1 {
      assert Reversed(p) == p;
    } else {
      var front, last := p[..|p| - 1], p[|p| - 1];
      assert Reversed(p) == [last] + Reversed(front);
      g.CostInFront(last, Reversed(front));
      ReversedCost(g, front);
    }
  }

  /** A cheapest path walked the other way is a cheapest path the other way. */
  lemma ReversedCheapest(g: Graph, p: seq<Layer>, from: Layer, to: Layer)
    requires Symmetric(g) && g.Cheapest(p, from, to)
    ensures g.Cheapest(Reversed(p), to, from)
  {
    ReversedPath(g, p, from, to);
    ReversedCost(g, p);
    forall q | g.Path(q, to, from) ensures g.Cost(Reversed(p)) <= g.Cost(q) {
      ReversedPath(g, q, to, from);
      ReversedCost(g, q);
      assert g.Cost(p) <= g.Cost(Reversed(q));
    }
  }
}
