// The search for a via stack (src/physical_properties_database.cc,
// FindViaStackImpl): a shortest-path search whose queue is never re-ordered.
// It is right because the cost of a hop depends only on the layer it enters.

module ViaSearch {
  import opened Basics
  import opened ViaPaths

  // The bookkeeping of the search, with the layers popped so far in order.
  datatype Search = Search(cost: map<Layer, real>, previous: map<Layer, Layer>, queue: set<Layer>, popped: seq<Layer>)

  /** The costs and predecessors known so far hang together. */
  ghost predicate Consistent(g: Graph, from: Layer, s: Search)
    requires g.Valid()
  {
    && from in s.cost && s.cost[from] == 0.0
    && s.previous.Keys == s.cost.Keys - {from}
    && Known(s)
    && (forall v | v in s.cost :: v in s.queue || v in s.popped)
    && (forall v | v in s.popped :: v !in s.queue)
    && (forall v | v in s.cost :: v == from || v in g.neighbours)
    && (forall v {:trigger s.previous[v]} | v in s.previous ::
          && s.previous[v] in s.popped && g.Adjacent(s.previous[v], v)
          && s.cost[v] == s.cost[s.previous[v]] + g.Enter(v))
    && (forall k {:trigger s.previous[s.popped[k]]} | 0 <= k < |s.popped| && s.popped[k] in s.previous ::
          s.previous[s.popped[k]] in s.popped[..k])
    && (from in s.queue ==> s.popped == [] && s.queue == {from})
  }

  ghost predicate Known(s: Search) {
    && (forall v | v in s.queue :: v in s.cost)
    && (forall k | 0 <= k < |s.popped| :: s.popped[k] in s.cost)
  }

  /** Layers are popped once each, in order of cost, before anything still queued. */
  ghost predicate InCostOrder(s: Search)
    requires Known(s)
  {
    && (forall j, k | 0 <= j < k < |s.popped| :: s.popped[j] != s.popped[k])
    && (forall j, k | 0 <= j < k < |s.popped| :: s.cost[s.popped[j]] <= s.cost[s.popped[k]])
    && (forall k, v | 0 <= k < |s.popped| && v in s.queue :: s.cost[s.popped[k]] <= s.cost[v])
  }

  /** The neighbours of popped layers are known, except `todo` from the last one. */
  ghost predicate Relaxed(g: Graph, s: Search, todo: set<Layer>)
    requires g.Valid() && Known(s)
  {
    forall k, v | 0 <= k < |s.popped| && g.Adjacent(s.popped[k], v) && (k < |s.popped| - 1 || v !in todo) ::
      v in s.cost && s.cost[v] <= s.cost[s.popped[k]] + g.Enter(v)
  }

  ghost predicate Inv(g: Graph, from: Layer, s: Search, todo: set<Layer>)
    requires g.Valid()
  {
    Consistent(g, from, s) && InCostOrder(s) && Relaxed(g, s, todo)
  }

  /** The state after the cheapest layer in the queue was popped. */
  function Popped(s: Search, current: Layer): Search {
    s.(queue := s.queue - {current}, popped := s.popped + [current])
  }

  /**
   * The first cost given to a layer is final: no later hop improves it. So a
   * cost and a predecessor are assigned at most once, and the keys of the
   * queue never change while queued.
   */
  lemma KnownCostIsFinal(g: Graph, from: Layer, s: Search, todo: set<Layer>, next: Layer)
    requires g.Valid() && Inv(g, from, s, todo) && s.popped != []
    requires g.Adjacent(s.popped[|s.popped| - 1], next) && next in s.cost
    ensures s.cost[next] <= s.cost[s.popped[|s.popped| - 1]] + g.Enter(next)
  {
    var last := |s.popped| - 1;
    if next in s.popped {
      var k :| 0 <= k < |s.popped| && s.popped[k] == next;
      assert k == last || s.cost[s.popped[k]] <= s.cost[s.popped[last]];
    } else {
      var j :| 0 <= j < |s.popped| && s.popped[j] == s.previous[next];
      assert j == last || s.cost[s.popped[j]] <= s.cost[s.popped[last]];
    }
  }

  lemma PopKeepsConsistent(g: Graph, from: Layer, s: Search, current: Layer)
    requires g.Valid() && Consistent(g, from, s) && current in s.queue
    ensures Consistent(g, from, Popped(s, current))
  {
    var t := Popped(s, current);
    assert forall v :: v in t.popped <==> v in s.popped || v == current;
    forall k | 0 <= k < |t.popped| && t.popped[k] in t.previous ensures t.previous[t.popped[k]] in t.popped[..k] {
      if k < |s.popped| {
        assert t.popped[..k] == s.popped[..k];
      } else {
        assert t.popped[..k] == s.popped;
      }
    }
  }

  lemma PoppedAt(s: Search, current: Layer, k: nat)
    requires Known(s) && current in s.queue && k <= |s.popped|
    ensures Popped(s, current).popped[k] == if k < |s.popped| then s.popped[k] else current
    ensures Popped(s, current).popped[k] in s.cost
    ensures k < |s.popped| ==> s.popped[k] in s.popped
  {
  }

  lemma PopKeepsKnown(s: Search, current: Layer)
    requires Known(s) && current in s.queue
    ensures Known(Popped(s, current))
  {
    forall k | 0 <= k <= |s.popped| ensures Popped(s, current).popped[k] in s.cost {
      PoppedAt(s, current, k);
    }
  }

  lemma PopKeepsOrder(s: Search, current: Layer)
    requires Known(s) && InCostOrder(s) && current in s.queue && current !in s.popped
    requires forall v | v in s.queue :: s.cost[current] <= s.cost[v]
    ensures Known(Popped(s, current)) && InCostOrder(Popped(s, current))
  {
    PopKeepsKnown(s, current);
    var t := Popped(s, current);
    forall j, k | 0 <= j < k < |t.popped|
      ensures t.popped[j] != t.popped[k] && t.cost[t.popped[j]] <= t.cost[t.popped[k]]
    {
      PoppedAt(s, current, j);
      PoppedAt(s, current, k);
    }
    forall k, v | 0 <= k < |t.popped| && v in t.queue ensures t.cost[t.popped[k]] <= t.cost[v] {
      PoppedAt(s, current, k);
    }
  }

  lemma PopKeepsInv(g: Graph, from: Layer, s: Search, current: Layer)
    requires g.Valid() && Inv(g, from, s, {})
    requires current in s.queue && forall v | v in s.queue :: s.cost[current] <= s.cost[v]
    ensures Inv(g, from, Popped(s, current), Around(g, current))
  {
    PopKeepsConsistent(g, from, s, current);
    PopKeepsOrder(s, current);
    PopKeepsRelaxed(g, s, current);
  }

  /** The layers one via away. */
  function Around(g: Graph, u: Layer): set<Layer> {
    if u in g.neighbours then g.neighbours[u] else {}
  }

  lemma PopKeepsRelaxed(g: Graph, s: Search, current: Layer)
    requires g.Valid() && Known(s) && Relaxed(g, s, {}) && current in s.queue
    ensures
      var t := Popped(s, current);
      Known(t) && Relaxed(g, t, Around(g, current))
  {
    var t := Popped(s, current);
    forall k, v | 0 <= k < |t.popped| && g.Adjacent(t.popped[k], v) && (k < |t.popped| - 1 || v !in Around(g, current))
      ensures v in t.cost && t.cost[v] <= t.cost[t.popped[k]] + g.Enter(v)
    {
      assert k < |s.popped| && g.Adjacent(s.popped[k], v);
    }
  }

  /** The search state once `next` has been reached from `current` for the first time. */
  ghost function Discovered(g: Graph, s: Search, current: Layer, next: Layer): Search
    requires current in s.cost
  {
    s.(cost := s.cost[next := s.cost[current] + g.Enter(next)],
       previous := s.previous[next := current],
       queue := s.queue + {next})
  }

  lemma DiscoverKeepsOrder(g: Graph, s: Search, next: Layer)
    requires g.Valid() && Known(s) && InCostOrder(s) && s.popped != []
    requires next !in s.cost && g.Enter(next) >= 0.0
    ensures
      var t := Discovered(g, s, s.popped[|s.popped| - 1], next);
      Known(t) && InCostOrder(t)
  {
    var current := s.popped[|s.popped| - 1];
    forall u | u in s.popped ensures s.cost[u] <= s.cost[current] {
      var k :| 0 <= k < |s.popped| && s.popped[k] == u;
    }
  }

  lemma DiscoverKeepsRelaxed(g: Graph, s: Search, todo: set<Layer>, next: Layer)
    requires g.Valid() && Known(s) && Relaxed(g, s, todo) && s.popped != [] && next !in s.cost
    ensures
      var t := Discovered(g, s, s.popped[|s.popped| - 1], next);
      Known(t) && Relaxed(g, t, todo - {next})
  {
  }

  lemma DiscoverKeepsConsistent(g: Graph, from: Layer, s: Search, next: Layer)
    requires g.Valid() && Consistent(g, from, s) && s.popped != []
    requires g.Adjacent(s.popped[|s.popped| - 1], next) && next !in s.cost
    ensures Consistent(g, from, Discovered(g, s, s.popped[|s.popped| - 1], next))
  {
  }

  lemma DiscoverKeepsInv(g: Graph, from: Layer, s: Search, todo: set<Layer>, next: Layer)
    requires g.Valid() && Inv(g, from, s, todo) && s.popped != [] && next in todo
    requires g.Adjacent(s.popped[|s.popped| - 1], next) && next !in s.cost
    ensures Inv(g, from, Discovered(g, s, s.popped[|s.popped| - 1], next), todo - {next})
  {
    DiscoverKeepsConsistent(g, from, s, next);
    DiscoverKeepsOrder(g, s, next);
    DiscoverKeepsRelaxed(g, s, todo, next);
  }

  /**
   * Wherever a path leads: its end was popped at no more than the cost of the
   * path, or something at no more than that cost is still queued.
   */
  lemma {:induction false} PathsAreCovered(g: Graph, from: Layer, s: Search, q: seq<Layer>, to: Layer)
    requires g.Valid() && Inv(g, from, s, {}) && g.Path(q, from, to)
    ensures
      || (to in s.popped && s.cost[to] <= g.Cost(q))
      || exists z | z in s.queue :: s.cost[z] <= g.Cost(q)
  {
    if |q| == 1 {
      assert g.Cost(q) == 0.0;
      if from in s.queue { assert s.cost[from] <= g.Cost(q); }
    } else {
      var front := q[..|q| - 1];
      var u := q[|q| - 2];
      assert g.Adjacent(q[|q| - 2], q[|q| - 2 + 1]);
      assert g.Path(front, from, u);
      PathsAreCovered(g, from, s, front, u);
      assert g.Cost(q) == g.Cost(front) + g.Enter(to);
      if u in s.popped && s.cost[u] <= g.Cost(front) {
        var k :| 0 <= k < |s.popped| && s.popped[k] == u;
        assert g.Adjacent(s.popped[k], to);
        if to in s.queue { assert s.cost[to] <= g.Cost(q); }
      } else {
        var z :| z in s.queue && s.cost[z] <= g.Cost(front);
        assert s.cost[z] <= g.Cost(q);
      }
    }
  }

  /** One step of the inner loop: `next` is new, or its cost cannot be improved. */
  lemma RelaxStep(g: Graph, from: Layer, s: Search, todo: set<Layer>, next: Layer)
    requires g.Valid() && Inv(g, from, s, todo) && s.popped != [] && next in todo
    requires g.Adjacent(s.popped[|s.popped| - 1], next)
    ensures s.popped[|s.popped| - 1] in s.cost
    ensures next in s.cost ==>
              s.cost[next] <= s.cost[s.popped[|s.popped| - 1]] + g.Enter(next) && Inv(g, from, s, todo - {next})
    ensures next !in s.cost ==>
              next !in s.previous && Inv(g, from, Discovered(g, s, s.popped[|s.popped| - 1], next), todo - {next})
  {
    if next in s.cost {
      KnownCostIsFinal(g, from, s, todo, next);
    } else {
      DiscoverKeepsInv(g, from, s, todo, next);
    }
  }

  /** Looks at one layer `next` that is one via away from `current`, the layer popped last. */
  method RelaxOne(
    g: Graph, ghost from: Layer, current: Layer, next: Layer, ghost s: Search, ghost todo: set<Layer>,
    cost: map<Layer, real>, previous: map<Layer, Layer>, seen: set<Layer>, queue: set<Layer>)
    returns (cost': map<Layer, real>, previous': map<Layer, Layer>, seen': set<Layer>, queue': set<Layer>)
    requires g.Valid() && s == Search(cost, previous, queue, s.popped) && seen == previous.Keys
    requires s.popped != [] && current == s.popped[|s.popped| - 1] && next in todo && g.Adjacent(current, next)
    requires Inv(g, from, s, todo)
    ensures seen' == previous'.Keys
    ensures Inv(g, from, Search(cost', previous', queue', s.popped), todo - {next})
  {
    hide Inv;
    cost', previous', seen', queue' := cost, previous, seen, queue;
    RelaxStep(g, from, s, todo, next);
    var nextCost := cost[current] + g.Enter(next);
    if next !in cost || nextCost < cost[next] {
      cost' := cost[next := nextCost];
      previous' := previous[next := current];
      if next !in seen {
        queue' := queue + {next};
        seen' := seen + {next};
      }
      assert Search(cost', previous', queue', s.popped) == Discovered(g, s, current, next);
    }
  }

  /** Looks at every layer one via away from `current`, the layer popped last. */
  method RelaxAround(
    g: Graph, ghost from: Layer, current: Layer, ghost s: Search,
    cost: map<Layer, real>, previous: map<Layer, Layer>, seen: set<Layer>, queue: set<Layer>)
    returns (cost': map<Layer, real>, previous': map<Layer, Layer>, seen': set<Layer>, queue': set<Layer>)
    requires g.Valid() && s == Search(cost, previous, queue, s.popped) && seen == previous.Keys
    requires s.popped != [] && current == s.popped[|s.popped| - 1]
    requires Inv(g, from, s, Around(g, current))
    ensures seen' == previous'.Keys
    ensures Inv(g, from, Search(cost', previous', queue', s.popped), {})
  {
    hide Inv;
    cost', previous', seen', queue' := cost, previous, seen, queue;
    var todo := Around(g, current);
    while todo != {}
      invariant Inv(g, from, Search(cost', previous', queue', s.popped), todo)
      invariant todo <= Around(g, current) && seen' == previous'.Keys
    {
      var next :| next in todo;
      cost', previous', seen', queue' := RelaxOne(
        g, from, current, next, Search(cost', previous', queue', s.popped), todo, cost', previous', seen', queue');
      todo := todo - {next};
    }
  }

  /** The search from `from`, until `to` is popped or the queue runs dry. */
  method Explore(g: Graph, from: Layer, to: Layer) returns (previous: map<Layer, Layer>, ghost s: Search)
    requires g.Valid() && from != to
    ensures previous == s.previous && Consistent(g, from, s) && InCostOrder(s)
    ensures to in previous ==> to in s.popped && forall q | g.Path(q, from, to) :: s.cost[to] <= g.Cost(q)
    ensures to !in previous ==> forall q :: !g.Path(q, from, to)
  {
    var cost := map[from := 0.0];
    previous := map[];
    var seen: set<Layer> := {};
    var queue := {from};
    ghost var popped: set<Layer> := {};
    s := Search(cost, previous, queue, []);
    while queue != {}
      invariant s == Search(cost, previous, queue, s.popped) && seen == previous.Keys
      invariant Inv(g, from, s, {})
      invariant to !in s.popped
      invariant popped <= g.neighbours.Keys + {from} && forall v | v in popped :: v in s.popped
      decreases g.neighbours.Keys + {from} - popped
    {
      // The top of the queue is any queued layer of least cost.
      var current := PopLeast(queue, cost);
      ghost var before := s;
      PopKeepsInv(g, from, s, current);
      queue := queue - {current};
      s := s.(queue := queue, popped := s.popped + [current]);
      popped := popped + {current};
      if current == to {
        forall q | g.Path(q, from, to) ensures s.cost[to] <= g.Cost(q) {
          PathsAreCovered(g, from, before, q, to);
        }
        return;
      }
      cost, previous, seen, queue := RelaxAround(g, from, current, s, cost, previous, seen, queue);
      s := Search(cost, previous, queue, s.popped);
    }
    forall q ensures !g.Path(q, from, to) {
      if g.Path(q, from, to) {
        PathsAreCovered(g, from, s, q, to);
      }
    }
  }

  /** The position at which a layer was popped. */
  ghost function Rank(s: Search, v: Layer): nat
    requires v in s.popped
  {
    var k :| 0 <= k < |s.popped| && s.popped[k] == v;
    k
  }

  /** Predecessors were popped strictly earlier, whatever the costs. */
  lemma PredecessorsAreEarlier(g: Graph, from: Layer, s: Search, v: Layer)
    requires g.Valid() && Consistent(g, from, s) && InCostOrder(s)
    requires v in s.popped && v in s.previous
    ensures s.previous[v] in s.popped && Rank(s, s.previous[v]) < Rank(s, v)
  {
    var k := Rank(s, v);
    assert s.popped[k] == v && s.previous[s.popped[k]] in s.popped[..k];
    var j :| 0 <= j < k && s.popped[..k][j] == s.previous[v];
    assert s.popped[j] == s.previous[v];
  }

  lemma StepInFront(g: Graph, next: Layer, path: seq<Layer>, current: Layer, to: Layer)
    requires g.Path(path, current, to) && g.Adjacent(next, current)
    ensures g.Path([next] + path, next, to) && g.Cost([next] + path) == g.Enter(current) + g.Cost(path)
  {
    g.CostInFront(next, path);
    var p := [next] + path;
    forall k | 0 <= k < |p| - 1 ensures g.Adjacent(p[k], p[k + 1]) {
      if k > 0 {
        assert g.Adjacent(path[k - 1], path[k - 1 + 1]);
      }
    }
  }

  /**
   * Walks the predecessors from `to` back to `from`: the layers of a path, in
   * reverse. It ends even where vias cost nothing.
   */
  method WalkBack(g: Graph, from: Layer, to: Layer, previous: map<Layer, Layer>, ghost s: Search)
    returns (layerStack: seq<Layer>)
    requires g.Valid() && from != to && Consistent(g, from, s) && InCostOrder(s)
    requires previous == s.previous && to in previous && to in s.popped
    ensures g.Path(Reversed(layerStack), from, to) && g.Cost(Reversed(layerStack)) == s.cost[to]
  {
    layerStack := [to];
    var current := to;
    ghost var path := [to];
    while current != from
      invariant current in s.popped && layerStack != [] && layerStack[|layerStack| - 1] == current
      invariant path == Reversed(layerStack)
      invariant g.Path(path, current, to)
      invariant s.cost[current] + g.Cost(path) == s.cost[to]
      decreases Rank(s, current)
    {
      PredecessorsAreEarlier(g, from, s, current);
      var next := previous[current];
      layerStack := layerStack + [next];
      StepInFront(g, next, path, current, to);
      path := [next] + path;
      current := next;
    }
  }

  /**
   * The layers of a cheapest path between two different layers, last layer
   * first, or nothing exactly when no path exists.
   */
  method FindLayerStack(g: Graph, from: Layer, to: Layer) returns (layerStack: Option<seq<Layer>>)
    requires g.Valid() && from != to
    ensures layerStack.None? <==> forall q :: !g.Path(q, from, to)
    ensures layerStack.Some? ==> g.Cheapest(Reversed(layerStack.value), from, to)
  {
    var previous, s := Explore(g, from, to);
    if to !in previous {
      return None;
    }
    var layers := WalkBack(g, from, to, previous, s);
    layerStack := Some(layers);
  }

  method PopLeast(queue: set<Layer>, cost: map<Layer, real>) returns (least: Layer)
    requires queue != {} && forall v | v in queue :: v in cost
    ensures least in queue && forall v | v in queue :: cost[least] <= cost[v]
  {
    least :| least in queue;
    var rest := queue - {least};
    while rest != {}
      invariant rest <= queue && least in queue
      invariant forall v | v in queue - rest :: cost[least] <= cost[v]
    {
      var v :| v in rest;
      if cost[v] < cost[least] {
        least := v;
      }
      rest := rest - {v};
    }
  }
}
