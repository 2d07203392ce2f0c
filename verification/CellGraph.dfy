// Which cells a cell instantiates, and what it means to emit the cells below a
// top cell in dependency order (src/design_database.cc, WriteTop).

module CellGraph {

  type Cell = nat

  type Graph = map<Cell, set<Cell>>

  /** Cell::DirectAncestors: the cells whose instances a cell contains. */
  function DirectAncestors(g: Graph, c: Cell): set<Cell> {
    if c in g then g[c] else {}
  }

  predicate Uses(g: Graph, x: Cell, y: Cell) {
    x in g && y in g[x]
  }

  /** From the top down to `c`, each cell instantiating the next. */
  ghost predicate Path(g: Graph, top: Cell, c: Cell, p: seq<Cell>)
    decreases |p|
  {
    && p != [] && p[|p| - 1] == c
    && if |p| == 1 then c == top else Path(g, top, p[|p| - 2], p[..|p| - 1]) && Uses(g, p[|p| - 2], c)
  }

  ghost predicate Reachable(g: Graph, top: Cell, c: Cell) {
    exists p :: Path(g, top, c, p)
  }

  /** The level of each reachable cell below the top, by the shortest way. */
  ghost predicate AreDepths(g: Graph, top: Cell, depth: map<Cell, nat>) {
    && top in depth && depth[top] == 0
    && (forall x, y | x in depth && Uses(g, x, y) :: y in depth && depth[y] <= depth[x] + 1)
    && (forall y | y in depth && y != top ::
          exists x | x in depth :: Uses(g, x, y) && depth[y] == depth[x] + 1)
  }

  lemma EdgeDepth(g: Graph, top: Cell, depth: map<Cell, nat>, x: Cell, y: Cell)
    requires AreDepths(g, top, depth) && x in depth && Uses(g, x, y)
    ensures y in depth && depth[y] <= depth[x] + 1
  {
  }

  lemma {:induction false} DepthIsLowerBound(g: Graph, top: Cell, depth: map<Cell, nat>, c: Cell, p: seq<Cell>)
    requires AreDepths(g, top, depth) && Path(g, top, c, p)
    ensures c in depth && depth[c] <= |p| - 1
    decreases |p|
  {
    hide Uses;
    if |p| > 1 {
      hide AreDepths;
      DepthIsLowerBound(g, top, depth, p[|p| - 2], p[..|p| - 1]);
      EdgeDepth(g, top, depth, p[|p| - 2], c);
    }
  }

  lemma AppendedIsPath(g: Graph, top: Cell, x: Cell, p: seq<Cell>, c: Cell)
    requires Path(g, top, x, p) && Uses(g, x, c)
    ensures Path(g, top, c, p + [c])
  {
    assert (p + [c])[..|p|] == p;
  }

  lemma {:induction false} ShortestPath(g: Graph, top: Cell, depth: map<Cell, nat>, c: Cell) returns (p: seq<Cell>)
    requires AreDepths(g, top, depth) && c in depth
    ensures Path(g, top, c, p) && |p| == depth[c] + 1
    decreases depth[c]
  {
    hide Uses;
    if c == top {
      p := [top];
    } else {
      var x :| x in depth && Uses(g, x, c) && depth[c] == depth[x] + 1;
      hide AreDepths, Path;
      var before := ShortestPath(g, top, depth, x);
      AppendedIsPath(g, top, x, before, c);
      p := before + [c];
    }
  }

  /** Depths are the lengths of shortest paths, so there is only one choice of them. */
  lemma DepthsAreShortestPaths(g: Graph, top: Cell, depth: map<Cell, nat>)
    requires AreDepths(g, top, depth)
    ensures forall c :: c in depth <==> Reachable(g, top, c)
    ensures forall c, p | Path(g, top, c, p) :: c in depth && depth[c] <= |p| - 1
    ensures forall c | c in depth :: exists p :: Path(g, top, c, p) && |p| == depth[c] + 1
  {
    hide AreDepths, Path, Uses;
    forall c | c in depth ensures exists p :: Path(g, top, c, p) && |p| == depth[c] + 1 {
      var p := ShortestPath(g, top, depth, c);
    }
    forall c, p | Path(g, top, c, p) ensures c in depth && depth[c] <= |p| - 1 {
      DepthIsLowerBound(g, top, depth, c, p);
    }
  }

  lemma SameDepths(g: Graph, top: Cell, a: map<Cell, nat>, b: map<Cell, nat>)
    requires AreDepths(g, top, a) && AreDepths(g, top, b)
    ensures a == b
  {
    hide AreDepths, Path, Uses;
    DepthsAreShortestPaths(g, top, a);
    DepthsAreShortestPaths(g, top, b);
    forall c | c in a ensures c in b && a[c] == b[c] {
      assert Reachable(g, top, c);
      var p :| Path(g, top, c, p) && |p| == a[c] + 1;
      var q :| Path(g, top, c, q) && |q| == b[c] + 1;
    }
  }

  /** Each cell comes after everything it instantiates. */
  ghost predicate InDependencyOrder(g: Graph, order: seq<Cell>) {
    forall i, j | 0 <= i < |order| && 0 <= j < |order| && Uses(g, order[i], order[j]) :: j < i
  }

  /**
   * Whatever instantiates a cell, some cell on a deeper level instantiates
   * each of its own direct ancestors.
   */
  ghost predicate UsersStrictlyDescend(g: Graph, depth: map<Cell, nat>) {
    forall p, x, y | p in depth && x in depth && Uses(g, p, x) && Uses(g, x, y) ::
      exists q | q in depth && Uses(g, q, y) :: depth[q] > depth[p]
  }

  /** The same, with a cell on an equal or deeper level. */
  ghost predicate UsersDescend(g: Graph, depth: map<Cell, nat>) {
    forall p, x, y | p in depth && x in depth && Uses(g, p, x) && Uses(g, x, y) ::
      exists q | q in depth && Uses(g, q, y) :: depth[q] >= depth[p]
  }

  /** Every way down to a cell has the same length. */
  ghost predicate Graded(g: Graph, top: Cell) {
    forall c, p, q | Path(g, top, c, p) && Path(g, top, c, q) :: |p| == |q|
  }

  lemma GradedUsersDescend(g: Graph, top: Cell, depth: map<Cell, nat>)
    requires AreDepths(g, top, depth) && Graded(g, top)
    ensures UsersStrictlyDescend(g, depth)
  {
    hide AreDepths, Graded, Uses;
    forall p, x, y | p in depth && x in depth && Uses(g, p, x) && Uses(g, x, y)
      ensures exists q | q in depth && Uses(g, q, y) :: depth[q] > depth[p]
    {
      EdgeGoesOneDown(g, top, depth, p, x);
      assert depth[x] > depth[p];
    }
  }

  lemma EdgeGoesOneDown(g: Graph, top: Cell, depth: map<Cell, nat>, x: Cell, y: Cell)
    requires AreDepths(g, top, depth) && Graded(g, top) && x in depth && Uses(g, x, y)
    ensures y in depth && depth[y] == depth[x] + 1
  {
    hide AreDepths, Path, Uses;
    EdgeDepth(g, top, depth, x, y);
    var a := ShortestPath(g, top, depth, x);
    var b := ShortestPath(g, top, depth, y);
    AppendedIsPath(g, top, x, a, y);
  }

  // A small graph without cycles in which two ways down to a cell differ in
  // length: 0 uses 1 and 2, 1 uses 3, 2 uses 4, and 4 uses 1.
  const UNGRADED: Graph := map[0 := {1, 2}, 1 := {3}, 2 := {4}, 4 := {1}]

  const UNGRADED_DEPTHS: map<Cell, nat> := map[0 := 0, 1 := 1, 2 := 1, 3 := 2, 4 := 2]

  lemma UngradedEdges(x: Cell, y: Cell)
    ensures Uses(UNGRADED, x, y) <==> (x, y) in {(0, 1), (0, 2), (1, 3), (2, 4), (4, 1)}
  {
  }

  lemma UngradedDepths()
    ensures AreDepths(UNGRADED, 0, UNGRADED_DEPTHS)
  {
    var g, d := UNGRADED, UNGRADED_DEPTHS;
    forall x, y | x in d && Uses(g, x, y) ensures y in d && d[y] <= d[x] + 1 {
      UngradedEdges(x, y);
    }
    forall y | y in d && y != 0 ensures exists x | x in d :: Uses(g, x, y) && d[y] == d[x] + 1 {
      var x := if y == 3 then 1 else if y == 4 then 2 else 0;
      assert Uses(g, x, y) && d[y] == d[x] + 1;
    }
  }

  /** Cell 4 instantiates cell 1 from below the level on which cell 3 is needed. */
  lemma UngradedDoesNotDescend()
    ensures AreDepths(UNGRADED, 0, UNGRADED_DEPTHS)
    ensures !UsersDescend(UNGRADED, UNGRADED_DEPTHS) && !Graded(UNGRADED, 0)
  {
    hide AreDepths, UsersDescend, Graded;
    UngradedDepths();
    UngradedPaths();
    UngradedEdges(4, 1);
    UngradedEdges(1, 3);
    UngradedUser();
    DoesNotDescend(UNGRADED, UNGRADED_DEPTHS, 4, 1, 3);
  }

  /** All users of `y` lie above `p`, a user of `x`, which uses `y`. */
  lemma DoesNotDescend(g: Graph, depth: map<Cell, nat>, p: Cell, x: Cell, y: Cell)
    requires p in depth && x in depth && Uses(g, p, x) && Uses(g, x, y)
    requires forall q | q in depth && Uses(g, q, y) :: depth[q] < depth[p]
    ensures !UsersDescend(g, depth)
  {
    hide Uses;
  }

  lemma UngradedUser()
    ensures forall q | q in UNGRADED_DEPTHS && Uses(UNGRADED, q, 3) :: UNGRADED_DEPTHS[q] < UNGRADED_DEPTHS[4]
  {
    forall q | q in UNGRADED_DEPTHS && Uses(UNGRADED, q, 3) ensures UNGRADED_DEPTHS[q] < UNGRADED_DEPTHS[4] {
      UngradedEdges(q, 3);
    }
  }

  lemma TopPath(g: Graph, top: Cell)
    ensures Path(g, top, top, [top])
  {
  }

  lemma UngradedPaths()
    ensures !Graded(UNGRADED, 0)
  {
    hide Path;
    var g := UNGRADED;
    TopPath(g, 0);
    AppendedIsPath(g, 0, 0, [0], 1);
    AppendedIsPath(g, 0, 0, [0], 2);
    AppendedIsPath(g, 0, 2, [0] + [2], 4);
    AppendedIsPath(g, 0, 4, [0] + [2] + [4], 1);
    assert |[0] + [1]| != |[0] + [2] + [4] + [1]|;
  }
}
