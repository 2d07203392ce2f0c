// The breadth-first numbering of the cells below a top cell that
// DesignDatabase::WriteTop (src/design_database.cc) discovers: which cells
// come before which, and what that says about their depths.

module BreadthFirst {
  import opened CellGraph

  /** The index of the first cell in `s` that instantiates `y`, or |s|. */
  function FirstUser(g: Graph, s: seq<Cell>, y: Cell): (r: nat)
    ensures r <= |s| && (r < |s| ==> Uses(g, s[r], y))
    ensures forall j | 0 <= j < r :: !Uses(g, s[j], y)
  {
    if s == [] then 0
    else
      var r := FirstUser(g, s[..|s| - 1], y);
      if r < |s| - 1 || Uses(g, s[|s| - 1], y) then r else |s|
  }

  /** The index of the last cell in `s` that instantiates `y`, or -1. */
  function LastUser(g: Graph, s: seq<Cell>, y: Cell): (r: int)
    ensures -1 <= r < |s| && (r >= 0 ==> Uses(g, s[r], y))
    ensures forall j | r < j < |s| :: !Uses(g, s[j], y)
  {
    if s == [] then -1
    else if Uses(g, s[|s| - 1], y) then |s| - 1
    else LastUser(g, s[..|s| - 1], y)
  }

  /** By visit, and within a visit by address. */
  predicate Precedes(visitA: int, a: Cell, visitB: int, b: Cell) {
    visitA < visitB || (visitA == visitB && a < b)
  }

  /**
   * Cells numbered from the top: all that are instantiated, in the order of
   * the first cell that instantiates them, which comes earlier, and then of
   * their addresses.
   */
  ghost predicate IsBreadthFirst(g: Graph, top: Cell, s: seq<Cell>) {
    && s != [] && s[0] == top
    && (forall k, y | 0 <= k < |s| && Uses(g, s[k], y) :: y in s)
    && (forall k | 0 < k < |s| :: FirstUser(g, s, s[k]) < k && s[k] != top)
    && (forall j, k | 0 < j < k < |s| :: Precedes(FirstUser(g, s, s[j]), s[j], FirstUser(g, s, s[k]), s[k]))
  }

  lemma DistinctCells(g: Graph, top: Cell, s: seq<Cell>, j: nat, k: nat)
    requires IsBreadthFirst(g, top, s) && j < k < |s|
    ensures s[j] != s[k]
  {
  }

  ghost predicate Agree(s: seq<Cell>, t: seq<Cell>, n: nat) {
    n <= |s| && n <= |t| && forall i | 0 <= i < n :: s[i] == t[i]
  }

  lemma AgreeingFirstUsers(g: Graph, s: seq<Cell>, t: seq<Cell>, n: nat, y: Cell)
    requires Agree(s, t, n) && FirstUser(g, s, y) < n
    ensures FirstUser(g, t, y) == FirstUser(g, s, y)
  {
    hide FirstUser;
    var r := FirstUser(g, s, y);
    assert forall j | 0 <= j < r :: !Uses(g, t[j], y) by {
      assert forall j | 0 <= j < r :: !Uses(g, s[j], y);
    }
    assert Uses(g, t[r], y);
  }

  lemma UsedIsNumbered(g: Graph, top: Cell, s: seq<Cell>, k: nat, y: Cell) returns (m: nat)
    requires IsBreadthFirst(g, top, s) && k < |s| && Uses(g, s[k], y)
    ensures m < |s| && s[m] == y
  {
    hide FirstUser, Uses, Precedes;
    assert y in s;
    m :| m < |s| && s[m] == y;
  }

  lemma LaterPrecedes(g: Graph, top: Cell, s: seq<Cell>, j: nat, k: nat)
    requires IsBreadthFirst(g, top, s) && 0 < j < k < |s|
    ensures Precedes(FirstUser(g, s, s[j]), s[j], FirstUser(g, s, s[k]), s[k])
  {
  }

  lemma FirstUserIsEarlier(g: Graph, top: Cell, s: seq<Cell>, k: nat)
    requires IsBreadthFirst(g, top, s) && 0 < k < |s|
    ensures FirstUser(g, s, s[k]) < k
  {
  }

  lemma NextComesLater(g: Graph, top: Cell, s: seq<Cell>, t: seq<Cell>, n: nat)
    requires IsBreadthFirst(g, top, s) && IsBreadthFirst(g, top, t)
    requires 0 < n < |s| && Agree(s, t, n)
    ensures n < |t|
    ensures s[n] != t[n] ==> Precedes(FirstUser(g, t, t[n]), t[n], FirstUser(g, s, s[n]), s[n])
  {
    hide IsBreadthFirst, FirstUser, Uses, Precedes;
    var y := s[n];
    FirstUserIsEarlier(g, top, s, n);
    var r := FirstUser(g, s, y);
    AgreeingFirstUsers(g, s, t, n, y);
    var m := UsedIsNumbered(g, top, t, r, y);
    if m < n {
      DistinctCells(g, top, s, m, n);
    } else if m > n {
      LaterPrecedes(g, top, t, n, m);
    }
  }

  lemma {:induction false} PrefixesAgree(g: Graph, top: Cell, s: seq<Cell>, t: seq<Cell>, n: nat)
    requires IsBreadthFirst(g, top, s) && IsBreadthFirst(g, top, t)
    requires n <= |s| && n <= |t|
    ensures Agree(s, t, n)
  {
    hide IsBreadthFirst;
    if n > 0 {
      PrefixesAgree(g, top, s, t, n - 1);
      NextAgrees(g, top, s, t, n - 1);
    }
  }

  lemma NextAgrees(g: Graph, top: Cell, s: seq<Cell>, t: seq<Cell>, n: nat)
    requires IsBreadthFirst(g, top, s) && IsBreadthFirst(g, top, t)
    requires n < |s| && n < |t| && Agree(s, t, n)
    ensures s[n] == t[n]
  {
    SameTop(g, top, s, t);
    hide IsBreadthFirst, FirstUser, Uses, Agree;
    if n > 0 {
      AgreesBothWays(s, t, n);
      NextComesLater(g, top, s, t, n);
      NextComesLater(g, top, t, s, n);
    }
  }

  lemma SameTop(g: Graph, top: Cell, s: seq<Cell>, t: seq<Cell>)
    requires IsBreadthFirst(g, top, s) && IsBreadthFirst(g, top, t)
    ensures s != [] && t != [] && s[0] == t[0]
  {
  }

  lemma AgreesBothWays(s: seq<Cell>, t: seq<Cell>, n: nat)
    requires Agree(s, t, n)
    ensures Agree(t, s, n)
  {
  }

  /** A graph and a top leave no choice of numbering. */
  lemma OnlyOneBreadthFirst(g: Graph, top: Cell, s: seq<Cell>, t: seq<Cell>)
    requires IsBreadthFirst(g, top, s) && IsBreadthFirst(g, top, t)
    ensures s == t
  {
    assert s != [] && t != [];
    hide IsBreadthFirst, FirstUser, Uses, Precedes;
    var n := if |s| <= |t| then |s| else |t|;
    PrefixesAgree(g, top, s, t, n);
    AgreesBothWays(s, t, n);
    if n < |s| {
      NextComesLater(g, top, s, t, n);
    }
    if n < |t| {
      NextComesLater(g, top, t, s, n);
    }
    assert |s| == |t|;
  }

  // ---- depths ---------------------------------------------------------------------------

  /** How far below the top the cell numbered `k` was found. */
  ghost function Level(g: Graph, top: Cell, s: seq<Cell>, k: nat): nat
    requires IsBreadthFirst(g, top, s) && k < |s|
    decreases k
  {
    if k == 0 then 0 else Level(g, top, s, FirstUser(g, s, s[k])) + 1
  }

  /** Cells found later have later first users, which come before them. */
  lemma FirstUsersGrow(g: Graph, top: Cell, s: seq<Cell>, j: nat, k: nat)
    requires IsBreadthFirst(g, top, s) && 0 < j < k < |s|
    ensures FirstUser(g, s, s[j]) <= FirstUser(g, s, s[k]) < k
  {
    hide FirstUser, Uses;
  }

  lemma {:induction false} LevelsGrow(g: Graph, top: Cell, s: seq<Cell>, j: nat, k: nat)
    requires IsBreadthFirst(g, top, s) && j <= k < |s|
    ensures Level(g, top, s, j) <= Level(g, top, s, k)
    decreases k
  {
    hide IsBreadthFirst, FirstUser, Uses, Precedes;
    if 0 < j < k {
      FirstUsersGrow(g, top, s, j, k);
      LevelsGrow(g, top, s, FirstUser(g, s, s[j]), FirstUser(g, s, s[k]));
    }
  }

  /** The numbered cells with their levels. */
  ghost predicate AreLevels(g: Graph, top: Cell, s: seq<Cell>, depth: map<Cell, nat>)
    requires IsBreadthFirst(g, top, s)
  {
    && (forall c :: c in depth <==> c in s)
    && (forall k | 0 <= k < |s| :: s[k] in s && depth[s[k]] == Level(g, top, s, k))
  }

  lemma LevelsExist(g: Graph, top: Cell, s: seq<Cell>) returns (depth: map<Cell, nat>)
    requires IsBreadthFirst(g, top, s)
    ensures AreLevels(g, top, s, depth)
  {
    depth := LevelsUpTo(g, top, s, |s|);
  }

  lemma {:induction false} LevelsUpTo(g: Graph, top: Cell, s: seq<Cell>, n: nat) returns (depth: map<Cell, nat>)
    requires IsBreadthFirst(g, top, s) && n <= |s|
    ensures forall c :: c in depth <==> c in s[..n]
    ensures forall k | 0 <= k < n :: s[k] in depth && depth[s[k]] == Level(g, top, s, k)
  {
    hide IsBreadthFirst, FirstUser, Uses, Level;
    if n == 0 {
      depth := map[];
    } else {
      var before := LevelsUpTo(g, top, s, n - 1);
      depth := before[s[n - 1] := Level(g, top, s, n - 1)];
      forall k | 0 <= k < n ensures s[k] in depth && depth[s[k]] == Level(g, top, s, k) {
        if k < n - 1 {
          DistinctCells(g, top, s, k, n - 1);
        }
      }
      assert s[..n] == s[..n - 1] + [s[n - 1]];
    }
  }

  lemma EdgeLevels(g: Graph, top: Cell, s: seq<Cell>, j: nat, k: nat)
    requires IsBreadthFirst(g, top, s) && j < |s| && k < |s| && Uses(g, s[j], s[k])
    ensures Level(g, top, s, k) <= Level(g, top, s, j) + 1
  {
    if k > 0 {
      LevelsGrow(g, top, s, FirstUser(g, s, s[k]), j);
    }
  }

  /** Levels are the depths of CellGraph: lengths of shortest ways from the top. */
  lemma LevelsAreDepths(g: Graph, top: Cell, s: seq<Cell>, depth: map<Cell, nat>)
    requires IsBreadthFirst(g, top, s) && AreLevels(g, top, s, depth)
    ensures AreDepths(g, top, depth)
  {
    assert s[0] in s;
    forall x, y | x in depth && Uses(g, x, y) ensures y in depth && depth[y] <= depth[x] + 1 {
      assert x in s;
      var j: nat :| j < |s| && s[j] == x;
      var k := UsedIsNumbered(g, top, s, j, y);
      EdgeLevels(g, top, s, j, k);
    }
    forall y | y in depth && y != top
      ensures exists x | x in depth :: Uses(g, x, y) && depth[y] == depth[x] + 1
    {
      var k: nat :| k < |s| && s[k] == y;
      var x := s[FirstUser(g, s, y)];
      assert x in depth && Uses(g, x, y) && depth[y] == depth[x] + 1;
    }
  }

  /** A deeper cell has a larger number. */
  lemma DeeperIsLater(g: Graph, top: Cell, s: seq<Cell>, depth: map<Cell, nat>, j: nat, k: nat)
    requires IsBreadthFirst(g, top, s) && AreLevels(g, top, s, depth) && j < |s| && k < |s|
    ensures s[j] in depth && s[k] in depth
    ensures depth[s[j]] < depth[s[k]] ==> j < k
    ensures j <= k ==> depth[s[j]] <= depth[s[k]]
  {
    assert s[j] in s && s[k] in s;
    hide IsBreadthFirst, Level, FirstUser, Uses, Precedes;
    if j <= k {
      LevelsGrow(g, top, s, j, k);
    } else {
      LevelsGrow(g, top, s, k, j);
    }
  }

  // ---- when the order of last users is a dependency order ------------------------------------

  /** Before anything it instantiates, by the last cell that instantiates each. */
  ghost predicate LastUsersInOrder(g: Graph, s: seq<Cell>) {
    forall x, y | x in s && Uses(g, x, y) :: Precedes(LastUser(g, s, x), x, LastUser(g, s, y), y)
  }

  lemma StrictDescentOrders(g: Graph, top: Cell, s: seq<Cell>, depth: map<Cell, nat>, x: Cell, y: Cell)
    requires IsBreadthFirst(g, top, s) && AreLevels(g, top, s, depth) && UsersStrictlyDescend(g, depth)
    requires x in s && Uses(g, x, y)
    ensures LastUser(g, s, x) < LastUser(g, s, y)
  {
    hide IsBreadthFirst, Level, AreDepths, LastUser;
    var n: nat :| n < |s| && s[n] == x;
    var k := LastUser(g, s, x);
    if k >= 0 {
      assert s[k] in s;
      var q :| q in depth && Uses(g, q, y) && depth[q] > depth[s[k]];
      var m: nat :| m < |s| && s[m] == q;
      DeeperIsLater(g, top, s, depth, k, m);
    }
  }

  lemma OrderNeedsDescent(g: Graph, top: Cell, s: seq<Cell>, depth: map<Cell, nat>, p: Cell, x: Cell, y: Cell)
    requires IsBreadthFirst(g, top, s) && AreLevels(g, top, s, depth) && LastUsersInOrder(g, s)
    requires p in s && x in s && Uses(g, p, x) && Uses(g, x, y)
    ensures exists q | q in depth && Uses(g, q, y) :: depth[q] >= depth[p]
  {
    hide IsBreadthFirst, Level, LastUser;
    var n: nat :| n < |s| && s[n] == p;
    assert Precedes(LastUser(g, s, x), x, LastUser(g, s, y), y);
    var k := LastUser(g, s, y);
    assert s[k] in s && Uses(g, s[k], y);
    DeeperIsLater(g, top, s, depth, n, k);
  }

  /**
   * What the depths say, however cells are placed in memory: strict descent is
   * enough, descent is necessary, and gradedness gives strict descent.
   */
  lemma DepthsDecide(g: Graph, top: Cell, s: seq<Cell>, depth: map<Cell, nat>)
    requires IsBreadthFirst(g, top, s) && AreDepths(g, top, depth)
    ensures UsersStrictlyDescend(g, depth) ==> LastUsersInOrder(g, s)
    ensures LastUsersInOrder(g, s) ==> UsersDescend(g, depth)
    ensures Graded(g, top) ==> LastUsersInOrder(g, s)
  {
    hide IsBreadthFirst, AreDepths, LastUser, Precedes, Uses, Graded;
    var levels := LevelsExist(g, top, s);
    LevelsAreDepths(g, top, s, levels);
    SameDepths(g, top, depth, levels);
    if Graded(g, top) {
      GradedUsersDescend(g, top, depth);
    }
    if UsersStrictlyDescend(g, depth) {
      StrictDescentSuffices(g, top, s, depth);
    }
    if LastUsersInOrder(g, s) {
      DescentIsNecessary(g, top, s, depth);
    }
  }

  lemma StrictDescentSuffices(g: Graph, top: Cell, s: seq<Cell>, depth: map<Cell, nat>)
    requires IsBreadthFirst(g, top, s) && AreLevels(g, top, s, depth) && UsersStrictlyDescend(g, depth)
    ensures LastUsersInOrder(g, s)
  {
    hide IsBreadthFirst, AreLevels, UsersStrictlyDescend, Uses, LastUser;
    forall x, y | x in s && Uses(g, x, y) ensures Precedes(LastUser(g, s, x), x, LastUser(g, s, y), y) {
      StrictDescentOrders(g, top, s, depth, x, y);
    }
  }

  lemma DescentIsNecessary(g: Graph, top: Cell, s: seq<Cell>, depth: map<Cell, nat>)
    requires IsBreadthFirst(g, top, s) && AreLevels(g, top, s, depth) && LastUsersInOrder(g, s)
    ensures UsersDescend(g, depth)
  {
    hide IsBreadthFirst, LastUsersInOrder, Uses, LastUser;
    forall p, x, y | p in depth && x in depth && Uses(g, p, x) && Uses(g, x, y)
      ensures exists q | q in depth && Uses(g, q, y) :: depth[q] >= depth[p]
    {
      assert p in s && x in s;
      OrderNeedsDescent(g, top, s, depth, p, x, y);
    }
  }
}
