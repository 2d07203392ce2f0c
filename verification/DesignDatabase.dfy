// DesignDatabase::WriteTop (src/design_database.cc): the order in which the
// cells below a top cell are written.

module DesignDatabase {
  import opened Basics
  import opened BreadthFirst
  import opened CellGraph

  /** std::remove followed by erase. */
  function Without(s: seq<Cell>, c: Cell): (r: seq<Cell>)
    ensures forall x :: x in r <==> x in s && x != c
  {
    if s == [] then []
    else if s[|s| - 1] == c then Without(s[..|s| - 1], c)
    else Without(s[..|s| - 1], c) + [s[|s| - 1]]
  }

  // The traversal: the cells in the order found, where each was found, how
  // many have been visited, and the first and last visits to a cell that
  // instantiates each (-1 for the top, if there is none).
  datatype Traversal = Traversal(
    found: seq<Cell>, at: map<Cell, nat>, visited: nat, first: map<Cell, int>, last: map<Cell, int>)

  /** The tables agree on what was found. */
  ghost predicate Indexed(top: Cell, t: Traversal) {
    && t.visited <= |t.found| && t.found != [] && t.found[0] == top
    && t.at.Keys == t.first.Keys == t.last.Keys
    && (forall c {:trigger t.at[c]} | c in t.at :: t.at[c] < |t.found| && t.found[t.at[c]] == c)
    && (forall k {:trigger t.found[k]} | 0 <= k < |t.found| :: t.found[k] in t.at && t.at[t.found[k]] == k)
  }

  ghost predicate RecordedAt(g: Graph, top: Cell, t: Traversal, y: Cell)
    requires Indexed(top, t) && y in t.at
  {
    && -1 <= t.first[y] <= t.last[y] < t.visited
    && t.first[y] < t.at[y] && (t.first[y] == -1 <==> y == top)
    && (t.first[y] >= 0 ==> Uses(g, t.found[t.first[y]], y))
    && (t.last[y] >= 0 ==> Uses(g, t.found[t.last[y]], y))
  }

  /** The recorded visits are visits to users. */
  ghost predicate Recorded(g: Graph, top: Cell, t: Traversal)
    requires Indexed(top, t)
  {
    forall y {:trigger RecordedAt(g, top, t, y)} | y in t.at :: RecordedAt(g, top, t, y)
  }

  /** What visited cells instantiate was found, and those visits are within the recorded ones. */
  ghost predicate Covered(g: Graph, top: Cell, t: Traversal, todo: set<Cell>)
    requires Indexed(top, t)
  {
    forall k, y {:trigger Uses(g, t.found[k], y)} | 0 <= k < t.visited && Uses(g, t.found[k], y) &&
        (k < t.visited - 1 || y !in todo) ::
      y in t.at && t.first[y] <= k <= t.last[y]
  }

  ghost predicate FoundInOrder(top: Cell, t: Traversal)
    requires Indexed(top, t)
  {
    forall j, k {:trigger t.first[t.found[j]], t.first[t.found[k]]} | 0 < j < k < |t.found| ::
      Precedes(t.first[t.found[j]], t.found[j], t.first[t.found[k]], t.found[k])
  }

  ghost predicate Sorted(s: seq<Cell>, last: map<Cell, int>) {
    && (forall k {:trigger s[k]} | 0 <= k < |s| :: s[k] in last)
    && (forall j, k {:trigger last[s[j]], last[s[k]]} | 0 <= j < k < |s| :: Precedes(last[s[j]], s[j], last[s[k]], s[k]))
  }

  /** The order holds what was found, by the last visit to a user. */
  ghost predicate SortedByLast(order: seq<Cell>, last: map<Cell, int>) {
    Sorted(order, last) && forall c | c in last :: c in order
  }

  /** Within a visit, cells are taken by address. */
  ghost predicate TodoLater(top: Cell, t: Traversal, todo: set<Cell>)
    requires Indexed(top, t)
  {
    forall y, a {:trigger t.last[y], a in todo} | y in t.at && a in todo && t.last[y] == t.visited - 1 :: y < a
  }

  ghost predicate TraversalOk(g: Graph, top: Cell, t: Traversal, order: seq<Cell>, todo: set<Cell>) {
    && Indexed(top, t) && Recorded(g, top, t) && Covered(g, top, t, todo)
    && FoundInOrder(top, t) && SortedByLast(order, t.last) && (t.visited > 0 ==> TodoLater(top, t, todo))
  }

  // ---- moving a cell to the back --------------------------------------------------------------

  lemma AppendedSorted(s: seq<Cell>, c: Cell, last: map<Cell, int>)
    requires Sorted(s, last) && c in last && forall d | d in s :: Precedes(last[d], d, last[c], c)
    ensures Sorted(s + [c], last)
  {
    hide Precedes;
    var r := s + [c];
    forall j, k | 0 <= j < k < |r| ensures r[j] in last && r[k] in last && Precedes(last[r[j]], r[j], last[r[k]], r[k]) {
      assert s[j] in s;
      if k < |s| {
        assert Precedes(last[s[j]], s[j], last[s[k]], s[k]);
      }
    }
  }

  lemma {:induction false} WithoutSorted(s: seq<Cell>, c: Cell, last: map<Cell, int>)
    requires Sorted(s, last)
    ensures Sorted(Without(s, c), last)
  {
    if s != [] {
      var front, end := s[..|s| - 1], s[|s| - 1];
      FrontSorted(s, last);
      hide Sorted, Precedes;
      WithoutSorted(front, c, last);
      if end != c {
        AppendedSorted(Without(front, c), end, last);
      }
    }
  }

  lemma FrontSorted(s: seq<Cell>, last: map<Cell, int>)
    requires Sorted(s, last) && s != []
    ensures Sorted(s[..|s| - 1], last) && s[|s| - 1] in last
    ensures forall d | d in s[..|s| - 1] :: d in last && Precedes(last[d], d, last[s[|s| - 1]], s[|s| - 1])
  {
    hide Precedes;
    var front := s[..|s| - 1];
    forall j, k | 0 <= j < k < |front| ensures front[j] in last && front[k] in last &&
        Precedes(last[front[j]], front[j], last[front[k]], front[k]) {
      assert Precedes(last[s[j]], s[j], last[s[k]], s[k]);
    }
    forall d | d in front ensures d in last && Precedes(last[d], d, last[s[|s| - 1]], s[|s| - 1]) {
      var j :| 0 <= j < |front| && front[j] == d;
      assert s[j] == d;
    }
  }

  /** Moving a cell that is not in `s` changes nothing there. */
  lemma RetimedSorted(s: seq<Cell>, last: map<Cell, int>, a: Cell, visit: int)
    requires Sorted(s, last) && a !in s
    ensures Sorted(s, last[a := visit])
  {
    hide Precedes;
    var later := last[a := visit];
    forall k | 0 <= k < |s| ensures s[k] in later && later[s[k]] == last[s[k]] {
      assert s[k] in s;
    }
  }

  lemma {:induction false} WithoutAbsent(s: seq<Cell>, c: Cell)
    requires c !in s
    ensures Without(s, c) == s
  {
    if s != [] {
      assert s[|s| - 1] in s;
      WithoutAbsent(s[..|s| - 1], c);
    }
  }

  lemma MovedToBackIsSorted(order: seq<Cell>, last: map<Cell, int>, a: Cell, visit: int)
    requires SortedByLast(order, last)
    requires forall y | y in last && y != a :: Precedes(last[y], y, visit, a)
    ensures SortedByLast(Without(order, a) + [a], last[a := visit])
    ensures a !in last ==> Without(order, a) == order
  {
    SortedMembers(order, last);
    hide Sorted, Precedes, Without;
    WithoutSorted(order, a, last);
    var rest, later := Without(order, a), last[a := visit];
    RetimedSorted(rest, last, a, visit);
    AppendedSorted(rest, a, later);
    forall c | c in later ensures c in rest + [a] {
      if c != a { assert c in rest; }
    }
    if a !in last {
      WithoutAbsent(order, a);
    }
  }

  lemma SortedMembers(s: seq<Cell>, last: map<Cell, int>)
    requires Sorted(s, last)
    ensures forall d | d in s :: d in last
  {
  }

  // ---- one ancestor of the visited cell -------------------------------------------------------

  /** The last visited cell instantiates `a`. */
  function Touched(t: Traversal, a: Cell): Traversal {
    var visit := t.visited - 1;
    if a in t.at then t.(last := t.last[a := visit])
    else t.(found := t.found + [a], at := t.at[a := |t.found|], first := t.first[a := visit], last := t.last[a := visit])
  }

  lemma TouchKeepsIndexed(g: Graph, top: Cell, t: Traversal, a: Cell)
    requires Indexed(top, t) && t.visited > 0
    ensures Indexed(top, Touched(t, a))
  {
    if a !in t.at {
      var u := Touched(t, a);
      forall k | 0 <= k < |u.found| ensures u.found[k] in u.at && u.at[u.found[k]] == k {
        if k < |t.found| { assert t.found[k] in t.at; }
      }
      forall c | c in u.at ensures u.at[c] < |u.found| && u.found[u.at[c]] == c {
        if c != a { assert t.at[c] < |t.found|; }
      }
    }
  }

  lemma TouchKeepsRecordedAt(g: Graph, top: Cell, t: Traversal, a: Cell, y: Cell)
    requires Indexed(top, t) && t.visited > 0 && Uses(g, t.found[t.visited - 1], a)
    requires Indexed(top, Touched(t, a)) && y in Touched(t, a).at
    requires y in t.at ==> RecordedAt(g, top, t, y)
    ensures RecordedAt(g, top, Touched(t, a), y)
  {
    hide Uses;
    assert t.found[0] in t.at;
  }

  lemma TouchKeepsRecorded(g: Graph, top: Cell, t: Traversal, a: Cell)
    requires Indexed(top, t) && t.visited > 0 && Recorded(g, top, t) && Uses(g, t.found[t.visited - 1], a)
    requires Indexed(top, Touched(t, a))
    ensures Recorded(g, top, Touched(t, a))
  {
    hide Uses, Indexed, RecordedAt;
    forall y | y in Touched(t, a).at ensures RecordedAt(g, top, Touched(t, a), y) {
      assert y in t.at ==> RecordedAt(g, top, t, y);
      TouchKeepsRecordedAt(g, top, t, a, y);
    }
  }

  lemma TouchCovers(g: Graph, top: Cell, t: Traversal, a: Cell, k: nat, y: Cell)
    requires Indexed(top, t) && k < t.visited && Indexed(top, Touched(t, a))
    requires y in t.at ==> RecordedAt(g, top, t, y)
    requires (y in t.at && t.first[y] <= k <= t.last[y]) || (y == a && k == t.visited - 1)
    ensures y in Touched(t, a).at && Touched(t, a).first[y] <= k <= Touched(t, a).last[y]
  {
    hide Uses;
  }

  lemma TouchKeepsCovered(g: Graph, top: Cell, t: Traversal, todo: set<Cell>, a: Cell)
    requires Indexed(top, t) && t.visited > 0 && Recorded(g, top, t) && Covered(g, top, t, todo)
    requires Indexed(top, Touched(t, a))
    ensures Covered(g, top, Touched(t, a), todo - {a})
  {
    var u := Touched(t, a);
    assert forall k | 0 <= k < t.visited :: u.found[k] == t.found[k];
    assert t.visited == u.visited <= |t.found| && t.at.Keys == t.first.Keys == t.last.Keys;
    hide Uses, Indexed, Recorded, RecordedAt, Touched;
    forall k, y | 0 <= k < u.visited && Uses(g, u.found[k], y) && (k < u.visited - 1 || y !in todo - {a})
      ensures y in u.at && u.first[y] <= k <= u.last[y]
    {
      assert Uses(g, t.found[k], y);
      RecordedIfFound(g, top, t, y);
      TouchCovers(g, top, t, a, k, y);
    }
  }

  lemma RecordedIfFound(g: Graph, top: Cell, t: Traversal, y: Cell)
    requires Indexed(top, t) && Recorded(g, top, t)
    ensures y in t.at ==> RecordedAt(g, top, t, y)
  {
  }

  lemma TouchKeepsFoundInOrder(g: Graph, top: Cell, t: Traversal, todo: set<Cell>, a: Cell)
    requires Indexed(top, t) && t.visited > 0 && Recorded(g, top, t) && FoundInOrder(top, t)
    requires TodoLater(top, t, todo) && a in todo && Indexed(top, Touched(t, a))
    ensures FoundInOrder(top, Touched(t, a))
  {
    hide Recorded, RecordedAt, TodoLater, Uses, Precedes, Indexed, Touched;
    var u := Touched(t, a);
    FoundHaveFirst(top, u);
    forall j, k | 0 < j < k < |u.found| ensures Precedes(u.first[u.found[j]], u.found[j], u.first[u.found[k]], u.found[k]) {
      FirstStays(top, t, a, j);
      FirstStays(top, t, a, k);
      if k == |t.found| {
        FirstPrecedes(g, top, t, todo, a, t.found[j]);
      }
    }
  }

  lemma FoundHaveFirst(top: Cell, t: Traversal)
    requires Indexed(top, t)
    ensures forall k | 0 <= k < |t.found| :: t.found[k] in t.first
  {
  }

  /** Touching a cell leaves the first users of what was found. */
  lemma FirstStays(top: Cell, t: Traversal, a: Cell, k: nat)
    requires Indexed(top, t) && t.visited > 0 && k < |Touched(t, a).found|
    ensures k <= |t.found|
    ensures
      var u := Touched(t, a);
      if k < |t.found| then
        && u.found[k] == t.found[k] && t.found[k] in t.at && t.found[k] in t.first
        && t.found[k] in u.first && u.first[t.found[k]] == t.first[t.found[k]]
      else
        && u.found[k] == a && a !in t.at && a in u.first && u.first[a] == t.visited - 1
        && forall j | 0 <= j < |t.found| :: t.found[j] != a
  {
    hide Uses, Precedes;
    if k < |t.found| {
      assert t.found[k] in t.at;
    } else {
      assert a !in t.at;
      forall j | 0 <= j < |t.found| ensures t.found[j] != a {
        assert t.found[j] in t.at;
      }
    }
  }

  lemma FirstPrecedes(g: Graph, top: Cell, t: Traversal, todo: set<Cell>, a: Cell, y: Cell)
    requires Indexed(top, t) && Recorded(g, top, t) && t.visited > 0 && TodoLater(top, t, todo) && a in todo
    requires y in t.at && y != a
    ensures Precedes(t.first[y], y, t.visited - 1, a)
  {
    hide Uses;
    assert RecordedAt(g, top, t, y);
  }

  lemma TouchKeepsTodoLater(g: Graph, top: Cell, t: Traversal, todo: set<Cell>, a: Cell)
    requires Indexed(top, t) && TodoLater(top, t, todo) && Indexed(top, Touched(t, a))
    requires a in todo && forall b | b in todo :: a <= b
    ensures TodoLater(top, Touched(t, a), todo - {a})
  {
  }

  lemma LastPrecedes(g: Graph, top: Cell, t: Traversal, todo: set<Cell>, a: Cell, y: Cell)
    requires Indexed(top, t) && Recorded(g, top, t) && t.visited > 0 && TodoLater(top, t, todo) && a in todo
    requires y in t.at && y != a
    ensures Precedes(t.last[y], y, t.visited - 1, a)
  {
    hide Uses;
    assert RecordedAt(g, top, t, y);
  }

  lemma TodoPrecedes(g: Graph, top: Cell, t: Traversal, todo: set<Cell>, a: Cell)
    requires Indexed(top, t) && t.at.Keys == t.last.Keys && Recorded(g, top, t) && t.visited > 0 &&
        TodoLater(top, t, todo) && a in todo
    ensures forall y | y in t.last && y != a :: Precedes(t.last[y], y, t.visited - 1, a)
  {
    hide Uses, Indexed, Recorded, RecordedAt, TodoLater, Precedes;
    forall y | y in t.last && y != a ensures Precedes(t.last[y], y, t.visited - 1, a) {
      LastPrecedes(g, top, t, todo, a, y);
    }
  }

  lemma TouchKeepsOk(g: Graph, top: Cell, t: Traversal, order: seq<Cell>, todo: set<Cell>, a: Cell)
    requires TraversalOk(g, top, t, order, todo) && t.visited > 0 && Uses(g, t.found[t.visited - 1], a)
    requires a in todo && forall b | b in todo :: a <= b
    ensures TraversalOk(g, top, Touched(t, a), Without(order, a) + [a], todo - {a})
    ensures a !in t.at ==> Without(order, a) == order
  {
    TodoPrecedes(g, top, t, todo, a);
    hide Indexed,  Recorded, Covered, FoundInOrder, SortedByLast, TodoLater, Uses, Without, Precedes;
    TouchKeepsIndexed(g, top, t, a);
    TouchKeepsRecorded(g, top, t, a);
    TouchKeepsCovered(g, top, t, todo, a);
    TouchKeepsFoundInOrder(g, top, t, todo, a);
    TouchKeepsTodoLater(g, top, t, todo, a);
    MovedToBackIsSorted(order, t.last, a, t.visited - 1);
  }

  lemma VisitNextKeepsRecorded(g: Graph, top: Cell, t: Traversal)
    requires Indexed(top, t) && Recorded(g, top, t) && t.visited < |t.found|
    ensures Indexed(top, t.(visited := t.visited + 1)) && Recorded(g, top, t.(visited := t.visited + 1))
    ensures forall y | y in t.last :: t.last[y] < t.visited
  {
    hide Uses;
    var u := t.(visited := t.visited + 1);
    forall y | y in t.at ensures RecordedAt(g, top, u, y) && t.last[y] < t.visited {
      assert RecordedAt(g, top, t, y);
    }
  }

  lemma VisitNextKeepsCovered(g: Graph, top: Cell, t: Traversal)
    requires Indexed(top, t) && Covered(g, top, t, {}) && t.visited < |t.found|
    requires Indexed(top, t.(visited := t.visited + 1))
    ensures Covered(g, top, t.(visited := t.visited + 1), DirectAncestors(g, t.found[t.visited]))
  {
    var u := t.(visited := t.visited + 1);
    var todo := DirectAncestors(g, t.found[t.visited]);
    forall k, y | 0 <= k < u.visited && Uses(g, u.found[k], y) && (k < u.visited - 1 || y !in todo)
      ensures y in u.at && u.first[y] <= k <= u.last[y]
    {
      assert k < t.visited && Uses(g, t.found[k], y);
    }
  }

  lemma VisitNextKeepsOk(g: Graph, top: Cell, t: Traversal, order: seq<Cell>)
    requires TraversalOk(g, top, t, order, {}) && t.visited < |t.found|
    ensures TraversalOk(g, top, t.(visited := t.visited + 1), order, DirectAncestors(g, t.found[t.visited]))
  {
    var u := t.(visited := t.visited + 1);
    VisitNextKeepsRecorded(g, top, t);
    VisitNextKeepsCovered(g, top, t);
    assert FoundInOrder(top, u);
    assert t.at.Keys == t.last.Keys;
    hide SortedByLast, Precedes, Recorded, Covered, FoundInOrder, Uses, Indexed;
  }

  // ---- the finished traversal -----------------------------------------------------------------------

  ghost predicate Finished(g: Graph, top: Cell, t: Traversal, order: seq<Cell>) {
    TraversalOk(g, top, t, order, {}) && t.visited == |t.found|
  }

  lemma RecordedVisitsAreUsers(g: Graph, top: Cell, t: Traversal, order: seq<Cell>, y: Cell)
    requires Finished(g, top, t, order) && y in t.at
    ensures t.last[y] == LastUser(g, t.found, y)
    ensures y != top ==> t.first[y] == FirstUser(g, t.found, y)
  {
    hide FoundInOrder, SortedByLast, TodoLater, FirstUser, LastUser, Uses;
    assert RecordedAt(g, top, t, y);
  }

  lemma FoundIsClosed(g: Graph, top: Cell, t: Traversal, k: nat, y: Cell)
    requires Indexed(top, t) && Covered(g, top, t, {}) && t.visited == |t.found| && k < |t.found| && Uses(g, t.found[k], y)
    ensures y in t.found
  {
    assert y !in {} && y in t.at;
    assert t.found[t.at[y]] == y;
  }

  lemma FoundAfterUser(g: Graph, top: Cell, t: Traversal, order: seq<Cell>, k: nat)
    requires Finished(g, top, t, order) && 0 < k < |t.found|
    ensures t.found[k] in t.at && t.found[k] != top
    ensures FirstUser(g, t.found, t.found[k]) == t.first[t.found[k]] < k
  {
    hide Covered, FoundInOrder, SortedByLast, TodoLater, FirstUser, Uses;
    assert t.at[t.found[k]] == k && t.at[t.found[0]] == 0;
    assert RecordedAt(g, top, t, t.found[k]);
    RecordedVisitsAreUsers(g, top, t, order, t.found[k]);
  }

  lemma FoundBreadthFirst(g: Graph, top: Cell, t: Traversal, order: seq<Cell>)
    requires Finished(g, top, t, order)
    ensures IsBreadthFirst(g, top, t.found)
  {
    var s := t.found;
    assert t.visited == |s| && s != [] && s[0] == top && t.at.Keys == t.first.Keys && Indexed(top, t) &&
        Covered(g, top, t, {}) && FoundInOrder(top, t);
    hide Finished, Recorded, SortedByLast, TodoLater, FirstUser, Precedes, Uses, Covered, Indexed;
    forall k, y | 0 <= k < |s| && Uses(g, s[k], y) ensures y in s {
      FoundIsClosed(g, top, t, k, y);
    }
    forall k | 0 < k < |s| ensures s[k] in t.first && FirstUser(g, s, s[k]) == t.first[s[k]] < k && s[k] != top {
      FoundAfterUser(g, top, t, order, k);
    }
    forall j, k | 0 < j < k < |s| ensures Precedes(FirstUser(g, s, s[j]), s[j], FirstUser(g, s, s[k]), s[k]) {
      assert t.first[s[j]] == FirstUser(g, s, s[j]) && t.first[s[k]] == FirstUser(g, s, s[k]);
    }
  }

  /** By the last user, the latest first. */
  ghost predicate SortedByLastUser(g: Graph, found: seq<Cell>, ordered: seq<Cell>) {
    forall j, k | 0 <= j < k < |ordered| ::
      Precedes(LastUser(g, found, ordered[k]), ordered[k], LastUser(g, found, ordered[j]), ordered[j])
  }

  /** What was found, sorted by last user. */
  ghost predicate IsWriteOrder(g: Graph, found: seq<Cell>, ordered: seq<Cell>) {
    && NoDuplicates(ordered) && (forall c :: c in ordered <==> c in found)
    && SortedByLastUser(g, found, ordered)
  }

  lemma ReversedMembers(s: seq<Cell>, c: Cell)
    ensures c in Reversed(s) <==> c in s
  {
    if c in s {
      var k :| 0 <= k < |s| && s[k] == c;
      assert Reversed(s)[|s| - 1 - k] == c;
    }
  }

  lemma FinishedIsWriteOrder(g: Graph, top: Cell, t: Traversal, order: seq<Cell>)
    requires Finished(g, top, t, order)
    ensures IsWriteOrder(g, t.found, Reversed(order))
  {
    hide Recorded, Covered, FoundInOrder, TodoLater, FirstUser, LastUser, Uses;
    var r := Reversed(order);
    forall k | 0 <= k < |r| ensures r[k] in t.at && t.last[r[k]] == LastUser(g, t.found, r[k]) {
      assert order[|order| - 1 - k] in t.last;
      RecordedVisitsAreUsers(g, top, t, order, r[k]);
    }
    forall c ensures c in r <==> c in t.found {
      ReversedMembers(order, c);
      if c in t.found {
        assert c in t.at;
      }
      if c in order {
        assert t.found[t.at[c]] == c;
      }
    }
  }

  /** When the order is right: exactly when last users are in order. */
  lemma WriteOrderIsRight(g: Graph, found: seq<Cell>, ordered: seq<Cell>)
    requires IsWriteOrder(g, found, ordered)
    requires forall x, y | x in found && Uses(g, x, y) :: y in found
    ensures InDependencyOrder(g, ordered) <==> LastUsersInOrder(g, found)
  {
    hide LastUser, Uses, NoDuplicates;
    if LastUsersInOrder(g, found) {
      forall i, j | 0 <= i < |ordered| && 0 <= j < |ordered| && Uses(g, ordered[i], ordered[j]) ensures j < i {
        assert ordered[i] in ordered;
        assert Precedes(LastUser(g, found, ordered[i]), ordered[i], LastUser(g, found, ordered[j]), ordered[j]);
      }
    }
    if InDependencyOrder(g, ordered) {
      forall x, y | x in found && Uses(g, x, y) ensures Precedes(LastUser(g, found, x), x, LastUser(g, found, y), y) {
        assert x in ordered && y in ordered;
        var i :| 0 <= i < |ordered| && ordered[i] == x;
        var j :| 0 <= j < |ordered| && ordered[j] == y;
        assert j < i;
      }
    }
  }

  // ---- the traversal ---------------------------------------------------------------------------

  lemma {:induction false} LeastExists(s: set<Cell>) returns (a: Cell)
    requires s != {}
    ensures a in s && forall b | b in s :: a <= b
  {
    var x :| x in s;
    var rest := s - {x};
    assert forall b | b in s && b != x :: b in rest;
    if rest == {} {
      a := x;
    } else {
      a := LeastExists(rest);
      a := if a <= x then a else x;
    }
  }

  lemma InUniverse(g: Graph, top: Cell, t: Traversal, order: seq<Cell>, todo: set<Cell>, cell: Cell)
    requires TraversalOk(g, top, t, order, todo) && cell in t.found
    ensures cell in Universe(g, top)
  {
    assert cell in t.at;
    assert RecordedAt(g, top, t, cell);
  }

  /** All cells that can ever be found. */
  function Universe(g: Graph, top: Cell): set<Cell> {
    {top} + set c, d | c in g && d in g[c] :: d
  }

  /** One visit: new cells join the queue and the order, known ones move to the back of the order. */
  method Visit(g: Graph, ghost top: Cell, cell: Cell, ancestors: set<Cell>, order: seq<Cell>, toVisit: seq<Cell>,
      ghost t: Traversal)
    returns (ancestors': set<Cell>, order': seq<Cell>, toVisit': seq<Cell>, ghost t': Traversal)
    requires 0 < t.visited <= |t.found| && cell == t.found[t.visited - 1]
    requires TraversalOk(g, top, t, order, DirectAncestors(g, cell))
    requires ancestors == t.at.Keys && toVisit == t.found[t.visited..]
    ensures t'.visited == t.visited && t.found <= t'.found && TraversalOk(g, top, t', order', {})
    ensures ancestors' == t'.at.Keys && toVisit' == t'.found[t'.visited..]
  {
    hide TraversalOk;
    ancestors', order', toVisit', t' := ancestors, order, toVisit, t;
    var todo := DirectAncestors(g, cell);
    while todo != {}
      invariant todo <= DirectAncestors(g, cell)
      invariant t'.visited == t.visited && t.found <= t'.found && TraversalOk(g, top, t', order', todo)
      invariant ancestors' == t'.at.Keys && toVisit' == t'.found[t'.visited..]
    {
      ghost var least := LeastExists(todo);
      var ancestor :| ancestor in todo && forall b | b in todo :: ancestor <= b;
      assert t'.found[t'.visited - 1] == cell;
      TouchKeepsOk(g, top, t', order', todo, ancestor);
      t' := Touched(t', ancestor);
      if ancestor in ancestors' {
        order' := Without(order', ancestor) + [ancestor];
      } else {
        ancestors' := ancestors' + {ancestor};
        order' := order' + [ancestor];
        toVisit' := toVisit' + [ancestor];
      }
      todo := todo - {ancestor};
    }
  }

  ghost function Start(top: Cell): Traversal {
    Traversal([top], map[top := 0], 0, map[top := -1], map[top := -1])
  }

  lemma StartOk(g: Graph, top: Cell)
    ensures TraversalOk(g, top, Start(top), [top], {})
  {
  }

  /** What has been visited lies in the universe, so the traversal ends. */
  ghost predicate VisitedWithin(universe: set<Cell>, t: Traversal, visited: set<Cell>) {
    t.visited <= |t.found| && visited <= universe && forall c :: c in visited <==> c in t.found[..t.visited]
  }

  lemma VisitNextWithin(g: Graph, top: Cell, t: Traversal, order: seq<Cell>, visited: set<Cell>)
    requires TraversalOk(g, top, t, order, {}) && t.visited < |t.found|
    requires VisitedWithin(Universe(g, top), t, visited)
    ensures var cell := t.found[t.visited];
            cell !in visited && VisitedWithin(Universe(g, top), t.(visited := t.visited + 1), visited + {cell})
  {
    hide Recorded, Covered, FoundInOrder, SortedByLast, TodoLater, Universe;
    var cell := t.found[t.visited];
    InUniverse(g, top, t, order, {}, cell);
    assert t.found[..t.visited + 1] == t.found[..t.visited] + [cell];
  }

  /**
   * The cells to write for a top cell. It terminates on any graph and emits
   * each cell reachable from the top exactly once, the cells with the latest
   * last users in the breadth-first numbering coming first; each cell comes
   * after everything it instantiates exactly when last users are in order.
   */
  method WriteTop(g: Graph, top: Cell) returns (ordered: seq<Cell>, ghost found: seq<Cell>)
    ensures IsBreadthFirst(g, top, found) && IsWriteOrder(g, found, ordered)
    ensures forall c :: c in ordered <==> Reachable(g, top, c)
    ensures InDependencyOrder(g, ordered) <==> LastUsersInOrder(g, found)
  {
    hide TraversalOk, IsBreadthFirst, LastUsersInOrder, InDependencyOrder, SortedByLastUser;
    var ancestors, order, toVisit := {top}, [top], [top];
    ghost var t := Start(top);
    ghost var visited: set<Cell> := {};
    StartOk(g, top);
    while toVisit != []
      invariant TraversalOk(g, top, t, order, {})
      invariant ancestors == t.at.Keys && VisitedWithin(Universe(g, top), t, visited)
      invariant toVisit == t.found[t.visited..]
      decreases Universe(g, top) - visited
    {
      var cell := toVisit[0];
      VisitNextWithin(g, top, t, order, visited);
      VisitNextKeepsOk(g, top, t, order);
      visited := visited + {cell};
      t := t.(visited := t.visited + 1);
      ghost var before := t;
      toVisit := toVisit[1..];
      ancestors, order, toVisit, t := Visit(g, top, cell, ancestors, order, toVisit, t);
      assert t.found[..t.visited] == before.found[..t.visited];
    }
    found := t.found;
    ordered := Reversed(order);
    FoundBreadthFirst(g, top, t, order);
    FinishedIsWriteOrder(g, top, t, order);
    FoundIsReachable(g, top, found);
    WriteOrderIsRight(g, found, ordered);
  }

  lemma FoundIsReachable(g: Graph, top: Cell, found: seq<Cell>)
    requires IsBreadthFirst(g, top, found)
    ensures forall c :: c in found <==> Reachable(g, top, c)
    ensures forall x, y | x in found && Uses(g, x, y) :: y in found
  {
    forall x, y | x in found && Uses(g, x, y) ensures y in found {
      var k :| 0 <= k < |found| && found[k] == x;
    }
    hide IsBreadthFirst, Reachable, Uses;
    var depth := LevelsExist(g, top, found);
    LevelsAreDepths(g, top, found, depth);
    DepthsAreShortestPaths(g, top, depth);
  }

  /** On the ungraded example the order is not a dependency order. */
  method UngradedExample() returns (ordered: seq<Cell>)
    ensures !InDependencyOrder(UNGRADED, ordered)
    ensures forall c :: c in ordered <==> Reachable(UNGRADED, 0, c)
  {
    hide IsBreadthFirst, InDependencyOrder, LastUsersInOrder;
    ghost var found;
    ordered, found := WriteTop(UNGRADED, 0);
    UngradedDoesNotDescend();
    DepthsDecide(UNGRADED, 0, found, UNGRADED_DEPTHS);
  }
}
