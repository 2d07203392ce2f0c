// Banks whose rows may hold cells of different heights (src/memory_bank.cc,
// src/row_guide.cc): where re-alignment puts rows, and exactly when rows and
// boxes stay apart.

module Stacking {
  import opened Basics
  import opened Rows
  import opened Banks

  // ---- rows with cells --------------------------------------------------------------------

  /** How far the tallest cell reaches below the first one. */
  function Slack(row: Row): int
    requires row.boxes != []
  {
    MaxHeight(row.boxes) / 2 - row.boxes[0].height / 2
  }

  /** How far the row reaches below its origin. */
  function Drop(row: Row): int
    requires row.boxes != []
  {
    row.origin.y - row.boxes[0].y + Slack(row)
  }

  /** Two rows with cells and nothing but empty rows between. */
  predicate Consecutive(rows: seq<Row>, i: int, k: int) {
    && 0 <= i < k < |rows| && rows[i].boxes != [] && rows[k].boxes != []
    && forall j | i < j < k :: rows[j].boxes == []
  }

  /**
   * No row reaches further below its origin than the row under it leaves room
   * for. Moving rows does not change this, so it can be checked before they
   * are stacked.
   */
  ghost predicate Fits(rows: seq<Row>) {
    forall i, k | Consecutive(rows, i, k) :: Drop(rows[k]) <= Slack(rows[i])
  }

  /** The tiling bounds of rows with cells lie above each other. */
  ghost predicate BoundsApart(rows: seq<Row>) {
    forall i, k | 0 <= i < k < |rows| && rows[i].boxes != [] && rows[k].boxes != [] ::
      TilingBounds(rows[i].boxes).top <= TilingBounds(rows[k].boxes).bottom
  }

  /** What abutment establishes: each row starts a row height above the first cell of the row under it. */
  ghost predicate Stacked(rows: seq<Row>) {
    forall i, k | Consecutive(rows, i, k) :: rows[k].origin.y == rows[i].boxes[0].y + MaxHeight(rows[i].boxes)
  }

  ghost predicate AllOk(rows: seq<Row>) {
    forall k | 0 <= k < |rows| :: RowOk(rows[k])
  }

  lemma BoundsOfRow(row: Row)
    requires RowOk(row) && row.boxes != []
    ensures TilingBounds(row.boxes).bottom == row.boxes[0].y - Slack(row) == row.origin.y - Drop(row)
    ensures TilingBounds(row.boxes).top == row.boxes[0].y - Slack(row) + MaxHeight(row.boxes)
  {
    HeightIsTilingHeight(row.boxes);
  }

  /** A row reaches into the one under it exactly when it drops further than there is slack. */
  lemma PairApartExactly(lower: Row, upper: Row)
    requires RowOk(lower) && RowOk(upper) && lower.boxes != [] && upper.boxes != []
    requires upper.origin.y == lower.boxes[0].y + MaxHeight(lower.boxes)
    ensures TilingBounds(lower.boxes).top <= TilingBounds(upper.boxes).bottom <==> Drop(upper) <= Slack(lower)
  {
    hide RowOk, TilingBounds, Slack, Drop;
    BoundsOfRow(lower);
    BoundsOfRow(upper);
  }

  /** The nearest row with cells below a row. */
  lemma RowUnder(rows: seq<Row>, i: nat, k: nat) returns (j: nat)
    requires i < k < |rows| && rows[i].boxes != [] && rows[k].boxes != []
    ensures i <= j && Consecutive(rows, j, k)
  {
    j := k - 1;
    while rows[j].boxes == []
      invariant i <= j < k && forall m | j < m < k :: rows[m].boxes == []
      decreases j
    {
      j := j - 1;
    }
  }

  lemma {:induction false} FittingRowsApart(rows: seq<Row>, i: nat, k: nat)
    requires AllOk(rows) && Stacked(rows) && Fits(rows)
    requires i < k < |rows| && rows[i].boxes != [] && rows[k].boxes != []
    ensures TilingBounds(rows[i].boxes).top <= TilingBounds(rows[k].boxes).bottom
    decreases k
  {
    hide RowOk, TilingBounds, Slack, Drop, MaxHeight;
    var j := RowUnder(rows, i, k);
    PairApartExactly(rows[j], rows[k]);
    if i < j {
      FittingRowsApart(rows, i, j);
      HeightIsNatural(rows[j]);
    }
  }

  lemma HeightIsNatural(row: Row)
    requires RowOk(row) && row.boxes != []
    ensures TilingBounds(row.boxes).bottom <= TilingBounds(row.boxes).top
  {
    BoundsOfRow(row);
  }

  /** Stacked rows are apart if and only if each fits onto the one under it. */
  lemma ApartExactly(rows: seq<Row>)
    requires AllOk(rows) && Stacked(rows)
    ensures BoundsApart(rows) <==> Fits(rows)
  {
    hide RowOk, TilingBounds, Slack, Drop, MaxHeight;
    if Fits(rows) {
      forall i, k | 0 <= i < k < |rows| && rows[i].boxes != [] && rows[k].boxes != []
        ensures TilingBounds(rows[i].boxes).top <= TilingBounds(rows[k].boxes).bottom
      {
        FittingRowsApart(rows, i, k);
      }
    }
    if BoundsApart(rows) {
      forall i, k | Consecutive(rows, i, k) ensures Drop(rows[k]) <= Slack(rows[i]) {
        PairApartExactly(rows[i], rows[k]);
      }
    }
  }

  // ---- moving rows --------------------------------------------------------------------------

  lemma MovedRow(row: Row, p: Point)
    ensures var moved := MoveTo(row, p);
            && |moved.boxes| == |row.boxes| && MaxHeight(moved.boxes) == MaxHeight(row.boxes)
            && (row.boxes != [] ==> moved.boxes[0].y == row.boxes[0].y + p.y - row.origin.y)
            && (row.boxes != [] ==> Slack(moved) == Slack(row) && Drop(moved) == Drop(row))
            && (RowOk(row) ==> RowOk(moved))
  {
    MovedSums(row.boxes, p.x - row.origin.x, p.y - row.origin.y);
    if RowOk(row) {
      MoveKeepsRowOk(row, p);
    }
  }

  ghost predicate SameCells(before: seq<Row>, after: seq<Row>) {
    |before| == |after| && forall k | 0 <= k < |before| :: before[k].boxes == [] <==> after[k].boxes == []
  }

  lemma SameConsecutive(before: seq<Row>, after: seq<Row>, i: int, k: int)
    requires SameCells(before, after)
    ensures Consecutive(before, i, k) <==> Consecutive(after, i, k)
  {
  }

  lemma FitCarriesOver(before: seq<Row>, after: seq<Row>)
    requires SameCells(before, after) && Fits(before)
    requires forall k | 0 <= k < |before| && before[k].boxes != [] ::
               Drop(before[k]) == Drop(after[k]) && Slack(before[k]) == Slack(after[k])
    ensures Fits(after)
  {
    hide Drop, Slack;
    forall i, k | Consecutive(after, i, k) ensures Drop(after[k]) <= Slack(after[i]) {
      SameConsecutive(before, after, i, k);
      assert Drop(before[k]) <= Slack(before[i]);
    }
  }

  /** Rows moved as wholes are the same rows as far as fitting goes. */
  lemma MovedRowsFit(before: seq<Row>, after: seq<Row>)
    requires MovedRigidly(before, after)
    ensures SameCells(before, after) && (Fits(before) <==> Fits(after))
    ensures AllOk(before) ==> AllOk(after)
  {
    hide RowOk, MoveTo, Slack, Drop, MaxHeight, Fits;
    forall k | 0 <= k < |before|
      ensures (before[k].boxes == [] <==> after[k].boxes == []) && (RowOk(before[k]) ==> RowOk(after[k]))
      ensures before[k].boxes != [] ==> Drop(before[k]) == Drop(after[k]) && Slack(before[k]) == Slack(after[k])
    {
      MovedRow(before[k], after[k].origin);
    }
    if Fits(before) {
      FitCarriesOver(before, after);
    }
    if Fits(after) {
      FitCarriesOver(after, before);
    }
  }

  /** Moved as wholes, all by the same height, and sideways as they like. */
  ghost predicate MovedUp(before: seq<Row>, after: seq<Row>, dy: int) {
    MovedRigidly(before, after) && forall k | 0 <= k < |before| :: after[k].origin.y == before[k].origin.y + dy
  }

  /** Rows that all move by the same height, and sideways as they like, stay stacked. */
  lemma MovedRowsStacked(before: seq<Row>, after: seq<Row>, dy: int)
    requires MovedUp(before, after, dy) && Stacked(before)
    ensures Stacked(after)
  {
    hide MoveTo, MaxHeight, Fits, AllOk;
    MovedRowsFit(before, after);
    forall i, k | Consecutive(after, i, k)
      ensures after[k].origin.y == after[i].boxes[0].y + MaxHeight(after[i].boxes)
    {
      SameConsecutive(before, after, i, k);
      MovedRow(before[i], after[i].origin);
    }
  }

  // ---- abutment and alignment, for rows of any heights --------------------------------------

  lemma {:induction false} AbuttedRigidly(rows: seq<Row>, y: int)
    ensures MovedRigidly(rows, Abutted(rows, y))
    ensures forall k | 0 <= k < |rows| :: Abutted(rows, y)[k].origin.x == rows[k].origin.x
  {
    hide MaxHeight, LowerLeft;
    if rows != [] {
      var row := MoveTo(rows[0], Point(rows[0].origin.x, y));
      AbuttedRigidly(rows[1..], LowerLeft(row).y + MaxHeight(row.boxes));
    }
  }

  /** Empty rows pass the height on. */
  lemma {:induction false} FirstCellsAt(rows: seq<Row>, y: int, k: nat)
    requires k < |rows| && forall j | 0 <= j < k :: rows[j].boxes == []
    ensures Abutted(rows, y)[k].origin.y == y
  {
    if k > 0 {
      FirstCellsAt(rows[1..], y, k - 1);
    }
  }

  lemma {:induction false} AbuttedStacked(rows: seq<Row>, y: int, i: nat, k: nat)
    requires Consecutive(rows, i, k)
    ensures var after := Abutted(rows, y);
            after[i].boxes != [] && after[k].origin.y == after[i].boxes[0].y + MaxHeight(after[i].boxes)
    decreases i
  {
    hide MaxHeight;
    var row := MoveTo(rows[0], Point(rows[0].origin.x, y));
    var next := LowerLeft(row).y + MaxHeight(row.boxes);
    if i > 0 {
      AbuttedStacked(rows[1..], next, i - 1, k - 1);
    } else {
      FirstCellsAt(rows[1..], next, k - 1);
    }
  }

  lemma AlignedSideways(rows: seq<Row>)
    ensures MovedUp(rows, LeftAligned(rows), 0) && MovedUp(rows, RightAligned(rows), 0)
  {
    hide LeftMost, RightMost;
  }

  lemma RigidFromMovedUp(before: seq<Row>, after: seq<Row>, dy: int)
    requires MovedUp(before, after, dy)
    ensures MovedRigidly(before, after)
  {
  }

  lemma SidewaysStacked(rows: seq<Row>, stacked: seq<Row>, fixed: seq<Row>)
    requires MovedRigidly(rows, stacked) && Stacked(stacked) && MovedUp(stacked, fixed, 0)
    ensures MovedRigidly(rows, fixed) && Stacked(fixed)
  {
    RigidFromMovedUp(stacked, fixed, 0);
    hide MovedUp, MovedRigidly, Stacked;
    MovedRowsStacked(stacked, fixed, 0);
    MovedTwiceRigidly(rows, stacked, fixed);
  }

  /** Re-alignment moves rows as wholes and stacks those with cells. */
  lemma FixedIsStacked(bank: Bank)
    requires AllOk(bank.rows)
    ensures var fixed := FixAlignments(bank).rows;
            MovedRigidly(bank.rows, fixed) && AllOk(fixed) && Stacked(fixed) && (Fits(fixed) <==> Fits(bank.rows))
  {
    hide Abutted, LeftAligned, RightAligned, AllOk, Fits, Stacked, MovedRigidly, MovedUp;
    if bank.rows == [] {
      NothingToStack(bank.rows);
    } else {
      var y := bank.rows[0].origin.y;
      var stacked := Abutted(bank.rows, y);
      AbuttedRigidly(bank.rows, y);
      AbuttedIsStacked(bank.rows, y);
      AlignedSideways(stacked);
      SidewaysStacked(bank.rows, stacked, LeftAligned(stacked));
      SidewaysStacked(bank.rows, stacked, RightAligned(stacked));
      MovedRowsFit(bank.rows, FixAlignments(bank).rows);
    }
  }

  lemma NothingToStack(rows: seq<Row>)
    requires rows == []
    ensures MovedRigidly(rows, rows) && Stacked(rows)
  {
  }

  lemma AbuttedIsStacked(rows: seq<Row>, y: int)
    ensures Stacked(Abutted(rows, y))
  {
    hide Abutted, MaxHeight, Fits, AllOk;
    var after := Abutted(rows, y);
    AbuttedRigidly(rows, y);
    MovedRowsFit(rows, after);
    forall i, k | Consecutive(after, i, k) ensures after[k].origin.y == after[i].boxes[0].y + MaxHeight(after[i].boxes) {
      SameConsecutive(rows, after, i, k);
      AbuttedStacked(rows, y, i, k);
    }
  }

  lemma MovedTwiceRigidly(a: seq<Row>, b: seq<Row>, c: seq<Row>)
    requires MovedRigidly(a, b) && MovedRigidly(b, c)
    ensures MovedRigidly(a, c)
  {
    hide MoveTo;
    forall k | 0 <= k < |a| ensures c[k] == MoveTo(a[k], c[k].origin) {
      MovedTwice(a[k], b[k].origin, c[k].origin);
    }
  }

  // ---- every sequence of operations -----------------------------------------------------------

  /** Rows are what rows should be, and stacked where they have cells. */
  ghost predicate Sound(bank: Bank) {
    AllOk(bank.rows) && Stacked(bank.rows)
  }

  lemma EmptyRowsOnTop(rows: seq<Row>, more: seq<Row>)
    requires forall k | 0 <= k < |more| :: more[k].boxes == [] && RowOk(more[k])
    ensures AllOk(rows) ==> AllOk(rows + more)
    ensures Stacked(rows) ==> Stacked(rows + more)
    ensures Fits(rows) <==> Fits(rows + more)
  {
    hide RowOk, MaxHeight, Drop, Slack;
    forall i, k ensures Consecutive(rows + more, i, k) <==> Consecutive(rows, i, k) {
      ConsecutiveBelow(rows, more, i, k);
    }
    forall i, k | Consecutive(rows, i, k) ensures (rows + more)[i] == rows[i] && (rows + more)[k] == rows[k] {}
  }

  lemma ConsecutiveBelow(rows: seq<Row>, more: seq<Row>, i: int, k: int)
    requires forall j | 0 <= j < |more| :: more[j].boxes == []
    ensures Consecutive(rows + more, i, k) <==> Consecutive(rows, i, k)
  {
    var all := rows + more;
    assert forall j | 0 <= j < |rows| :: all[j] == rows[j];
    assert forall j | |rows| <= j < |all| :: all[j] == more[j - |rows|];
  }

  lemma WithRowSound(bank: Bank, index: nat)
    requires Sound(bank)
    ensures Sound(WithRow(bank, index)) && (Fits(WithRow(bank, index).rows) <==> Fits(bank.rows))
  {
    if index >= |bank.rows| {
      var more := NewRows(bank, |bank.rows|, index + 1, TopOfLastRow(bank.rows));
      hide Stacked, AllOk, Fits;
      EmptyRowsOnTop(bank.rows, more);
    }
  }

  /** The rows once a cell has been put into one of them, before they are re-aligned. */
  function Placed(bank: Bank, index: nat, cell: Cell, left: bool): seq<Row> {
    var rows := WithRow(bank, index).rows;
    rows[index := if left then InstantiateAndInsertFront(rows[index], cell) else InstantiateBack(rows[index], cell)]
  }

  lemma PlacedOk(bank: Bank, index: nat, cell: Cell, left: bool)
    requires Sound(bank)
    ensures AllOk(Placed(bank, index, cell, left))
  {
    hide Stacked, RowOk, InstantiateBack, InstantiateAndInsertFront;
    WithRowSound(bank, index);
    var row := WithRow(bank, index).rows[index];
    if left {
      InsertFrontKeepsRowOk(row, cell);
    } else {
      BackKeepsRowOk(row, cell);
    }
  }

  /**
   * After a placement the rows are apart if and only if they fit, which can be
   * seen before they are re-aligned.
   */
  lemma PlacementApartExactly(bank: Bank, index: nat, cell: Cell, left: bool)
    requires Sound(bank)
    ensures var after := Banks.Apply(bank, if left then PutLeft(index, cell) else PutRight(index, cell));
            Sound(after) && (BoundsApart(after.rows) <==> Fits(Placed(bank, index, cell, left)))
  {
    hide AllOk, Stacked, Fits, FixAlignments, WithRow, InstantiateBack, InstantiateAndInsertFront, BoundsApart;
    PlacedOk(bank, index, cell, left);
    var placed := WithRow(bank, index).(rows := Placed(bank, index, cell, left));
    FixedIsStacked(placed);
    ApartExactly(FixAlignments(placed).rows);
  }

  lemma MovedBankRigidly(bank: Bank, p: Point)
    requires bank.rows != []
    ensures MovedUp(bank.rows, MoveBank(bank, p).rows, p.y - bank.rows[0].origin.y)
  {
  }

  lemma MoveBankSound(bank: Bank, p: Point)
    requires Sound(bank)
    ensures Sound(MoveBank(bank, p))
  {
    hide RowOk, MaxHeight, Stacked, AllOk, Fits;
    var after := MoveBank(bank, p).rows;
    if bank.rows != [] {
      MovedBankRigidly(bank, p);
      RigidFromMovedUp(bank.rows, after, p.y - bank.rows[0].origin.y);
      hide MoveBank, MovedUp, MovedRigidly;
      MovedRowsFit(bank.rows, after);
      MovedRowsStacked(bank.rows, after, p.y - bank.rows[0].origin.y);
    }
  }

  lemma InsertRowZeroSound(bank: Bank)
    requires Sound(bank)
    ensures Sound(InsertRowZero(bank))
  {
    hide MaxHeight, TilingBounds;
    var after := InsertRowZero(bank).rows;
    assert RowOk(after[0]);
    hide RowOk;
    assert forall k | 0 < k < |after| :: after[k] == bank.rows[k - 1];
    forall i, k | Consecutive(after, i, k) ensures i > 0 && Consecutive(bank.rows, i - 1, k - 1) {
      assert forall j | i - 1 < j < k - 1 :: after[j + 1] == bank.rows[j];
    }
  }

  lemma SameBoxesSound(before: seq<Row>, after: seq<Row>)
    requires |before| == |after| && AllOk(before) && Stacked(before)
    requires forall k | 0 <= k < |before| ::
               after[k].boxes == before[k].boxes && after[k].origin == before[k].origin && RowOk(after[k])
    ensures AllOk(after) && Stacked(after)
  {
    hide RowOk, MaxHeight;
    forall i, k | Consecutive(after, i, k) ensures after[k].origin.y == after[i].boxes[0].y + MaxHeight(after[i].boxes) {
      SameConsecutive(before, after, i, k);
    }
  }

  lemma SetTapSound(bank: Bank, index: nat, tapCell: Option<Cell>)
    requires Sound(bank)
    ensures Sound(SetRowTapCell(bank, index, tapCell))
  {
    WithRowSound(bank, index);
    var before, after := WithRow(bank, index).rows, SetRowTapCell(bank, index, tapCell).rows;
    assert RowOk(before[index]) && RowOk(after[index]);
    assert forall k | 0 <= k < |before| && k != index :: after[k] == before[k];
    hide RowOk, WithRow, Stacked;
    SameBoxesSound(before, after);
  }

  lemma ApplyKeepsSound(bank: Bank, op: Banks.Op)
    requires Sound(bank)
    ensures Sound(Banks.Apply(bank, op))
  {
    hide Sound, InstantiateRight, InstantiateLeft, WithRow, InsertRowZero, SetRowTapCell, MoveBank, Fits, BoundsApart;
    match op
    case PutRight(index, cell) => PlacementApartExactly(bank, index, cell, false);
    case PutLeft(index, cell) => PlacementApartExactly(bank, index, cell, true);
    case PutInside(index, cell) =>
      PlacementApartExactly(bank, index, cell, false);
      PlacementApartExactly(bank, index, cell, true);
    case MakeRow(index) => WithRowSound(bank, index);
    case AddRowZero => InsertRowZeroSound(bank);
    case SetTap(index, tapCell) => SetTapSound(bank, index, tapCell);
    case MoveAll(to) => MoveBankSound(bank, to);
  }

  /** Whatever is done to a bank, with cells of any heights. */
  lemma {:induction false} EveryRunIsSound(bank: Bank, ops: seq<Banks.Op>)
    requires bank.rows == []
    ensures Sound(Banks.Run(bank, ops))
  {
    if ops != [] {
      hide Sound, Banks.Apply;
      EveryRunIsSound(bank, ops[..|ops| - 1]);
      ApplyKeepsSound(Banks.Run(bank, ops[..|ops| - 1]), ops[|ops| - 1]);
    }
  }

  // ---- boxes ------------------------------------------------------------------------------------

  /** How far a box of a row reaches above the first cell of the row. */
  function Rise(row: Row, k: nat): int
    requires k < |row.boxes|
  {
    row.boxes[k].Top() - row.boxes[0].y
  }

  /** How far a box of a row reaches below the origin of the row. */
  function Dip(row: Row, k: nat): int
    requires k < |row.boxes|
  {
    row.origin.y - row.boxes[k].y
  }

  predicate ApartSideways(a: Box, b: Box) {
    a.Right() <= b.x || b.Right() <= a.x
  }

  /**
   * How far the origin of a row comes to lie above the first cell of another:
   * rows with cells between add their heights, less what their first cells
   * stand above their origins.
   */
  function Lift(rows: seq<Row>, i: nat, k: nat): int
    requires i < k < |rows|
    decreases k
  {
    if k == i + 1 then MaxHeight(rows[i].boxes)
    else
      Lift(rows, i, k - 1) +
      if rows[k - 1].boxes == [] then 0
      else rows[k - 1].boxes[0].y - rows[k - 1].origin.y + MaxHeight(rows[k - 1].boxes)
  }

  lemma {:induction false} LiftPastEmptyRows(rows: seq<Row>, i: nat, j: nat, k: nat)
    requires i < j <= k < |rows| && forall m | j <= m < k :: rows[m].boxes == []
    ensures Lift(rows, i, k) == Lift(rows, i, j)
  {
    if j < k {
      LiftPastEmptyRows(rows, i, j, k - 1);
    }
  }

  lemma LiftOverCells(rows: seq<Row>, i: nat, j: nat)
    requires i <= j && j + 1 < |rows| && rows[j].boxes != []
    ensures Lift(rows, i, j + 1) ==
            MaxHeight(rows[j].boxes) + if i == j then 0 else Lift(rows, i, j) + rows[j].boxes[0].y - rows[j].origin.y
  {
  }

  lemma {:induction false} LiftIsExact(rows: seq<Row>, i: nat, k: nat)
    requires Stacked(rows) && i < k < |rows| && rows[i].boxes != [] && rows[k].boxes != []
    ensures rows[k].origin.y == rows[i].boxes[0].y + Lift(rows, i, k)
    decreases k
  {
    hide MaxHeight, Lift;
    var j := RowUnder(rows, i, k);
    assert rows[k].origin.y == rows[j].boxes[0].y + MaxHeight(rows[j].boxes);
    assert rows[j].boxes != [] && forall m | j < m < k :: rows[m].boxes == [];
    hide Consecutive;
    LiftPastEmptyRows(rows, i, j + 1, k);
    LiftOverCells(rows, i, j);
    if i < j {
      LiftIsExact(rows, i, j);
    }
  }

  /**
   * Two boxes of different rows meet: their x ranges do, the upper one dips
   * further than there is room for, and it does not lie below the lower one
   * altogether. Rises, dips and lifts do not change when rows are moved.
   */
  predicate BoxesMeet(rows: seq<Row>, i: nat, a: nat, k: nat, b: nat)
    requires i < k < |rows| && a < |rows[i].boxes| && b < |rows[k].boxes|
  {
    var lower, upper := rows[i].boxes[a], rows[k].boxes[b];
    && !ApartSideways(lower, upper)
    && Rise(rows[i], a) + Dip(rows[k], b) > Lift(rows, i, k)
    && Rise(rows[i], a) - lower.height + Dip(rows[k], b) < Lift(rows, i, k) + upper.height
  }

  lemma BoxesOverlapExactly(rows: seq<Row>, i: nat, a: nat, k: nat, b: nat)
    requires Stacked(rows) && i < k < |rows| && a < |rows[i].boxes| && b < |rows[k].boxes|
    ensures !Disjoint(rows[i].boxes[a], rows[k].boxes[b]) <==> BoxesMeet(rows, i, a, k, b)
  {
    LiftIsExact(rows, i, k);
    hide Stacked, Lift;
  }

  /** No box reaches into a box of another row. */
  ghost predicate BoxesFit(rows: seq<Row>) {
    forall i, a, k, b | 0 <= i < k < |rows| && 0 <= a < |rows[i].boxes| && 0 <= b < |rows[k].boxes| ::
      !BoxesMeet(rows, i, a, k, b)
  }

  ghost predicate AllDisjoint(rows: seq<Row>) {
    forall i, a, k, b | 0 <= i < |rows| && 0 <= a < |rows[i].boxes| && 0 <= k < |rows| && 0 <= b < |rows[k].boxes|
                        && (i, a) != (k, b) ::
      Disjoint(rows[i].boxes[a], rows[k].boxes[b])
  }

  lemma DisjointExactly(rows: seq<Row>)
    requires AllOk(rows) && Stacked(rows)
    ensures AllDisjoint(rows) <==> BoxesFit(rows)
  {
    hide Stacked, Disjoint, BoxesMeet, RowOk;
    if AllDisjoint(rows) {
      forall i, a, k, b | 0 <= i < k < |rows| && 0 <= a < |rows[i].boxes| && 0 <= b < |rows[k].boxes|
        ensures !BoxesMeet(rows, i, a, k, b)
      {
        BoxesOverlapExactly(rows, i, a, k, b);
        assert Disjoint(rows[i].boxes[a], rows[k].boxes[b]);
      }
    }
    if BoxesFit(rows) {
      forall i, a, k, b | 0 <= i < |rows| && 0 <= a < |rows[i].boxes| && 0 <= k < |rows| && 0 <= b < |rows[k].boxes|
                          && (i, a) != (k, b)
        ensures Disjoint(rows[i].boxes[a], rows[k].boxes[b])
      {
        if i < k {
          BoxesOverlapExactly(rows, i, a, k, b);
        } else if k < i {
          BoxesOverlapExactly(rows, k, b, i, a);
          DisjointBothWays(rows[i].boxes[a], rows[k].boxes[b]);
        } else {
          BoxesOfOneRow(rows[i], a, b);
        }
      }
    }
  }

  lemma DisjointBothWays(a: Box, b: Box)
    ensures Disjoint(a, b) <==> Disjoint(b, a)
  {
  }

  lemma BoxesOfOneRow(row: Row, a: nat, b: nat)
    requires RowOk(row) && a < |row.boxes| && b < |row.boxes| && a != b
    ensures Disjoint(row.boxes[a], row.boxes[b])
  {
    if a < b {
      BoxesOfRowApart(row.boxes, a, b);
    } else {
      BoxesOfRowApart(row.boxes, b, a);
    }
  }

  lemma {:induction false} BoxWithinBounds(boxes: seq<Box>, k: nat)
    requires k < |boxes|
    ensures TilingBounds(boxes).bottom <= boxes[k].y && boxes[k].Top() <= TilingBounds(boxes).top
  {
    if |boxes| > 1 && k < |boxes| - 1 {
      BoxWithinBounds(boxes[..|boxes| - 1], k);
    }
  }

  lemma ApartBoundsAreDisjoint(rows: seq<Row>)
    requires AllOk(rows) && BoundsApart(rows)
    ensures AllDisjoint(rows)
  {
    hide TilingBounds, RowOk;
    forall i, a, k, b | 0 <= i < |rows| && 0 <= a < |rows[i].boxes| && 0 <= k < |rows| && 0 <= b < |rows[k].boxes|
                        && (i, a) != (k, b)
      ensures Disjoint(rows[i].boxes[a], rows[k].boxes[b])
    {
      if i == k {
        BoxesOfOneRow(rows[i], a, b);
      } else {
        BoxWithinBounds(rows[i].boxes, a);
        BoxWithinBounds(rows[k].boxes, b);
      }
    }
  }

  /**
   * In every bank reached by any sequence of placements on either side, row
   * creations, rows inserted at the bottom, tap settings and moves, with cells
   * of any heights: no two boxes overlap if and only if no box reaches into
   * one of another row; and the bounds of rows are apart if and only if the
   * rows fit, which is enough.
   */
  lemma NoTwoBoxesOverlap(bank: Bank, ops: seq<Banks.Op>)
    requires bank.rows == []
    ensures var rows := Banks.Run(bank, ops).rows;
            && (AllDisjoint(rows) <==> BoxesFit(rows))
            && (BoundsApart(rows) <==> Fits(rows))
            && (Fits(rows) ==> AllDisjoint(rows))
  {
    hide AllOk, Stacked, BoundsApart, Fits, AllDisjoint, BoxesFit, Banks.Run;
    var rows := Banks.Run(bank, ops).rows;
    EveryRunIsSound(bank, ops);
    ApartExactly(rows);
    DisjointExactly(rows);
    if Fits(rows) {
      ApartBoundsAreDisjoint(rows);
    }
  }

  // ---- one cell height per row ----------------------------------------------------------------

  lemma ShapedRowsFit(rows: seq<Row>)
    requires AllShaped(rows)
    ensures Fits(rows)
  {
    forall i, k | Consecutive(rows, i, k) ensures Drop(rows[k]) <= Slack(rows[i]) {
      assert Shaped(rows[i]) && Shaped(rows[k]);
      ShapedHeight(rows[i].boxes);
      ShapedHeight(rows[k].boxes);
    }
  }

  /** With one cell height per row, rows always fit, so no two boxes overlap. */
  lemma OneHeightPerRowFits(bank: Bank, ops: seq<Banks.Op>)
    requires bank.rows == [] && RunHasOneHeightPerRow(bank, ops)
    ensures Fits(Banks.Run(bank, ops).rows) && AllDisjoint(Banks.Run(bank, ops).rows)
  {
    hide Banks.Run, AllShaped, Fits, AllDisjoint, BoxesFit, BoundsApart;
    EveryRunKeepsBankOk(bank, ops);
    ShapedRowsFit(Banks.Run(bank, ops).rows);
    NoTwoBoxesOverlap(bank, ops);
  }
}
