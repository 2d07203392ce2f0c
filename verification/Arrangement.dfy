// How the cells of a bank face, on which side of a row they end up, and what
// moving a bank or adding a row below leaves alone (src/memory_bank.cc).

module Arrangement {
  import opened Basics
  import opened Rows
  import opened Banks
  import opened Stacking

  // ---- which way rows face ----------------------------------------------------------------------

  /** All boxes of a row face the way the row does. */
  ghost predicate FacesAlike(row: Row) {
    forall k | 0 <= k < |row.boxes| :: row.boxes[k].rotated == row.rotate
  }

  /**
   * Rows face alternate ways if the bank is asked for that, the first as the
   * bank says; otherwise none is rotated. The cells of a row face with it.
   */
  ghost predicate Alternating(bank: Bank) {
    && (forall k | 0 <= k < |bank.rows| :: FacesAlike(bank.rows[k]))
    && (!bank.rotateAlternateRows ==> forall k | 0 <= k < |bank.rows| :: !bank.rows[k].rotate)
    && (bank.rotateAlternateRows ==>
          && (bank.rows != [] ==> bank.rows[0].rotate == bank.rotateFirstRow)
          && forall k | 0 < k < |bank.rows| :: bank.rows[k].rotate != bank.rows[k - 1].rotate)
  }

  /** By the number of a row. */
  ghost predicate FaceByNumber(bank: Bank) {
    forall k | 0 <= k < |bank.rows| ::
      && FacesAlike(bank.rows[k])
      && bank.rows[k].rotate == (bank.rotateAlternateRows && RowIsRotated(bank.rotateFirstRow, k))
  }

  lemma {:induction false} NumberIsAlternate(bank: Bank, k: nat)
    requires Alternating(bank) && bank.rotateAlternateRows && k < |bank.rows|
    ensures bank.rows[k].rotate == RowIsRotated(bank.rotateFirstRow, k)
  {
    if k > 0 {
      NumberIsAlternate(bank, k - 1);
    }
  }

  lemma AlternatingByNumber(bank: Bank)
    ensures Alternating(bank) <==> FaceByNumber(bank)
  {
    if Alternating(bank) && bank.rotateAlternateRows {
      forall k | 0 <= k < |bank.rows| ensures bank.rows[k].rotate == RowIsRotated(bank.rotateFirstRow, k) {
        NumberIsAlternate(bank, k);
      }
    }
    if FaceByNumber(bank) && bank.rotateAlternateRows {
      forall k | 0 < k < |bank.rows| ensures bank.rows[k].rotate != bank.rows[k - 1].rotate {
        assert RowIsRotated(bank.rotateFirstRow, k) != RowIsRotated(bank.rotateFirstRow, k - 1);
      }
    }
  }

  lemma MovedFacesAlike(row: Row, p: Point)
    ensures FacesAlike(row) <==> FacesAlike(MoveTo(row, p))
    ensures MoveTo(row, p).rotate == row.rotate
  {
    forall k | 0 <= k < |row.boxes| ensures MoveTo(row, p).boxes[k].rotated == row.boxes[k].rotated {}
  }

  lemma MovedRowsFace(before: Bank, after: Bank)
    requires MovedRigidly(before.rows, after.rows) && FaceByNumber(before)
    requires after.rotateAlternateRows == before.rotateAlternateRows && after.rotateFirstRow == before.rotateFirstRow
    ensures FaceByNumber(after)
  {
    hide FacesAlike, RowIsRotated, MoveTo;
    forall k | 0 <= k < |after.rows|
      ensures FacesAlike(after.rows[k]) && after.rows[k].rotate == before.rows[k].rotate
    {
      MovedFacesAlike(before.rows[k], after.rows[k].origin);
    }
  }

  /** Re-alignment moves every row as a whole, whatever is in it. */
  lemma FixedRigidly(bank: Bank)
    ensures MovedRigidly(bank.rows, FixAlignments(bank).rows)
    ensures FixAlignments(bank) == bank.(rows := FixAlignments(bank).rows)
  {
    hide Abutted, LeftAligned, RightAligned, MovedUp, MovedRigidly, Stacked, AllOk;
    if bank.rows == [] {
      NothingToStack(bank.rows);
    } else {
      var y := bank.rows[0].origin.y;
      var stacked := Abutted(bank.rows, y);
      AbuttedRigidly(bank.rows, y);
      AlignedSideways(stacked);
      RigidFromMovedUp(stacked, LeftAligned(stacked), 0);
      RigidFromMovedUp(stacked, RightAligned(stacked), 0);
      MovedTwiceRigidly(bank.rows, stacked, LeftAligned(stacked));
      MovedTwiceRigidly(bank.rows, stacked, RightAligned(stacked));
    }
  }

  lemma WithRowFaces(bank: Bank, index: nat)
    requires FaceByNumber(bank)
    ensures FaceByNumber(WithRow(bank, index))
    ensures WithRow(bank, index) == bank.(rows := WithRow(bank, index).rows)
  {
    hide RowIsRotated;
    var after := WithRow(bank, index);
    forall k | 0 <= k < |after.rows|
      ensures FacesAlike(after.rows[k])
      ensures after.rows[k].rotate == (bank.rotateAlternateRows && RowIsRotated(bank.rotateFirstRow, k))
    {
      if k < |bank.rows| {
        assert after.rows[k] == bank.rows[k];
      } else {
        assert after.rows[k] == NewRow(bank, k, TopOfLastRow(bank.rows));
      }
    }
  }

  lemma PlacedFaces(row: Row, cell: Cell)
    requires FacesAlike(row)
    ensures FacesAlike(InstantiateBack(row, cell)) && InstantiateBack(row, cell).rotate == row.rotate
    ensures FacesAlike(InstantiateAndInsertFront(row, cell)) && InstantiateAndInsertFront(row, cell).rotate == row.rotate
  {
    hide NeedsTap, NextPointLeft, NextPointRight, LeftEdge;
    var placed := InstantiateFront(row, cell);
    assert FacesAlike(MaybeTapLeft(row, cell.width)) && FacesAlike(placed);
    forall k | 0 <= k < |placed.boxes|
      ensures InstantiateAndInsertFront(row, cell).boxes[k].rotated == placed.boxes[k].rotated {}
    assert FacesAlike(MaybeTapRight(row, cell.width));
  }

  lemma PutFaces(bank: Bank, index: nat, cell: Cell)
    requires FaceByNumber(bank)
    ensures FaceByNumber(InstantiateRight(bank, index, cell)) && FaceByNumber(InstantiateLeft(bank, index, cell))
    ensures InstantiateRight(bank, index, cell) == bank.(rows := InstantiateRight(bank, index, cell).rows)
    ensures InstantiateLeft(bank, index, cell) == bank.(rows := InstantiateLeft(bank, index, cell).rows)
  {
    hide FacesAlike, RowIsRotated, InstantiateBack, InstantiateAndInsertFront, FixAlignments, WithRow;
    WithRowFaces(bank, index);
    var b := WithRow(bank, index);
    PlacedFaces(b.rows[index], cell);
    var right := b.(rows := b.rows[index := InstantiateBack(b.rows[index], cell)]);
    var left := b.(rows := b.rows[index := InstantiateAndInsertFront(b.rows[index], cell)]);
    FixedRigidly(right);
    FixedRigidly(left);
    MovedRowsFace(right, FixAlignments(right));
    MovedRowsFace(left, FixAlignments(left));
  }

  /** A row inserted below faces the other way, so that the others keep facing theirs. */
  lemma RowZeroFaces(bank: Bank)
    requires FaceByNumber(bank)
    ensures FaceByNumber(InsertRowZero(bank)) && InsertRowZero(bank).rows[1..] == bank.rows
  {
    hide FacesAlike, RowZeroOffset;
    var after := InsertRowZero(bank);
    forall k | 0 <= k < |after.rows|
      ensures FacesAlike(after.rows[k])
      ensures after.rows[k].rotate == (after.rotateAlternateRows && RowIsRotated(after.rotateFirstRow, k))
    {
      if k > 0 {
        assert after.rows[k] == bank.rows[k - 1];
      } else {
        EmptyFacesAlike(after.rows[0]);
      }
    }
  }

  lemma EmptyFacesAlike(row: Row)
    requires row.boxes == []
    ensures FacesAlike(row)
  {
  }

  lemma MovedBankFaces(bank: Bank, p: Point)
    requires FaceByNumber(bank)
    ensures FaceByNumber(MoveBank(bank, p))
  {
    hide MoveTo, FaceByNumber;
    if bank.rows != [] {
      BankMovesAsAWhole(bank, p);
      MovedRowsFace(bank, MoveBank(bank, p));
    }
  }

  lemma SetTapFaces(bank: Bank, index: nat, tapCell: Option<Cell>)
    requires FaceByNumber(bank)
    ensures FaceByNumber(SetRowTapCell(bank, index, tapCell))
  {
    hide RowIsRotated, WithRow;
    WithRowFaces(bank, index);
    var b, after := WithRow(bank, index), SetRowTapCell(bank, index, tapCell);
    forall k | 0 <= k < |after.rows| ensures after.rows[k].boxes == b.rows[k].boxes && after.rows[k].rotate == b.rows[k].rotate {}
  }

  lemma ApplyFaces(bank: Bank, op: Banks.Op)
    requires FaceByNumber(bank)
    ensures FaceByNumber(Banks.Apply(bank, op))
  {
    hide FaceByNumber, InstantiateRight, InstantiateLeft, WithRow, InsertRowZero, SetRowTapCell, MoveBank;
    match op
    case PutRight(index, cell) => PutFaces(bank, index, cell);
    case PutLeft(index, cell) => PutFaces(bank, index, cell);
    case PutInside(index, cell) => PutFaces(bank, index, cell);
    case MakeRow(index) => WithRowFaces(bank, index);
    case AddRowZero => RowZeroFaces(bank);
    case SetTap(index, tapCell) => SetTapFaces(bank, index, tapCell);
    case MoveAll(to) => MovedBankFaces(bank, to);
  }

  lemma {:induction false} RunFaces(bank: Bank, ops: seq<Banks.Op>)
    requires bank.rows == []
    ensures FaceByNumber(Banks.Run(bank, ops))
  {
    if ops != [] {
      hide FaceByNumber, Banks.Apply;
      RunFaces(bank, ops[..|ops| - 1]);
      ApplyFaces(Banks.Run(bank, ops[..|ops| - 1]), ops[|ops| - 1]);
    }
  }

  /** Whatever is done to a bank, also rows added below: neighbouring rows face opposite ways, or none is rotated. */
  lemma EveryRunAlternates(bank: Bank, ops: seq<Banks.Op>)
    requires bank.rows == []
    ensures Alternating(Banks.Run(bank, ops))
  {
    RunFaces(bank, ops);
    AlternatingByNumber(Banks.Run(bank, ops));
  }

  // ---- the side a cell goes to ------------------------------------------------------------------

  /** Boxes of the same cells, moved as a whole. */
  ghost predicate MovedTogether(before: seq<Box>, after: seq<Box>) {
    exists dx, dy :: after == Moved(before, dx, dy)
  }

  /** Every row but one is what it was, moved as a whole. */
  ghost predicate OthersMoved(before: seq<Row>, after: seq<Row>, index: nat) {
    |after| == |before| && forall k | 0 <= k < |before| && k != index :: after[k] == MoveTo(before[k], after[k].origin)
  }

  /** The cell is the leftmost of its row, the older cells staying together behind it. */
  ghost predicate IsLeftmost(before: Row, after: Row, cell: Cell) {
    var n := |before.boxes|;
    && after.rotate == before.rotate && n + 1 <= |after.boxes| <= n + 2
    && IsOf(after.boxes[0], cell, after.rotate, false) && MovedTogether(before.boxes, after.boxes[|after.boxes| - n..])
  }

  /** The cell is the rightmost of its row, the older cells staying together before it. */
  ghost predicate IsRightmost(before: Row, after: Row, cell: Cell) {
    var n := |before.boxes|;
    && after.rotate == before.rotate && n + 1 <= |after.boxes| <= n + 2
    && IsOf(after.boxes[|after.boxes| - 1], cell, after.rotate, false) && MovedTogether(before.boxes, after.boxes[..n])
  }

  /** A cell goes to the side and the row it is meant for; other rows are only moved. */
  lemma CellGoesToItsSide(bank: Bank, index: nat, cell: Cell)
    requires AllOk(bank.rows)
    ensures
      var before, left := WithRow(bank, index).rows, InstantiateLeft(bank, index, cell).rows;
      OthersMoved(before, left, index) && IsLeftmost(before[index], left[index], cell)
    ensures
      var before, right := WithRow(bank, index).rows, InstantiateRight(bank, index, cell).rows;
      OthersMoved(before, right, index) && IsRightmost(before[index], right[index], cell)
  {
    hide InstantiateBack, InstantiateAndInsertFront, RowOk, MoveTo, MovedTogether, IsOf, FixAlignments, IsLeftmost, IsRightmost;
    var b := WithRow(bank, index);
    var before := b.rows[index];
    WithRowOk(bank, index);
    assert RowOk(before);
    var right := b.(rows := b.rows[index := InstantiateBack(before, cell)]);
    var left := b.(rows := b.rows[index := InstantiateAndInsertFront(before, cell)]);
    FixedRigidly(right);
    FixedRigidly(left);
    BackInside(before, cell, FixAlignments(right).rows[index].origin);
    FrontInside(before, cell, FixAlignments(left).rows[index].origin);
  }

  /**
   * Away from the edge that the bank keeps in line: in a bank aligned right the
   * cell becomes the leftmost of its row, otherwise the rightmost.
   */
  lemma InsideIsAwayFromTheEdge(bank: Bank, index: nat, cell: Cell)
    requires AllOk(bank.rows)
    ensures
      var before, after := WithRow(bank, index).rows, InstantiateInside(bank, index, cell).rows;
      && OthersMoved(before, after, index)
      && if bank.alignment == Some(RightSide) then IsLeftmost(before[index], after[index], cell)
         else IsRightmost(before[index], after[index], cell)
  {
    hide InstantiateLeft, InstantiateRight, OthersMoved, IsLeftmost, IsRightmost, WithRow;
    CellGoesToItsSide(bank, index, cell);
  }

  lemma WithRowOk(bank: Bank, index: nat)
    requires AllOk(bank.rows)
    ensures AllOk(WithRow(bank, index).rows)
  {
    var after := WithRow(bank, index);
    forall k | 0 <= k < |after.rows| ensures RowOk(after.rows[k]) {
      if k < |bank.rows| {
        assert after.rows[k] == bank.rows[k];
      }
    }
  }

  lemma BackInside(before: Row, cell: Cell, p: Point)
    requires RowOk(before)
    ensures IsRightmost(before, MoveTo(InstantiateBack(before, cell), p), cell)
  {
    hide InstantiateBack, RowOk, Moved;
    BackAdds(before, cell);
    var placed, n := InstantiateBack(before, cell), |before.boxes|;
    MovedParts(placed.boxes, n, p.x - placed.origin.x, p.y - placed.origin.y);
  }

  lemma FrontInside(before: Row, cell: Cell, p: Point)
    requires RowOk(before)
    ensures IsLeftmost(before, MoveTo(InstantiateAndInsertFront(before, cell), p), cell)
  {
    hide InstantiateAndInsertFront, RowOk, Moved;
    FrontAdds(before, cell);
    var placed, n := InstantiateAndInsertFront(before, cell), |before.boxes|;
    var added := |placed.boxes| - n;
    var dx, dy := p.x - placed.origin.x, p.y - placed.origin.y;
    var shift :| placed.boxes[added..] == Moved(before.boxes, shift, 0);
    MovedParts(placed.boxes, added, dx, dy);
    MovedFurther(before.boxes, shift, dx, dy);
  }

  lemma MovedParts(boxes: seq<Box>, n: nat, dx: int, dy: int)
    requires n <= |boxes|
    ensures Moved(boxes, dx, dy)[n..] == Moved(boxes[n..], dx, dy)
    ensures Moved(boxes, dx, dy)[..n] == Moved(boxes[..n], dx, dy)
  {
  }

  lemma MovedFurther(boxes: seq<Box>, shift: int, dx: int, dy: int)
    ensures Moved(Moved(boxes, shift, 0), dx, dy) == Moved(boxes, shift + dx, dy)
  {
  }

  // ---- moving a bank ------------------------------------------------------------------------------

  /** The first origin gets to the point, and all rows keep their places relative to it. */
  lemma BankMovesAsAWhole(bank: Bank, p: Point)
    requires bank.rows != []
    ensures
      var after := MoveBank(bank, p);
      && MovedRigidly(bank.rows, after.rows) && after == bank.(rows := after.rows)
      && after.rows[0].origin == p
      && forall k | 0 <= k < |bank.rows| ::
           && after.rows[k].origin.x - p.x == bank.rows[k].origin.x - bank.rows[0].origin.x
           && after.rows[k].origin.y - p.y == bank.rows[k].origin.y - bank.rows[0].origin.y
  {
  }

  // ---- a row below the first ------------------------------------------------------------------------

  lemma RowZeroShaped(bank: Bank)
    requires AllShaped(bank.rows) && bank.rows != [] && bank.rows[0].boxes != []
    ensures
      var after := InsertRowZero(bank);
      && |after.rows| == |bank.rows| + 1 && AllShaped(after.rows)
      && after.rows[0].boxes == [] && after.rows[0].tapCell == bank.tapCell
      && after.rows[0].origin.y + MaxHeight(bank.rows[0].boxes) == bank.rows[0].origin.y
      && forall k | 0 <= k < |bank.rows| :: after.rows[k + 1] == bank.rows[k]
  {
    ShapedBounds(bank.rows[0]);
    hide MaxHeight, TilingBounds;
    var after := InsertRowZero(bank);
    forall k | 0 < k < |after.rows| ensures after.rows[k] == bank.rows[k - 1] {}
  }

  /** Rows on a first row of this height lie where they lay on the others. */
  lemma {:induction false} HeightAboveRowZero(before: seq<Row>, after: seq<Row>, n: nat)
    requires |after| == |before| + 1 && n <= |before|
    requires forall k | 0 <= k < |before| :: MaxHeight(after[k + 1].boxes) == MaxHeight(before[k].boxes)
    ensures HeightBelow(after, n + 1) == MaxHeight(after[0].boxes) + HeightBelow(before, n)
  {
    hide MaxHeight;
    if n > 0 {
      HeightAboveRowZero(before, after, n - 1);
    }
  }

  /**
   * A row inserted below starts one height of the old first row further down.
   * So once it holds cells of that height, the rows above are where they were;
   * with other cells they all rise by the difference.
   */
  lemma RowsAboveRowZeroRise(bank: Bank, cell: Cell, left: bool)
    requires AllShaped(bank.rows) && bank.rows != [] && bank.rows[0].boxes != []
    requires StackedFrom(bank.rows, bank.rows[0].origin.y)
    requires bank.tapCell.Some? ==> bank.tapCell.value.height == cell.height
    ensures
      var below := InsertRowZero(bank);
      var after := if left then InstantiateLeft(below, 0, cell) else InstantiateRight(below, 0, cell);
      && |after.rows| == |bank.rows| + 1
      && forall k | 0 <= k < |bank.rows| ::
           after.rows[k + 1].origin.y == bank.rows[k].origin.y + cell.height - MaxHeight(bank.rows[0].boxes)
  {
    hide InstantiateBack, InstantiateAndInsertFront, FixAlignments, Shaped, MaxHeight, HeightBelow, InsertRowZero, FitsRow;
    RowZeroShaped(bank);
    var below := InsertRowZero(bank);
    var row := below.rows[0];
    assert FitsRow(row, cell) by { EmptyRowFits(row, cell); }
    PlacedInEmptyRow(row, cell);
    var placed := if left then InstantiateAndInsertFront(row, cell) else InstantiateBack(row, cell);
    var middle := below.(rows := below.rows[0 := placed]);
    assert WithRow(below, 0) == below;
    FixAlignmentsStacks(middle);
    var after := FixAlignments(middle);
    forall k | 0 <= k < |after.rows| ensures MaxHeight(after.rows[k].boxes) == MaxHeight(middle.rows[k].boxes) {
      MovedRow(middle.rows[k], after.rows[k].origin);
    }
    forall k | 0 <= k < |bank.rows| ensures MaxHeight(after.rows[k + 1].boxes) == MaxHeight(bank.rows[k].boxes) {
      assert middle.rows[k + 1] == bank.rows[k];
    }
    forall k | 0 <= k < |bank.rows|
      ensures after.rows[k + 1].origin.y == bank.rows[k].origin.y + cell.height - MaxHeight(bank.rows[0].boxes)
    {
      HeightAboveRowZero(bank.rows, after.rows, k);
      assert after.rows[k + 1].origin.y == middle.rows[0].origin.y + HeightBelow(after.rows, k + 1);
    }
  }

  lemma EmptyRowFits(row: Row, cell: Cell)
    requires row.boxes == [] && (row.tapCell.Some? ==> row.tapCell.value.height == cell.height)
    ensures FitsRow(row, cell)
  {
  }

  lemma PlacedInEmptyRow(row: Row, cell: Cell)
    requires row.boxes == [] && Shaped(row) && FitsRow(row, cell)
    ensures Shaped(InstantiateBack(row, cell)) && Shaped(InstantiateAndInsertFront(row, cell))
    ensures InstantiateBack(row, cell).origin == InstantiateAndInsertFront(row, cell).origin == row.origin
    ensures MaxHeight(InstantiateBack(row, cell).boxes) == MaxHeight(InstantiateAndInsertFront(row, cell).boxes) == cell.height
  {
    BackKeepsShaped(row, cell);
    InsertFrontKeepsShaped(row, cell);
    BackIsAsTall(row, cell);
    FrontIsAsTall(row, cell);
    hide InstantiateBack, InstantiateAndInsertFront;
    ShapedHeight(InstantiateBack(row, cell).boxes);
    ShapedHeight(InstantiateAndInsertFront(row, cell).boxes);
  }

  lemma BackIsAsTall(row: Row, cell: Cell)
    requires row.boxes == [] && FitsRow(row, cell)
    ensures var boxes := InstantiateBack(row, cell).boxes; boxes != [] && boxes[0].height == cell.height
  {
  }

  lemma FrontIsAsTall(row: Row, cell: Cell)
    requires row.boxes == [] && FitsRow(row, cell)
    ensures var boxes := InstantiateAndInsertFront(row, cell).boxes; boxes != [] && boxes[0].height == cell.height
  {
  }
}
