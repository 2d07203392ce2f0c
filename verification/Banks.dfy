// The value of a bank of rows stacked on top of each other, and what each
// operation makes of it (src/memory_bank.cc). Banks grow upwards.

module Banks {
  import opened Basics
  import opened Rows

  datatype Side = LeftSide | RightSide

  datatype Bank = Bank(
    rows: seq<Row>,
    tapCell: Option<Cell>,
    rotateAlternateRows: bool,
    rotateFirstRow: bool,
    alignment: Option<Side>)

  predicate RowIsRotated(rotateFirstRow: bool, index: nat) {
    if rotateFirstRow then index % 2 == 0 else index % 2 != 0
  }

  /** The row that the bank creates at this index. */
  function NewRow(bank: Bank, index: nat, y: int): Row {
    EmptyRow(Point(0, y), bank.rotateAlternateRows && RowIsRotated(bank.rotateFirstRow, index), bank.tapCell)
  }

  function TopOfLastRow(rows: seq<Row>): int {
    if rows == [] then 0 else UpperLeft(rows[|rows| - 1]).y
  }

  /** The bank with all rows up to `index`. */
  function WithRow(bank: Bank, index: nat): (b: Bank)
    ensures index < |b.rows| && bank.rows <= b.rows
    ensures forall k | |bank.rows| <= k < |b.rows| :: b.rows[k].boxes == []
  {
    if index < |bank.rows| then bank
    else
      bank.(rows := bank.rows + NewRows(bank, |bank.rows|, index + 1, TopOfLastRow(bank.rows)))
  }

  function NewRows(bank: Bank, first: nat, end: nat, y: int): (rows: seq<Row>)
    requires first <= end
    ensures |rows| == end - first && forall k | 0 <= k < |rows| :: rows[k] == NewRow(bank, first + k, y)
  {
    seq(end - first, k requires k >= 0 => NewRow(bank, first + k, y))
  }

  /** Where a row goes that is inserted below the first one. */
  function RowZeroOffset(bank: Bank): int {
    if bank.rows == [] || bank.rows[0].boxes == [] then 0
    else bank.rows[0].origin.y - TilingBounds(bank.rows[0].boxes).Height()
  }

  function InsertRowZero(bank: Bank): Bank {
    WithRowBelow(bank, RowZeroOffset(bank))
  }

  function WithRowBelow(bank: Bank, y: int): Bank {
    var flipped := bank.(rotateFirstRow := bank.rotateAlternateRows != bank.rotateFirstRow);
    flipped.(rows := [NewRow(flipped, 0, y)] + bank.rows)
  }

  /** Puts each row on top of the one below, the first at `y`. */
  function Abutted(rows: seq<Row>, y: int): (r: seq<Row>)
    ensures |r| == |rows|
  {
    if rows == [] then []
    else
      var row := MoveTo(rows[0], Point(rows[0].origin.x, y));
      [row] + Abutted(rows[1..], LowerLeft(row).y + MaxHeight(row.boxes))
  }

  /** Placing the first row of those from `i` on settles where the rest goes. */
  lemma AbuttedFrom(rows: seq<Row>, i: nat, y: int)
    requires i < |rows|
    ensures
      var row := MoveTo(rows[i], Point(rows[i].origin.x, y));
      Abutted(rows[i..], y) == [row] + Abutted(rows[i + 1..], LowerLeft(row).y + MaxHeight(row.boxes))
  {
    assert rows[i..][0] == rows[i] && rows[i..][1..] == rows[i + 1..];
  }

  function LeftMost(rows: seq<Row>): int {
    if rows == [] then 0 else Min(LeftMost(rows[..|rows| - 1]), LowerLeft(rows[|rows| - 1]).x)
  }

  function RightMost(rows: seq<Row>): int {
    if rows == [] then 0 else Max(RightMost(rows[..|rows| - 1]), LowerRight(rows[|rows| - 1]).x)
  }

  function LeftAligned(rows: seq<Row>): (r: seq<Row>)
    ensures |r| == |rows|
  {
    seq(|rows|, k requires 0 <= k < |rows| =>
      MoveLowerLeft(rows[k], Point(LeftMost(rows), LowerLeft(rows[k]).y)))
  }

  function RightAligned(rows: seq<Row>): (r: seq<Row>)
    ensures |r| == |rows|
  {
    seq(|rows|, k requires 0 <= k < |rows| =>
      MoveLowerRight(rows[k], Point(RightMost(rows), LowerRight(rows[k]).y)))
  }

  function FixAlignments(bank: Bank): Bank {
    if bank.rows == [] then bank
    else
      var stacked := Abutted(bank.rows, bank.rows[0].origin.y);
      bank.(rows := match bank.alignment
                    case None => stacked
                    case Some(LeftSide) => LeftAligned(stacked)
                    case Some(RightSide) => RightAligned(stacked))
  }

  function InstantiateRight(bank: Bank, index: nat, cell: Cell): Bank {
    var b := WithRow(bank, index);
    FixAlignments(b.(rows := b.rows[index := InstantiateBack(b.rows[index], cell)]))
  }

  function InstantiateLeft(bank: Bank, index: nat, cell: Cell): Bank {
    var b := WithRow(bank, index);
    FixAlignments(b.(rows := b.rows[index := InstantiateAndInsertFront(b.rows[index], cell)]))
  }

  /** On the side opposite to the one the bank is aligned to. */
  function InstantiateInside(bank: Bank, index: nat, cell: Cell): Bank {
    if bank.alignment == Some(RightSide) then InstantiateLeft(bank, index, cell)
    else InstantiateRight(bank, index, cell)
  }

  function SetRowTapCell(bank: Bank, index: nat, tapCell: Option<Cell>): Bank {
    var b := WithRow(bank, index);
    b.(rows := b.rows[index := b.rows[index].(tapCell := tapCell)])
  }

  /** Moves the origin of the first row; the others keep their positions relative to it. */
  function MoveBank(bank: Bank, p: Point): (b: Bank)
    ensures |b.rows| == |bank.rows|
  {
    if bank.rows == [] then bank
    else
      var first := bank.rows[0].origin;
      bank.(rows := seq(|bank.rows|, k requires 0 <= k < |bank.rows| =>
        var row := bank.rows[k];
        MoveTo(row, Point(p.x + row.origin.x - first.x, p.y + row.origin.y - first.y))))
  }

  // ---- the shape of rows of one cell height ---------------------------------------

  /** All boxes have one height and sit on the origin's line, the first at the origin. */
  ghost predicate Shaped(row: Row) {
    && Abutting(row.boxes)
    && (row.boxes != [] ==> row.boxes[0].x == row.origin.x)
    && forall k | 0 <= k < |row.boxes| :: row.boxes[k].y == row.origin.y && row.boxes[k].height == row.boxes[0].height
  }

  /** A cell (and the tap it may bring) of the one height that this row has. */
  ghost predicate FitsRow(row: Row, cell: Cell) {
    && (row.boxes != [] ==> row.boxes[0].height == cell.height)
    && (row.tapCell.Some? ==> row.tapCell.value.height == cell.height)
  }

  lemma {:induction false} ShapedHeight(boxes: seq<Box>)
    requires forall k | 0 <= k < |boxes| :: boxes[k].height == boxes[0].height
    ensures MaxHeight(boxes) == if boxes == [] then 0 else boxes[0].height
  {
    if |boxes| > 1 {
      ShapedHeight(boxes[..|boxes| - 1]);
    }
  }

  lemma ShapedCorners(row: Row)
    requires Shaped(row)
    ensures LowerLeft(row) == row.origin
    ensures LowerRight(row).y == row.origin.y && LowerRight(row).x == row.origin.x + TotalWidth(row.boxes)
    ensures UpperLeft(row).y == row.origin.y + MaxHeight(row.boxes)
  {
    ShapedHeight(row.boxes);
    WidthIsSpan(row.boxes);
  }

  lemma {:induction false} WidthIsSpan(boxes: seq<Box>)
    requires Abutting(boxes)
    ensures boxes != [] ==> boxes[|boxes| - 1].Right() == boxes[0].x + TotalWidth(boxes)
  {
    if |boxes| > 1 {
      WidthIsSpan(boxes[..|boxes| - 1]);
    } else if |boxes| == 1 {
      assert boxes[..0] == [];
    }
  }

  lemma MoveKeepsShaped(row: Row, p: Point)
    requires Shaped(row)
    ensures Shaped(MoveTo(row, p)) && MoveTo(row, p).origin == p
    ensures MaxHeight(MoveTo(row, p).boxes) == MaxHeight(row.boxes)
    ensures TotalWidth(MoveTo(row, p).boxes) == TotalWidth(row.boxes)
  {
    MovedSums(row.boxes, p.x - row.origin.x, p.y - row.origin.y);
  }

  lemma BackKeepsShaped(row: Row, cell: Cell)
    requires Shaped(row) && FitsRow(row, cell)
    ensures Shaped(InstantiateBack(row, cell)) && InstantiateBack(row, cell).origin == row.origin
  {
    var middle := MaybeTapRight(row, cell.width);
    assert Shaped(middle) && FitsRow(middle, cell);
  }

  lemma FrontPlacedShape(row: Row, cell: Cell)
    requires Shaped(row) && FitsRow(row, cell)
    ensures
      var placed := InstantiateFront(row, cell);
      && Abutting(placed.boxes) && placed.origin == row.origin && placed.boxes != []
      && forall k | 0 <= k < |placed.boxes| :: placed.boxes[k].y == row.origin.y && placed.boxes[k].height == cell.height
  {
    var middle := MaybeTapLeft(row, cell.width);
    assert forall k | 0 <= k < |middle.boxes| :: middle.boxes[k].y == row.origin.y && middle.boxes[k].height == cell.height;
  }

  lemma InsertFrontKeepsShaped(row: Row, cell: Cell)
    requires Shaped(row) && FitsRow(row, cell)
    ensures Shaped(InstantiateAndInsertFront(row, cell))
    ensures InstantiateAndInsertFront(row, cell).origin == row.origin
  {
    hide InstantiateFront;
    FrontPlacedShape(row, cell);
  }

  // ---- stacking -----------------------------------------------------------------------

  ghost predicate AllShaped(rows: seq<Row>) {
    forall k | 0 <= k < |rows| :: Shaped(rows[k])
  }

  /** The height of the first `n` rows together. */
  function HeightBelow(rows: seq<Row>, n: nat): nat
    requires n <= |rows|
  {
    if n == 0 then 0 else HeightBelow(rows, n - 1) + MaxHeight(rows[n - 1].boxes)
  }

  /** Every row sits exactly on the rows below it, the first at `y`. */
  ghost predicate StackedFrom(rows: seq<Row>, y: int) {
    forall k {:trigger rows[k].origin} | 0 <= k < |rows| :: rows[k].origin.y == y + HeightBelow(rows, k)
  }

  /** Rows that have cells are apart, in order. */
  ghost predicate RowsApart(rows: seq<Row>) {
    forall j, k | 0 <= j < k < |rows| && rows[j].boxes != [] && rows[k].boxes != [] ::
      rows[j].origin.y + MaxHeight(rows[j].boxes) <= rows[k].origin.y
  }

  lemma {:induction false} HeightBelowTail(rows: seq<Row>, n: nat)
    requires 0 < n <= |rows|
    ensures HeightBelow(rows, n) == MaxHeight(rows[0].boxes) + HeightBelow(rows[1..], n - 1)
  {
    if n > 1 {
      HeightBelowTail(rows, n - 1);
    }
  }

  lemma {:induction false} HeightBelowSame(a: seq<Row>, b: seq<Row>, n: nat)
    requires n <= |a| == |b|
    requires forall k | 0 <= k < |a| :: MaxHeight(a[k].boxes) == MaxHeight(b[k].boxes)
    ensures HeightBelow(a, n) == HeightBelow(b, n)
  {
    if n > 0 {
      HeightBelowSame(a, b, n - 1);
    }
  }

  lemma {:induction false} HeightBelowMonotone(rows: seq<Row>, j: nat, k: nat)
    requires j <= k <= |rows|
    ensures HeightBelow(rows, j) <= HeightBelow(rows, k)
  {
    if j < k {
      HeightBelowMonotone(rows, j, k - 1);
    }
  }

  lemma StackedRowsApart(rows: seq<Row>, y: int)
    requires StackedFrom(rows, y)
    ensures RowsApart(rows)
  {
    forall j, k | 0 <= j < k < |rows| ensures rows[j].origin.y + MaxHeight(rows[j].boxes) <= rows[k].origin.y {
      HeightBelowMonotone(rows, j + 1, k);
      assert HeightBelow(rows, j + 1) == HeightBelow(rows, j) + MaxHeight(rows[j].boxes);
    }
  }

  /** `after` is `before` with every row moved as a whole. */
  ghost predicate MovedRigidly(before: seq<Row>, after: seq<Row>) {
    && |after| == |before|
    && forall k | 0 <= k < |before| :: after[k] == MoveTo(before[k], after[k].origin)
  }

  /** Abutment moves each row rigidly, only up or down, and stacks the rows exactly. */
  lemma {:induction false} AbuttedStacks(rows: seq<Row>, y: int)
    requires AllShaped(rows)
    ensures AllShaped(Abutted(rows, y)) && StackedFrom(Abutted(rows, y), y)
    ensures MovedRigidly(rows, Abutted(rows, y))
    ensures forall k | 0 <= k < |rows| :: Abutted(rows, y)[k].origin.x == rows[k].origin.x
  {
    if rows != [] {
      var after := Abutted(rows, y);
      MoveKeepsShaped(rows[0], Point(rows[0].origin.x, y));
      ShapedCorners(after[0]);
      var next := y + MaxHeight(after[0].boxes);
      AbuttedStacks(rows[1..], next);
      assert after[1..] == Abutted(rows[1..], next);
      forall k | 0 <= k < |rows|
        ensures Shaped(after[k]) && after[k] == MoveTo(rows[k], after[k].origin)
        ensures after[k].origin.x == rows[k].origin.x && after[k].origin.y == y + HeightBelow(after, k)
      {
        if k > 0 {
          assert after[k] == after[1..][k - 1] && rows[k] == rows[1..][k - 1];
          HeightBelowTail(after, k);
        }
      }
    }
  }

  lemma {:induction false} LeftMostBounds(rows: seq<Row>)
    ensures LeftMost(rows) <= 0
    ensures forall k | 0 <= k < |rows| :: LeftMost(rows) <= LowerLeft(rows[k]).x
    ensures LeftMost(rows) == 0 || exists k | 0 <= k < |rows| :: LeftMost(rows) == LowerLeft(rows[k]).x
  {
    if rows != [] {
      LeftMostBounds(rows[..|rows| - 1]);
    }
  }

  lemma {:induction false} RightMostBounds(rows: seq<Row>)
    ensures RightMost(rows) >= 0
    ensures forall k | 0 <= k < |rows| :: RightMost(rows) >= LowerRight(rows[k]).x
    ensures RightMost(rows) == 0 || exists k | 0 <= k < |rows| :: RightMost(rows) == LowerRight(rows[k]).x
  {
    if rows != [] {
      RightMostBounds(rows[..|rows| - 1]);
    }
  }

  /** Alignment moves each row rigidly and only sideways. */
  lemma AlignedStays(rows: seq<Row>, aligned: seq<Row>, y: int)
    requires AllShaped(rows) && StackedFrom(rows, y)
    requires aligned == LeftAligned(rows) || aligned == RightAligned(rows)
    ensures AllShaped(aligned) && StackedFrom(aligned, y) && MovedRigidly(rows, aligned)
  {
    forall k | 0 <= k < |rows|
      ensures Shaped(aligned[k]) && aligned[k] == MoveTo(rows[k], aligned[k].origin)
      ensures aligned[k].origin.y == rows[k].origin.y
      ensures MaxHeight(aligned[k].boxes) == MaxHeight(rows[k].boxes)
    {
      ShapedCorners(rows[k]);
      MoveKeepsShaped(rows[k], aligned[k].origin);
    }
    forall k | 0 <= k < |rows| ensures aligned[k].origin.y == y + HeightBelow(aligned, k) {
      HeightBelowSame(aligned, rows, k);
    }
  }

  lemma MovedTwice(row: Row, p: Point, q: Point)
    ensures MoveTo(MoveTo(row, p), q) == MoveTo(row, q)
  {
    assert MoveTo(MoveTo(row, p), q).boxes == MoveTo(row, q).boxes;
  }

  /** All rows end at their left (or right) edge on one line. */
  ghost predicate Aligned(bank: Bank) {
    match bank.alignment
    case None => true
    case Some(LeftSide) => forall k | 0 <= k < |bank.rows| :: LowerLeft(bank.rows[k]).x == LeftMost(bank.rows)
    case Some(RightSide) => forall k | 0 <= k < |bank.rows| :: LowerRight(bank.rows[k]).x == RightMost(bank.rows)
  }

  lemma LeftAlignedIsAligned(rows: seq<Row>)
    requires AllShaped(rows)
    ensures forall k | 0 <= k < |rows| :: LowerLeft(LeftAligned(rows)[k]).x == LeftMost(LeftAligned(rows)) == LeftMost(rows)
  {
    var after := LeftAligned(rows);
    LeftMostBounds(rows);
    LeftMostBounds(after);
    forall k | 0 <= k < |rows| ensures LowerLeft(after[k]).x == LeftMost(rows) {
      ShapedCorners(rows[k]);
      MoveKeepsShaped(rows[k], after[k].origin);
      ShapedCorners(after[k]);
    }
  }

  lemma RightAlignedIsAligned(rows: seq<Row>)
    requires AllShaped(rows)
    ensures forall k | 0 <= k < |rows| :: LowerRight(RightAligned(rows)[k]).x == RightMost(RightAligned(rows)) == RightMost(rows)
  {
    var after := RightAligned(rows);
    RightMostBounds(rows);
    RightMostBounds(after);
    forall k | 0 <= k < |rows| ensures LowerRight(after[k]).x == RightMost(rows) {
      ShapedCorners(rows[k]);
      MoveKeepsShaped(rows[k], after[k].origin);
      ShapedCorners(after[k]);
    }
  }

  /**
   * Re-alignment moves every row as a whole, after which the rows are stacked
   * exactly from the origin of the first and aligned on the bank's side.
   */
  lemma FixAlignmentsStacks(bank: Bank)
    requires AllShaped(bank.rows) && bank.rows != []
    ensures
      var fixed := FixAlignments(bank);
      && AllShaped(fixed.rows) && MovedRigidly(bank.rows, fixed.rows)
      && StackedFrom(fixed.rows, bank.rows[0].origin.y)
      && fixed.rows[0].origin.y == bank.rows[0].origin.y
      && Aligned(fixed)
  {
    var y := bank.rows[0].origin.y;
    var stacked, fixed := Abutted(bank.rows, y), FixAlignments(bank);
    AbuttedStacks(bank.rows, y);
    if bank.alignment.Some? {
      AlignedStays(stacked, fixed.rows, y);
      forall k | 0 <= k < |bank.rows| ensures fixed.rows[k] == MoveTo(bank.rows[k], fixed.rows[k].origin) {
        MovedTwice(bank.rows[k], stacked[k].origin, fixed.rows[k].origin);
      }
      LeftAlignedIsAligned(stacked);
      RightAlignedIsAligned(stacked);
    }
  }

  lemma TailStacked(rows: seq<Row>, y: int)
    requires rows != [] && StackedFrom(rows, y)
    ensures rows[0].origin.y == y
    ensures StackedFrom(rows[1..], y + MaxHeight(rows[0].boxes))
  {
    hide MaxHeight;
    forall k | 0 <= k < |rows[1..]|
      ensures rows[1..][k].origin.y == y + MaxHeight(rows[0].boxes) + HeightBelow(rows[1..], k)
    {
      HeightBelowTail(rows, k + 1);
    }
  }

  lemma {:induction false} AbuttedAgain(rows: seq<Row>, y: int)
    requires AllShaped(rows) && StackedFrom(rows, y)
    ensures Abutted(rows, y) == rows
  {
    hide Shaped, MoveTo, MaxHeight, LowerLeft, StackedFrom;
    if rows != [] {
      TailStacked(rows, y);
      MovedNowhere(rows[0]);
      ShapedCorners(rows[0]);
      AbuttedAgain(rows[1..], y + MaxHeight(rows[0].boxes));
    }
  }

  lemma MovedNowhere(row: Row)
    ensures MoveTo(row, row.origin) == row
  {
    assert Moved(row.boxes, 0, 0) == row.boxes;
  }

  lemma AlignedAgain(bank: Bank)
    requires Aligned(bank)
    ensures bank.alignment == Some(LeftSide) ==> LeftAligned(bank.rows) == bank.rows
    ensures bank.alignment == Some(RightSide) ==> RightAligned(bank.rows) == bank.rows
  {
    forall k | 0 <= k < |bank.rows| ensures MoveTo(bank.rows[k], bank.rows[k].origin) == bank.rows[k] {
      MovedNowhere(bank.rows[k]);
    }
  }

  /** Re-aligning twice is re-aligning once. */
  lemma FixAlignmentsIdempotent(bank: Bank)
    requires AllShaped(bank.rows)
    ensures FixAlignments(FixAlignments(bank)) == FixAlignments(bank)
  {
    if bank.rows != [] {
      FixAlignmentsStacks(bank);
      StackedAlignedIsFixed(FixAlignments(bank));
    }
  }

  lemma StackedAlignedIsFixed(bank: Bank)
    requires AllShaped(bank.rows) && bank.rows != []
    requires StackedFrom(bank.rows, bank.rows[0].origin.y) && Aligned(bank)
    ensures FixAlignments(bank) == bank
  {
    hide Shaped, Abutted, LeftAligned, RightAligned, StackedFrom, Aligned;
    AbuttedAgain(bank.rows, bank.rows[0].origin.y);
    AlignedAgain(bank);
  }

  // ---- every sequence of operations ----------------------------------------------------

  datatype Op =
    | PutRight(index: nat, cell: Cell)
    | PutLeft(index: nat, cell: Cell)
    | PutInside(index: nat, cell: Cell)
    | MakeRow(index: nat)
    | AddRowZero
    | SetTap(index: nat, tapCell: Option<Cell>)
    | MoveAll(to: Point)

  function Apply(bank: Bank, op: Op): Bank {
    match op
    case PutRight(index, cell) => InstantiateRight(bank, index, cell)
    case PutLeft(index, cell) => InstantiateLeft(bank, index, cell)
    case PutInside(index, cell) => InstantiateInside(bank, index, cell)
    case MakeRow(index) => WithRow(bank, index)
    case AddRowZero => InsertRowZero(bank)
    case SetTap(index, tapCell) => SetRowTapCell(bank, index, tapCell)
    case MoveAll(to) => MoveBank(bank, to)
  }

  function Run(bank: Bank, ops: seq<Op>): Bank {
    if ops == [] then bank else Apply(Run(bank, ops[..|ops| - 1]), ops[|ops| - 1])
  }

  function EmptyBank(tapCell: Option<Cell>, rotateAlternateRows: bool, rotateFirstRow: bool, alignment: Option<Side>): Bank {
    Bank([], tapCell, rotateAlternateRows, rotateFirstRow, alignment)
  }

  /** The cell put into a row has the one height of that row, as has the tap it may bring. */
  ghost predicate OneHeightPerRow(bank: Bank, op: Op) {
    match op
    case PutRight(index, cell) => FitsRow(WithRow(bank, index).rows[index], cell)
    case PutLeft(index, cell) => FitsRow(WithRow(bank, index).rows[index], cell)
    case PutInside(index, cell) => FitsRow(WithRow(bank, index).rows[index], cell)
    case _ => true
  }

  ghost predicate RunHasOneHeightPerRow(bank: Bank, ops: seq<Op>) {
    ops == [] ||
    (RunHasOneHeightPerRow(bank, ops[..|ops| - 1]) && OneHeightPerRow(Run(bank, ops[..|ops| - 1]), ops[|ops| - 1]))
  }

  /** The invariant of a bank: rows of one cell height each, and apart from each other. */
  ghost predicate BankOk(bank: Bank) {
    AllShaped(bank.rows) && RowsApart(bank.rows)
  }

  lemma WithRowOk(bank: Bank, index: nat)
    requires BankOk(bank)
    ensures BankOk(WithRow(bank, index))
  {
    var after := WithRow(bank, index);
    forall k | 0 <= k < |after.rows| ensures Shaped(after.rows[k]) {
      if k < |bank.rows| { assert after.rows[k] == bank.rows[k]; }
    }
    forall j, k | 0 <= j < k < |after.rows| && after.rows[j].boxes != [] && after.rows[k].boxes != []
      ensures after.rows[j].origin.y + MaxHeight(after.rows[j].boxes) <= after.rows[k].origin.y
    {
      assert k < |bank.rows| && after.rows[j] == bank.rows[j] && after.rows[k] == bank.rows[k];
    }
  }

  lemma PutRightOk(bank: Bank, index: nat, cell: Cell)
    requires BankOk(bank) && FitsRow(WithRow(bank, index).rows[index], cell)
    ensures
      var after := InstantiateRight(bank, index, cell);
      BankOk(after) && after.rows != [] && StackedFrom(after.rows, WithRow(bank, index).rows[0].origin.y) && Aligned(after)
  {
    hide InstantiateBack, FixAlignments, Shaped;
    WithRowOk(bank, index);
    var b := WithRow(bank, index);
    BackKeepsShaped(b.rows[index], cell);
    var placed := b.(rows := b.rows[index := InstantiateBack(b.rows[index], cell)]);
    FixAlignmentsStacks(placed);
    StackedRowsApart(FixAlignments(placed).rows, placed.rows[0].origin.y);
  }

  lemma PutLeftOk(bank: Bank, index: nat, cell: Cell)
    requires BankOk(bank) && FitsRow(WithRow(bank, index).rows[index], cell)
    ensures
      var after := InstantiateLeft(bank, index, cell);
      BankOk(after) && after.rows != [] && StackedFrom(after.rows, WithRow(bank, index).rows[0].origin.y) && Aligned(after)
  {
    hide InstantiateAndInsertFront, FixAlignments, Shaped;
    WithRowOk(bank, index);
    var b := WithRow(bank, index);
    InsertFrontKeepsShaped(b.rows[index], cell);
    var placed := b.(rows := b.rows[index := InstantiateAndInsertFront(b.rows[index], cell)]);
    FixAlignmentsStacks(placed);
    StackedRowsApart(FixAlignments(placed).rows, placed.rows[0].origin.y);
  }

  lemma MoveBankOk(bank: Bank, p: Point)
    requires BankOk(bank)
    ensures BankOk(MoveBank(bank, p))
  {
    var after := MoveBank(bank, p);
    forall k | 0 <= k < |bank.rows|
      ensures Shaped(after.rows[k]) && MaxHeight(after.rows[k].boxes) == MaxHeight(bank.rows[k].boxes)
    {
      MoveKeepsShaped(bank.rows[k], after.rows[k].origin);
    }
  }

  lemma InsertRowZeroOk(bank: Bank)
    requires BankOk(bank)
    ensures BankOk(InsertRowZero(bank))
  {
    var after := InsertRowZero(bank);
    forall k | 0 < k < |after.rows| ensures after.rows[k] == bank.rows[k - 1] {}
  }

  lemma ApplyKeepsBankOk(bank: Bank, op: Op)
    requires BankOk(bank) && OneHeightPerRow(bank, op)
    ensures BankOk(Apply(bank, op))
  {
    match op
    case PutRight(index, cell) => PutRightOk(bank, index, cell);
    case PutLeft(index, cell) => PutLeftOk(bank, index, cell);
    case PutInside(index, cell) => PutRightOk(bank, index, cell); PutLeftOk(bank, index, cell);
    case MakeRow(index) => WithRowOk(bank, index);
    case AddRowZero => InsertRowZeroOk(bank);
    case SetTap(index, _) => WithRowOk(bank, index);
    case MoveAll(to) => MoveBankOk(bank, to);
  }

  lemma {:induction false} EveryRunKeepsBankOk(bank: Bank, ops: seq<Op>)
    requires bank.rows == [] && RunHasOneHeightPerRow(bank, ops)
    ensures BankOk(Run(bank, ops))
  {
    if ops != [] {
      EveryRunKeepsBankOk(bank, ops[..|ops| - 1]);
      ApplyKeepsBankOk(Run(bank, ops[..|ops| - 1]), ops[|ops| - 1]);
    }
  }

  /** Two boxes without a common point of their interiors. */
  predicate Disjoint(a: Box, b: Box) {
    a.Right() <= b.x || b.Right() <= a.x || a.Top() <= b.y || b.Top() <= a.y
  }

  // A bank without taps in which a short and a tall cell share the second row.
  const SHORT := Cell(10, 2)
  const TALL := Cell(10, 4)
  const MIXED_OPS := [PutRight(0, SHORT), PutRight(0, SHORT), PutRight(1, SHORT), PutRight(1, TALL)]

  function PlainRow(y: int, boxes: seq<Box>, width: int): Row {
    Row(Point(0, y), false, None, boxes, 0, width, width)
  }

  function PlainBank(rows: seq<Row>): Bank {
    EmptyBank(None, false, false, None).(rows := rows)
  }

  function PlainBox(x: int, y: int, height: nat): Box {
    Box(x, y, 10, height, false, false)
  }

  lemma PlainRowsStay(lower: Row, upper: seq<Row>)
    requires |upper| <= 1 && lower.boxes != [] && lower.origin == Point(0, 0) && lower.boxes[0].x == lower.boxes[0].y == 0
    requires |upper| == 1 ==> upper[0].origin.y == MaxHeight(lower.boxes)
    ensures FixAlignments(PlainBank([lower] + upper)) == PlainBank([lower] + upper)
  {
    var rows := [lower] + upper;
    MovedNowhere(lower);
    assert rows[1..] == upper;
    if |upper| == 1 {
      MovedNowhere(upper[0]);
      assert upper[1..] == [] && Abutted(upper, upper[0].origin.y) == [upper[0]] == upper;
    }
    assert Abutted(rows, 0) == rows;
  }

  lemma TwoShortCells(bank: Bank)
    requires bank == PlainBank([])
    ensures Apply(Apply(bank, MIXED_OPS[0]), MIXED_OPS[1]) ==
            PlainBank([PlainRow(0, [PlainBox(0, 0, 2), PlainBox(10, 0, 2)], 20)])
  {
    var one := PlainRow(0, [PlainBox(0, 0, 2)], 10);
    var two := PlainRow(0, [PlainBox(0, 0, 2), PlainBox(10, 0, 2)], 20);
    PlainRowsStay(one, []);
    PlainRowsStay(two, []);
    var empty := EmptyRow(Point(0, 0), false, None);
    assert WithRow(bank, 0).rows == [empty];
    assert InstantiateBack(empty, SHORT).boxes == one.boxes;
    assert [empty][0 := InstantiateBack(empty, SHORT)] == [one] + [];
    assert InstantiateBack(one, SHORT).boxes == two.boxes;
    assert [one][0 := InstantiateBack(one, SHORT)] == [two] + [];
  }

  lemma TallCellAfterShort(bank: Bank, lower: Row)
    requires lower == PlainRow(0, [PlainBox(0, 0, 2), PlainBox(10, 0, 2)], 20) && bank == PlainBank([lower])
    ensures Apply(Apply(bank, MIXED_OPS[2]), MIXED_OPS[3]) ==
            PlainBank([lower, PlainRow(2, [PlainBox(0, 2, 2), PlainBox(10, 1, 4)], 20)])
  {
    var one := PlainRow(2, [PlainBox(0, 2, 2)], 10);
    var two := PlainRow(2, [PlainBox(0, 2, 2), PlainBox(10, 1, 4)], 20);
    ShapedHeight(lower.boxes);
    PlainRowsStay(lower, [one]);
    PlainRowsStay(lower, [two]);
    var b := WithRow(bank, 1);
    var empty := EmptyRow(Point(0, 2), false, None);
    assert b.rows == [lower, empty];
    assert InstantiateBack(empty, SHORT).boxes == one.boxes;
    assert [lower, empty][1 := InstantiateBack(empty, SHORT)] == [lower] + [one];
    assert InstantiateBack(one, TALL).boxes == two.boxes;
    assert [lower, one][1 := InstantiateBack(one, TALL)] == [lower] + [two];
  }

  /**
   * A row with a short cell in front of a taller one, on a row of short cells
   * that leaves no slack: the taller cell reaches into the cell underneath.
   */
  lemma MixedHeightsOverlap()
    ensures
      var rows := Run(PlainBank([]), MIXED_OPS).rows;
      && |rows| == 2 && |rows[0].boxes| == |rows[1].boxes| == 2
      && !Disjoint(rows[0].boxes[1], rows[1].boxes[1])
  {
    hide Apply, Run;
    var bank := PlainBank([]);
    TwoShortCells(bank);
    var middle := Apply(Apply(bank, MIXED_OPS[0]), MIXED_OPS[1]);
    TallCellAfterShort(middle, middle.rows[0]);
    RunOfFour(bank, MIXED_OPS);
  }

  lemma RunOfFour(bank: Bank, ops: seq<Op>)
    requires |ops| == 4
    ensures Run(bank, ops) == Apply(Apply(Apply(Apply(bank, ops[0]), ops[1]), ops[2]), ops[3])
  {
    hide Apply;
    assert ops[..3][..2] == ops[..2] && ops[..2][..1] == ops[..1] && ops[..1][..0] == [];
    assert Run(bank, ops[..1]) == Apply(bank, ops[0]);
    assert Run(bank, ops[..2]) == Apply(Run(bank, ops[..1]), ops[1]);
    assert Run(bank, ops[..3]) == Apply(Run(bank, ops[..2]), ops[2]);
  }

  // ---- the covering box ---------------------------------------------------------------------

  /** The least rectangle around all rows that have cells. */
  function Covering(rows: seq<Row>): Option<Rect> {
    if rows == [] then None
    else
      var before, last := Covering(rows[..|rows| - 1]), rows[|rows| - 1];
      if last.boxes == [] then before
      else if before.None? then Some(TilingBounds(last.boxes))
      else Some(before.value.Covering(TilingBounds(last.boxes)))
  }

  ghost predicate HasCells(rows: seq<Row>) {
    exists k | 0 <= k < |rows| :: rows[k].boxes != []
  }

  /** The bounds of a row of one cell height, seen from its origin. */
  lemma ShapedBounds(row: Row)
    requires Shaped(row) && row.boxes != []
    ensures TilingBounds(row.boxes) ==
            Rect(row.origin.x, row.origin.y, row.origin.x + TotalWidth(row.boxes), row.origin.y + MaxHeight(row.boxes))
  {
    WidthIsTilingWidth(row.boxes);
    HeightIsTilingHeight(row.boxes);
    ShapedHeight(row.boxes);
  }

  lemma {:induction false} CoveringIsExtent(rows: seq<Row>)
    requires AllShaped(rows)
    ensures Covering(rows).Some? <==> HasCells(rows)
    ensures Covering(rows).Some? ==> CoveringExtent(rows, Covering(rows).value.bottom, Covering(rows).value.top)
  {
    if rows != [] {
      var front, last := rows[..|rows| - 1], rows[|rows| - 1];
      CoveringIsExtent(front);
      if last.boxes != [] {
        ShapedBounds(last);
      }
      forall k | 0 <= k < |front| ensures front[k] == rows[k] {}
    }
  }

  /** The lowest bottom and the highest top over the rows that have cells. */
  ghost predicate CoveringExtent(rows: seq<Row>, bottom: int, top: int) {
    && (forall k {:trigger rows[k].origin} | 0 <= k < |rows| && rows[k].boxes != [] ::
          bottom <= rows[k].origin.y && rows[k].origin.y + MaxHeight(rows[k].boxes) <= top)
    && (exists k | 0 <= k < |rows| && rows[k].boxes != [] :: rows[k].origin.y == bottom)
    && (exists k | 0 <= k < |rows| && rows[k].boxes != [] :: rows[k].origin.y + MaxHeight(rows[k].boxes) == top)
  }

  lemma {:induction false} NothingBelow(rows: seq<Row>, n: nat)
    requires n <= |rows| && forall k | 0 <= k < n :: rows[k].boxes == []
    ensures HeightBelow(rows, n) == 0
  {
    if n > 0 {
      NothingBelow(rows, n - 1);
    }
  }

  lemma {:induction false} NothingAbove(rows: seq<Row>, n: nat)
    requires n <= |rows| && forall k | n <= k < |rows| :: rows[k].boxes == []
    ensures HeightBelow(rows, n) == HeightBelow(rows, |rows|)
    decreases |rows| - n
  {
    if n < |rows| {
      NothingAbove(rows, n + 1);
    }
  }

  /** Stacked rows cover exactly the sum of their heights. */
  lemma CoveringHeightIsSum(rows: seq<Row>, y: int, bottom: int, top: int)
    requires StackedFrom(rows, y) && CoveringExtent(rows, bottom, top)
    ensures top - bottom == HeightBelow(rows, |rows|)
  {
    var first :| 0 <= first < |rows| && rows[first].boxes != [] && rows[first].origin.y == bottom;
    var last :| 0 <= last < |rows| && rows[last].boxes != [] && rows[last].origin.y + MaxHeight(rows[last].boxes) == top;
    FirstCells(rows, y, bottom, first);
    LastCells(rows, y, top, last);
  }

  lemma HeightBelowStep(rows: seq<Row>, n: nat)
    requires n < |rows|
    ensures HeightBelow(rows, n + 1) == HeightBelow(rows, n) + MaxHeight(rows[n].boxes)
  {
  }

  lemma {:induction false} HeightBelowZero(rows: seq<Row>, y: int, bottom: int, n: nat)
    requires n <= |rows| && StackedFrom(rows, y)
    requires forall k {:trigger rows[k].origin} | 0 <= k < |rows| && rows[k].boxes != [] :: bottom <= rows[k].origin.y
    requires y + HeightBelow(rows, n) <= bottom
    ensures HeightBelow(rows, n) == 0
  {
    hide HeightBelow, MaxHeight;
    if n == 0 {
      NothingBelow(rows, 0);
    } else {
      HeightBelowStep(rows, n - 1);
      HeightBelowZero(rows, y, bottom, n - 1);
      if rows[n - 1].boxes == [] {
        ShapedHeight(rows[n - 1].boxes);
      } else {
        assert bottom <= rows[n - 1].origin.y == y;
      }
    }
  }

  lemma FirstCells(rows: seq<Row>, y: int, bottom: int, first: nat)
    requires first < |rows| && StackedFrom(rows, y) && rows[first].origin.y == bottom
    requires forall k {:trigger rows[k].origin} | 0 <= k < |rows| && rows[k].boxes != [] :: bottom <= rows[k].origin.y
    ensures bottom == y
  {
    HeightBelowZero(rows, y, bottom, first);
  }

  lemma {:induction false} LastCells(rows: seq<Row>, y: int, top: int, last: nat)
    requires last < |rows| && StackedFrom(rows, y) && rows[last].origin.y + MaxHeight(rows[last].boxes) == top
    requires forall k {:trigger rows[k].origin} | 0 <= k < |rows| && rows[k].boxes != [] ::
        rows[k].origin.y + MaxHeight(rows[k].boxes) <= top
    ensures top == y + HeightBelow(rows, |rows|)
  {
    NoHeightAbove(rows, y, top, last + 1, |rows|);
  }

  lemma {:induction false} NoHeightAbove(rows: seq<Row>, y: int, top: int, n: nat, m: nat)
    requires n <= m <= |rows| && StackedFrom(rows, y) && y + HeightBelow(rows, n) == top
    requires forall k {:trigger rows[k].origin} | 0 <= k < |rows| && rows[k].boxes != [] ::
        rows[k].origin.y + MaxHeight(rows[k].boxes) <= top
    ensures HeightBelow(rows, m) == HeightBelow(rows, n)
  {
    hide HeightBelow, MaxHeight;
    if n < m {
      NoHeightAbove(rows, y, top, n, m - 1);
      HeightBelowStep(rows, m - 1);
      if rows[m - 1].boxes == [] {
        ShapedHeight(rows[m - 1].boxes);
      } else {
        assert rows[m - 1].origin.y == y + HeightBelow(rows, m - 1);
      }
    }
  }

  lemma PutHasCells(bank: Bank, index: nat, cell: Cell)
    requires BankOk(bank) && FitsRow(WithRow(bank, index).rows[index], cell)
    ensures HasCells(InstantiateRight(bank, index, cell).rows) && HasCells(InstantiateLeft(bank, index, cell).rows)
  {
    hide InstantiateBack, InstantiateAndInsertFront, FixAlignments, Shaped, FitsRow;
    WithRowOk(bank, index);
    var b := WithRow(bank, index);
    BackKeepsShaped(b.rows[index], cell);
    InsertFrontKeepsShaped(b.rows[index], cell);
    PlacedNotEmpty(b.rows[index], cell);
    var right := b.(rows := b.rows[index := InstantiateBack(b.rows[index], cell)]);
    var left := b.(rows := b.rows[index := InstantiateAndInsertFront(b.rows[index], cell)]);
    FixAlignmentsStacks(right);
    FixAlignmentsStacks(left);
    assert FixAlignments(right).rows[index].boxes != [];
    assert FixAlignments(left).rows[index].boxes != [];
  }

  lemma PlacedNotEmpty(row: Row, cell: Cell)
    ensures InstantiateBack(row, cell).boxes != [] && InstantiateAndInsertFront(row, cell).boxes != []
  {
  }

  /**
   * After each placement of a run the rows are stacked exactly and aligned,
   * and the bank covers exactly the sum of the heights of its rows.
   */
  lemma PlacementCoversSumOfHeights(bank: Bank, ops: seq<Op>, index: nat, cell: Cell, left: bool)
    requires bank.rows == [] && RunHasOneHeightPerRow(bank, ops)
    requires OneHeightPerRow(Run(bank, ops), PutRight(index, cell))
    ensures
      var after := Apply(Run(bank, ops), if left then PutLeft(index, cell) else PutRight(index, cell));
      && (exists y :: StackedFrom(after.rows, y)) && Aligned(after)
      && Covering(after.rows).Some?
      && Covering(after.rows).value.Height() == HeightBelow(after.rows, |after.rows|)
  {
    hide InstantiateRight, InstantiateLeft, StackedFrom, Aligned, CoveringExtent, FitsRow, Covering;
    var before := Run(bank, ops);
    EveryRunKeepsBankOk(bank, ops);
    PutRightOk(before, index, cell);
    PutLeftOk(before, index, cell);
    PutHasCells(before, index, cell);
    var after := Apply(before, if left then PutLeft(index, cell) else PutRight(index, cell));
    CoveringIsExtent(after.rows);
    CoveringHeightIsSum(after.rows, WithRow(before, index).rows[0].origin.y,
                        Covering(after.rows).value.bottom, Covering(after.rows).value.top);
  }
}
