// The value of a row of cells, and what each placement makes of it
// (src/row_guide.cc). An instance is its tiling box; rows have no blank space.

module Rows {
  import opened Basics

  // max_tap_distance_, fixed by the constructor (src/row_guide.h:48).
  const MAX_TAP_DISTANCE: int := 15000

  datatype Point = Point(x: int, y: int)

  // The tiling bounds of a template layout.
  datatype Cell = Cell(width: nat, height: nat)

  datatype Box = Box(x: int, y: int, width: nat, height: nat, rotated: bool, tap: bool)
  {
    function MidY(): int { y + height / 2 }

    function Right(): int { x + width }

    function Top(): int { y + height }

    function Moved(dx: int, dy: int): Box { this.(x := x + dx, y := y + dy) }
  }

  datatype Row = Row(
    origin: Point,
    rotate: bool,
    tapCell: Option<Cell>,
    boxes: seq<Box>,
    numTaps: nat,
    distanceLeft: int,
    distanceRight: int)

  function EmptyRow(origin: Point, rotate: bool, tapCell: Option<Cell>): Row {
    Row(origin, rotate, tapCell, [], 0, 0, 0)
  }

  // ---- placement ----------------------------------------------------------

  predicate NeedsTap(row: Row, distance: int, span: nat) {
    row.tapCell.Some? && (row.numTaps == 0 || distance + span > MAX_TAP_DISTANCE)
  }

  /** Where a cell goes to the left of the row, vertically centred on the first box. */
  function NextPointLeft(row: Row, cell: Cell): Point {
    if row.boxes == [] then row.origin
    else Point(row.boxes[0].x - cell.width, row.boxes[0].MidY() - cell.height / 2)
  }

  function NextPointRight(row: Row, cell: Cell): Point {
    if row.boxes == [] then row.origin
    else var last := row.boxes[|row.boxes| - 1]; Point(last.Right(), last.MidY() - cell.height / 2)
  }

  function BoxAt(row: Row, p: Point, cell: Cell, tap: bool): Box {
    Box(p.x, p.y, cell.width, cell.height, row.rotate, tap)
  }

  function MaybeTapLeft(row: Row, span: nat): Row {
    if !NeedsTap(row, row.distanceLeft, span) then row
    else
      var tap := BoxAt(row, NextPointLeft(row, row.tapCell.value), row.tapCell.value, true);
      row.(boxes := [tap] + row.boxes, numTaps := row.numTaps + 1, distanceLeft := 0)
  }

  function MaybeTapRight(row: Row, span: nat): Row {
    if !NeedsTap(row, row.distanceRight, span) then row
    else
      var tap := BoxAt(row, NextPointRight(row, row.tapCell.value), row.tapCell.value, true);
      row.(boxes := row.boxes + [tap], numTaps := row.numTaps + 1, distanceRight := 0)
  }

  function PlaceLeft(row: Row, cell: Cell): Row {
    var box := BoxAt(row, NextPointLeft(row, cell), cell, false);
    row.(boxes := [box] + row.boxes,
         distanceLeft := row.distanceLeft + cell.width,
         distanceRight := if row.numTaps == 0 then row.distanceRight + cell.width else row.distanceRight)
  }

  function PlaceRight(row: Row, cell: Cell): Row {
    var box := BoxAt(row, NextPointRight(row, cell), cell, false);
    row.(boxes := row.boxes + [box],
         distanceRight := row.distanceRight + cell.width,
         distanceLeft := if row.numTaps == 0 then row.distanceLeft + cell.width else row.distanceLeft)
  }

  function Moved(boxes: seq<Box>, dx: int, dy: int): (r: seq<Box>)
    ensures |r| == |boxes| && forall k | 0 <= k < |boxes| :: r[k] == boxes[k].Moved(dx, dy)
  {
    seq(|boxes|, k requires 0 <= k < |boxes| => boxes[k].Moved(dx, dy))
  }

  function InstantiateBack(row: Row, cell: Cell): Row {
    PlaceRight(MaybeTapRight(row, cell.width), cell)
  }

  function InstantiateFront(row: Row, cell: Cell): Row {
    PlaceLeft(MaybeTapLeft(row, cell.width), cell)
  }

  function LeftEdge(row: Row): int {
    if row.boxes == [] then row.origin.x else row.boxes[0].x
  }

  function InstantiateAndInsertFront(row: Row, cell: Cell): Row {
    var placed := InstantiateFront(row, cell);
    placed.(boxes := Moved(placed.boxes, LeftEdge(row) - LeftEdge(placed), 0))
  }

  function MoveTo(row: Row, p: Point): Row {
    row.(origin := p, boxes := Moved(row.boxes, p.x - row.origin.x, p.y - row.origin.y))
  }

  // ---- corners and extents -------------------------------------------------

  function Min(a: int, b: int): int { if a <= b then a else b }

  function Max(a: int, b: int): int { if a >= b then a else b }

  function LowerLeft(row: Row): Point {
    if row.boxes == [] then row.origin
    else Point(Min(row.boxes[0].x, row.origin.x), row.boxes[0].y)
  }

  function LowerRight(row: Row): Point {
    if row.boxes == [] then row.origin
    else var last := row.boxes[|row.boxes| - 1]; Point(Max(last.Right(), row.origin.x), last.y)
  }

  function UpperLeft(row: Row): Point {
    if row.boxes == [] then row.origin
    else Point(Min(row.boxes[0].x, row.origin.x), row.boxes[0].Top())
  }

  function MoveLowerLeft(row: Row, p: Point): Row {
    MoveTo(row, Point(p.x + row.origin.x - LowerLeft(row).x, p.y + row.origin.y - LowerLeft(row).y))
  }

  function MoveLowerRight(row: Row, p: Point): Row {
    MoveTo(row, Point(p.x + row.origin.x - LowerRight(row).x, p.y + row.origin.y - LowerRight(row).y))
  }

  /** The corner gets to the point, whether the origin or a box makes it. */
  lemma MovedCornerArrives(row: Row, p: Point)
    ensures LowerLeft(MoveLowerLeft(row, p)) == p
    ensures LowerRight(MoveLowerRight(row, p)) == p
  {
  }

  /** The total width of some boxes. */
  function TotalWidth(boxes: seq<Box>): nat {
    if boxes == [] then 0 else TotalWidth(boxes[..|boxes| - 1]) + boxes[|boxes| - 1].width
  }

  /** The greatest height among some boxes. */
  function MaxHeight(boxes: seq<Box>): nat {
    if boxes == [] then 0
    else
      var before, h := MaxHeight(boxes[..|boxes| - 1]), boxes[|boxes| - 1].height;
      if before >= h then before else h
  }

  function CountTaps(boxes: seq<Box>): nat {
    if boxes == [] then 0
    else CountTaps(boxes[..|boxes| - 1]) + if boxes[|boxes| - 1].tap then 1 else 0
  }

  /** The width of the cells before the first tap; of all cells if there is no tap. */
  function WidthBeforeFirstTap(boxes: seq<Box>): nat {
    if boxes == [] || boxes[0].tap then 0 else boxes[0].width + WidthBeforeFirstTap(boxes[1..])
  }

  /** The width of the cells after the last tap; of all cells if there is no tap. */
  function WidthAfterLastTap(boxes: seq<Box>): nat {
    if boxes == [] || boxes[|boxes| - 1].tap then 0
    else WidthAfterLastTap(boxes[..|boxes| - 1]) + boxes[|boxes| - 1].width
  }

  // ---- what every row keeps ------------------------------------------------

  /** Each box starts where the one before it ends. */
  ghost predicate Abutting(boxes: seq<Box>) {
    forall k | 0 < k < |boxes| :: boxes[k].x == boxes[k - 1].Right()
  }

  /** All boxes share one integer mid-line, although halving heights truncates. */
  ghost predicate Centred(boxes: seq<Box>) {
    forall j, k | 0 <= j < |boxes| && 0 <= k < |boxes| :: boxes[j].MidY() == boxes[k].MidY()
  }

  /** The cached counters say what a count over the boxes would. */
  ghost predicate CountersRight(row: Row) {
    && row.numTaps == CountTaps(row.boxes)
    && row.distanceLeft == WidthBeforeFirstTap(row.boxes)
    && row.distanceRight == WidthAfterLastTap(row.boxes)
  }

  ghost predicate RowOk(row: Row) {
    Abutting(row.boxes) && Centred(row.boxes) && CountersRight(row)
  }

  /** No stretch of cells without a tap is wider than the limit. */
  ghost predicate TapRunsBounded(boxes: seq<Box>) {
    forall i, j | 0 <= i <= j <= |boxes| && CountTaps(boxes[i..j]) == 0 :: TotalWidth(boxes[i..j]) <= MAX_TAP_DISTANCE
  }

  // ---- counting over a longer row -------------------------------------------

  lemma {:induction false} FrontSums(b: Box, boxes: seq<Box>)
    ensures TotalWidth([b] + boxes) == b.width + TotalWidth(boxes)
    ensures CountTaps([b] + boxes) == (if b.tap then 1 else 0) + CountTaps(boxes)
    ensures WidthAfterLastTap([b] + boxes) ==
            WidthAfterLastTap(boxes) + if CountTaps(boxes) == 0 && !b.tap then b.width else 0
    ensures MaxHeight([b] + boxes) == Max(b.height, MaxHeight(boxes))
  {
    var all := [b] + boxes;
    if boxes != [] {
      assert all[..|all| - 1] == [b] + boxes[..|boxes| - 1];
      FrontSums(b, boxes[..|boxes| - 1]);
    }
  }

  lemma {:induction false} BackSums(boxes: seq<Box>, b: Box)
    ensures TotalWidth(boxes + [b]) == TotalWidth(boxes) + b.width
    ensures CountTaps(boxes + [b]) == CountTaps(boxes) + if b.tap then 1 else 0
    ensures WidthBeforeFirstTap(boxes + [b]) ==
            WidthBeforeFirstTap(boxes) + if CountTaps(boxes) == 0 && !b.tap then b.width else 0
  {
    var all := boxes + [b];
    assert all[..|all| - 1] == boxes;
    if boxes != [] {
      assert all[1..] == boxes[1..] + [b];
      BackSums(boxes[1..], b);
      assert [boxes[0]] + boxes[1..] == boxes;
      FrontSums(boxes[0], boxes[1..]);
    }
  }

  /** Moving boxes changes where they are and nothing that is counted. */
  lemma {:induction false} MovedSums(boxes: seq<Box>, dx: int, dy: int)
    ensures TotalWidth(Moved(boxes, dx, dy)) == TotalWidth(boxes)
    ensures CountTaps(Moved(boxes, dx, dy)) == CountTaps(boxes)
    ensures WidthAfterLastTap(Moved(boxes, dx, dy)) == WidthAfterLastTap(boxes)
    ensures MaxHeight(Moved(boxes, dx, dy)) == MaxHeight(boxes)
  {
    if boxes != [] {
      var front := boxes[..|boxes| - 1];
      assert Moved(boxes, dx, dy)[..|boxes| - 1] == Moved(front, dx, dy);
      MovedSums(front, dx, dy);
    }
  }

  lemma {:induction false} MovedBeforeFirstTap(boxes: seq<Box>, dx: int, dy: int)
    ensures WidthBeforeFirstTap(Moved(boxes, dx, dy)) == WidthBeforeFirstTap(boxes)
  {
    if boxes != [] {
      assert Moved(boxes, dx, dy)[1..] == Moved(boxes[1..], dx, dy);
      MovedBeforeFirstTap(boxes[1..], dx, dy);
    }
  }

  /** Without a tap, every count is the total width. */
  lemma {:induction false} NoTapSums(boxes: seq<Box>)
    requires CountTaps(boxes) == 0
    ensures WidthAfterLastTap(boxes) == WidthBeforeFirstTap(boxes) == TotalWidth(boxes)
  {
    if boxes != [] {
      var front, last := boxes[..|boxes| - 1], boxes[|boxes| - 1];
      assert front + [last] == boxes;
      NoTapSums(front);
      BackSums(front, last);
    }
  }

  /** What is counted after the last tap is the width of a stretch: the one that follows a tap and has none. */
  lemma {:induction false} AfterLastTapIsStretch(boxes: seq<Box>, i: nat)
    requires i <= |boxes| && CountTaps(boxes[i..]) == 0 && (i == 0 || boxes[i - 1].tap)
    ensures WidthAfterLastTap(boxes) == TotalWidth(boxes[i..])
  {
    if i < |boxes| {
      var front := boxes[..|boxes| - 1];
      assert boxes[i..][..|boxes| - i - 1] == front[i..];
      AfterLastTapIsStretch(front, i);
    }
  }

  lemma {:induction false} BeforeFirstTapIsStretch(boxes: seq<Box>, j: nat)
    requires j <= |boxes| && CountTaps(boxes[..j]) == 0 && (j == |boxes| || boxes[j].tap)
    ensures WidthBeforeFirstTap(boxes) == TotalWidth(boxes[..j])
  {
    if j > 0 {
      assert boxes[..j] == [boxes[0]] + boxes[1..][..j - 1];
      FrontSums(boxes[0], boxes[1..][..j - 1]);
      BeforeFirstTapIsStretch(boxes[1..], j - 1);
    }
  }

  // ---- every operation keeps it ----------------------------------------------

  lemma MovedRowOk(row: Row, dx: int, dy: int, p: Point)
    requires RowOk(row)
    ensures RowOk(row.(origin := p, boxes := Moved(row.boxes, dx, dy)))
  {
    MovedSums(row.boxes, dx, dy);
    MovedBeforeFirstTap(row.boxes, dx, dy);
  }

  lemma TapLeftOk(row: Row, span: nat)
    requires RowOk(row)
    ensures RowOk(MaybeTapLeft(row, span))
  {
    var after := MaybeTapLeft(row, span);
    if after != row {
      FrontSums(after.boxes[0], row.boxes);
    }
  }

  lemma TapRightOk(row: Row, span: nat)
    requires RowOk(row)
    ensures RowOk(MaybeTapRight(row, span))
  {
    var after := MaybeTapRight(row, span);
    if after != row {
      BackSums(row.boxes, after.boxes[|row.boxes|]);
    }
  }

  lemma BackKeepsRowOk(row: Row, cell: Cell)
    requires RowOk(row)
    ensures RowOk(InstantiateBack(row, cell))
  {
    TapRightOk(row, cell.width);
    var middle := MaybeTapRight(row, cell.width);
    var after := PlaceRight(middle, cell);
    BackSums(middle.boxes, after.boxes[|middle.boxes|]);
    if middle.numTaps == 0 { NoTapSums(middle.boxes); }
  }

  lemma FrontKeepsRowOk(row: Row, cell: Cell)
    requires RowOk(row)
    ensures RowOk(InstantiateFront(row, cell))
  {
    TapLeftOk(row, cell.width);
    var middle := MaybeTapLeft(row, cell.width);
    var after := PlaceLeft(middle, cell);
    FrontSums(after.boxes[0], middle.boxes);
    if middle.numTaps == 0 { NoTapSums(middle.boxes); }
  }

  lemma InsertFrontKeepsRowOk(row: Row, cell: Cell)
    requires RowOk(row)
    ensures RowOk(InstantiateAndInsertFront(row, cell))
  {
    hide InstantiateFront, RowOk;
    FrontKeepsRowOk(row, cell);
    var placed := InstantiateFront(row, cell);
    MovedRowOk(placed, LeftEdge(row) - LeftEdge(placed), 0, placed.origin);
  }

  lemma MoveKeepsRowOk(row: Row, p: Point)
    requires RowOk(row)
    ensures RowOk(MoveTo(row, p))
  {
    MovedRowOk(row, p.x - row.origin.x, p.y - row.origin.y, p);
  }

  // ---- tap-free runs -----------------------------------------------------------

  lemma {:induction false} SuffixAfterLastTap(boxes: seq<Box>, i: nat)
    requires i <= |boxes| && CountTaps(boxes[i..]) == 0
    ensures TotalWidth(boxes[i..]) <= WidthAfterLastTap(boxes)
  {
    if i < |boxes| {
      var front := boxes[..|boxes| - 1];
      assert boxes[i..][..|boxes| - i - 1] == front[i..];
      SuffixAfterLastTap(front, i);
    }
  }

  lemma {:induction false} PrefixBeforeFirstTap(boxes: seq<Box>, j: nat)
    requires j <= |boxes| && CountTaps(boxes[..j]) == 0
    ensures TotalWidth(boxes[..j]) <= WidthBeforeFirstTap(boxes)
  {
    if j > 0 {
      assert boxes[..j] == [boxes[0]] + boxes[1..][..j - 1];
      FrontSums(boxes[0], boxes[1..][..j - 1]);
      PrefixBeforeFirstTap(boxes[1..], j - 1);
    }
  }

  lemma PrefixSlice<T>(s: seq<T>, x: T, i: nat, j: nat)
    requires i <= j <= |s| + 1
    ensures (s + [x])[i..j] == if j <= |s| then s[i..j] else if i <= |s| then s[i..] + [x] else []
  {
  }

  lemma SuffixSlice<T>(x: T, s: seq<T>, i: nat, j: nat)
    requires i <= j <= |s| + 1
    ensures ([x] + s)[i..j] == if i > 0 then s[i - 1..j - 1] else if j > 0 then [x] + s[..j - 1] else []
  {
  }

  lemma RunsStayBoundedRight(boxes: seq<Box>, b: Box)
    requires TapRunsBounded(boxes)
    requires b.tap || WidthAfterLastTap(boxes) + b.width <= MAX_TAP_DISTANCE
    ensures TapRunsBounded(boxes + [b])
  {
    var all := boxes + [b];
    forall i, j | 0 <= i <= j <= |all| && CountTaps(all[i..j]) == 0
      ensures TotalWidth(all[i..j]) <= MAX_TAP_DISTANCE
    {
      PrefixSlice(boxes, b, i, j);
      if j > |boxes| && i <= |boxes| {
        BackSums(boxes[i..], b);
        SuffixAfterLastTap(boxes, i);
      }
    }
  }

  lemma RunsStayBoundedLeft(b: Box, boxes: seq<Box>)
    requires TapRunsBounded(boxes)
    requires b.tap || WidthBeforeFirstTap(boxes) + b.width <= MAX_TAP_DISTANCE
    ensures TapRunsBounded([b] + boxes)
  {
    var all := [b] + boxes;
    forall i, j | 0 <= i <= j <= |all| && CountTaps(all[i..j]) == 0
      ensures TotalWidth(all[i..j]) <= MAX_TAP_DISTANCE
    {
      SuffixSlice(b, boxes, i, j);
      if i == 0 < j {
        FrontSums(b, boxes[..j - 1]);
        PrefixBeforeFirstTap(boxes, j - 1);
      }
    }
  }

  lemma MovedRuns(boxes: seq<Box>, dx: int, dy: int)
    requires TapRunsBounded(boxes)
    ensures TapRunsBounded(Moved(boxes, dx, dy))
  {
    var moved := Moved(boxes, dx, dy);
    forall i, j | 0 <= i <= j <= |moved| && CountTaps(moved[i..j]) == 0
      ensures TotalWidth(moved[i..j]) <= MAX_TAP_DISTANCE
    {
      assert moved[i..j] == Moved(boxes[i..j], dx, dy);
      MovedSums(boxes[i..j], dx, dy);
    }
  }

  /** The row has a tap cell set, has a tap once it has anything, and its runs are bounded. */
  ghost predicate Tapped(row: Row) {
    && RowOk(row) && row.tapCell.Some?
    && (row.boxes != [] ==> row.numTaps > 0)
    && TapRunsBounded(row.boxes)
  }

  lemma BackKeepsTapped(row: Row, cell: Cell)
    requires Tapped(row) && cell.width <= MAX_TAP_DISTANCE
    ensures Tapped(InstantiateBack(row, cell))
  {
    BackKeepsRowOk(row, cell);
    TapRightOk(row, cell.width);
    var middle := MaybeTapRight(row, cell.width);
    if middle != row {
      RunsStayBoundedRight(row.boxes, middle.boxes[|row.boxes|]);
    }
    RunsStayBoundedRight(middle.boxes, PlaceRight(middle, cell).boxes[|middle.boxes|]);
  }

  lemma FrontKeepsTapped(row: Row, cell: Cell)
    requires Tapped(row) && cell.width <= MAX_TAP_DISTANCE
    ensures Tapped(InstantiateFront(row, cell))
  {
    FrontKeepsRowOk(row, cell);
    TapLeftOk(row, cell.width);
    var middle := MaybeTapLeft(row, cell.width);
    if middle != row {
      RunsStayBoundedLeft(middle.boxes[0], row.boxes);
    }
    RunsStayBoundedLeft(PlaceLeft(middle, cell).boxes[0], middle.boxes);
  }

  // ---- whole runs ----------------------------------------------------------------

  datatype Op =
    | Back(cell: Cell)
    | Front(cell: Cell)
    | InsertFront(cell: Cell)
    | SetTap(tap: Cell)
    | ClearTap
    | Move(to: Point)

  function Apply(row: Row, op: Op): Row {
    match op
    case Back(cell) => InstantiateBack(row, cell)
    case Front(cell) => InstantiateFront(row, cell)
    case InsertFront(cell) => InstantiateAndInsertFront(row, cell)
    case SetTap(tap) => row.(tapCell := Some(tap))
    case ClearTap => row.(tapCell := None)
    case Move(to) => MoveTo(row, to)
  }

  function Run(row: Row, ops: seq<Op>): Row {
    if ops == [] then row else Apply(Run(row, ops[..|ops| - 1]), ops[|ops| - 1])
  }

  /**
   * After any placements from both ends, moves, and changes of the tap cell:
   * boxes abut, share a mid-line, and the cached distances to the first and
   * the last tap are what counting over the row would give.
   */
  lemma {:induction false} EveryRunKeepsRowOk(origin: Point, rotate: bool, tapCell: Option<Cell>, ops: seq<Op>)
    ensures RowOk(Run(EmptyRow(origin, rotate, tapCell), ops))
  {
    if ops != [] {
      var before := Run(EmptyRow(origin, rotate, tapCell), ops[..|ops| - 1]);
      EveryRunKeepsRowOk(origin, rotate, tapCell, ops[..|ops| - 1]);
      match ops[|ops| - 1]
      case Back(cell) => BackKeepsRowOk(before, cell);
      case Front(cell) => FrontKeepsRowOk(before, cell);
      case InsertFront(cell) => InsertFrontKeepsRowOk(before, cell);
      case SetTap(tap) =>
      case ClearTap =>
      case Move(to) => MoveKeepsRowOk(before, to);
    }
  }

  /** An operation on a row whose tap cell is set for good, with cells no wider than the limit. */
  predicate Disciplined(op: Op) {
    match op
    case Back(cell) => cell.width <= MAX_TAP_DISTANCE
    case Front(cell) => cell.width <= MAX_TAP_DISTANCE
    case InsertFront(cell) => cell.width <= MAX_TAP_DISTANCE
    case SetTap(_) => true
    case ClearTap => false
    case Move(_) => true
  }

  lemma EmptyRunsBounded()
    ensures TapRunsBounded([])
  {
    var none: seq<Box> := [];
    forall i, j | 0 <= i <= j <= |none| && CountTaps(none[i..j]) == 0 ensures TotalWidth(none[i..j]) <= MAX_TAP_DISTANCE {
      assert none[i..j] == [];
    }
  }

  lemma ApplyKeepsTapped(row: Row, op: Op)
    requires Tapped(row) && Disciplined(op)
    ensures Tapped(Apply(row, op))
  {
    hide TapRunsBounded, InstantiateBack, InstantiateFront, RowOk, Moved;
    match op
    case Back(cell) => BackKeepsTapped(row, cell);
    case Front(cell) => FrontKeepsTapped(row, cell);
    case InsertFront(cell) =>
      FrontKeepsTapped(row, cell);
      InsertFrontKeepsRowOk(row, cell);
      var placed := InstantiateFront(row, cell);
      MovedRuns(placed.boxes, LeftEdge(row) - LeftEdge(placed), 0);
    case SetTap(tap) => SettingTapKeepsRowOk(row, tap);
    case Move(to) =>
      MoveKeepsRowOk(row, to);
      MovedRuns(row.boxes, to.x - row.origin.x, to.y - row.origin.y);
  }

  lemma SettingTapKeepsRowOk(row: Row, tap: Cell)
    requires RowOk(row)
    ensures RowOk(row.(tapCell := Some(tap)))
  {
  }

  /**
   * If a tap cell is set before the first placement and never cleared, then
   * after any placements from both ends no run of cells without a tap is
   * wider than the limit.
   */
  lemma {:induction false} TapsAreNeverTooFarApart(origin: Point, rotate: bool, tapCell: Cell, ops: seq<Op>)
    requires forall op | op in ops :: Disciplined(op)
    ensures Tapped(Run(EmptyRow(origin, rotate, Some(tapCell)), ops))
  {
    if ops != [] {
      TapsAreNeverTooFarApart(origin, rotate, tapCell, ops[..|ops| - 1]);
      assert ops[|ops| - 1] in ops;
      ApplyKeepsTapped(Run(EmptyRow(origin, rotate, Some(tapCell)), ops[..|ops| - 1]), ops[|ops| - 1]);
    } else {
      hide TapRunsBounded;
      EmptyRunsBounded();
    }
  }

  // ---- what a placement adds -------------------------------------------------------------

  /** The box is one of the cell, in the orientation of its row. */
  predicate IsOf(box: Box, cell: Cell, rotated: bool, tap: bool) {
    box.width == cell.width && box.height == cell.height && box.rotated == rotated && box.tap == tap
  }

  /** Where there is no tap yet, or the cell would end too far from the nearest one. */
  predicate TapIsDue(row: Row, distance: nat, cell: Cell) {
    row.tapCell.Some? && (CountTaps(row.boxes) == 0 || distance + cell.width > 15000)
  }

  /** The cell goes to the right end, behind a tap exactly if one is due; all else stays. */
  lemma BackAdds(row: Row, cell: Cell)
    requires RowOk(row)
    ensures
      var after, n := InstantiateBack(row, cell), |row.boxes|;
      var due := TapIsDue(row, WidthAfterLastTap(row.boxes), cell);
      && after.origin == row.origin && after.rotate == row.rotate && after.tapCell == row.tapCell
      && |after.boxes| == n + (if due then 2 else 1) && after.boxes[..n] == row.boxes
      && IsOf(after.boxes[|after.boxes| - 1], cell, row.rotate, false)
      && (due ==> IsOf(after.boxes[n], row.tapCell.value, row.rotate, true))
      && (row.boxes == [] ==> after.boxes[0].x == row.origin.x && after.boxes[0].y == row.origin.y)
  {
  }

  /** The cell goes to the left end, in front of a tap exactly if one is due; the older cells are in order behind them. */
  lemma FrontAdds(row: Row, cell: Cell)
    requires RowOk(row)
    ensures
      var after, n := InstantiateAndInsertFront(row, cell), |row.boxes|;
      var due := TapIsDue(row, WidthBeforeFirstTap(row.boxes), cell);
      && after.origin == row.origin && after.rotate == row.rotate && after.tapCell == row.tapCell
      && |after.boxes| == n + (if due then 2 else 1)
      && IsOf(after.boxes[0], cell, row.rotate, false)
      && (due ==> IsOf(after.boxes[1], row.tapCell.value, row.rotate, true))
      && (exists dx :: after.boxes[|after.boxes| - n..] == Moved(row.boxes, dx, 0))
  {
    hide RowOk;
    InsertFrontShiftsExactly(row, cell);
    FrontBoxes(row, cell);
    var after := InstantiateAndInsertFront(row, cell);
    var added := |after.boxes| - |row.boxes|;
    hide InstantiateAndInsertFront, TotalWidth;
    if row.boxes == [] {
      assert after.boxes[added..] == Moved(row.boxes, 0, 0);
    }
  }

  lemma FrontBoxes(row: Row, cell: Cell)
    requires RowOk(row)
    ensures
      var after := InstantiateAndInsertFront(row, cell);
      var due := TapIsDue(row, WidthBeforeFirstTap(row.boxes), cell);
      && after.origin == row.origin && after.rotate == row.rotate && after.tapCell == row.tapCell
      && |after.boxes| == |row.boxes| + (if due then 2 else 1)
      && IsOf(after.boxes[0], cell, row.rotate, false)
      && (due ==> IsOf(after.boxes[1], row.tapCell.value, row.rotate, true))
  {
  }

  // ---- exactness of moves ---------------------------------------------------------

  lemma FrontPlacement(row: Row, cell: Cell)
    ensures
      var placed := InstantiateFront(row, cell);
      var added := |placed.boxes| - |row.boxes|;
      && added == (if NeedsTap(row, row.distanceLeft, cell.width) then 2 else 1)
      && placed.boxes[added..] == row.boxes
      && placed.boxes[0].width == cell.width && !placed.boxes[0].tap
      && (row.boxes != [] ==>
            placed.boxes[0].x == row.boxes[0].x - cell.width - if added == 2 then placed.boxes[1].width else 0)
  {
    var middle := MaybeTapLeft(row, cell.width);
  }

  /**
   * Inserting at the front keeps the left edge of the row, and shifts the
   * older boxes right by exactly the width inserted before them, tap included.
   */
  lemma InsertFrontShiftsExactly(row: Row, cell: Cell)
    ensures
      var after := InstantiateAndInsertFront(row, cell);
      var added := |after.boxes| - |row.boxes|;
      && 1 <= added <= 2
      && LeftEdge(after) == LeftEdge(row)
      && after.boxes[0].x == LeftEdge(row) && after.boxes[0].width == cell.width && !after.boxes[0].tap
      && (added == 2 <==> NeedsTap(row, row.distanceLeft, cell.width))
      && (row.boxes != [] ==>
            after.boxes[added..] == Moved(row.boxes, TotalWidth(after.boxes[..added]), 0))
  {
    var placed := InstantiateFront(row, cell);
    var after := InstantiateAndInsertFront(row, cell);
    var added := |after.boxes| - |row.boxes|;
    FrontPlacement(row, cell);
    hide InstantiateFront, NeedsTap, TotalWidth;
    OneOrTwoWidths(after.boxes[..added]);
    if row.boxes != [] {
      var shift := LeftEdge(row) - LeftEdge(placed);
      assert shift == TotalWidth(after.boxes[..added]);
      SuffixMoved(placed.boxes, added, shift);
    }
  }

  lemma SuffixMoved(boxes: seq<Box>, n: nat, dx: int)
    requires n <= |boxes|
    ensures Moved(boxes, dx, 0)[n..] == Moved(boxes[n..], dx, 0)
  {
  }

  lemma OneOrTwoWidths(boxes: seq<Box>)
    requires 1 <= |boxes| <= 2
    ensures TotalWidth(boxes) == boxes[0].width + if |boxes| == 2 then boxes[1].width else 0
  {
    assert boxes[..|boxes| - 1][..0] == [];
    if |boxes| == 2 {
      assert boxes[..1] == [boxes[0]] && TotalWidth(boxes[..1]) == boxes[0].width;
    }
  }

  // ---- tiling bounds -----------------------------------------------------------------

  datatype Rect = Rect(left: int, bottom: int, right: int, top: int)
  {
    function Width(): int { right - left }

    function Height(): int { top - bottom }

    function Covering(other: Rect): Rect {
      Rect(Min(left, other.left), Min(bottom, other.bottom), Max(right, other.right), Max(top, other.top))
    }
  }

  function BoundsOf(b: Box): Rect {
    Rect(b.x, b.y, b.Right(), b.Top())
  }

  /** The least rectangle around all boxes of a row. */
  function TilingBounds(boxes: seq<Box>): Rect
    requires boxes != []
  {
    var last := BoundsOf(boxes[|boxes| - 1]);
    if |boxes| == 1 then last else TilingBounds(boxes[..|boxes| - 1]).Covering(last)
  }

  /**
   * Since boxes are centred, the height of a row is the height of its tiling
   * bounds, although halving heights truncates.
   */
  lemma {:induction false} HeightIsTilingHeight(boxes: seq<Box>)
    requires boxes != [] && Centred(boxes)
    ensures
      var r, h, mid := TilingBounds(boxes), MaxHeight(boxes), boxes[0].MidY();
      r.bottom == mid - h / 2 && r.top == mid - h / 2 + h && r.Height() == h
  {
    if |boxes| > 1 {
      HeightIsTilingHeight(boxes[..|boxes| - 1]);
    } else {
      assert boxes[..0] == [];
    }
  }

  /** Since boxes abut, the width of a row is the width of its tiling bounds. */
  lemma {:induction false} WidthIsTilingWidth(boxes: seq<Box>)
    requires boxes != [] && Abutting(boxes)
    ensures
      var r := TilingBounds(boxes);
      r.left == boxes[0].x && r.right == boxes[|boxes| - 1].Right() && r.Width() == TotalWidth(boxes)
  {
    if |boxes| > 1 {
      WidthIsTilingWidth(boxes[..|boxes| - 1]);
    } else {
      assert boxes[..0] == [];
    }
  }

  /** Two different boxes of a row never share a point of their interiors. */
  lemma {:induction false} BoxesOfRowApart(boxes: seq<Box>, j: nat, k: nat)
    requires Abutting(boxes) && j < k < |boxes|
    ensures boxes[j].Right() <= boxes[k].x
  {
    if j + 1 < k {
      BoxesOfRowApart(boxes, j, k - 1);
    }
  }

  // ---- how much still fits -----------------------------------------------------------

  /** What AvailableRightSpanUpTo computes: the span left up to `max`, less the taps it will need. */
  function AvailableRightSpan(row: Row, max: nat): int
    requires row.tapCell.Some?
  {
    var toCover := max - TotalWidth(row.boxes);
    if toCover < 0 then toCover
    else toCover - ((row.distanceRight + toCover) / MAX_TAP_DISTANCE) * row.tapCell.value.width
  }

  /** So many whole tap limits lie between the last tap of the row (or its start) and the bound. */
  ghost predicate WholeLimits(row: Row, max: nat, taps: nat) {
    && TotalWidth(row.boxes) <= max
    && taps * 15000 <= WidthAfterLastTap(row.boxes) + max - TotalWidth(row.boxes) < (taps + 1) * 15000
  }

  /** The span is all that is left, less one tap for each whole limit; past the bound it is what is missing. */
  lemma SpanByWidths(row: Row, max: nat)
    requires RowOk(row) && row.tapCell.Some?
    ensures max < TotalWidth(row.boxes) ==> AvailableRightSpan(row, max) == max - TotalWidth(row.boxes)
    ensures max >= TotalWidth(row.boxes) ==> exists taps: nat :: WholeLimits(row, max, taps)
    ensures forall taps: nat | WholeLimits(row, max, taps) ::
              AvailableRightSpan(row, max) == max - TotalWidth(row.boxes) - taps * row.tapCell.value.width
  {
    if max >= TotalWidth(row.boxes) {
      var reach := WidthAfterLastTap(row.boxes) + max - TotalWidth(row.boxes);
      assert WholeLimits(row, max, reach / MAX_TAP_DISTANCE);
      forall taps: nat | WholeLimits(row, max, taps) ensures taps == reach / MAX_TAP_DISTANCE {}
    }
  }

  /** A back placement widens the row by the cell, and by a tap if it triggers one. */
  lemma BackWidth(row: Row, cell: Cell)
    ensures TotalWidth(InstantiateBack(row, cell).boxes) ==
            TotalWidth(row.boxes) + cell.width +
            if NeedsTap(row, row.distanceRight, cell.width) then row.tapCell.value.width else 0
  {
    var middle := MaybeTapRight(row, cell.width);
    var after := PlaceRight(middle, cell);
    BackSums(middle.boxes, after.boxes[|middle.boxes|]);
    if middle != row {
      BackSums(row.boxes, middle.boxes[|row.boxes|]);
    }
  }

  lemma AtLeastOneTap(distance: int, width: nat)
    requires distance >= MAX_TAP_DISTANCE
    ensures (distance / MAX_TAP_DISTANCE) * width >= width
  {
    assert distance / MAX_TAP_DISTANCE >= 1;
  }

  /**
   * In a row that has a tap already, one cell no wider than the available span
   * never takes the row past the bound, even if placing it triggers a tap.
   */
  lemma AvailableSpanFits(row: Row, cell: Cell, max: nat)
    requires RowOk(row) && row.tapCell.Some? && row.numTaps > 0
    requires cell.width <= AvailableRightSpan(row, max)
    ensures TotalWidth(InstantiateBack(row, cell).boxes) <= max
  {
    BackWidth(row, cell);
    var toCover := max - TotalWidth(row.boxes);
    var distance := row.distanceRight + toCover;
    assert distance / MAX_TAP_DISTANCE >= 0;
    if NeedsTap(row, row.distanceRight, cell.width) {
      NonNegativeProduct(distance / MAX_TAP_DISTANCE, row.tapCell.value.width);
      AtLeastOneTap(distance, row.tapCell.value.width);
    } else {
      NonNegativeProduct(distance / MAX_TAP_DISTANCE, row.tapCell.value.width);
    }
  }

  lemma NonNegativeProduct(a: int, b: nat)
    requires a >= 0
    ensures a * b >= 0
  {
  }

  /** Without taps the span only accounts for taps that whole limits bring. */
  lemma TaplessSpan(row: Row, max: nat)
    requires RowOk(row) && row.tapCell.Some? && row.numTaps == 0 && TotalWidth(row.boxes) <= max
    ensures AvailableRightSpan(row, max) == max - TotalWidth(row.boxes) - (max / MAX_TAP_DISTANCE) * row.tapCell.value.width
  {
    NoTapSums(row.boxes);
    assert row.distanceRight + (max - TotalWidth(row.boxes)) == max;
  }

  lemma NothingReserved(max: nat, width: nat)
    requires max < MAX_TAP_DISTANCE
    ensures (max / MAX_TAP_DISTANCE) * width == 0
  {
    assert max / MAX_TAP_DISTANCE == 0;
  }

  /** A cell that fits exactly, where the span leaves no room for the tap it brings. */
  lemma ExactCellOvershoots(row: Row, max: nat) returns (cell: Cell)
    requires RowOk(row) && row.tapCell.Some? && row.numTaps == 0
    requires TotalWidth(row.boxes) <= max < MAX_TAP_DISTANCE
    ensures cell.width == AvailableRightSpan(row, max)
    ensures TotalWidth(InstantiateBack(row, cell).boxes) == max + row.tapCell.value.width
  {
    hide AvailableRightSpan, InstantiateBack, RowOk;
    TaplessSpan(row, max);
    NothingReserved(max, row.tapCell.value.width);
    cell := Cell(max - TotalWidth(row.boxes), 0);
    BackWidth(row, cell);
  }

  /** In a row without taps the tap of the first placement is reserved from the tap limit on. */
  lemma FirstTapIsReserved(row: Row, cell: Cell, max: nat)
    requires RowOk(row) && row.tapCell.Some? && row.numTaps == 0
    requires max >= MAX_TAP_DISTANCE || row.tapCell.value.width == 0
    requires cell.width <= AvailableRightSpan(row, max)
    ensures TotalWidth(InstantiateBack(row, cell).boxes) <= max
  {
    assert TotalWidth(row.boxes) <= max;
    hide AvailableRightSpan, InstantiateBack, RowOk;
    TaplessSpan(row, max);
    BackWidth(row, cell);
    if max >= MAX_TAP_DISTANCE {
      AtLeastOneTap(max, row.tapCell.value.width);
    } else {
      assert row.tapCell.value.width == 0;
    }
  }

  /**
   * Exactly when every cell no wider than the available span stays within the
   * bound: the row has a tap, or the bound reaches the tap limit (so that a
   * tap is reserved), or nothing fits anyway, or taps take no room.
   */
  lemma AvailableSpanIsSafeExactly(row: Row, max: nat)
    requires RowOk(row) && row.tapCell.Some?
    ensures
      (forall cell: Cell | cell.width <= AvailableRightSpan(row, max) :: TotalWidth(InstantiateBack(row, cell).boxes) <= max)
      <==>
      row.numTaps > 0 || max >= MAX_TAP_DISTANCE || max < TotalWidth(row.boxes) || row.tapCell.value.width == 0
  {
    hide RowOk, InstantiateBack;
    if row.numTaps > 0 || max >= MAX_TAP_DISTANCE || row.tapCell.value.width == 0 {
      forall cell: Cell | cell.width <= AvailableRightSpan(row, max)
        ensures TotalWidth(InstantiateBack(row, cell).boxes) <= max
      {
        if row.numTaps > 0 {
          AvailableSpanFits(row, cell, max);
        } else {
          FirstTapIsReserved(row, cell, max);
        }
      }
    } else if max >= TotalWidth(row.boxes) {
      var cell := ExactCellOvershoots(row, max);
    }
  }

  /** A row without taps, and a bound below the tap limit. */
  lemma FirstPlacementOvershoots()
    ensures
      var row := EmptyRow(Point(0, 0), false, Some(Cell(460, 2720)));
      && AvailableRightSpan(row, 1380) == 1380
      && TotalWidth(InstantiateBack(row, Cell(1380, 2720)).boxes) == 1840
  {
    var row := EmptyRow(Point(0, 0), false, Some(Cell(460, 2720)));
    BackWidth(row, Cell(1380, 2720));
  }
}
