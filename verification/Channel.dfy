// Filling the horizontal routing channel of the mux with decaps
// (src/atoms/sky130_interconnect_mux1.cc:554-617): widths are strip-mined on
// the fly, because each placement may bring a tap along.

module Channel {
  import Utility
  import opened Basics
  import opened Rows
  import opened RowGuides
  import opened Banks
  import opened MemoryBanks
  import opened Decaps

  /** All rows that have cells start at one x. */
  ghost predicate LeftEdgesEqual(rows: seq<Row>) {
    forall j, k | 0 <= j < |rows| && 0 <= k < |rows| && rows[j].boxes != [] && rows[k].boxes != [] ::
      rows[j].origin.x == rows[k].origin.x
  }

  /** `width` is the greatest width of a row that has cells. */
  ghost predicate IsWidest(rows: seq<Row>, width: nat) {
    && (forall k | 0 <= k < |rows| && rows[k].boxes != [] :: TotalWidth(rows[k].boxes) <= width)
    && (exists k | 0 <= k < |rows| && rows[k].boxes != [] :: TotalWidth(rows[k].boxes) == width)
  }

  lemma {:induction false} CoveringSides(rows: seq<Row>, x: int)
    requires AllShaped(rows)
    requires forall k | 0 <= k < |rows| && rows[k].boxes != [] :: rows[k].origin.x == x
    ensures Covering(rows).Some? <==> HasCells(rows)
    ensures Covering(rows).Some? ==>
              var r := Covering(rows).value; r.left == x && r.right >= x && IsWidest(rows, r.right - x)
  {
    if rows != [] {
      var front, last := rows[..|rows| - 1], rows[|rows| - 1];
      forall k | 0 <= k < |front| ensures front[k] == rows[k] {}
      CoveringSides(front, x);
      if last.boxes != [] {
        ShapedBounds(last);
      }
    }
  }

  /** A bank aligned on the left covers as much as its widest row. */
  lemma CoveringWidthIsWidest(rows: seq<Row>, width: nat)
    requires AllShaped(rows) && LeftEdgesEqual(rows) && IsWidest(rows, width)
    ensures Covering(rows).Some? && Covering(rows).value.Width() == width
  {
    var k :| 0 <= k < |rows| && rows[k].boxes != [] && TotalWidth(rows[k].boxes) == width;
    CoveringSides(rows, rows[k].origin.x);
    var widest := Covering(rows).value.Width();
    var l :| 0 <= l < |rows| && rows[l].boxes != [] && TotalWidth(rows[l].boxes) == widest;
  }

  /**
   * The channel is row `index` of a left-aligned bank that is `width` wide. It
   * has a tap, or is empty and the bank is wide enough for a tap and the
   * widest decap.
   */
  ghost predicate ChannelOk(bank: Bank, index: nat, height: nat, width: nat) {
    && index < |bank.rows| && bank.alignment == Some(LeftSide)
    && AllShaped(bank.rows) && LeftEdgesEqual(bank.rows) && IsWidest(bank.rows, width)
    && var row := bank.rows[index];
       && RowOk(row) && row.tapCell.Some? && FitsRow(row, Cell(0, height))
       && TotalWidth(row.boxes) <= width
       && (row.numTaps > 0 || (row.boxes == [] && row.tapCell.value.width + MAX_WIDTH_NM <= width))
  }

  /** What re-alignment leaves alone in a row. */
  lemma MovedRowSame(row: Row, p: Point, width: nat)
    requires RowOk(row)
    ensures
      var moved := MoveTo(row, p);
      && RowOk(moved) && moved.numTaps == row.numTaps && moved.tapCell == row.tapCell
      && moved.distanceRight == row.distanceRight
      && (moved.boxes == [] <==> row.boxes == [])
      && TotalWidth(moved.boxes) == TotalWidth(row.boxes)
  {
    MoveKeepsRowOk(row, p);
    MovedSums(row.boxes, p.x - row.origin.x, p.y - row.origin.y);
  }

  /** One more decap that fits keeps the channel within the bank, tap or no tap. */
  lemma DecapFits(row: Row, cell: Cell, width: nat)
    requires RowOk(row) && row.tapCell.Some? && TotalWidth(row.boxes) <= width
    requires row.numTaps > 0 || (row.boxes == [] && row.tapCell.value.width + MAX_WIDTH_NM <= width)
    requires cell.width <= MAX_WIDTH_NM && cell.width <= AvailableRightSpan(row, width)
    ensures
      var after := InstantiateBack(row, cell);
      && RowOk(after) && after.tapCell == row.tapCell && after.numTaps > 0
      && TotalWidth(row.boxes) + cell.width <= TotalWidth(after.boxes) <= width
  {
    BackKeepsRowOk(row, cell);
    BackWidth(row, cell);
    if row.numTaps > 0 {
      AvailableSpanFits(row, cell, width);
    }
  }

  lemma ChannelStep(bank: Bank, index: nat, height: nat, width: nat, cell: Cell)
    requires ChannelOk(bank, index, height, width) && cell.height == height
    requires 0 < cell.width <= MAX_WIDTH_NM && cell.width <= AvailableRightSpan(bank.rows[index], width)
    ensures
      var after := InstantiateRight(bank, index, cell);
      && |after.rows| == |bank.rows| && ChannelOk(after, index, height, width)
      && TotalWidth(after.rows[index].boxes) >= TotalWidth(bank.rows[index].boxes) + cell.width
  {
    hide InstantiateBack, RowOk, FixAlignments, AvailableRightSpan, TotalWidth, MoveTo;
    var row := bank.rows[index];
    var placed := InstantiateBack(row, cell);
    DecapFits(row, cell, width);
    BackKeepsShaped(row, cell);
    BackHeight(row, cell);
    var middle := bank.(rows := bank.rows[index := placed]);
    FixAlignmentsStacks(middle);
    FixAlignmentsSettings(middle);
    var after := Banks.FixAlignments(middle);
    MovedRowSame(placed, after.rows[index].origin, width);
    MovedHeight(placed, after.rows[index].origin);
    WidthsUnmoved(middle.rows, after.rows);
    AlignedEdges(after);
    StillWidest(bank.rows, index, placed, after.rows, width);
  }

  lemma FixAlignmentsSettings(bank: Bank)
    ensures Banks.FixAlignments(bank).alignment == bank.alignment
  {
  }

  lemma BackHeight(row: Row, cell: Cell)
    requires Shaped(row) && FitsRow(row, cell)
    ensures FitsRow(InstantiateBack(row, cell), cell) && InstantiateBack(row, cell).boxes != []
  {
  }

  lemma MovedHeight(row: Row, p: Point)
    ensures row.boxes != [] ==> MoveTo(row, p).boxes != [] && MoveTo(row, p).boxes[0].height == row.boxes[0].height
  {
  }

  lemma WidthsUnmoved(before: seq<Row>, after: seq<Row>)
    requires MovedRigidly(before, after)
    ensures forall k | 0 <= k < |before| ::
              TotalWidth(after[k].boxes) == TotalWidth(before[k].boxes) && (after[k].boxes == [] <==> before[k].boxes == [])
  {
    forall k | 0 <= k < |before|
      ensures TotalWidth(after[k].boxes) == TotalWidth(before[k].boxes) && (after[k].boxes == [] <==> before[k].boxes == [])
    {
      MovedSums(before[k].boxes, after[k].origin.x - before[k].origin.x, after[k].origin.y - before[k].origin.y);
    }
  }

  lemma AlignedEdges(bank: Bank)
    requires AllShaped(bank.rows) && bank.alignment == Some(LeftSide) && Aligned(bank)
    ensures LeftEdgesEqual(bank.rows)
  {
    forall k | 0 <= k < |bank.rows| ensures bank.rows[k].origin.x == LeftMost(bank.rows) {
      ShapedCorners(bank.rows[k]);
    }
  }

  lemma StillWidest(rows: seq<Row>, index: nat, placed: Row, after: seq<Row>, width: nat)
    requires IsWidest(rows, width) && index < |rows| == |after|
    requires TotalWidth(rows[index].boxes) <= TotalWidth(placed.boxes) <= width && placed.boxes != []
    requires forall k | 0 <= k < |rows| ::
               && TotalWidth(after[k].boxes) == TotalWidth(rows[index := placed][k].boxes)
               && (after[k].boxes == [] <==> rows[index := placed][k].boxes == [])
    ensures IsWidest(after, width)
  {
    hide TotalWidth;
    var k :| 0 <= k < |rows| && rows[k].boxes != [] && TotalWidth(rows[k].boxes) == width;
    assert after[k].boxes != [] && TotalWidth(after[k].boxes) == width;
  }

  /** A width that a decap of the pitch can have. */
  predicate IsPitched(width: nat, horizontalPitch: nat) {
    1380 <= width <= 5520 && (horizontalPitch == 0 || width % horizontalPitch == 0)
  }

  /** A decap is no wider than what is left up to the bound, less a tap for each whole limit. */
  predicate LeavesRoom(row: Row, width: nat, taps: nat, decap: nat)
    requires row.tapCell.Some?
  {
    decap <= width - TotalWidth(row.boxes) - taps * row.tapCell.value.width
  }

  /** No decap of the pitch fits. */
  ghost predicate IsFilled(row: Row, width: nat, horizontalPitch: nat)
    requires row.tapCell.Some?
  {
    forall taps: nat, decap: nat | WholeLimits(row, width, taps) && IsPitched(decap, horizontalPitch) ::
      !LeavesRoom(row, width, taps, decap)
  }

  /** The widest decap of the pitch that fits. */
  ghost predicate IsWidestDecap(row: Row, width: nat, horizontalPitch: nat, decap: nat)
    requires row.tapCell.Some?
  {
    && IsPitched(decap, horizontalPitch)
    && (forall taps: nat | WholeLimits(row, width, taps) :: LeavesRoom(row, width, taps, decap))
    && (forall taps: nat, other: nat | WholeLimits(row, width, taps) && IsPitched(other, horizontalPitch)
                                       && LeavesRoom(row, width, taps, other) :: other <= decap)
  }

  /** The bank after decaps of these widths were put into the channel, each followed by a re-alignment. */
  ghost function FilledBank(bank: Bank, index: nat, height: nat, widths: seq<nat>): Bank {
    if widths == [] then bank
    else InstantiateRight(FilledBank(bank, index, height, widths[..|widths| - 1]), index, Cell(widths[|widths| - 1], height))
  }

  ghost predicate IsWidestInChannel(bank: Bank, index: nat, width: nat, horizontalPitch: nat, decap: nat) {
    && index < |bank.rows| && bank.rows[index].tapCell.Some?
    && IsWidestDecap(bank.rows[index], width, horizontalPitch, decap)
  }

  /** Each decap was the widest that fitted when it was put in. */
  ghost predicate FilledGreedily(
    before: Bank, index: nat, height: nat, width: nat, horizontalPitch: nat, widths: seq<nat>, after: Bank)
  {
    && after == FilledBank(before, index, height, widths)
    && forall k | 0 <= k < |widths| ::
         IsWidestInChannel(FilledBank(before, index, height, widths[..k]), index, width, horizontalPitch, widths[k])
  }

  lemma OneMoreDecap(
    before: Bank, index: nat, height: nat, width: nat, horizontalPitch: nat, widths: seq<nat>, middle: Bank, decap: nat)
    requires FilledGreedily(before, index, height, width, horizontalPitch, widths, middle)
    requires IsWidestInChannel(middle, index, width, horizontalPitch, decap)
    ensures FilledGreedily(before, index, height, width, horizontalPitch, widths + [decap],
                           InstantiateRight(middle, index, Cell(decap, height)))
  {
    hide InstantiateRight, IsWidestInChannel;
    var more := widths + [decap];
    assert more[..|widths|] == widths;
    forall k | 0 <= k < |more|
      ensures IsWidestInChannel(FilledBank(before, index, height, more[..k]), index, width, horizontalPitch, more[k])
    {
      if k < |widths| {
        assert more[..k] == widths[..k];
      }
    }
  }

  lemma WidestFits(row: Row, width: nat, horizontalPitch: nat, decap: nat)
    requires RowOk(row) && row.tapCell.Some?
    requires
      var available := AvailableRightSpan(row, width);
      available > 0 && decap == Utility.LastMultiple(Min(available, MAX_WIDTH_NM), horizontalPitch) >= MIN_WIDTH_NM
    ensures IsWidestDecap(row, width, horizontalPitch, decap)
  {
    SpanByWidths(row, width);
    hide RowOk, AvailableRightSpan, TotalWidth, WholeLimits, Utility.LastMultiple;
    var most := Min(AvailableRightSpan(row, width), MAX_WIDTH_NM);
    forall taps: nat, other: nat | WholeLimits(row, width, taps) && IsPitched(other, horizontalPitch)
                                   && LeavesRoom(row, width, taps, other)
      ensures other <= decap
    {
      if horizontalPitch > 0 {
        LastIsGreatest(most, horizontalPitch, other);
      }
    }
  }

  lemma NoneFits(row: Row, width: nat, horizontalPitch: nat)
    requires RowOk(row) && row.tapCell.Some?
    requires
      var available := AvailableRightSpan(row, width);
      available <= 0 || Utility.LastMultiple(Min(available, MAX_WIDTH_NM), horizontalPitch) < MIN_WIDTH_NM
    ensures IsFilled(row, width, horizontalPitch)
  {
    SpanByWidths(row, width);
    hide RowOk, AvailableRightSpan, TotalWidth, WholeLimits, Utility.LastMultiple;
    var available := AvailableRightSpan(row, width);
    forall taps: nat, decap: nat | WholeLimits(row, width, taps) && IsPitched(decap, horizontalPitch)
      ensures !LeavesRoom(row, width, taps, decap)
    {
      if 0 < decap <= available && horizontalPitch > 0 {
        LastIsGreatest(Min(available, MAX_WIDTH_NM), horizontalPitch, decap);
      }
    }
  }

  lemma NothingFilled(bank: Bank, index: nat, height: nat, width: nat, horizontalPitch: nat)
    ensures FilledGreedily(bank, index, height, width, horizontalPitch, [], bank)
  {
  }

  lemma LastIsGreatest(max: nat, multiple: nat, m: nat)
    requires multiple > 0 && m % multiple == 0 && m <= max
    ensures m <= Utility.LastMultiple(max, multiple)
  {
    var r := Utility.LastMultiple(max, multiple);
    var p, q := m / multiple, r / multiple;
    assert m == p * multiple && r == q * multiple && (q + 1) * multiple == q * multiple + multiple;
    if p <= q {
      ProductGrows(p, q, multiple);
    } else {
      ProductGrows(q + 1, p, multiple);
    }
  }

  /**
   * The channel-filling loop. It ends, never takes the channel past the width
   * of the bank (which stays what it was), and stops only when no decap of
   * the pitch fits any more.
   */
  method FillChannel(bank: MemoryBank, index: nat, horizontalPitch: nat, height: nat, ghost width: nat)
    returns (ghost widths: seq<nat>)
    requires bank.Valid() && ChannelOk(bank.Value(), index, height, width)
    modifies bank`rows, bank`Repr, bank.Repr
    ensures bank.Valid() && ChannelOk(bank.Value(), index, height, width)
    ensures
      var available := AvailableRightSpan(bank.Value().rows[index], width);
      available <= 0 || Utility.LastMultiple(Min(available, MAX_WIDTH_NM), horizontalPitch) < MIN_WIDTH_NM
    ensures IsFilled(bank.Value().rows[index], width, horizontalPitch)
    ensures FilledGreedily(old(bank.Value()), index, height, width, horizontalPitch, widths, bank.Value())
  {
    hide IsFilled, IsWidestDecap, FilledGreedily, AllShaped, LeftEdgesEqual, IsWidest, RowOk, FitsRow, AvailableRightSpan, TotalWidth, Banks.InstantiateRight;
    widths := [];
    NothingFilled(bank.Value(), index, height, width, horizontalPitch);
    var remaining := RemainingWidth(bank, index, height, width);
    while remaining > 0
      invariant bank.Valid() && fresh(bank.Repr - old(bank.Repr))
      invariant ChannelOk(bank.Value(), index, height, width)
      invariant remaining == AvailableRightSpan(bank.Value().rows[index], width)
      invariant FilledGreedily(old(bank.Value()), index, height, width, horizontalPitch, widths, bank.Value())
      decreases width - TotalWidth(bank.Value().rows[index].boxes)
    {
      var decapWidth := Utility.LastMultiple(Min(remaining, MAX_WIDTH_NM), horizontalPitch);
      if decapWidth < MIN_WIDTH_NM {
        break;
      }
      WidestFits(bank.Value().rows[index], width, horizontalPitch, decapWidth);
      OneMoreDecap(old(bank.Value()), index, height, width, horizontalPitch, widths, bank.Value(), decapWidth);
      widths := widths + [decapWidth];
      ChannelStep(bank.Value(), index, height, width, MakeDecap(height, decapWidth));
      bank.InstantiateRight(index, MakeDecap(height, decapWidth));
      remaining := RemainingWidth(bank, index, height, width);
    }
    NoneFits(bank.Value().rows[index], width, horizontalPitch);
  }

  /** The span left in the channel up to the width that the bank covers. */
  method RemainingWidth(bank: MemoryBank, index: nat, ghost height: nat, ghost width: nat) returns (remaining: int)
    requires bank.Valid() && ChannelOk(bank.Value(), index, height, width)
    ensures remaining == AvailableRightSpan(bank.Value().rows[index], width)
  {
    var bounds := bank.GetTilingBounds();
    CoveringWidthIsWidest(bank.Value().rows, width);
    remaining := bank.rows[index].AvailableRightSpanUpTo(bounds.value.Width());
  }

  /**
   * With the standard pitch less than one minimum decap is left in a filled
   * channel, and a tap for each whole limit that is still to be covered.
   */
  lemma StandardPitchLeavesLessThanADecap(row: Row, width: nat, taps: nat)
    requires row.tapCell.Some? && IsFilled(row, width, STANDARD_CELL_UNIT_WIDTH_NM) && WholeLimits(row, width, taps)
    ensures width - TotalWidth(row.boxes) < 1380 + taps * row.tapCell.value.width
  {
    hide WholeLimits, TotalWidth;
    assert IsPitched(1380, STANDARD_CELL_UNIT_WIDTH_NM);
  }
}
