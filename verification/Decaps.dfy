// Filling rows with decoupling-capacitor cells: Sky130Decap::FillDecapsRight
// (src/atoms/sky130_decap.cc), with internal units equal to nanometres.

module Decaps {
  import Utility
  import opened Basics
  import opened Rows
  import opened RowGuides

  const MAX_WIDTH_NM := 5520
  const MIN_WIDTH_NM := 1380
  const STANDARD_CELL_UNIT_WIDTH_NM := 460

  /** A width for which the Sky130Decap constructor is not fatal. */
  predicate IsDecapWidth(width: int) {
    MIN_WIDTH_NM <= width <= MAX_WIDTH_NM
  }

  function MakeDecap(height: nat, width: int): Cell
    requires IsDecapWidth(width)
  {
    Cell(width, height)
  }

  /** The row after decaps of these widths were placed at its back, each as tall as the row. */
  function Filled(row: Row, widths: seq<int>): Row
    requires forall k | 0 <= k < |widths| :: widths[k] >= 0
  {
    if widths == [] then row
    else
      var before := Filled(row, widths[..|widths| - 1]);
      InstantiateBack(before, Cell(widths[|widths| - 1], MaxHeight(before.boxes)))
  }

  lemma EnoughForEachDecap(count: int, sum: int)
    requires count >= 1 && sum >= MIN_WIDTH_NM
    requires (count - 1) * MAX_WIDTH_NM < sum
    ensures sum >= count * MIN_WIDTH_NM
  {
  }

  /** The widths that FillDecapsRight asks for add up to all of the span but less than one unit. */
  ghost predicate AreDecapsFor(span: int, widths: seq<int>) {
    && (forall k | 0 <= k < |widths| ::
          1380 <= widths[k] <= 5520 && Utility.IsMultiple(widths[k], 460))
    && if span < 1380 then widths == [] else Utility.Sum(widths) <= span < Utility.Sum(widths) + 460
  }

  /** Strip-mines the span; no part is one that the decap generator refuses. */
  method DecapWidths(span: int) returns (widths: seq<int>)
    requires span < 0 || span >= MIN_WIDTH_NM
    ensures AreDecapsFor(span, widths)
  {
    var logged;
    widths, logged := Utility.StripInUnits(
      span, MAX_WIDTH_NM, STANDARD_CELL_UNIT_WIDTH_NM, Some(MIN_WIDTH_NM));
    assert Utility.RoundDown(MAX_WIDTH_NM, STANDARD_CELL_UNIT_WIDTH_NM) == MAX_WIDTH_NM;
    assert Utility.RoundDown(MIN_WIDTH_NM, STANDARD_CELL_UNIT_WIDTH_NM) == MIN_WIDTH_NM;
    if span >= 0 {
      Utility.RoundDownBounds(span, STANDARD_CELL_UNIT_WIDTH_NM);
      Utility.MultipleBelow(MIN_WIDTH_NM, span, STANDARD_CELL_UNIT_WIDTH_NM);
      EnoughForEachDecap(|widths|, Utility.RoundDown(span, STANDARD_CELL_UNIT_WIDTH_NM));
    }
  }

  /** Fills the back of a row with decaps up to the given span; an empty row has no height to go by. */
  method FillDecapsRight(span: int, row: RowGuide) returns (ghost widths: seq<int>)
    modifies row
    ensures AreDecapsFor(span, widths)
    ensures row.Value() == if old(row.instances) == [] then old(row.Value()) else Filled(old(row.Value()), widths)
  {
    // The comparison is unsigned, so a negative span is not caught here; it
    // strip-mines into nothing.
    if 0 <= span < MIN_WIDTH_NM {
      widths := [];
      return;
    }
    var decapWidths := DecapWidths(span);
    widths := decapWidths;
    if row.instances == [] {
      return;
    }
    for k := 0 to |decapWidths|
      invariant row.Value() == Filled(old(row.Value()), decapWidths[..k])
    {
      assert decapWidths[..k + 1][..k] == decapWidths[..k];
      var height := row.Height();
      row.InstantiateBack(MakeDecap(height, decapWidths[k]));
    }
    assert decapWidths[..|decapWidths|] == decapWidths;
  }
}
