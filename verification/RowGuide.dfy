// RowGuide (src/row_guide.h, src/row_guide.cc): a row of cells that grows at
// both ends, inserts taps on its own and can be moved as a whole.

module RowGuides {
  import opened Basics
  import opened Rows

  class RowGuide {
    var origin: Point
    var rotateInstances: bool
    var tapCell: Option<Cell>
    var instances: seq<Box>
    var numTaps: nat
    var distanceToTapLeft: int
    var distanceToTapRight: int

    ghost function Value(): Row
      reads this
    {
      Row(origin, rotateInstances, tapCell, instances, numTaps, distanceToTapLeft, distanceToTapRight)
    }

    constructor (origin: Point)
      ensures Value() == EmptyRow(origin, false, None)
    {
      this.origin, rotateInstances, tapCell, instances := origin, false, None, [];
      numTaps, distanceToTapLeft, distanceToTapRight := 0, 0, 0;
    }

    method SetRotateInstances(rotate: bool)
      modifies this`rotateInstances
      ensures Value() == old(Value()).(rotate := rotate)
    {
      rotateInstances := rotate;
    }

    method SetTapCell(cell: Cell)
      modifies this`tapCell
      ensures Value() == Apply(old(Value()), SetTap(cell))
    {
      tapCell := Some(cell);
    }

    method ClearTapCell()
      modifies this`tapCell
      ensures Value() == Apply(old(Value()), ClearTap)
    {
      tapCell := None;
    }

    predicate NeedsTapFor(currentDistance: int, additionalSpan: nat)
      reads this
    {
      // start_with_tap_ is always set.
      if tapCell.None? then false
      else if numTaps == 0 then true
      else currentDistance + additionalSpan > MAX_TAP_DISTANCE
    }

    function NextLeft(toAdd: Cell): Point
      reads this
    {
      if instances == [] then origin
      else
        var existing := instances[0];
        var midY := existing.y + existing.height / 2;
        Point(existing.x - toAdd.width, midY - toAdd.height / 2)
    }

    function NextRight(toAdd: Cell): Point
      reads this
    {
      if instances == [] then origin
      else
        var existing := instances[|instances| - 1];
        var midY := existing.y + existing.height / 2;
        Point(existing.x + existing.width, midY - toAdd.height / 2)
    }

    /** A cell lengthens both distances until there is a tap, then only the one on its side. */
    method AccountForPlacement(span: nat, onLeft: bool)
      modifies this`distanceToTapLeft, this`distanceToTapRight
      ensures distanceToTapLeft == old(distanceToTapLeft) + if onLeft || numTaps == 0 then span else 0
      ensures distanceToTapRight == old(distanceToTapRight) + if !onLeft || numTaps == 0 then span else 0
    {
      if numTaps == 0 {
        distanceToTapRight := distanceToTapRight + span;
        distanceToTapLeft := distanceToTapLeft + span;
      } else if onLeft {
        distanceToTapLeft := distanceToTapLeft + span;
      } else {
        distanceToTapRight := distanceToTapRight + span;
      }
    }

    method MaybeAddTapLeftFor(additionalSpan: nat)
      modifies this
      ensures Value() == MaybeTapLeft(old(Value()), additionalSpan)
    {
      if !NeedsTapFor(distanceToTapLeft, additionalSpan) {
        return;
      }
      numTaps := numTaps + 1;
      var point := NextLeft(tapCell.value);
      distanceToTapLeft := 0;
      instances := [Box(point.x, point.y, tapCell.value.width, tapCell.value.height, rotateInstances, true)] + instances;
    }

    method MaybeAddTapRightFor(additionalSpan: nat)
      modifies this
      ensures Value() == MaybeTapRight(old(Value()), additionalSpan)
    {
      if !NeedsTapFor(distanceToTapRight, additionalSpan) {
        return;
      }
      numTaps := numTaps + 1;
      var point := NextRight(tapCell.value);
      distanceToTapRight := 0;
      instances := instances + [Box(point.x, point.y, tapCell.value.width, tapCell.value.height, rotateInstances, true)];
    }

    method InstantiateBack(cell: Cell)
      modifies this
      ensures Value() == Rows.InstantiateBack(old(Value()), cell)
    {
      MaybeAddTapRightFor(cell.width);
      var point := NextRight(cell);
      AccountForPlacement(cell.width, false);
      instances := instances + [Box(point.x, point.y, cell.width, cell.height, rotateInstances, false)];
    }

    method InstantiateFront(cell: Cell)
      modifies this
      ensures Value() == Rows.InstantiateFront(old(Value()), cell)
    {
      MaybeAddTapLeftFor(cell.width);
      var point := NextLeft(cell);
      AccountForPlacement(cell.width, true);
      instances := [Box(point.x, point.y, cell.width, cell.height, rotateInstances, false)] + instances;
    }

    method InstantiateAndInsertFront(cell: Cell)
      modifies this
      ensures Value() == Rows.InstantiateAndInsertFront(old(Value()), cell)
    {
      var startingX := if instances == [] then origin.x else instances[0].x;
      InstantiateFront(cell);
      var endingX := instances[0].x;
      ShiftAllRight(startingX - endingX);
    }

    method ShiftAllRight(x: int)
      modifies this`instances
      ensures instances == Moved(old(instances), x, 0)
    {
      for k := 0 to |instances|
        invariant |instances| == |old(instances)|
        invariant forall j | 0 <= j < k :: instances[j] == old(instances)[j].Moved(x, 0)
        invariant forall j | k <= j < |instances| :: instances[j] == old(instances)[j]
      {
        instances := instances[k := instances[k].Moved(x, 0)];
      }
    }

    /** Moves the origin; every instance keeps its position relative to it. */
    method MoveTo(newOrigin: Point)
      modifies this`instances, this`origin
      ensures Value() == Rows.MoveTo(old(Value()), newOrigin)
    {
      var oldOrigin := origin;
      for k := 0 to |instances|
        invariant |instances| == |old(instances)| && origin == oldOrigin
        invariant forall j | 0 <= j < k ::
                    instances[j] == old(instances)[j].Moved(newOrigin.x - oldOrigin.x, newOrigin.y - oldOrigin.y)
        invariant forall j | k <= j < |instances| :: instances[j] == old(instances)[j]
      {
        var relative := Point(instances[k].x - oldOrigin.x, instances[k].y - oldOrigin.y);
        instances := instances[k := instances[k].(x := relative.x + newOrigin.x, y := relative.y + newOrigin.y)];
      }
      origin := newOrigin;
    }

    function LowerLeftPoint(): (p: Point)
      reads this
      ensures p == LowerLeft(Value())
    {
      if instances == [] then origin
      else Point(Min(instances[0].x, origin.x), instances[0].y)
    }

    function LowerRightPoint(): (p: Point)
      reads this
      ensures p == LowerRight(Value())
    {
      if instances == [] then origin
      else
        var last := instances[|instances| - 1];
        Point(Max(last.x + last.width, origin.x), last.y)
    }

    function UpperLeftPoint(): (p: Point)
      reads this
      ensures p == UpperLeft(Value())
    {
      if instances == [] then origin
      else Point(Min(instances[0].x, origin.x), instances[0].y + instances[0].height)
    }

    /** Moves the row as a whole so that its lower-left corner gets to a point. */
    method MoveLowerLeft(newLowerLeft: Point)
      modifies this`instances, this`origin
      ensures LowerLeft(Value()) == newLowerLeft && Value() == Rows.MoveTo(old(Value()), origin)
      ensures Value() == Rows.MoveLowerLeft(old(Value()), newLowerLeft)
    {
      MovedCornerArrives(Value(), newLowerLeft);
      var corner := LowerLeftPoint();
      MoveTo(Point(newLowerLeft.x + origin.x - corner.x, newLowerLeft.y + origin.y - corner.y));
    }

    /** Moves the row as a whole so that its lower-right corner gets to a point. */
    method MoveLowerRight(newLowerRight: Point)
      modifies this`instances, this`origin
      ensures LowerRight(Value()) == newLowerRight && Value() == Rows.MoveTo(old(Value()), origin)
      ensures Value() == Rows.MoveLowerRight(old(Value()), newLowerRight)
    {
      MovedCornerArrives(Value(), newLowerRight);
      var corner := LowerRightPoint();
      MoveTo(Point(newLowerRight.x + origin.x - corner.x, newLowerRight.y + origin.y - corner.y));
    }

    method Width() returns (width: nat)
      ensures width == TotalWidth(instances)
    {
      width := 0;
      for k := 0 to |instances|
        invariant width == TotalWidth(instances[..k])
      {
        assert instances[..k + 1][..k] == instances[..k];
        width := width + instances[k].width;
      }
      assert instances[..|instances|] == instances;
    }

    method Height() returns (height: nat)
      ensures height == MaxHeight(instances)
    {
      height := 0;
      for k := 0 to |instances|
        invariant height == MaxHeight(instances[..k])
      {
        assert instances[..k + 1][..k] == instances[..k];
        if instances[k].height > height {
          height := instances[k].height;
        }
      }
      assert instances[..|instances|] == instances;
    }

    method GetTilingBounds() returns (bounds: Option<Rect>)
      ensures bounds == if instances == [] then None else Some(TilingBounds(instances))
    {
      if instances == [] {
        return None;
      }
      var box := BoundsOf(instances[0]);
      assert instances[..1] == [instances[0]];
      for k := 1 to |instances|
        invariant box == TilingBounds(instances[..k])
      {
        assert instances[..k + 1][..k] == instances[..k];
        box := box.Covering(BoundsOf(instances[k]));
      }
      assert instances[..|instances|] == instances;
      bounds := Some(box);
    }

    method AvailableRightSpanUpTo(max: nat) returns (span: int)
      requires RowOk(Value()) && tapCell.Some?
      ensures span == AvailableRightSpan(Value(), max)
      ensures max < TotalWidth(instances) ==> span == max - TotalWidth(instances)
      ensures max >= TotalWidth(instances) ==>
                exists taps: nat :: WholeLimits(Value(), max, taps) && span == max - TotalWidth(instances) - taps * tapCell.value.width
    {
      SpanByWidths(Value(), max);
      var currentSpan := Width();
      var toCover := max - currentSpan;
      if toCover < 0 {
        return toCover;
      }
      var distanceFromTaps := distanceToTapRight + toCover;
      var taps := distanceFromTaps / MAX_TAP_DISTANCE;
      span := toCover - taps * tapCell.value.width;
    }
  }
}
