// MemoryBank (src/memory_bank.h, src/memory_bank.cc): a collection of rows that
// creates rows as needed and re-aligns them after each placement.

module MemoryBanks {
  import opened Basics
  import opened Rows
  import opened RowGuides
  import opened Banks

  /** The values of some rows. */
  ghost function Values(rows: seq<RowGuide>): (vs: seq<Row>)
    reads rows
    ensures |vs| == |rows| && forall k | 0 <= k < |rows| :: vs[k] == rows[k].Value()
  {
    seq(|rows|, k requires 0 <= k < |rows| reads rows => rows[k].Value())
  }

  lemma ValuesOfTwo(front: seq<RowGuide>, back: seq<RowGuide>)
    ensures Values(front + back) == Values(front) + Values(back)
  {
  }

  lemma ValuesOfOne(row: RowGuide)
    ensures Values([row]) == [row.Value()]
  {
  }

  class MemoryBank {
    var rows: seq<RowGuide>
    var tapCell: Option<Cell>
    var rotateAlternateRows: bool
    var rotateFirstRow: bool
    var alignment: Option<Side>

    // The row objects of this bank.
    ghost var Repr: set<RowGuide>

    /** The rows are different objects. */
    ghost predicate Valid()
      reads this
    {
      && (forall k | 0 <= k < |rows| :: rows[k] in Repr)
      && (forall j, k | 0 <= j < k < |rows| :: rows[j] != rows[k])
    }

    ghost function Value(): Bank
      reads this, rows
    {
      Bank(Values(rows), tapCell, rotateAlternateRows, rotateFirstRow, alignment)
    }

    constructor (tapCell: Option<Cell>, rotateAlternateRows: bool, rotateFirstRow: bool, alignment: Option<Side>)
      ensures Valid() && rows == [] && Repr == {}
      ensures Value() == EmptyBank(tapCell, rotateAlternateRows, rotateFirstRow, alignment)
    {
      rows, Repr := [], {};
      this.tapCell, this.alignment := tapCell, alignment;
      this.rotateAlternateRows, this.rotateFirstRow := rotateAlternateRows, rotateFirstRow;
    }

    method MakeRow(index: nat, y: int) returns (row: RowGuide)
      ensures fresh(row) && row.Value() == NewRow(Value(), index, y)
    {
      row := new RowGuide(Point(0, y));
      if rotateAlternateRows {
        row.SetRotateInstances(RowIsRotated(rotateFirstRow, index));
      }
      if tapCell.Some? {
        row.SetTapCell(tapCell.value);
      }
    }

    /** The row at this index; missing rows up to it are created on top of the last. */
    method Row(index: nat) returns (row: RowGuide)
      requires Valid()
      modifies this`rows, this`Repr
      ensures Valid() && Value() == WithRow(old(Value()), index)
      ensures old(rows) <= rows && fresh(Repr - old(Repr))
      ensures index < |rows| && row == rows[index]
    {
      hide NewRow, NewRows, TilingBounds, Values;
      if index >= |rows| {
        var y := 0;
        if rows != [] {
          y := rows[|rows| - 1].UpperLeftPoint().y;
        }
        AppendRows(index, y);
      }
      row := rows[index];
    }

    method AppendRows(index: nat, y: int)
      requires Valid() && index >= |rows|
      modifies this`rows, this`Repr
      ensures Valid() && old(rows) <= rows && fresh(Repr - old(Repr))
      ensures Value() == old(Value()).(rows := old(Value()).rows + NewRows(old(Value()), |old(rows)|, index + 1, y))
    {
      hide NewRow, NewRows, Values;
      ghost var before := Value();
      for i := |rows| to index + 1
        invariant Valid() && old(rows) <= rows && fresh(Repr - old(Repr))
        invariant Value() == before.(rows := before.rows + NewRows(before, |before.rows|, i, y))
      {
        NewRowsStep(before, |before.rows|, i, y, Value());
        AppendRow(i, y);
      }
    }

    method AppendRow(index: nat, y: int)
      requires Valid()
      modifies this`rows, this`Repr
      ensures Valid() && |rows| == |old(rows)| + 1 && old(rows) <= rows && fresh(Repr - old(Repr))
      ensures Value() == old(Value()).(rows := old(Value()).rows + [NewRow(old(Value()), index, y)])
    {
      hide NewRow, Values;
      ghost var before := Value();
      var added := MakeRow(index, y);
      ValuesOfOne(added);
      ValuesOfTwo(rows, [added]);
      rows, Repr := rows + [added], Repr + {added};
    }

    lemma NewRowsStep(bank: Bank, first: nat, end: nat, y: int, b: Bank)
      requires first <= end && b == bank.(rows := bank.rows + NewRows(bank, first, end, y))
      ensures b.(rows := b.rows + [NewRow(b, end, y)]) == bank.(rows := bank.rows + NewRows(bank, first, end + 1, y))
    {
      assert NewRows(bank, first, end + 1, y) == NewRows(bank, first, end, y) + [NewRow(bank, end, y)];
    }

    /** Where a row goes that is inserted below the first one. */
    method RowZeroOffset() returns (y: int)
      ensures y == Banks.RowZeroOffset(Value())
    {
      hide TilingBounds;
      y := 0;
      if |rows| > 0 {
        var bounds := rows[0].GetTilingBounds();
        if bounds.Some? {
          y := rows[0].origin.y - bounds.value.Height();
        }
      }
    }

    /** Inserts an empty row below the first one; existing rows keep their rotation. */
    method InsertRowZero() returns (row: RowGuide)
      requires Valid()
      modifies this`rows, this`Repr, this`rotateFirstRow
      ensures Valid() && rows == [row] + old(rows) && fresh(Repr - old(Repr))
      ensures Value() == Banks.InsertRowZero(old(Value()))
    {
      hide TilingBounds, NewRow, Banks.RowZeroOffset, Values;
      var yOffset := RowZeroOffset();
      ghost var before := Value();
      if rotateAlternateRows {
        rotateFirstRow := !rotateFirstRow;
      }
      ghost var flipped := Value();
      assert flipped == before.(rotateFirstRow := before.rotateAlternateRows != before.rotateFirstRow);
      row := MakeRow(0, yOffset);
      PutBelow(row);
    }

    method PutBelow(row: RowGuide)
      requires Valid() && row !in Repr
      modifies this`rows, this`Repr
      ensures Valid() && rows == [row] + old(rows) && Repr == old(Repr) + {row}
      ensures Value() == old(Value()).(rows := [row.Value()] + old(Value()).rows)
    {
      hide Values;
      ValuesOfOne(row);
      ValuesOfTwo([row], rows);
      rows, Repr := [row] + rows, Repr + {row};
    }

    method SetRowTapCell(index: nat, cell: Option<Cell>)
      requires Valid()
      modifies this`rows, this`Repr, Repr
      ensures Valid() && old(rows) <= rows && fresh(Repr - old(Repr))
      ensures Value() == Banks.SetRowTapCell(old(Value()), index, cell)
    {
      var row := Row(index);
      ghost var b := Value();
      if cell.Some? {
        row.SetTapCell(cell.value);
      } else {
        row.ClearTapCell();
      }
      assert Value().rows == b.rows[index := b.rows[index].(tapCell := cell)];
    }

    method MoveTo(point: Point)
      requires Valid()
      modifies Repr
      ensures Valid() && rows == old(rows) && Value() == MoveBank(old(Value()), point)
    {
      if rows == [] {
        return;
      }
      ghost var before := Value();
      var firstRowOrigin := rows[0].origin;
      for k := 0 to |rows|
        invariant rows == old(rows)
        invariant forall j | 0 <= j < k :: rows[j].Value() == MoveBank(before, point).rows[j]
        invariant forall j | k <= j < |rows| :: rows[j].Value() == before.rows[j]
      {
        rows[k].MoveTo(Point(point.x + rows[k].origin.x - firstRowOrigin.x, point.y + rows[k].origin.y - firstRowOrigin.y));
      }
      assert Value().rows == MoveBank(before, point).rows;
    }

    method EnsureVerticalAbutment()
      requires Valid() && rows != []
      modifies Repr
      ensures rows == old(rows)
      ensures Values(rows) == Abutted(old(Values(rows)), old(rows[0].origin.y))
    {
      hide Abutted, Rows.MoveTo, MaxHeight, LowerLeft;
      ghost var before := Values(rows);
      var lastY, lastRowHeight := rows[0].origin.y, 0;
      ghost var done: seq<Rows.Row> := [];
      for i := 0 to |rows|
        invariant rows == old(rows) && |done| == i
        invariant done + Abutted(before[i..], lastY + lastRowHeight) == Abutted(before, old(rows[0].origin.y))
        invariant forall j | 0 <= j < i :: rows[j].Value() == done[j]
        invariant forall j | i <= j < |rows| :: rows[j].Value() == before[j]
      {
        var row := rows[i];
        AbuttedFrom(before, i, lastY + lastRowHeight);
        row.MoveTo(Point(row.origin.x, lastY + lastRowHeight));
        done := done + [row.Value()];
        lastY := row.LowerLeftPoint().y;
        lastRowHeight := row.Height();
      }
      NothingAbutted(before[|rows|..], lastY + lastRowHeight);
      assert Values(rows) == done;
    }

    lemma NothingAbutted(rows: seq<Rows.Row>, y: int)
      ensures rows == [] ==> Abutted(rows, y) == []
    {
    }

    method LeftMostX() returns (x: int)
      ensures x == LeftMost(Values(rows))
    {
      ghost var vs := Values(rows);
      x := 0;
      for i := 0 to |rows|
        invariant x == LeftMost(vs[..i])
      {
        assert vs[..i + 1][..i] == vs[..i];
        x := Min(x, rows[i].LowerLeftPoint().x);
      }
      assert vs[..|rows|] == vs;
    }

    method AlignLeft()
      requires Valid()
      modifies Repr
      ensures rows == old(rows) && Values(rows) == LeftAligned(old(Values(rows)))
    {
      hide Rows.MoveLowerLeft, Rows.LowerLeft, Banks.LeftMost;
      ghost var before := Values(rows);
      var x := LeftMostX();
      for i := 0 to |rows|
        invariant rows == old(rows)
        invariant forall j | 0 <= j < i :: rows[j].Value() == LeftAligned(before)[j]
        invariant forall j | i <= j < |rows| :: rows[j].Value() == before[j]
      {
        rows[i].MoveLowerLeft(Point(x, rows[i].LowerLeftPoint().y));
      }
    }

    method RightMostX() returns (x: int)
      ensures x == RightMost(Values(rows))
    {
      ghost var vs := Values(rows);
      x := 0;
      for i := 0 to |rows|
        invariant x == RightMost(vs[..i])
      {
        assert vs[..i + 1][..i] == vs[..i];
        x := Max(x, rows[i].LowerRightPoint().x);
      }
      assert vs[..|rows|] == vs;
    }

    method AlignRight()
      requires Valid()
      modifies Repr
      ensures rows == old(rows) && Values(rows) == RightAligned(old(Values(rows)))
    {
      hide Rows.MoveLowerRight, Rows.LowerRight, Banks.RightMost;
      ghost var before := Values(rows);
      var x := RightMostX();
      for i := 0 to |rows|
        invariant rows == old(rows)
        invariant forall j | 0 <= j < i :: rows[j].Value() == RightAligned(before)[j]
        invariant forall j | i <= j < |rows| :: rows[j].Value() == before[j]
      {
        rows[i].MoveLowerRight(Point(x, rows[i].LowerRightPoint().y));
      }
    }

    method FixAlignments()
      requires Valid()
      modifies Repr
      ensures rows == old(rows) && Value() == Banks.FixAlignments(old(Value()))
    {
      hide Abutted, LeftAligned, RightAligned;
      if rows == [] {
        return;
      }
      EnsureVerticalAbutment();
      match alignment
      case None =>
      case Some(LeftSide) => AlignLeft();
      case Some(RightSide) => AlignRight();
    }

    method InstantiateRight(rowIndex: nat, cell: Cell)
      requires Valid()
      modifies this`rows, this`Repr, Repr
      ensures Valid() && old(rows) <= rows && fresh(Repr - old(Repr))
      ensures Value() == Banks.InstantiateRight(old(Value()), rowIndex, cell)
    {
      var row := Row(rowIndex);
      ghost var b := Value();
      row.InstantiateBack(cell);
      assert Value().rows == b.rows[rowIndex := Rows.InstantiateBack(b.rows[rowIndex], cell)];
      FixAlignments();
    }

    method InstantiateLeft(rowIndex: nat, cell: Cell)
      requires Valid()
      modifies this`rows, this`Repr, Repr
      ensures Valid() && old(rows) <= rows && fresh(Repr - old(Repr))
      ensures Value() == Banks.InstantiateLeft(old(Value()), rowIndex, cell)
    {
      var row := Row(rowIndex);
      ghost var b := Value();
      row.InstantiateAndInsertFront(cell);
      assert Value().rows == b.rows[rowIndex := Rows.InstantiateAndInsertFront(b.rows[rowIndex], cell)];
      FixAlignments();
    }

    method InstantiateInside(rowIndex: nat, cell: Cell)
      requires Valid()
      modifies this`rows, this`Repr, Repr
      ensures Valid() && old(rows) <= rows && fresh(Repr - old(Repr))
      ensures Value() == Banks.InstantiateInside(old(Value()), rowIndex, cell)
    {
      match alignment
      case None => InstantiateRight(rowIndex, cell);
      case Some(LeftSide) => InstantiateRight(rowIndex, cell);
      case Some(RightSide) => InstantiateLeft(rowIndex, cell);
    }

    method GetTilingBounds() returns (bounds: Option<Rect>)
      ensures bounds == Covering(Values(rows))
    {
      ghost var vs := Values(rows);
      bounds := None;
      for k := 0 to |rows|
        invariant bounds == Covering(vs[..k])
      {
        assert vs[..k + 1][..k] == vs[..k];
        var rowBox := rows[k].GetTilingBounds();
        if rowBox.Some? {
          if bounds.None? {
            bounds := rowBox;
          } else {
            bounds := Some(bounds.value.Covering(rowBox.value));
          }
        }
      }
      assert vs[..|rows|] == vs;
    }
  }
}
