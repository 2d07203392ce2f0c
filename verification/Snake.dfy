// The scan order of the memories of an interconnect mux
// (src/atoms/sky130_interconnect_mux1.cc, AddMemoriesVertically): rows are
// traversed in alternating directions, so that consecutive memories are
// neighbours.

module Snake {
  import Utility
  import opened Basics

  // A memory, by the bank's row and its column there.
  datatype Memory = Memory(row: nat, column: nat)

  predicate Neighbours(a: Memory, b: Memory) {
    || (a.row == b.row && (a.column == b.column + 1 || b.column == a.column + 1))
    || (a.column == b.column && (a.row == b.row + 1 || b.row == a.row + 1))
  }

  predicate IsReversed(row: nat, rows: nat, alternate: bool) {
    row % 2 == if alternate != (rows % 2 == 0) then 1 else 0
  }

  /** The memory at a place in the scan order. */
  function MemoryAt(first: nat, rows: nat, columns: nat, alternate: bool, k: nat): Memory
    requires columns > 0
  {
    var row, column := first + k / columns, k % columns;
    Memory(row, if IsReversed(row, rows, alternate) then columns - 1 - column else column)
  }

  lemma PlaceInRow(columns: nat, r: nat, c: nat)
    requires c < columns
    ensures (r * columns + c) / columns == r && (r * columns + c) % columns == c
  {
    Utility.UniqueDivision(r * columns + c, columns, r, c);
  }

  lemma PlaceIsInRow(rows: nat, columns: nat, k: nat)
    requires k < rows * columns
    ensures columns > 0 && k / columns < rows && k == (k / columns) * columns + k % columns
  {
    if k / columns >= rows {
      ProductGrows(rows, k / columns, columns);
    }
  }

  /** Every memory of the grid once, consecutive ones next to each other, row after row. */
  ghost predicate IsSnake(first: nat, rows: nat, columns: nat, memories: seq<Memory>) {
    && |memories| == rows * columns
    && (forall m: Memory :: m in memories <==> first <= m.row < first + rows && m.column < columns)
    && (forall j, k | 0 <= j < k < |memories| :: memories[j] != memories[k])
    && (forall k | 0 < k < |memories| :: Neighbours(memories[k - 1], memories[k]))
    && (forall j, k | 0 <= j < k < |memories| :: memories[j].row <= memories[k].row)
  }

  /** With one column there is only one way: from row to row upwards. */
  lemma {:induction false} SnakeOfOneColumn(first: nat, rows: nat, memories: seq<Memory>, k: nat)
    requires IsSnake(first, rows, 1, memories) && k < rows
    ensures |memories| == rows && memories[k] == Memory(first + k, 0)
  {
    assert memories[k] in memories;
    if k == 0 {
      assert Memory(first, 0) in memories;
      var j :| 0 <= j < |memories| && memories[j] == Memory(first, 0);
    } else {
      SnakeOfOneColumn(first, rows, memories, k - 1);
      assert Neighbours(memories[k - 1], memories[k]) && memories[k - 1] != memories[k];
    }
  }

  lemma MemoryAtIsOnto(first: nat, rows: nat, columns: nat, alternate: bool, m: Memory) returns (k: nat)
    requires first <= m.row < first + rows && m.column < columns
    ensures k < rows * columns && MemoryAt(first, rows, columns, alternate, k) == m
  {
    var r := m.row - first;
    var c := if IsReversed(m.row, rows, alternate) then columns - 1 - m.column else m.column;
    k := r * columns + c;
    PlaceInRow(columns, r, c);
    ProductGrows(r + 1, rows, columns);
  }

  lemma MemoryAtIsDistinct(first: nat, rows: nat, columns: nat, alternate: bool, j: nat, k: nat)
    requires columns > 0 && MemoryAt(first, rows, columns, alternate, j) == MemoryAt(first, rows, columns, alternate, k)
    ensures j == k
  {
    assert j == (j / columns) * columns + j % columns;
    assert k == (k / columns) * columns + k % columns;
  }

  lemma NextIsNeighbour(first: nat, rows: nat, columns: nat, alternate: bool, k: nat)
    requires columns > 0 && k > 0
    ensures Neighbours(MemoryAt(first, rows, columns, alternate, k - 1), MemoryAt(first, rows, columns, alternate, k))
  {
    var r, c := k / columns, k % columns;
    assert k == r * columns + c;
    if c > 0 {
      PlaceInRow(columns, r, c - 1);
    } else {
      assert r > 0;
      assert k - 1 == (r - 1) * columns + (columns - 1);
      PlaceInRow(columns, r - 1, columns - 1);
    }
  }

  lemma QuotientGrows(columns: nat, j: nat, k: nat)
    requires columns > 0 && j <= k
    ensures j / columns <= k / columns
  {
    var p, q := j / columns, k / columns;
    assert k == q * columns + k % columns && j == p * columns + j % columns;
    NextRowBase(q, columns);
    if p > q {
      ProductGrows(q + 1, p, columns);
    }
  }

  lemma RowsAscend(first: nat, rows: nat, columns: nat, alternate: bool, j: nat, k: nat)
    requires columns > 0 && j <= k
    ensures MemoryAt(first, rows, columns, alternate, j).row <= MemoryAt(first, rows, columns, alternate, k).row
  {
    QuotientGrows(columns, j, k);
    hide IsReversed;
  }

  lemma MemoriesAreSnake(first: nat, rows: nat, columns: nat, alternate: bool, memories: seq<Memory>)
    requires columns > 0 && |memories| == rows * columns
    requires forall k | 0 <= k < |memories| :: memories[k] == MemoryAt(first, rows, columns, alternate, k)
    ensures IsSnake(first, rows, columns, memories)
  {
    hide MemoryAt, Neighbours;
    forall m: Memory | first <= m.row < first + rows && m.column < columns ensures m in memories {
      var k := MemoryAtIsOnto(first, rows, columns, alternate, m);
      assert memories[k] == m;
    }
    forall m | m in memories ensures first <= m.row < first + rows && m.column < columns {
      var k :| 0 <= k < |memories| && memories[k] == m;
      MemoryAtIsInGrid(first, rows, columns, alternate, k);
    }
    forall j, k | 0 <= j < k < |memories| ensures memories[j] != memories[k] {
      if memories[j] == memories[k] {
        MemoryAtIsDistinct(first, rows, columns, alternate, j, k);
      }
    }
    forall k | 0 < k < |memories| ensures Neighbours(memories[k - 1], memories[k]) {
      NextIsNeighbour(first, rows, columns, alternate, k);
    }
    forall j, k | 0 <= j < k < |memories| ensures memories[j].row <= memories[k].row {
      RowsAscend(first, rows, columns, alternate, j, k);
    }
  }

  lemma MemoryAtIsInGrid(first: nat, rows: nat, columns: nat, alternate: bool, k: nat)
    requires k < rows * columns && columns > 0
    ensures first <= MemoryAt(first, rows, columns, alternate, k).row < first + rows
    ensures MemoryAt(first, rows, columns, alternate, k).column < columns
  {
    PlaceIsInRow(rows, columns, k);
  }

  lemma NextRowBase(r: nat, columns: nat)
    ensures (r + 1) * columns == r * columns + columns
  {
  }

  lemma MemoryInRow(first: nat, rows: nat, columns: nat, alternate: bool, r: nat, c: nat)
    requires c < columns
    ensures MemoryAt(first, rows, columns, alternate, r * columns + c) ==
            Memory(first + r, if IsReversed(first + r, rows, alternate) then columns - 1 - c else c)
  {
    hide IsReversed;
    PlaceInRow(columns, r, c);
  }

  lemma LastRowIsReversed(first: nat, rows: nat, alternate: bool)
    requires rows > 0
    ensures IsReversed(first + rows - 1, rows, alternate) <==> alternate == (first % 2 == 1)
  {
  }

  /** Where the scan order leaves the last row. */
  lemma LastMemory(first: nat, rows: nat, columns: nat, alternate: bool)
    requires rows > 0 && columns > 0
    ensures rows * columns > 0
    ensures MemoryAt(first, rows, columns, alternate, rows * columns - 1) ==
            Memory(first + rows - 1, if alternate == (first % 2 == 1) then 0 else columns - 1)
  {
    hide MemoryAt, IsReversed;
    NextRowBase(rows - 1, columns);
    LastRowIsReversed(first, rows, alternate);
    MemoryInRow(first, rows, columns, alternate, rows - 1, columns - 1);
  }

  /** The slots of the scan order up to row `i` and, within it, column `j`. */
  ghost predicate FilledUpTo(memories: seq<Option<Memory>>, first: nat, rows: nat, columns: nat, alternate: bool,
      i: nat, j: nat)
    requires columns > 0 && first <= i && j <= columns
  {
    var base := (i - first) * columns;
    && |memories| == rows * columns
    && forall k | 0 <= k < |memories| ::
         memories[k] == if k < base || (k < base + columns && (if IsReversed(i, rows, alternate)
             then k >= base + columns - j else k < base + j))
                        then Some(MemoryAt(first, rows, columns, alternate, k)) else None
  }

  lemma SlotTakesMemory(first: nat, rows: nat, columns: nat, alternate: bool, i: nat, j: nat) returns (slot: nat)
    requires first <= i < first + rows && j < columns
    ensures slot == if IsReversed(i, rows, alternate) then (i - first + 1) * columns - (j + 1) else (i - first) * columns + j
    ensures slot < rows * columns && MemoryAt(first, rows, columns, alternate, slot) == Memory(i, j)
  {
    hide MemoryAt, IsReversed;
    var r := i - first;
    var c := if IsReversed(i, rows, alternate) then columns - 1 - j else j;
    NextRowBase(r, columns);
    ProductGrows(r + 1, rows, columns);
    MemoryInRow(first, rows, columns, alternate, r, c);
    slot := r * columns + c;
  }

  lemma RowDone(memories: seq<Option<Memory>>, first: nat, rows: nat, columns: nat, alternate: bool, i: nat)
    requires columns > 0 && first <= i && FilledUpTo(memories, first, rows, columns, alternate, i, columns)
    ensures FilledUpTo(memories, first, rows, columns, alternate, i + 1, 0)
  {
    hide MemoryAt;
    NextRowBase(i - first, columns);
  }

  lemma NothingFilled(memories: seq<Option<Memory>>, first: nat, rows: nat, columns: nat, alternate: bool)
    requires columns > 0 && |memories| == rows * columns && forall k | 0 <= k < |memories| :: memories[k] == None
    ensures FilledUpTo(memories, first, rows, columns, alternate, first, 0)
  {
    hide MemoryAt, IsReversed;
  }

  lemma SlotFilled(memories: seq<Option<Memory>>, first: nat, rows: nat, columns: nat, alternate: bool, i: nat,
      j: nat, slot: nat)
    requires first <= i < first + rows && j < columns && FilledUpTo(memories, first, rows, columns, alternate, i, j)
    requires slot == if IsReversed(i, rows, alternate) then (i - first + 1) * columns - (j + 1) else (i - first) * columns + j
    requires slot < rows * columns && MemoryAt(first, rows, columns, alternate, slot) == Memory(i, j)
    ensures memories[slot] == None
    ensures FilledUpTo(memories[slot := Some(Memory(i, j))], first, rows, columns, alternate, i, j + 1)
  {
    hide MemoryAt, IsReversed;
    NextRowBase(i - first, columns);
  }

  lemma AllFilled(memories: seq<Option<Memory>>, first: nat, rows: nat, columns: nat, alternate: bool)
    requires columns > 0 && FilledUpTo(memories, first, rows, columns, alternate, first + rows, 0)
    ensures |memories| == rows * columns
    ensures forall k | 0 <= k < |memories| :: memories[k] == Some(MemoryAt(first, rows, columns, alternate, k))
  {
    hide MemoryAt, IsReversed;
    assert first + rows - first == rows;
  }

  /** Each slot is filled exactly once, in an order in which consecutive memories are neighbours. */
  method AddMemoriesVertically(first: nat, rows: nat, columns: nat, alternate: bool) returns (memories: seq<Memory>)
    requires columns > 0
    ensures IsSnake(first, rows, columns, memories)
    ensures rows > 0 ==> memories != []
    ensures rows > 0 ==> memories[|memories| - 1] == Memory(first + rows - 1, if alternate == (first % 2 == 1)
        then 0 else columns - 1)
  {
    hide MemoryAt, FilledUpTo, IsSnake;
    var slots := new Option<Memory>[rows * columns](_ => None);
    NothingFilled(slots[..], first, rows, columns, alternate);
    for i := first to first + rows
      invariant FilledUpTo(slots[..], first, rows, columns, alternate, i, 0)
    {
      var reverse := IsReversed(i, rows, alternate);
      for j := 0 to columns
        invariant FilledUpTo(slots[..], first, rows, columns, alternate, i, j)
      {
        ghost var before := slots[..];
        ghost var slot := SlotTakesMemory(first, rows, columns, alternate, i, j);
        var k := if reverse then (i - first + 1) * columns - (j + 1) else (i - first) * columns + j;
        SlotFilled(before, first, rows, columns, alternate, i, j, k);
        slots[k] := Some(Memory(i, j));
        assert slots[..] == before[k := Some(Memory(i, j))];
      }
      RowDone(slots[..], first, rows, columns, alternate, i);
    }
    var filled := slots[..];
    AllFilled(filled, first, rows, columns, alternate);
    memories := seq(|filled|, k requires 0 <= k < |filled| && filled[k].Some? => filled[k].value);
    MemoriesAreSnake(first, rows, columns, alternate, memories);
    if rows > 0 {
      LastMemory(first, rows, columns, alternate);
    }
  }
}
