/**
  Which plane, column and row a byte of an NV12 or YUY2 picture belongs to, read off the formats.
*/
module PlanarFormats {
  datatype Cell = Cell(plane: nat, x: nat, y: nat)

  /** NV12: luma rows, then rows of alternating U and V. YUY2: Y U Y V in every row. */
  function OwnerAt(nv12: bool, lumaRows: nat, row: nat, column: nat): Cell {
    if !nv12 then
      if column % 2 == 0 then Cell(0, column / 2, row)
      else if column % 4 == 1 then Cell(1, column / 4, row)
      else Cell(2, column / 4, row)
    else if row < lumaRows then Cell(0, column, row)
    else Cell(1 + column % 2, column / 2, row - lumaRows)
  }

  function Column(nv12: bool, plane: nat, x: nat): int {
    if nv12 then (if plane == 0 then x else 2 * x + plane - 1) else if plane == 0 then 2 * x else 4 * x + 2 * plane - 1
  }

  lemma ColumnOwner(nv12: bool, lumaRows: nat, c: Cell)
    requires c.plane < 3 && (nv12 && c.plane == 0 ==> c.y < lumaRows)
    ensures Column(nv12, c.plane, c.x) >= 0
    ensures OwnerAt(nv12, lumaRows, if nv12 && c.plane > 0 then lumaRows + c.y else c.y, Column(nv12, c.plane, c.x)) == c
  {
    Pair(c.x);
    Quad(c.x);
  }

  lemma Pair(x: nat)
    ensures 2 * x / 2 == x == (2 * x + 1) / 2 && 2 * x % 2 == 0 && (2 * x + 1) % 2 == 1
  {
  }

  lemma Quad(x: nat)
    ensures (4 * x + 1) / 4 == x == (4 * x + 3) / 4
    ensures (4 * x + 1) % 4 == 1 && (4 * x + 3) % 4 == 3 && (4 * x + 1) % 2 == 1 == (4 * x + 3) % 2
  {
    Pair(2 * x);
    Pair(2 * x + 1);
  }

  lemma OddPlaces(column: nat)
    ensures column == 2 * (column / 2) + column % 2 && 0 <= column % 2 < 2
    ensures column % 2 == 1 ==> column == 4 * (column / 4) + (if column % 4 == 1 then 1 else 3)
  {
    var q, r := column / 4, column % 4;
    assert column == 4 * q + r;
    if r == 0 { Pair(2 * q); } else if r == 2 { Pair(2 * q + 1); }
  }

  lemma OwnerColumn(nv12: bool, lumaRows: nat, row: nat, column: nat)
    ensures var c := OwnerAt(nv12, lumaRows, row, column);
            && c.plane < 3 && Column(nv12, c.plane, c.x) == column && (nv12 && c.plane == 0 ==> row < lumaRows)
            && row == if nv12 && c.plane > 0 then lumaRows + c.y else c.y
  {
    OddPlaces(column);
  }

  function Owner(nv12: bool, lumaRows: nat, stride: nat, k: nat): Cell
    requires stride > 0
  {
    OwnerAt(nv12, lumaRows, k / stride, k % stride)
  }
}
