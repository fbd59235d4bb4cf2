/** What the operations of a frame do, and what each means for the rows of screen and history. */
module Frames {
  import opened Renditions
  import opened Ring

  // ---------------------------------------------------------------- damage

  function AddDamage(d: Damage, start: int, end: int): Damage {
    var s := if end < start then 0 else start;
    var e := if end < start then d.totalCells else end;
    if d.start == d.end then d.(start := s, end := e)
    else d.(start := Min(d.start, s), end := Max(d.end, e))
  }

  function Expose(d: Damage): Damage {
    d.(start := 0, end := d.totalCells)
  }

  function ResetDamage(f: Frame): Frame {
    f.(damage := f.damage.(start := 0, end := 0))
  }

  predicate Damaged(d: Damage, i: int) {
    d.start <= i < d.end
  }

  /** Adding a range loses no damage. */
  lemma AddDamageCovers(d: Damage, start: int, end: int, i: int)
    requires start <= end
    ensures Damaged(d, i) || start <= i < end ==> Damaged(AddDamage(d, start, end), i)
  {
  }

  /** And nothing that is not between the two: a range holding both holds the result. */
  lemma AddDamageLeast(d: Damage, start: int, end: int, low: int, high: int)
    requires start <= end && low <= start && end <= high
    requires d.start == d.end || (low <= d.start && d.end <= high)
    ensures var d' := AddDamage(d, start, end);
      low <= d'.start <= start && end <= d'.end <= high && d' == d.(start := d'.start, end := d'.end)
  {
  }

  // ---------------------------------------------------------------- cells

  /** Cell.Reset2: the wrap marks stay. */
  function Erased(c: Cell, attrs: Cell): Cell {
    c.(contents := attrs.contents, renditions := attrs.renditions, dwidth := false, dwidthCont := false)
  }

  function EraseCells(cells: seq<Cell>, start: int, end: int, attrs: Cell): (r: seq<Cell>)
    ensures |r| == |cells|
  {
    seq(|cells|, i requires 0 <= i < |cells| => if start <= i < end then Erased(cells[i], attrs) else cells[i])
  }

  /** Copy a range; the source is read before it is overwritten. */
  function CopyCells(cells: seq<Cell>, dst: int, src: int, count: int): (r: seq<Cell>)
    requires 0 <= src && src + count <= |cells|
    ensures |r| == |cells|
  {
    seq(|cells|, i requires 0 <= i < |cells| =>
      if dst <= i < dst + count then cells[src + (i - dst)] else cells[i])
  }

  predicate InCols(f: Frame, startX: int, count: int) {
    0 <= startX && 0 <= count && startX + count <= f.nCols
  }

  function EraseInRow(f: Frame, pY: int, startX: int, count: int, attrs: Cell): Frame
    requires Valid(f) && Stored(f, pY) && InCols(f, startX, count)
  {
    if count == 0 then f
    else
      var idx := Idx(f, pY, startX);
      f.(cells := EraseCells(f.cells, idx, idx + count, attrs), damage := AddDamage(f.damage, idx, idx + count))
  }

  lemma RowWithin(f: Frame, pY: int, startX: int, count: int)
    requires Valid(f) && Stored(f, pY) && InCols(f, startX, count)
    ensures 0 <= Idx(f, pY, startX) && Idx(f, pY, startX) + count <= |f.cells|
  {
    CellsWithin(f.nCols, PhysicalRow(f, pY), Capacity(f));
  }

  function MoveCells(f: Frame, dst: int, src: int, count: int): Frame
    requires 0 <= src && src + count <= |f.cells|
  {
    f.(cells := CopyCells(f.cells, dst, src, count), damage := AddDamage(f.damage, dst, dst + count))
  }

  function MoveInRow(f: Frame, pY: int, dstX: int, srcX: int, count: int): Frame
    requires Valid(f) && HasRow(f, pY) && InCols(f, srcX, count) && InCols(f, dstX, count)
  {
    RowWithin(f, pY, srcX, count);
    if count == 0 then f else MoveCells(f, Idx(f, pY, dstX), Idx(f, pY, srcX), count)
  }

  function CopyRow(f: Frame, dstY: int, srcY: int, startX: int, count: int): Frame
    requires Valid(f) && HasRow(f, dstY) && HasRow(f, srcY) && InCols(f, startX, count)
  {
    RowWithin(f, srcY, startX, count);
    if count == 0 then f else MoveCells(f, Idx(f, dstY, startX), Idx(f, srcY, startX), count)
  }

  /** A write through the pointer that getCellPtr returns. */
  function PutCell(f: Frame, pY: int, pX: int, c: Cell): Frame
    requires Valid(f) && HasRow(f, pY) && 0 <= pX < f.nCols
  {
    AddressMap(f, pY, pX, pY, pX);
    var idx := Idx(f, pY, pX);
    f.(cells := f.cells[idx := c], damage := AddDamage(f.damage, idx, idx + 1))
  }

  /** Only cells and damage differ. */
  predicate SameShape(f: Frame, g: Frame) {
    g == f.(cells := g.cells, damage := g.damage) && |g.cells| == |f.cells|
    && g.damage.totalCells == f.damage.totalCells
  }

  lemma SameShapeKeeps(f: Frame, g: Frame)
    requires Valid(f) && SameShape(f, g)
    ensures Valid(g) && forall y, x :: Idx(g, y, x) == Idx(f, y, x)
  {
  }

  // ---------------------------------------------------------------- what they mean for the rows

  /** A row that stores `y` is erased for `y` too. */
  lemma EraseInRowAt(f: Frame, pY: int, startX: int, count: int, attrs: Cell, y: int, x: int)
    requires Valid(f) && Stored(f, pY) && InCols(f, startX, count)
    requires HasRow(f, y) && 0 <= x < f.nCols
    ensures var g := EraseInRow(f, pY, startX, count, attrs);
      && SameShape(f, g) && Valid(g) && PhysicalRow(g, y) == PhysicalRow(f, y)
      && At(g, y, x) ==
           if PhysicalRow(f, y) == PhysicalRow(f, pY) && startX <= x < startX + count
           then Erased(At(f, y, x), attrs) else At(f, y, x)
    ensures HasRow(f, pY) ==> (PhysicalRow(f, y) == PhysicalRow(f, pY) <==> y == pY)
  {
    var g := EraseInRow(f, pY, startX, count, attrs);
    SameShapeKeeps(f, g);
    RangeInRow(f, pY, startX, count, y, x);
    AddressMap(f, y, x, y, x);
    if HasRow(f, pY) {
      PhysicalRowInjective(f, y, pY);
    }
  }

  /** Which cells a range within one row takes in. */
  lemma RangeInRow(f: Frame, pY: int, startX: int, count: int, y: int, x: int)
    requires Valid(f) && InCols(f, startX, count) && 0 <= x < f.nCols
    ensures Idx(f, pY, startX) <= Idx(f, y, x) < Idx(f, pY, startX) + count <==>
      PhysicalRow(f, y) == PhysicalRow(f, pY) && startX <= x < startX + count
  {
    if PhysicalRow(f, y) != PhysicalRow(f, pY) && count > 0 {
      var r, s := PhysicalRow(f, y), PhysicalRow(f, pY);
      if r < s { RowsApart(f.nCols, r, s); } else { RowsApart(f.nCols, s, r); }
    }
  }

  lemma MoveInRowAt(f: Frame, pY: int, dstX: int, srcX: int, count: int, y: int, x: int)
    requires Valid(f) && HasRow(f, pY) && InCols(f, srcX, count) && InCols(f, dstX, count)
    requires HasRow(f, y) && 0 <= x < f.nCols
    ensures var g := MoveInRow(f, pY, dstX, srcX, count);
      && SameShape(f, g) && Valid(g)
      && At(g, y, x) == if y == pY && dstX <= x < dstX + count then At(f, y, srcX + (x - dstX)) else At(f, y, x)
  {
    RowWithin(f, pY, srcX, count);
    SameShapeKeeps(f, MoveInRow(f, pY, dstX, srcX, count));
    RangeInRow(f, pY, dstX, count, y, x);
    PhysicalRowInjective(f, y, pY);
    AddressMap(f, y, x, y, x);
  }

  lemma CopyRowAt(f: Frame, dstY: int, srcY: int, startX: int, count: int, y: int, x: int)
    requires Valid(f) && HasRow(f, dstY) && HasRow(f, srcY) && InCols(f, startX, count)
    requires HasRow(f, y) && 0 <= x < f.nCols
    ensures var g := CopyRow(f, dstY, srcY, startX, count);
      && SameShape(f, g) && Valid(g)
      && At(g, y, x) == if y == dstY && startX <= x < startX + count then At(f, srcY, x) else At(f, y, x)
  {
    RowWithin(f, srcY, startX, count);
    SameShapeKeeps(f, CopyRow(f, dstY, srcY, startX, count));
    RangeInRow(f, dstY, startX, count, y, x);
    PhysicalRowInjective(f, y, dstY);
    AddressMap(f, y, x, y, x);
  }

  lemma PutCellAt(f: Frame, pY: int, pX: int, c: Cell, y: int, x: int)
    requires Valid(f) && HasRow(f, pY) && 0 <= pX < f.nCols
    requires HasRow(f, y) && 0 <= x < f.nCols
    ensures var g := PutCell(f, pY, pX, c);
      && SameShape(f, g) && Valid(g)
      && At(g, y, x) == if y == pY && x == pX then c else At(f, y, x)
  {
    AddressMap(f, pY, pX, y, x);
    AddressMap(f, y, x, y, x);
    var g, i, j := PutCell(f, pY, pX, c), Idx(f, pY, pX), Idx(f, y, x);
    assert SameShape(f, g);
    SameShapeKeeps(f, g);
    assert g.cells[j] == if j == i then c else f.cells[j];
  }
}
