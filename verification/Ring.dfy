/** Screen and history in one flat array of cells: where a row of the screen or of the history is
    stored, on values. Rows are numbered from 0 on the screen and from -1 down in the history. */
module Ring {
  import opened Renditions

  datatype Cell = Cell(contents: string, renditions: Rendition, dirty: bool, wrap: bool,
                       earlyWrap: bool, dwidth: bool, dwidthCont: bool)

  /** A half-open range of cells changed since the last reset; empty when its ends meet. */
  datatype Damage = Damage(start: int, end: int, totalCells: int)

  datatype Frame = Frame(
    cells: seq<Cell>, nCols: int, nRows: int, saveLines: int,
    scrollHead: int, marginTop: int, marginBottom: int, historyRows: int, margin: bool, damage: Damage)

  function Min(a: int, b: int): int {
    if a < b then a else b
  }

  function Max(a: int, b: int): int {
    if a > b then a else b
  }

  /** All rows of the storage. */
  function Capacity(f: Frame): int {
    f.nRows + f.saveLines
  }

  predicate Valid(f: Frame) {
    && f.nCols > 0 && f.nRows > 0
    && 0 <= f.historyRows <= f.saveLines
    && |f.cells| >= f.nCols * Capacity(f)
    && f.damage.totalCells == f.nCols * Capacity(f)
    && f.marginTop <= f.scrollHead < f.marginBottom
    && (if f.margin then 0 <= f.marginTop && f.marginBottom <= f.nRows
        else f.marginTop == 0 && f.marginBottom == Capacity(f))
  }

  predicate HasRow(f: Frame, pY: int) {
    -f.historyRows <= pY < f.nRows
  }

  /** The row of the storage that row `pY` is kept in. */
  function PhysicalRow(f: Frame, pY: int): int {
    if pY < 0 then
      var p := if f.margin then pY else pY + f.scrollHead;
      if p < 0 then p + f.nRows + f.saveLines else p
    else if f.margin && (pY < f.marginTop || pY >= f.marginBottom) then pY
    else
      var p := pY + f.scrollHead - f.marginTop;
      if p >= f.marginBottom then p - (f.marginBottom - f.marginTop) else p
  }

  /** Some row of the storage; a row beyond screen and history may be one too. */
  predicate Stored(f: Frame, pY: int) {
    0 <= PhysicalRow(f, pY) < Capacity(f)
  }

  predicate AllStored(f: Frame, startY: int, count: int) {
    forall pY :: startY <= pY < startY + count ==> Stored(f, pY)
  }

  function Idx(f: Frame, pY: int, pX: int): int {
    f.nCols * PhysicalRow(f, pY) + pX
  }

  // ---------------------------------------------------------------- the address map

  lemma PhysicalRowInRange(f: Frame, pY: int)
    requires Valid(f) && HasRow(f, pY)
    ensures Stored(f, pY)
  {
  }

  /** No two rows of screen and history share storage. */
  lemma PhysicalRowInjective(f: Frame, y: int, z: int)
    requires Valid(f) && HasRow(f, y) && HasRow(f, z)
    ensures PhysicalRow(f, y) == PhysicalRow(f, z) <==> y == z
  {
  }

  lemma {:induction false} RowsApart(w: int, r: int, s: int)
    requires 0 < w && r < s
    ensures w * r + w <= w * s
    decreases s - r
  {
    Product(w, r, 1);
    if r + 1 < s {
      RowsApart(w, r + 1, s);
    }
  }

  lemma Product(w: int, a: int, b: int)
    ensures w * (a + b) == w * a + w * b
  {
  }

  lemma CellsApart(w: int, r: int, x: int, s: int, z: int)
    requires 0 <= x < w && 0 <= z < w
    ensures w * r + x == w * s + z <==> r == s && x == z
  {
    if r < s {
      RowsApart(w, r, s);
    } else if r > s {
      RowsApart(w, s, r);
    }
  }

  lemma CellsWithin(w: int, r: int, rows: int)
    requires 0 <= r < rows && w > 0
    ensures 0 <= w * r && w * r + w <= w * rows
  {
    RowsApart(w, r, rows);
    if r > 0 {
      RowsApart(w, 0, r);
    }
  }

  /** The address map: every cell of screen and history lies within the storage, and no two share
      a place. */
  lemma AddressMap(f: Frame, y: int, x: int, z: int, u: int)
    requires Valid(f) && HasRow(f, y) && HasRow(f, z) && 0 <= x < f.nCols && 0 <= u < f.nCols
    ensures 0 <= Idx(f, y, x) < f.nCols * Capacity(f)
    ensures Idx(f, y, x) == Idx(f, z, u) <==> y == z && x == u
  {
    PhysicalRowInRange(f, y);
    CellsWithin(f.nCols, PhysicalRow(f, y), Capacity(f));
    CellsApart(f.nCols, PhysicalRow(f, y), x, PhysicalRow(f, z), u);
    PhysicalRowInjective(f, y, z);
  }

  /** The cell at a row and column. */
  function At(f: Frame, pY: int, pX: int): Cell
    requires Valid(f) && HasRow(f, pY) && 0 <= pX < f.nCols
  {
    AddressMap(f, pY, pX, pY, pX);
    f.cells[Idx(f, pY, pX)]
  }
}
