/** Scrolling by rotating the head of the storage, and the margins that bound what rotates. */
module Scrolling {
  import opened Renditions
  import opened Ring
  import opened Frames

  // ---------------------------------------------------------------- scrolling

  /** Where the head stands after `count` single steps forward. */
  function HeadUp(f: Frame, count: nat): int {
    if count == 0 then f.scrollHead
    else
      var head := HeadUp(f, count - 1) + 1;
      if head == f.marginBottom then f.marginTop else head
  }

  function HeadDown(f: Frame, count: nat): int {
    if count == 0 then f.scrollHead
    else
      var head := HeadDown(f, count - 1);
      if head >= f.marginTop + 1 then head - 1 else f.marginBottom - 1
  }

  /** Text up. The history grows also when the scrolled region is bounded by margins. */
  function ScrollUp(f: Frame, count: nat): Frame {
    f.(scrollHead := HeadUp(f, count), historyRows := Min(f.historyRows + count, f.saveLines),
       damage := AddDamage(f.damage, f.marginTop * f.nCols, f.marginBottom * f.nCols))
  }

  /** Text down. */
  function ScrollDown(f: Frame, count: nat): Frame {
    f.(scrollHead := HeadDown(f, count), historyRows := Max(0, f.historyRows - count),
       damage := AddDamage(f.damage, f.marginTop * f.nCols, f.marginBottom * f.nCols))
  }

  lemma {:induction false} HeadUpIs(f: Frame, count: nat)
    requires Valid(f)
    ensures f.marginTop <= HeadUp(f, count) < f.marginBottom
    ensures count <= f.marginBottom - f.marginTop ==>
      var head := f.scrollHead + count;
      HeadUp(f, count) == if head >= f.marginBottom then head - (f.marginBottom - f.marginTop) else head
  {
    if count > 0 {
      HeadUpIs(f, count - 1);
    }
  }

  lemma {:induction false} HeadDownIs(f: Frame, count: nat)
    requires Valid(f)
    ensures f.marginTop <= HeadDown(f, count) < f.marginBottom
    ensures count <= f.marginBottom - f.marginTop ==>
      var head := f.scrollHead - count;
      HeadDown(f, count) == if head < f.marginTop then head + (f.marginBottom - f.marginTop) else head
  {
    if count > 0 {
      HeadDownIs(f, count - 1);
    }
  }

  lemma ScrollUpValid(f: Frame, count: nat)
    requires Valid(f)
    ensures Valid(ScrollUp(f, count))
  {
    HeadUpIs(f, count);
  }

  lemma ScrollDownValid(f: Frame, count: nat)
    requires Valid(f)
    ensures Valid(ScrollDown(f, count))
  {
    HeadDownIs(f, count);
  }

  /** Outside the margins no row moves. */
  predicate Outside(f: Frame, y: int) {
    f.margin && (y < f.marginTop || y >= f.marginBottom)
  }

  /** The old row that row `y` shows after scrolling up: without margins the one `n` rows below;
      with margins the region turns and all else stays. */
  function SourceUp(f: Frame, n: nat, y: int): int {
    if !f.margin then y + n
    else if Outside(f, y) then y
    else if y + n < f.marginBottom then y + n
    else y + n - (f.marginBottom - f.marginTop)
  }

  lemma ScrollUpRow(f: Frame, n: nat, y: int)
    requires Valid(f) && (n <= f.marginBottom - f.marginTop || Outside(f, y))
    requires HasRow(ScrollUp(f, n), y) && HasRow(f, SourceUp(f, n, y))
    ensures PhysicalRow(ScrollUp(f, n), y) == PhysicalRow(f, SourceUp(f, n, y))
  {
    HeadUpIs(f, n);
  }

  function SourceDown(f: Frame, n: nat, y: int): int {
    if !f.margin then y - n
    else if Outside(f, y) then y
    else if y - n >= f.marginTop then y - n
    else y - n + (f.marginBottom - f.marginTop)
  }

  lemma ScrollDownRow(f: Frame, n: nat, y: int)
    requires Valid(f) && (n <= f.marginBottom - f.marginTop || Outside(f, y))
    requires HasRow(ScrollDown(f, n), y) && HasRow(f, SourceDown(f, n, y))
    ensures PhysicalRow(ScrollDown(f, n), y) == PhysicalRow(f, SourceDown(f, n, y))
  {
    HeadDownIs(f, n);
  }

  lemma ScrollUpAt(f: Frame, n: nat, y: int, x: int)
    requires Valid(f) && (n <= f.marginBottom - f.marginTop || Outside(f, y)) && 0 <= x < f.nCols
    requires HasRow(ScrollUp(f, n), y) && HasRow(f, SourceUp(f, n, y))
    ensures Valid(ScrollUp(f, n)) && At(ScrollUp(f, n), y, x) == At(f, SourceUp(f, n, y), x)
  {
    ScrollUpValid(f, n);
    ScrollUpRow(f, n, y);
  }

  lemma ScrollDownAt(f: Frame, n: nat, y: int, x: int)
    requires Valid(f) && (n <= f.marginBottom - f.marginTop || Outside(f, y)) && 0 <= x < f.nCols
    requires HasRow(ScrollDown(f, n), y) && HasRow(f, SourceDown(f, n, y))
    ensures Valid(ScrollDown(f, n)) && At(ScrollDown(f, n), y, x) == At(f, SourceDown(f, n, y), x)
  {
    ScrollDownValid(f, n);
    ScrollDownRow(f, n, y);
  }

  // ---------------------------------------------------------------- copying into new storage

  const ZERO_CELL := Cell("", PLAIN, false, false, false, false, false)

  /** The old row and column that a cell of new storage is filled from: the screen's rows first,
      the history's at the end, as far as both sizes reach. */
  predicate Kept(f: Frame, nCols: int, nRows: int, r: int, x: int) {
    && 0 <= x < Min(f.nCols, nCols)
    && (0 <= r < Min(f.nRows, nRows) || nRows + f.saveLines - f.historyRows <= r < nRows + f.saveLines)
  }

  function OldRow(f: Frame, nRows: int, r: int): int {
    if r < nRows then r else r - (nRows + f.saveLines)
  }

  /** New storage of another size, zero where nothing is copied. */
  function Copied(f: Frame, nCols: int, nRows: int): (cells: seq<Cell>)
    requires Valid(f) && nCols > 0 && nRows > 0
    ensures |cells| == nCols * (nRows + f.saveLines)
  {
    CellsWithin(nCols, 0, nRows + f.saveLines);
    seq(nCols * (nRows + f.saveLines), i requires 0 <= i < nCols * (nRows + f.saveLines) =>
      var r, x := i / nCols, i % nCols;
      if Kept(f, nCols, nRows, r, x) then At(f, OldRow(f, nRows, r), x) else ZERO_CELL)
  }

  lemma RowAndColumn(w: int, r: int, x: int)
    requires 0 <= x < w && 0 <= r
    ensures (w * r + x) / w == r && (w * r + x) % w == x
  {
    var q, m := (w * r + x) / w, (w * r + x) % w;
    assert w * q + m == w * r + x;
    CellsApart(w, q, m, r, x);
  }

  lemma CopiedAt(f: Frame, nCols: int, nRows: int, r: int, x: int)
    requires Valid(f) && nCols > 0 && nRows > 0 && 0 <= r < nRows + f.saveLines && 0 <= x < nCols
    ensures 0 <= nCols * r + x < |Copied(f, nCols, nRows)|
    ensures Copied(f, nCols, nRows)[nCols * r + x] ==
      if Kept(f, nCols, nRows, r, x) then At(f, OldRow(f, nRows, r), x) else ZERO_CELL
  {
    CellsWithin(nCols, r, nRows + f.saveLines);
    RowAndColumn(nCols, r, x);
  }

  /** unwrapCellStorage: storage in logical order again. */
  function Unwrapped(f: Frame): Frame
    requires Valid(f)
  {
    if f.scrollHead == f.marginTop then f
    else f.(cells := Copied(f, f.nCols, f.nRows), scrollHead := f.marginTop)
  }

  predicate LegalMargins(f: Frame, top: int, bottom: int) {
    0 <= top < bottom <= f.nRows
  }

  function SetMargins(f: Frame, top: int, bottom: int): Frame
    requires Valid(f)
  {
    Unwrapped(f).(marginTop := top, scrollHead := top, marginBottom := bottom, margin := true,
                  damage := Expose(f.damage))
  }

  function ResetMargins(f: Frame): Frame
    requires Valid(f)
  {
    Unwrapped(f).(marginTop := 0, scrollHead := 0, marginBottom := Capacity(f), margin := false,
                  damage := Expose(f.damage))
  }

  function DropHistory(f: Frame): Frame {
    f.(historyRows := 0, damage := Expose(f.damage))
  }

  /** The screen is left, as it reads, and no row of the history. */
  lemma DropForgets(f: Frame, y: int, x: int)
    requires Valid(f) && 0 <= x < f.nCols
    ensures var g := DropHistory(f);
      && Valid(g) && g == f.(historyRows := 0, damage := g.damage) && (HasRow(g, y) <==> 0 <= y < f.nRows)
      && (HasRow(g, y) ==> At(g, y, x) == At(f, y, x))
  {
  }

  /** The damage keeps its range: only the size it refers to is renewed. */
  function Resize(f: Frame, nCols: int, nRows: int): Frame
    requires Valid(f) && nCols > 0 && nRows > 0
  {
    f.(cells := Copied(f, nCols, nRows), nCols := nCols, nRows := nRows,
       marginTop := 0, scrollHead := 0, marginBottom := nRows + f.saveLines, margin := false,
       damage := f.damage.(totalCells := nCols * (nRows + f.saveLines)))
  }

  lemma UnwrappedAt(f: Frame, y: int, x: int)
    requires Valid(f) && HasRow(f, y) && 0 <= x < f.nCols
    ensures Valid(Unwrapped(f)) && At(Unwrapped(f), y, x) == At(f, y, x)
    ensures PhysicalRow(Unwrapped(f), y) == if y < 0 then y + Capacity(f) else y
  {
    if f.scrollHead != f.marginTop {
      CopiedAt(f, f.nCols, f.nRows, if y < 0 then y + Capacity(f) else y, x);
    }
  }

  /** Changing margins never moves text: every row of screen and history reads as before, whatever
      the old margins and rotation. */
  lemma MarginsMoveNothing(f: Frame, top: int, bottom: int, y: int, x: int)
    requires Valid(f) && LegalMargins(f, top, bottom) && HasRow(f, y) && 0 <= x < f.nCols
    ensures Valid(SetMargins(f, top, bottom)) && At(SetMargins(f, top, bottom), y, x) == At(f, y, x)
    ensures Valid(ResetMargins(f)) && At(ResetMargins(f), y, x) == At(f, y, x)
  {
    UnwrappedAt(f, y, x);
  }

  /** Resizing keeps the whole history and the rows and columns both sizes share; the rest is zero. */
  lemma ResizeAt(f: Frame, nCols: int, nRows: int, y: int, x: int)
    requires Valid(f) && nCols > 0 && nRows > 0
    requires -f.historyRows <= y < nRows && 0 <= x < nCols
    ensures var g := Resize(f, nCols, nRows);
      && Valid(g) && g.historyRows == f.historyRows
      && At(g, y, x) == if x < f.nCols && y < f.nRows then At(f, y, x) else ZERO_CELL
  {
    CopiedAt(f, nCols, nRows, if y < 0 then y + nRows + f.saveLines else y, x);
  }
}
