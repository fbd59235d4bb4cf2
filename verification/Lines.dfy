/** Scrolling, inserting and deleting lines, as operations on the lists of rows. */
module Lines {
  import opened Renditions
  import opened Ring
  import opened Frames
  import opened Scrolling

  type Row = seq<Cell>

  function RowAt(f: Frame, y: int): (row: Row)
    requires Valid(f) && HasRow(f, y)
    ensures |row| == f.nCols
    ensures forall x :: 0 <= x < |row| ==> row[x] == At(f, y, x)
  {
    seq(f.nCols, x requires 0 <= x < f.nCols => At(f, y, x))
  }

  /** The oldest row first. */
  function History(f: Frame): (rows: seq<Row>)
    requires Valid(f)
    ensures |rows| == f.historyRows
    ensures forall i :: 0 <= i < |rows| ==> rows[i] == RowAt(f, i - f.historyRows)
  {
    seq(f.historyRows, i requires 0 <= i < f.historyRows => RowAt(f, i - f.historyRows))
  }

  function Screen(f: Frame): (rows: seq<Row>)
    requires Valid(f)
    ensures |rows| == f.nRows
    ensures forall y :: 0 <= y < |rows| ==> rows[y] == RowAt(f, y)
  {
    seq(f.nRows, y requires 0 <= y < f.nRows => RowAt(f, y))
  }

  predicate Blank(c: Cell, attrs: Cell) {
    c.contents == attrs.contents && c.renditions == attrs.renditions && !c.dwidth && !c.dwidthCont
  }

  predicate BlankRow(row: Row, attrs: Cell) {
    forall x :: 0 <= x < |row| ==> Blank(row[x], attrs)
  }

  // ---------------------------------------------------------------- erasing rows

  /** Rows `startY` to `startY + count - 1`, in columns `left` to `right - 1`. */
  function EraseRows(f: Frame, startY: int, count: nat, left: int, right: int, attrs: Cell): (g: Frame)
    requires Valid(f) && AllStored(f, startY, count) && InCols(f, left, right - left)
    ensures Valid(g) && SameShape(f, g)
  {
    if count == 0 then f
    else
      var g, pY := EraseRows(f, startY, count - 1, left, right, attrs), startY + count - 1;
      assert Stored(f, pY) && PhysicalRow(g, pY) == PhysicalRow(f, pY);
      SameShapeKeeps(g, EraseInRow(g, pY, left, right - left, attrs));
      EraseInRow(g, pY, left, right - left, attrs)
  }

  /** Row `y` is stored in one of these rows. */
  predicate Among(f: Frame, startY: int, count: int, y: int) {
    exists r :: startY <= r < startY + count && PhysicalRow(f, r) == PhysicalRow(f, y)
  }

  lemma {:induction false} EraseStoredAt(f: Frame, startY: int, count: nat, left: int, right: int, attrs: Cell,
                                         y: int, x: int)
    requires Valid(f) && AllStored(f, startY, count) && InCols(f, left, right - left)
    requires HasRow(f, y) && 0 <= x < f.nCols
    ensures At(EraseRows(f, startY, count, left, right, attrs), y, x) ==
      if Among(f, startY, count, y) && left <= x < right then Erased(At(f, y, x), attrs) else At(f, y, x)
  {
    if count > 0 {
      EraseStoredAt(f, startY, count - 1, left, right, attrs, y, x);
      AmongOneMore(f, startY, count - 1, y);
      assert Stored(f, startY + count - 1);
      EraseOneMore(f, EraseRows(f, startY, count - 1, left, right, attrs), startY + count - 1, left, right, attrs, y, x);
    }
  }

  lemma EraseOneMore(f: Frame, g: Frame, pY: int, left: int, right: int, attrs: Cell, y: int, x: int)
    requires Valid(g) && SameShape(f, g) && Stored(f, pY) && InCols(f, left, right - left)
    requires HasRow(f, y) && 0 <= x < f.nCols
    ensures Stored(g, pY) && Valid(EraseInRow(g, pY, left, right - left, attrs))
    ensures At(EraseInRow(g, pY, left, right - left, attrs), y, x) ==
      if PhysicalRow(f, pY) == PhysicalRow(f, y) && left <= x < right then Erased(At(g, y, x), attrs) else At(g, y, x)
  {
    SameRows(f, g, pY);
    SameRows(f, g, y);
    EraseInRowAt(g, pY, left, right - left, attrs, y, x);
  }

  lemma SameRows(f: Frame, g: Frame, y: int)
    requires SameShape(f, g)
    ensures PhysicalRow(g, y) == PhysicalRow(f, y) && (Stored(g, y) <==> Stored(f, y)) && (HasRow(g, y) <==> HasRow(f, y))
  {
  }

  lemma AmongOneMore(f: Frame, startY: int, count: nat, y: int)
    ensures Among(f, startY, count + 1, y) <==>
      Among(f, startY, count, y) || PhysicalRow(f, startY + count) == PhysicalRow(f, y)
  {
    if Among(f, startY, count, y) {
      var r :| startY <= r < startY + count && PhysicalRow(f, r) == PhysicalRow(f, y);
      assert startY <= r < startY + (count + 1);
    }
  }

  /** Rows of screen and history are stored apart. */
  lemma EraseRowsAt(f: Frame, startY: int, count: nat, left: int, right: int, attrs: Cell, y: int, x: int)
    requires Valid(f) && -f.historyRows <= startY && startY + count <= f.nRows && InCols(f, left, right - left)
    requires HasRow(f, y) && 0 <= x < f.nCols
    ensures AllStored(f, startY, count)
    ensures At(EraseRows(f, startY, count, left, right, attrs), y, x) ==
      if startY <= y < startY + count && left <= x < right then Erased(At(f, y, x), attrs) else At(f, y, x)
  {
    RowsStored(f, startY, count);
    EraseStoredAt(f, startY, count, left, right, attrs, y, x);
    forall r | HasRow(f, r) ensures PhysicalRow(f, r) == PhysicalRow(f, y) <==> r == y {
      PhysicalRowInjective(f, r, y);
    }
  }

  lemma RowsStored(f: Frame, startY: int, count: nat)
    requires Valid(f) && -f.historyRows <= startY && startY + count <= f.nRows
    ensures AllStored(f, startY, count)
  {
    forall pY | startY <= pY < startY + count ensures Stored(f, pY) {
      PhysicalRowInRange(f, pY);
    }
  }

  // ---------------------------------------------------------------- SU and SD

  /** The scrolling region seen from outside: its rows, and the columns between the margins. */
  datatype Region = Region(top: int, bottom: int, left: int, right: int)

  predicate Fits(f: Frame, g: Region) {
    && (if f.margin then g.top == f.marginTop && g.bottom == f.marginBottom else g.top == 0 && g.bottom == f.nRows)
    && 0 <= g.left <= g.right <= f.nCols
  }

  predicate FullWidth(f: Frame, g: Region) {
    g.left == 0 && g.right == f.nCols
  }

  /** No erased row lies outside the storage. */
  predicate MayScrollUp(f: Frame, g: Region, n: nat) {
    AllStored(ScrollUp(f, n), g.bottom - n, n)
  }

  predicate MayScrollDown(f: Frame, g: Region, n: nat) {
    AllStored(ScrollDown(f, n), g.top, n)
  }

  /** So it is for every count that makes no row of the storage erased twice. */
  lemma MayScroll(f: Frame, g: Region, n: nat)
    requires Valid(f) && Fits(f, g)
    ensures n <= g.bottom + f.saveLines ==> MayScrollUp(f, g, n)
    ensures n <= Capacity(f) - g.top ==> MayScrollDown(f, g, n)
  {
    HeadUpIs(f, n);
    HeadDownIs(f, n);
  }

  function ScrollTextUp(f: Frame, g: Region, n: nat, attrs: Cell): Frame
    requires Valid(f) && Fits(f, g) && MayScrollUp(f, g, n)
  {
    ScrollUpValid(f, n);
    EraseRows(ScrollUp(f, n), g.bottom - n, n, g.left, g.right, attrs)
  }

  function ScrollTextDown(f: Frame, g: Region, n: nat, attrs: Cell): Frame
    requires Valid(f) && Fits(f, g) && MayScrollDown(f, g, n)
  {
    ScrollDownValid(f, n);
    EraseRows(ScrollDown(f, n), g.top, n, g.left, g.right, attrs)
  }

  /** The newest `limit` rows. */
  function Newest(rows: seq<Row>, limit: nat): seq<Row> {
    if |rows| > limit then rows[|rows| - limit..] else rows
  }

  lemma ScrolledUpAt(f: Frame, g: Region, n: nat, attrs: Cell, y: int, x: int)
    requires Valid(f) && Fits(f, g) && FullWidth(f, g) && n <= g.bottom + f.saveLines
    requires HasRow(ScrollUp(f, n), y) && 0 <= x < f.nCols
    ensures MayScrollUp(f, g, n)
    ensures var h := ScrollTextUp(f, g, n, attrs);
      && Valid(h) && HasRow(h, y) && h.nCols == f.nCols
      && (g.bottom - n <= y < g.bottom ==> Blank(At(h, y, x), attrs))
      && (!(g.bottom - n <= y < g.bottom) && HasRow(f, SourceUp(f, n, y)) ==> At(h, y, x) == At(f, SourceUp(f, n, y), x))
  {
    MayScroll(f, g, n);
    ScrollUpValid(f, n);
    EraseRowsAt(ScrollUp(f, n), g.bottom - n, n, g.left, g.right, attrs, y, x);
    if !(g.bottom - n <= y < g.bottom) && HasRow(f, SourceUp(f, n, y)) {
      ScrollUpAt(f, n, y, x);
    }
  }

  /** Erased rows below the screen are stored where no row of the history is left. */
  lemma ScrolledDownAt(f: Frame, g: Region, n: nat, attrs: Cell, y: int, x: int)
    requires Valid(f) && Fits(f, g) && FullWidth(f, g) && n <= Capacity(f) - g.top
    requires HasRow(ScrollDown(f, n), y) && 0 <= x < f.nCols
    ensures MayScrollDown(f, g, n)
    ensures var h := ScrollTextDown(f, g, n, attrs);
      && Valid(h) && HasRow(h, y) && h.nCols == f.nCols
      && (g.top <= y < g.top + n ==> Blank(At(h, y, x), attrs))
      && (!(g.top <= y < g.top + n) && HasRow(f, SourceDown(f, n, y)) ==> At(h, y, x) == At(f, SourceDown(f, n, y), x))
  {
    MayScroll(f, g, n);
    ScrollDownValid(f, n);
    EraseStoredAt(ScrollDown(f, n), g.top, n, g.left, g.right, attrs, y, x);
    AmongDown(f, g, n, y);
    if !(g.top <= y < g.top + n) && HasRow(f, SourceDown(f, n, y)) {
      ScrollDownAt(f, n, y, x);
    }
  }

  lemma AmongDown(f: Frame, g: Region, n: nat, y: int)
    requires Valid(f) && Fits(f, g) && n <= Capacity(f) - g.top && HasRow(ScrollDown(f, n), y)
    ensures Among(ScrollDown(f, n), g.top, n, y) <==> g.top <= y < g.top + n
  {
    var h := ScrollDown(f, n);
    HeadDownIs(f, n);
    if Among(h, g.top, n, y) {
      var r :| g.top <= r < g.top + n && PhysicalRow(h, r) == PhysicalRow(h, y);
      assert r == y;
    } else {
      PhysicalRowInRange(h, y);
    }
  }

  lemma ScrolledUpRows(f: Frame, g: Region, n: nat, attrs: Cell)
    requires Valid(f) && Fits(f, g) && FullWidth(f, g) && n <= g.bottom + f.saveLines
    ensures MayScrollUp(f, g, n)
    ensures var h := ScrollTextUp(f, g, n, attrs);
      && Valid(h) && h.nRows == f.nRows && h.nCols == f.nCols && h.historyRows == Min(f.historyRows + n, f.saveLines)
      && (forall y :: HasRow(h, y) && g.bottom - n <= y < g.bottom ==> BlankRow(RowAt(h, y), attrs))
      && (forall y :: HasRow(h, y) && !(g.bottom - n <= y < g.bottom) && HasRow(f, SourceUp(f, n, y)) ==>
            RowAt(h, y) == RowAt(f, SourceUp(f, n, y)))
  {
    MayScroll(f, g, n);
    var h := ScrollTextUp(f, g, n, attrs);
    ScrollUpValid(f, n);
    forall y, x | HasRow(h, y) && 0 <= x < f.nCols
      ensures g.bottom - n <= y < g.bottom ==> Blank(At(h, y, x), attrs)
      ensures !(g.bottom - n <= y < g.bottom) && HasRow(f, SourceUp(f, n, y)) ==>
        At(h, y, x) == At(f, SourceUp(f, n, y), x)
    {
      ScrolledUpAt(f, g, n, attrs, y, x);
    }
  }

  lemma ScrolledDownRows(f: Frame, g: Region, n: nat, attrs: Cell)
    requires Valid(f) && Fits(f, g) && FullWidth(f, g) && n <= Capacity(f) - g.top
    ensures MayScrollDown(f, g, n)
    ensures var h := ScrollTextDown(f, g, n, attrs);
      && Valid(h) && h.nRows == f.nRows && h.nCols == f.nCols && h.historyRows == Max(0, f.historyRows - n)
      && (forall y :: HasRow(h, y) && g.top <= y < g.top + n ==> BlankRow(RowAt(h, y), attrs))
      && (forall y :: HasRow(h, y) && !(g.top <= y < g.top + n) && HasRow(f, SourceDown(f, n, y)) ==>
            RowAt(h, y) == RowAt(f, SourceDown(f, n, y)))
  {
    MayScroll(f, g, n);
    var h := ScrollTextDown(f, g, n, attrs);
    ScrollDownValid(f, n);
    forall y, x | HasRow(h, y) && 0 <= x < f.nCols
      ensures g.top <= y < g.top + n ==> Blank(At(h, y, x), attrs)
      ensures !(g.top <= y < g.top + n) && HasRow(f, SourceDown(f, n, y)) ==>
        At(h, y, x) == At(f, SourceDown(f, n, y), x)
    {
      ScrolledDownAt(f, g, n, attrs, y, x);
    }
  }

  /** Without margins, scrolling up moves the top rows to the end of the history, of which only the
      newest `saveLines` are kept, and adds blank rows at the bottom; what is scrolled beyond the
      screen's height ends the history with blank rows. */
  lemma ScrollUpRefines(f: Frame, g: Region, n: nat, attrs: Cell)
    requires Valid(f) && Fits(f, g) && FullWidth(f, g) && !f.margin && n <= Capacity(f)
    ensures MayScrollUp(f, g, n)
    ensures var h, k := ScrollTextUp(f, g, n, attrs), Min(n, f.nRows);
      && Valid(h) && h.historyRows == Min(f.historyRows + n, f.saveLines)
      && History(h)[..h.historyRows - (n - k)] == Newest(History(f) + Screen(f)[..k], f.saveLines - (n - k))
      && Screen(h)[..f.nRows - k] == Screen(f)[k..]
      && (forall i :: f.nRows - k <= i < f.nRows ==> BlankRow(Screen(h)[i], attrs))
      && (forall i :: h.historyRows - (n - k) <= i < h.historyRows ==> BlankRow(History(h)[i], attrs))
  {
    RowsMoveUp(f, g, n, attrs);
    ScreenUp(f, ScrollTextUp(f, g, n, attrs), n, Min(n, f.nRows), attrs);
    HistoryGrows(f, ScrollTextUp(f, g, n, attrs), n, Min(n, f.nRows), attrs);
  }

  lemma RowsMoveUp(f: Frame, g: Region, n: nat, attrs: Cell)
    requires Valid(f) && Fits(f, g) && FullWidth(f, g) && !f.margin && n <= Capacity(f)
    ensures MayScrollUp(f, g, n) && MovedUp(f, ScrollTextUp(f, g, n, attrs), n, attrs)
  {
    ScrolledUpRows(f, g, n, attrs);
    var h := ScrollTextUp(f, g, n, attrs);
    forall y | -h.historyRows <= y < f.nRows - n ensures RowAt(h, y) == RowAt(f, y + n) {
      assert SourceUp(f, n, y) == y + n;
    }
  }

  ghost predicate MovedUp(f: Frame, h: Frame, n: nat, attrs: Cell) {
    && Valid(f) && Valid(h) && h.nRows == f.nRows && n <= Capacity(f)
    && h.historyRows == Min(f.historyRows + n, f.saveLines)
    && (forall y :: -h.historyRows <= y < f.nRows - n ==> RowAt(h, y) == RowAt(f, y + n))
    && (forall y :: HasRow(h, y) && f.nRows - n <= y ==> BlankRow(RowAt(h, y), attrs))
  }

  lemma ScreenUp(f: Frame, h: Frame, n: nat, k: nat, attrs: Cell)
    requires MovedUp(f, h, n, attrs) && k == Min(n, f.nRows)
    ensures Screen(h)[..f.nRows - k] == Screen(f)[k..]
    ensures forall i :: f.nRows - k <= i < f.nRows ==> BlankRow(Screen(h)[i], attrs)
  {
    forall y | 0 <= y < f.nRows - k ensures Screen(h)[y] == Screen(f)[k..][y] {
      assert RowAt(h, y) == RowAt(f, y + n);
    }
  }

  lemma HistoryGrows(f: Frame, h: Frame, n: nat, k: nat, attrs: Cell)
    requires MovedUp(f, h, n, attrs) && k == Min(n, f.nRows)
    ensures History(h)[..h.historyRows - (n - k)] == Newest(History(f) + Screen(f)[..k], f.saveLines - (n - k))
    ensures forall i :: h.historyRows - (n - k) <= i < h.historyRows ==> BlankRow(History(h)[i], attrs)
  {
    forall i | 0 <= i < h.historyRows - (n - k)
      ensures History(h)[i] == (History(f) + Screen(f)[..k])[f.historyRows + n - h.historyRows + i]
    {
      var y := i - h.historyRows;
      assert RowAt(h, y) == RowAt(f, y + n);
      TopRows(f, k, y + n + f.historyRows);
    }
    Shifted(History(f) + Screen(f)[..k], History(h)[..h.historyRows - (n - k)], f.saveLines - (n - k));
  }

  lemma Shifted(rows: seq<Row>, kept: seq<Row>, limit: nat)
    requires |kept| == Min(|rows|, limit)
    requires forall i :: 0 <= i < |kept| ==> kept[i] == rows[|rows| - |kept| + i]
    ensures kept == Newest(rows, limit)
  {
  }

  lemma TopRows(f: Frame, k: nat, j: nat)
    requires Valid(f) && k <= f.nRows && j < f.historyRows + k
    ensures (History(f) + Screen(f)[..k])[j] == RowAt(f, j - f.historyRows)
  {
  }

  /** Without margins, scrolling down drops the newest history rows and the bottom rows. */
  lemma ScrollDownRefines(f: Frame, g: Region, n: nat, attrs: Cell)
    requires Valid(f) && Fits(f, g) && FullWidth(f, g) && !f.margin && n <= Capacity(f)
    ensures MayScrollDown(f, g, n)
    ensures var h, k := ScrollTextDown(f, g, n, attrs), Min(n, f.nRows);
      && Valid(h)
      && History(h) == History(f)[..Max(0, f.historyRows - n)]
      && Screen(h)[k..] == Screen(f)[..f.nRows - k]
      && forall i :: 0 <= i < k ==> BlankRow(Screen(h)[i], attrs)
  {
    ScrolledDownRows(f, g, n, attrs);
  }

  /** With margins only the rows between them move. The history count still grows, and what it
      newly takes in is whatever the storage holds; the rows it had stay its newest. */
  lemma ScrollUpRefinesInMargins(f: Frame, g: Region, n: nat, attrs: Cell)
    requires Valid(f) && Fits(f, g) && FullWidth(f, g) && f.margin && n <= g.bottom - g.top
    ensures MayScrollUp(f, g, n)
    ensures var h := ScrollTextUp(f, g, n, attrs);
      && Valid(h) && h.historyRows == Min(f.historyRows + n, f.saveLines)
      && History(h)[h.historyRows - f.historyRows..] == History(f)
      && Screen(h)[..g.top] == Screen(f)[..g.top] && Screen(h)[g.bottom..] == Screen(f)[g.bottom..]
      && Screen(h)[g.top..g.bottom - n] == Screen(f)[g.top + n..g.bottom]
      && forall i :: g.bottom - n <= i < g.bottom ==> BlankRow(Screen(h)[i], attrs)
  {
    ScrolledUpRows(f, g, n, attrs);
  }

  /** The same downward: the history count shrinks although no row left the history. */
  lemma ScrollDownRefinesInMargins(f: Frame, g: Region, n: nat, attrs: Cell)
    requires Valid(f) && Fits(f, g) && FullWidth(f, g) && f.margin && n <= g.bottom - g.top
    ensures MayScrollDown(f, g, n)
    ensures var h := ScrollTextDown(f, g, n, attrs);
      && Valid(h) && h.historyRows == Max(0, f.historyRows - n)
      && History(h) == History(f)[f.historyRows - h.historyRows..]
      && Screen(h)[..g.top] == Screen(f)[..g.top] && Screen(h)[g.bottom..] == Screen(f)[g.bottom..]
      && Screen(h)[g.top + n..g.bottom] == Screen(f)[g.top..g.bottom - n]
      && forall i :: g.top <= i < g.top + n ==> BlankRow(Screen(h)[i], attrs)
  {
    ScrolledDownRows(f, g, n, attrs);
  }

  /** The count is not limited to the region's height. What lies beyond it is erased outside the
      margins: upward the rows above the top margin and then the history's, downward those below
      the bottom margin. A row outside the margins is kept exactly if the count does not reach it. */
  lemma OverscrollErases(f: Frame, g: Region, n: nat, attrs: Cell, y: int)
    requires Valid(f) && Fits(f, g) && FullWidth(f, g) && f.margin && HasRow(f, y) && !(g.top <= y < g.bottom)
    ensures n <= g.bottom + f.saveLines ==>
      && MayScrollUp(f, g, n)
      && var h := ScrollTextUp(f, g, n, attrs);
      && Valid(h) && HasRow(h, y)
      && if g.bottom - n <= y < g.top then BlankRow(RowAt(h, y), attrs) else RowAt(h, y) == RowAt(f, y)
    ensures n <= Capacity(f) - g.top && HasRow(ScrollDown(f, n), y) ==>
      && MayScrollDown(f, g, n)
      && var h := ScrollTextDown(f, g, n, attrs);
      && Valid(h) && HasRow(h, y)
      && if g.bottom <= y < g.top + n then BlankRow(RowAt(h, y), attrs) else RowAt(h, y) == RowAt(f, y)
  {
    if n <= g.bottom + f.saveLines {
      ScrolledUpRows(f, g, n, attrs);
    }
    if n <= Capacity(f) - g.top {
      ScrolledDownRows(f, g, n, attrs);
    }
  }

  // ---------------------------------------------------------------- IL and DL

  predicate CountFits(f: Frame, g: Region, startY: int, count: int) {
    Valid(f) && 0 <= startY && 0 <= count && startY + count <= g.bottom <= f.nRows && 0 <= g.left <= g.right <= f.nCols
  }

  /** Copy the rows from `pY` back to `startY` down by `count`, the last first. */
  function ShiftDown(f: Frame, g: Region, startY: int, count: nat, pY: int): (h: Frame)
    requires CountFits(f, g, startY, count) && pY + count < g.bottom
    ensures Valid(h) && SameShape(f, h)
    decreases pY - startY
  {
    if pY < startY then f
    else
      var f1 := CopyRow(f, pY + count, pY, g.left, g.right - g.left);
      SameShapeKeeps(f, f1);
      ShiftDown(f1, g, startY, count, pY - 1)
  }

  /** Copy the rows from `pY + count` on up by `count`. */
  function ShiftUp(f: Frame, g: Region, pY: int, count: nat): (h: Frame)
    requires Valid(f) && 0 <= pY && g.bottom <= f.nRows && 0 <= g.left <= g.right <= f.nCols
    ensures Valid(h) && SameShape(f, h)
    decreases g.bottom - pY
  {
    if pY >= g.bottom - count then f
    else
      var f1 := CopyRow(f, pY, pY + count, g.left, g.right - g.left);
      SameShapeKeeps(f, f1);
      ShiftUp(f1, g, pY + 1, count)
  }

  function InsertRows(f: Frame, g: Region, startY: int, count: nat, attrs: Cell): (h: Frame)
    requires CountFits(f, g, startY, count)
    ensures Valid(h) && SameShape(f, h)
  {
    RowsStored(f, startY, count);
    EraseRows(ShiftDown(f, g, startY, count, g.bottom - count - 1), startY, count, g.left, g.right, attrs)
  }

  function DeleteRows(f: Frame, g: Region, startY: int, count: nat, attrs: Cell): (h: Frame)
    requires CountFits(f, g, startY, count)
    ensures Valid(h) && SameShape(f, h)
  {
    RowsStored(f, g.bottom - count, count);
    EraseRows(ShiftUp(f, g, startY, count), g.bottom - count, count, g.left, g.right, attrs)
  }

  lemma ShiftDownStep(f: Frame, g: Region, startY: int, count: nat, pY: int)
    requires CountFits(f, g, startY, count) && startY <= pY && pY + count < g.bottom
    ensures var f1 := CopyRow(f, pY + count, pY, g.left, g.right - g.left);
      && CountFits(f1, g, startY, count)
      && ShiftDown(f, g, startY, count, pY) == ShiftDown(f1, g, startY, count, pY - 1)
  {
    SameShapeKeeps(f, CopyRow(f, pY + count, pY, g.left, g.right - g.left));
  }

  lemma {:induction false} ShiftDownAt(f: Frame, g: Region, startY: int, count: nat, pY: int, y: int, x: int)
    requires CountFits(f, g, startY, count) && pY + count < g.bottom
    requires HasRow(f, y) && 0 <= x < f.nCols
    ensures At(ShiftDown(f, g, startY, count, pY), y, x) ==
      if startY + count <= y <= pY + count && g.left <= x < g.right then At(f, y - count, x) else At(f, y, x)
    decreases pY - startY
  {
    if pY >= startY {
      var w := g.right - g.left;
      var f1 := CopyRow(f, pY + count, pY, g.left, w);
      CopyRowAt(f, pY + count, pY, g.left, w, y, x);
      ShiftDownAt(f1, g, startY, count, pY - 1, y, x);
      if startY <= y - count <= pY {
        CopyRowAt(f, pY + count, pY, g.left, w, y - count, x);
      }
    }
  }

  lemma ShiftUpStep(f: Frame, g: Region, startY: int, count: nat, pY: int)
    requires CountFits(f, g, startY, count) && startY <= pY && pY + count < g.bottom
    ensures var f1 := CopyRow(f, pY, pY + count, g.left, g.right - g.left);
      && CountFits(f1, g, startY, count)
      && ShiftUp(f, g, pY, count) == ShiftUp(f1, g, pY + 1, count)
  {
    SameShapeKeeps(f, CopyRow(f, pY, pY + count, g.left, g.right - g.left));
  }

  lemma {:induction false} ShiftUpAt(f: Frame, g: Region, pY: int, count: nat, y: int, x: int)
    requires Valid(f) && 0 <= pY && g.bottom <= f.nRows && 0 <= g.left <= g.right <= f.nCols
    requires HasRow(f, y) && 0 <= x < f.nCols
    ensures At(ShiftUp(f, g, pY, count), y, x) ==
      if pY <= y < g.bottom - count && g.left <= x < g.right then At(f, y + count, x) else At(f, y, x)
    decreases g.bottom - pY
  {
    if pY < g.bottom - count {
      var w := g.right - g.left;
      var f1 := CopyRow(f, pY, pY + count, g.left, w);
      CopyRowAt(f, pY, pY + count, g.left, w, y, x);
      ShiftUpAt(f1, g, pY + 1, count, y, x);
      if pY <= y < g.bottom - count {
        CopyRowAt(f, pY, pY + count, g.left, w, y + count, x);
      }
    }
  }

  /** Inserting lines: within the columns of the region the rows from `startY` move down by `count`,
      those pushed past the bottom are lost, and blank ones take their place; any other cell of
      screen and history is untouched. */
  lemma InsertRowsRefines(f: Frame, g: Region, startY: int, count: nat, attrs: Cell, y: int, x: int)
    requires CountFits(f, g, startY, count) && HasRow(f, y) && 0 <= x < f.nCols
    ensures var c := At(InsertRows(f, g, startY, count, attrs), y, x);
      if !(startY <= y < g.bottom && g.left <= x < g.right) then c == At(f, y, x)
      else if y < startY + count then Blank(c, attrs)
      else c == At(f, y - count, x)
  {
    var h := ShiftDown(f, g, startY, count, g.bottom - count - 1);
    ShiftDownAt(f, g, startY, count, g.bottom - count - 1, y, x);
    EraseRowsAt(h, startY, count, g.left, g.right, attrs, y, x);
  }

  /** Deleting lines: the rows below move up, blank ones come in at the bottom of the region. */
  lemma DeleteRowsRefines(f: Frame, g: Region, startY: int, count: nat, attrs: Cell, y: int, x: int)
    requires CountFits(f, g, startY, count) && HasRow(f, y) && 0 <= x < f.nCols
    ensures var c := At(DeleteRows(f, g, startY, count, attrs), y, x);
      if !(startY <= y < g.bottom && g.left <= x < g.right) then c == At(f, y, x)
      else if y >= g.bottom - count then Blank(c, attrs)
      else c == At(f, y + count, x)
  {
    var h := ShiftUp(f, g, startY, count);
    ShiftUpAt(f, g, startY, count, y, x);
    EraseRowsAt(h, g.bottom - count, count, g.left, g.right, attrs, y, x);
  }

  /** Deleting what was just inserted brings back every row that was not pushed out. */
  lemma DeleteUndoesInsert(f: Frame, g: Region, startY: int, count: nat, attrs: Cell, y: int, x: int)
    requires CountFits(f, g, startY, count) && HasRow(f, y) && 0 <= x < f.nCols
    ensures var h := DeleteRows(InsertRows(f, g, startY, count, attrs), g, startY, count, attrs);
      if g.bottom - count <= y < g.bottom && startY <= y && g.left <= x < g.right then Blank(At(h, y, x), attrs)
      else At(h, y, x) == At(f, y, x)
  {
    var h := InsertRows(f, g, startY, count, attrs);
    DeleteRowsRefines(h, g, startY, count, attrs, y, x);
    InsertRowsRefines(f, g, startY, count, attrs, y, x);
    if startY <= y < g.bottom - count && g.left <= x < g.right {
      InsertRowsRefines(f, g, startY, count, attrs, y + count, x);
    }
  }
}
