/** The framebuffer, updated in place. */
module Framebuffers {
  import opened Renditions
  import opened Ring
  import opened Frames
  import opened Scrolling
  import opened Deltas

  // ---------------------------------------------------------------- copying row by row

  function Overwrite(cells: seq<Cell>, at: int, block: seq<Cell>): (r: seq<Cell>)
    ensures |r| == |cells|
  {
    seq(|cells|, i requires 0 <= i < |cells| => if at <= i < at + |block| then block[i - at] else cells[i])
  }

  method CopyBlock(dst: array<Cell>, at: int, block: seq<Cell>)
    requires 0 <= at && at + |block| <= dst.Length
    modifies dst
    ensures dst[..] == Overwrite(old(dst[..]), at, block)
  {
    for i := 0 to |block|
      invariant dst[..] == Overwrite(old(dst[..]), at, block[..i])
    {
      dst[at + i] := block[i];
    }
    assert block[..|block|] == block;
  }

  /** New storage with the first `a` rows of the screen and the oldest `j` of the history copied. */
  ghost function Partial(f: Frame, w: int, nRows: int, a: int, j: int): (cells: seq<Cell>)
    requires Valid(f) && w > 0 && nRows > 0 && 0 <= a <= Min(f.nRows, nRows) && 0 <= j <= f.historyRows
    ensures |cells| == w * (nRows + f.saveLines)
  {
    CellsWithin(w, 0, nRows + f.saveLines);
    seq(w * (nRows + f.saveLines), i requires 0 <= i < w * (nRows + f.saveLines) =>
      var r, x, first := i / w, i % w, nRows + f.saveLines - f.historyRows;
      if 0 <= x < Min(f.nCols, w) && (0 <= r < a || first <= r < first + j)
      then At(f, OldRow(f, nRows, r), x) else ZERO_CELL)
  }

  lemma PartialIsCopied(f: Frame, w: int, nRows: int)
    requires Valid(f) && w > 0 && nRows > 0
    ensures Partial(f, w, nRows, Min(f.nRows, nRows), f.historyRows) == Copied(f, w, nRows)
  {
  }

  lemma InBlock(w: int, r: int, len: int, i: int)
    requires 0 <= len <= w && 0 < w && 0 <= r && 0 <= i
    ensures w * r <= i < w * r + len <==> i / w == r && i % w < len
    ensures i / w == r ==> i - w * r == i % w
  {
    assert i == w * (i / w) + i % w;
    if i / w < r {
      RowsApart(w, i / w, r);
    } else if i / w > r {
      RowsApart(w, r, i / w);
    }
  }

  function StoredRow(f: Frame, pY: int, len: int): (row: seq<Cell>)
    requires Valid(f) && HasRow(f, pY) && 0 <= len <= f.nCols
    ensures |row| == len && forall x :: 0 <= x < len ==> row[x] == At(f, pY, x)
  {
    RowWithin(f, pY, 0, len);
    f.cells[Idx(f, pY, 0)..Idx(f, pY, 0) + len]
  }

  /** Rows that gain row `r`, copied from row `pY`, and nothing else. */
  lemma CopyOneRow(f: Frame, w: int, cells: seq<Cell>, next: seq<Cell>, r: int, pY: int)
    requires Valid(f) && w > 0 && 0 <= r && HasRow(f, pY) && |cells| == |next|
    requires forall i :: 0 <= i < |cells| && !(i / w == r && i % w < Min(f.nCols, w)) ==> next[i] == cells[i]
    requires forall i :: 0 <= i < |cells| && i / w == r && 0 <= i % w < Min(f.nCols, w) ==> next[i] == At(f, pY, i % w)
    ensures Overwrite(cells, w * r, StoredRow(f, pY, Min(f.nCols, w))) == next
  {
    var len := Min(f.nCols, w);
    var r1 := Overwrite(cells, w * r, StoredRow(f, pY, len));
    forall i | 0 <= i < |cells| ensures r1[i] == next[i] {
      InBlock(w, r, len, i);
    }
  }

  lemma CopyScreenRow(f: Frame, w: int, nRows: int, a: int)
    requires Valid(f) && w > 0 && nRows > 0 && 0 <= a < Min(f.nRows, nRows)
    ensures Overwrite(Partial(f, w, nRows, a, 0), w * a, StoredRow(f, a, Min(f.nCols, w))) == Partial(f, w, nRows, a + 1, 0)
  {
    CopyOneRow(f, w, Partial(f, w, nRows, a, 0), Partial(f, w, nRows, a + 1, 0), a, a);
  }

  lemma CopyHistoryRow(f: Frame, w: int, nRows: int, j: int)
    requires Valid(f) && w > 0 && nRows > 0 && 0 <= j < f.historyRows
    ensures var a, r := Min(f.nRows, nRows), nRows + f.saveLines - f.historyRows + j;
      Overwrite(Partial(f, w, nRows, a, j), w * r, StoredRow(f, j - f.historyRows, Min(f.nCols, w)))
      == Partial(f, w, nRows, a, j + 1)
  {
    var a, r := Min(f.nRows, nRows), nRows + f.saveLines - f.historyRows + j;
    CopyOneRow(f, w, Partial(f, w, nRows, a, j), Partial(f, w, nRows, a, j + 1), r, j - f.historyRows);
  }

  /** A copied cell after a delta copy: renewed and marked dirty if it is damaged and differs. */
  function Renewed(d: Damage, idx: int, cell: Cell, copy: Cell): Cell {
    if Damaged(d, idx) && copy != cell then cell.(dirty := true) else copy
  }

  /** A copy of which the first `n` rows show the screen. */
  function Shown(f: Frame, was: seq<Cell>, n: int): (r: seq<Cell>)
    requires Valid(f) && |was| == f.nCols * f.nRows
    ensures |r| == |was|
  {
    seq(|was|, i requires 0 <= i < |was| => if i / f.nCols < n then FullCopy(f)[i] else was[i])
  }

  lemma ShowRow(f: Frame, was: seq<Cell>, pY: int)
    requires Valid(f) && 0 <= pY < f.nRows && |was| == f.nCols * f.nRows
    ensures Overwrite(Shown(f, was, pY), f.nCols * pY, StoredRow(f, pY, f.nCols)) == Shown(f, was, pY + 1)
  {
    var r, next := Overwrite(Shown(f, was, pY), f.nCols * pY, StoredRow(f, pY, f.nCols)), Shown(f, was, pY + 1);
    forall i | 0 <= i < |was| ensures r[i] == next[i] {
      InGrid(f.nCols, f.nRows, i);
      InBlock(f.nCols, pY, f.nCols, i);
    }
  }

  lemma AllShown(f: Frame, was: seq<Cell>)
    requires Valid(f) && |was| == f.nCols * f.nRows
    ensures Shown(f, was, 0) == was && Shown(f, was, f.nRows) == FullCopy(f)
  {
    forall i | 0 <= i < |was| ensures Shown(f, was, 0)[i] == was[i] && Shown(f, was, f.nRows)[i] == FullCopy(f)[i] {
      InGrid(f.nCols, f.nRows, i);
    }
  }

  lemma RowOfDelta(f: Frame, was: seq<Cell>, pY: int)
    requires Valid(f) && 0 <= pY < f.nRows && |was| == f.nCols * f.nRows
    ensures 0 <= Idx(f, pY, 0) && Idx(f, pY, 0) + f.nCols <= |f.cells|
    ensures forall i :: 0 <= i < |was| && f.nCols * pY <= i < f.nCols * pY + f.nCols ==>
      var idx := Idx(f, pY, 0) + (i - f.nCols * pY);
      DeltaCopy(f, was)[i] == Renewed(f.damage, idx, f.cells[idx], was[i])
    ensures f.nCols * (pY + 1) == f.nCols * pY + f.nCols
  {
    RowWithin(f, pY, 0, f.nCols);
    forall i | 0 <= i < |was| && f.nCols * pY <= i < f.nCols * pY + f.nCols
      ensures var idx := Idx(f, pY, 0) + (i - f.nCols * pY);
        DeltaCopy(f, was)[i] == Renewed(f.damage, idx, f.cells[idx], was[i])
    {
      InGrid(f.nCols, f.nRows, i);
      InBlock(f.nCols, pY, f.nCols, i);
    }
  }

  class Framebuffer {
    var cells: array<Cell>
    var damage: Damage
    var scrollHead: int
    var marginBottom: int
    var historyRows: int
    var marginTop: int
    var nCols: int
    var saveLines: int
    var nRows: int
    var margin: bool

    ghost function View(): Frame
      reads this, cells
    {
      Frame(cells[..], nCols, nRows, saveLines, scrollHead, marginTop, marginBottom, historyRows, margin, damage)
    }

    /** Storage is made for all lines asked for, of which only the first 50000 are used. */
    constructor (nCols: int, nRows: int, saveLines: int)
      requires nCols > 0 && nRows > 0 && saveLines >= 0
      ensures Valid(View()) && fresh(cells)
      ensures View().nCols == nCols && View().nRows == nRows && View().saveLines == Min(saveLines, 50000)
      ensures View().historyRows == 0 && !View().margin && forall i :: 0 <= i < |View().cells| ==> View().cells[i] == ZERO_CELL
    {
      var limit := if saveLines > 50000 then 50000 else saveLines;
      CellsWithin(nCols, 0, nRows + saveLines);
      if limit < saveLines {
        RowsApart(nCols, nRows + limit, nRows + saveLines);
      }
      this.cells := new Cell[nCols * (nRows + saveLines)](_ => ZERO_CELL);
      this.nCols := nCols;
      this.nRows := nRows;
      this.saveLines := limit;
      scrollHead := 0;
      marginTop := 0;
      marginBottom := nRows + limit;
      historyRows := 0;
      margin := false;
      damage := Damage(0, 0, nCols * (nRows + limit));
    }

    function GetPhysicalRow(y: int): (pY: int)
      reads this, cells
      ensures pY == PhysicalRow(View(), y)
    {
      if y < 0 then
        var p := if !margin then y + scrollHead else y;
        if p < 0 then p + nRows + saveLines else p
      else if margin && (y < marginTop || y >= marginBottom) then y
      else
        var p := y + scrollHead - marginTop;
        if p >= marginBottom then p - (marginBottom - marginTop) else p
    }

    function GetIdx(pY: int, pX: int): (idx: int)
      reads this, cells
      ensures idx == Idx(View(), pY, pX)
    {
      nCols * GetPhysicalRow(pY) + pX
    }

    // ------------------------------------------------------------ cells

    method GetCell(pY: int, pX: int) returns (cell: Cell)
      requires Valid(View()) && HasRow(View(), pY) && 0 <= pX < nCols
      ensures cell == At(View(), pY, pX)
    {
      AddressMap(View(), pY, pX, pY, pX);
      return cells[GetIdx(pY, pX)];
    }

    /** What getCellPtr's caller writes. */
    method SetCell(pY: int, pX: int, cell: Cell)
      requires Valid(View()) && HasRow(View(), pY) && 0 <= pX < nCols
      modifies this`damage, cells
      ensures View() == PutCell(old(View()), pY, pX, cell)
    {
      AddressMap(View(), pY, pX, pY, pX);
      var idx := GetIdx(pY, pX);
      damage := AddDamage(damage, idx, idx + 1);
      cells[idx] := cell;
    }

    method EraseRange(start: int, end: int, attrs: Cell)
      requires 0 <= start <= end <= cells.Length
      modifies this`damage, cells
      ensures View() == old(View()).(cells := EraseCells(old(cells[..]), start, end, attrs),
                                     damage := AddDamage(old(damage), start, end))
    {
      for i := start to end
        invariant cells[..] == EraseCells(old(cells[..]), start, i, attrs) && damage == old(damage)
      {
        cells[i] := Erased(cells[i], attrs);
      }
      damage := AddDamage(damage, start, end);
    }

    method EraseInRow(pY: int, startX: int, count: int, attrs: Cell)
      requires Valid(View()) && Stored(View(), pY) && InCols(View(), startX, count)
      modifies this`damage, cells
      ensures View() == Frames.EraseInRow(old(View()), pY, startX, count, attrs)
    {
      if count == 0 {
        return;
      }
      RowWithin(View(), pY, startX, count);
      var idx := GetIdx(pY, startX);
      EraseRange(idx, idx + count, attrs);
    }

    /** copyCells and moveCells: both copy as if through a buffer. */
    method CopyCells(dstIx: int, srcIx: int, count: int)
      requires 0 <= srcIx && 0 <= count && srcIx + count <= cells.Length
      requires 0 <= dstIx && dstIx + count <= cells.Length
      modifies this`damage, cells
      ensures View() == MoveCells(old(View()), dstIx, srcIx, count)
    {
      CopyBlock(cells, dstIx, cells[srcIx..srcIx + count]);
      assert cells[..] == Frames.CopyCells(old(cells[..]), dstIx, srcIx, count);
      damage := AddDamage(damage, dstIx, dstIx + count);
    }

    method MoveInRow(pY: int, dstX: int, srcX: int, count: int)
      requires Valid(View()) && HasRow(View(), pY) && InCols(View(), srcX, count) && InCols(View(), dstX, count)
      modifies this`damage, cells
      ensures View() == Frames.MoveInRow(old(View()), pY, dstX, srcX, count)
    {
      if count == 0 {
        return;
      }
      RowWithin(View(), pY, srcX, count);
      RowWithin(View(), pY, dstX, count);
      CopyCells(GetIdx(pY, dstX), GetIdx(pY, srcX), count);
    }

    method CopyRow(dstY: int, srcY: int, startX: int, count: int)
      requires Valid(View()) && HasRow(View(), dstY) && HasRow(View(), srcY) && InCols(View(), startX, count)
      modifies this`damage, cells
      ensures View() == Frames.CopyRow(old(View()), dstY, srcY, startX, count)
    {
      if count == 0 {
        return;
      }
      RowWithin(View(), dstY, startX, count);
      RowWithin(View(), srcY, startX, count);
      CopyCells(GetIdx(dstY, startX), GetIdx(srcY, startX), count);
    }

    // ------------------------------------------------------------ scrolling

    method ScrollUp(count: nat)
      modifies this`scrollHead, this`historyRows, this`damage
      ensures View() == Scrolling.ScrollUp(old(View()), count)
    {
      ghost var f := View();
      for k := 0 to count
        invariant scrollHead == HeadUp(f, k) && View() == f.(scrollHead := scrollHead)
      {
        scrollHead := scrollHead + 1;
        if scrollHead == marginBottom {
          scrollHead := marginTop;
        }
      }
      historyRows := Min(historyRows + count, saveLines);
      damage := AddDamage(damage, marginTop * nCols, marginBottom * nCols);
    }

    method ScrollDown(count: nat)
      modifies this`scrollHead, this`historyRows, this`damage
      ensures View() == Scrolling.ScrollDown(old(View()), count)
    {
      ghost var f := View();
      for k := 0 to count
        invariant scrollHead == HeadDown(f, k) && View() == f.(scrollHead := scrollHead)
      {
        if scrollHead >= marginTop + 1 {
          scrollHead := scrollHead - 1;
        } else {
          scrollHead := marginBottom - 1;
        }
      }
      historyRows := Max(0, historyRows - count);
      damage := AddDamage(damage, marginTop * nCols, marginBottom * nCols);
    }

    // ------------------------------------------------------------ margins and size

    // the two loops of copyAllCells, and of resize

    method CopyRowTo(dst: array<Cell>, at: int, pY: int, rowLen: int)
      requires Valid(View()) && HasRow(View(), pY) && 0 <= rowLen <= nCols
      requires dst != cells && 0 <= at && at + rowLen <= dst.Length
      modifies dst
      ensures dst[..] == Overwrite(old(dst[..]), at, StoredRow(View(), pY, rowLen))
    {
      RowWithin(View(), pY, 0, rowLen);
      var srcStartIdx := GetIdx(pY, 0);
      CopyBlock(dst, at, cells[srcStartIdx..srcStartIdx + rowLen]);
    }

    method CopyScreenTo(dst: array<Cell>, w: int, rows: int)
      requires Valid(View()) && w > 0 && rows > 0 && dst != cells
      requires dst[..] == Partial(View(), w, rows, 0, 0)
      modifies dst
      ensures dst[..] == Partial(View(), w, rows, Min(nRows, rows), 0)
    {
      ghost var f := View();
      var rowLen := Min(nCols, w);
      var nCopyRows := Min(nRows, rows);
      for pY := 0 to nCopyRows
        invariant View() == f && dst[..] == Partial(f, w, rows, pY, 0)
      {
        CellsWithin(w, pY, rows + saveLines);
        CopyScreenRow(f, w, rows, pY);
        CopyRowTo(dst, w * pY, pY, rowLen);
      }
    }

    method CopyHistoryTo(dst: array<Cell>, w: int, rows: int)
      requires Valid(View()) && w > 0 && rows > 0 && dst != cells
      requires dst[..] == Partial(View(), w, rows, Min(nRows, rows), 0)
      modifies dst
      ensures dst[..] == Copied(View(), w, rows)
    {
      ghost var f := View();
      var rowLen := Min(nCols, w);
      for j := 0 to historyRows
        invariant View() == f && dst[..] == Partial(f, w, rows, Min(nRows, rows), j)
      {
        var r := rows + saveLines - historyRows + j;
        CellsWithin(w, r, rows + saveLines);
        CopyHistoryRow(f, w, rows, j);
        CopyRowTo(dst, w * r, j - historyRows, rowLen);
      }
      PartialIsCopied(f, w, rows);
    }

    method NewStorage(w: int, rows: int) returns (newCells: array<Cell>)
      requires Valid(View()) && w > 0 && rows > 0
      ensures fresh(newCells) && newCells[..] == Copied(View(), w, rows)
    {
      CellsWithin(w, 0, rows + saveLines);
      newCells := new Cell[w * (rows + saveLines)](_ => ZERO_CELL);
      assert newCells[..] == Partial(View(), w, rows, 0, 0);
      CopyScreenTo(newCells, w, rows);
      CopyHistoryTo(newCells, w, rows);
    }

    method UnwrapCellStorage()
      requires Valid(View())
      modifies this`cells, this`scrollHead
      ensures View() == Unwrapped(old(View())) && (cells == old(cells) || fresh(cells))
    {
      if scrollHead == marginTop {
        return;
      }
      var newCells := NewStorage(nCols, nRows);
      cells := newCells;
      scrollHead := marginTop;
    }

    method SetMargins(top: int, bottom: int)
      requires Valid(View()) && LegalMargins(View(), top, bottom)
      modifies this
      ensures View() == Scrolling.SetMargins(old(View()), top, bottom) && (cells == old(cells) || fresh(cells))
    {
      UnwrapCellStorage();
      marginTop := top;
      scrollHead := marginTop;
      marginBottom := bottom;
      margin := true;
      damage := Expose(damage);
    }

    method ResetMargins() returns (top: int, bottom: int)
      requires Valid(View())
      modifies this
      ensures View() == Scrolling.ResetMargins(old(View())) && (cells == old(cells) || fresh(cells))
      ensures top == 0 && bottom == nRows
    {
      UnwrapCellStorage();
      marginTop := 0;
      scrollHead := marginTop;
      marginBottom := nRows + saveLines;
      margin := false;
      damage := Expose(damage);
      return 0, nRows;
    }

    method Resize(w: int, rows: int) returns (top: int, bottom: int)
      requires Valid(View()) && w > 0 && rows > 0
      modifies this
      ensures View() == Scrolling.Resize(old(View()), w, rows) && fresh(cells)
      ensures top == 0 && bottom == rows
    {
      var newCells := NewStorage(w, rows);
      cells := newCells;
      nCols := w;
      nRows := rows;
      marginTop := 0;
      scrollHead := marginTop;
      marginBottom := nRows + saveLines;
      margin := false;
      damage := damage.(totalCells := nCols * (nRows + saveLines));
      return 0, rows;
    }

    method DropScrollbackHistory()
      modifies this`historyRows, this`damage
      ensures View() == DropHistory(old(View()))
    {
      historyRows := 0;
      damage := Expose(damage);
    }

    method ResetDamage()
      modifies this`damage
      ensures View() == Frames.ResetDamage(old(View()))
    {
      damage := damage.(start := 0, end := 0);
    }

    // ------------------------------------------------------------ copies of the screen

    method FullCopyCells(dst: array<Cell>)
      requires Valid(View()) && dst != cells && dst.Length == nCols * nRows
      modifies dst
      ensures dst[..] == FullCopy(View())
    {
      ghost var f, was := View(), dst[..];
      AllShown(f, was);
      for pY := 0 to nRows
        invariant View() == f && dst[..] == Shown(f, was, pY)
      {
        CellsWithin(nCols, pY, nRows);
        ShowRow(f, was, pY);
        CopyRowTo(dst, nCols * pY, pY, nCols);
      }
    }

    /** Copy what is damaged and differs of the cells from `start` on to `dst` from `at` on. */
    method DamageDeltaCopy(dst: array<Cell>, at: int, start: int, count: int)
      requires dst != cells && 0 <= at && 0 <= count && at + count <= dst.Length
      requires 0 <= start && start + count <= cells.Length
      modifies dst
      ensures forall i :: 0 <= i < dst.Length ==>
        dst[i] == (if at <= i < at + count then Renewed(damage, start + (i - at), cells[start + (i - at)], old(dst[i]))
                   else old(dst[i]))
    {
      var end := start + count;
      if damage.end <= start || end <= damage.start {
        return;
      }
      var base := 0;
      var from := start;
      if start < damage.start {
        base := base + (damage.start - start);
        from := damage.start;
      }
      if damage.end < end {
        end := damage.end;
      }
      for j := from to Max(from, end)
        invariant forall i :: 0 <= i < dst.Length ==>
          dst[i] == (if at <= i < at + count && start + (i - at) < j
                     then Renewed(damage, start + (i - at), cells[start + (i - at)], old(dst[i])) else old(dst[i]))
      {
        var i := j - from;
        if dst[at + base + i] != cells[j] {
          dst[at + base + i] := cells[j].(dirty := true);
        }
      }
    }

    method DeltaCopyCells(dst: array<Cell>)
      requires Valid(View()) && dst != cells && dst.Length == nCols * nRows
      modifies dst
      ensures dst[..] == DeltaCopy(View(), old(dst[..]))
    {
      ghost var f, was := View(), dst[..];
      var dstIdx := 0;
      for pY := 0 to nRows
        invariant View() == f && dstIdx == nCols * pY
        invariant forall i :: 0 <= i < dst.Length ==> dst[i] == if i < nCols * pY then DeltaCopy(f, was)[i] else was[i]
      {
        RowWithin(f, pY, 0, nCols);
        CellsWithin(nCols, pY, nRows);
        DamageDeltaCopy(dst, dstIdx, nCols * GetPhysicalRow(pY), nCols);
        RowOfDelta(f, was, pY);
        dstIdx := dstIdx + nCols;
      }
    }
  }
}
