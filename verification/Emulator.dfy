/** The emulator over its primary framebuffer, updated in place. */
module Emulators {
  import opened Renditions
  import opened Ring
  import opened Frames
  import opened Scrolling
  import opened Lines
  import opened Framebuffers
  import opened Terminals

  class Emulator {
    const cf: Framebuffer
    var posX: int
    var posY: int
    var lastCol: bool
    var marginTop: int
    var marginBottom: int
    var nCols: int
    var nRows: int
    var hMargin: int
    var nColsEff: int
    var horizMarginMode: bool
    var originMode: OriginMode
    var attrs: Cell

    ghost function View(): Term
      reads this, cf, cf.cells
    {
      Term(cf.View(), posX, posY, lastCol, marginTop, marginBottom, nCols, nRows, hMargin, nColsEff,
           horizMarginMode, originMode, attrs)
    }

    constructor (nCols: int, nRows: int, saveLines: int)
      requires nCols > 0 && nRows > 0 && saveLines >= 0
      ensures Good(View()) && fresh(cf) && fresh(cf.cells)
    {
      cf := new Framebuffer(nCols, nRows, saveLines);
      marginTop := 0;
      marginBottom := nRows;
      this.nCols := nCols;
      this.nRows := nRows;
      horizMarginMode := false;
      nColsEff := nCols;
      hMargin := 0;
      posX := 0;
      posY := 0;
      lastCol := false;
      originMode := Absolute;
      attrs := Cell(" ", PLAIN, false, false, false, false, false);
    }

    method NormalizeCursorPos()
      modifies this`posX, this`posY, this`lastCol
      ensures View() == Terminals.NormalizeCursorPos(old(View()))
    {
      if nColsEff < posX + 1 {
        posX := nColsEff - 1;
      }
      if nRows < posY + 1 {
        posY := nRows - 1;
      }
      lastCol := false;
    }

    method HdlC0Cr()
      modifies this`posX, this`lastCol
      ensures View() == CarriageReturn(old(View()))
    {
      if originMode.Absolute? && posX < hMargin {
        posX := 0;
      } else {
        posX := hMargin;
      }
      lastCol := false;
    }

    // ------------------------------------------------------------ rows between the margins

    method EraseRow(pY: int)
      requires Valid(cf.View()) && Stored(cf.View(), pY) && 0 <= hMargin <= nColsEff <= cf.nCols
      modifies cf`damage, cf.cells
      ensures cf.View() == Frames.EraseInRow(old(cf.View()), pY, hMargin, nColsEff - hMargin, attrs)
    {
      cf.EraseInRow(pY, hMargin, nColsEff - hMargin, attrs);
    }

    method EraseRows(startY: int, count: int)
      requires Valid(cf.View()) && 0 <= count && AllStored(cf.View(), startY, count)
      requires 0 <= hMargin <= nColsEff <= cf.nCols
      modifies cf`damage, cf.cells
      ensures cf.View() == Lines.EraseRows(old(cf.View()), startY, count, hMargin, nColsEff, attrs)
    {
      ghost var f := cf.View();
      for pY := startY to startY + count
        invariant AllStored(f, startY, pY - startY)
        invariant cf.View() == Lines.EraseRows(f, startY, pY - startY, hMargin, nColsEff, attrs)
      {
        assert Stored(f, pY) && PhysicalRow(cf.View(), pY) == PhysicalRow(f, pY);
        EraseRow(pY);
      }
    }

    method CopyRow(dstY: int, srcY: int)
      requires Valid(cf.View()) && HasRow(cf.View(), dstY) && HasRow(cf.View(), srcY)
      requires 0 <= hMargin <= nColsEff <= cf.nCols
      modifies cf`damage, cf.cells
      ensures cf.View() == Frames.CopyRow(old(cf.View()), dstY, srcY, hMargin, nColsEff - hMargin)
    {
      cf.CopyRow(dstY, srcY, hMargin, nColsEff - hMargin);
    }

    // the loops of insertRows and deleteRows

    method CopyRowDown(pY: int, count: int, ghost g: Region, ghost startY: int)
      requires g.left == hMargin && g.right == nColsEff
      requires count >= 0 && CountFits(cf.View(), g, startY, count) && startY <= pY && pY + count < g.bottom
      modifies cf`damage, cf.cells
      ensures CountFits(cf.View(), g, startY, count)
      ensures ShiftDown(cf.View(), g, startY, count, pY - 1) == old(ShiftDown(cf.View(), g, startY, count, pY))
    {
      ShiftDownStep(cf.View(), g, startY, count, pY);
      CopyRow(pY + count, pY);
    }

    method ShiftRowsDown(startY: int, count: int)
      requires count >= 0 && CountFits(cf.View(), RegionOf(View()), startY, count)
      modifies cf`damage, cf.cells
      ensures cf.View() == ShiftDown(old(cf.View()), RegionOf(View()), startY, count, marginBottom - count - 1)
    {
      ghost var f, g := cf.View(), RegionOf(View());
      var pY := marginBottom - count - 1;
      while pY >= startY
        invariant startY - 1 <= pY < marginBottom - count
        invariant CountFits(cf.View(), g, startY, count)
        invariant ShiftDown(cf.View(), g, startY, count, pY) == ShiftDown(f, g, startY, count, marginBottom - count - 1)
      {
        CopyRowDown(pY, count, g, startY);
        if pY == 0 {
          return;
        }
        pY := pY - 1;
      }
    }

    method CopyRowUp(pY: int, count: int, ghost g: Region, ghost startY: int)
      requires g.left == hMargin && g.right == nColsEff
      requires count >= 0 && CountFits(cf.View(), g, startY, count) && startY <= pY && pY + count < g.bottom
      modifies cf`damage, cf.cells
      ensures CountFits(cf.View(), g, startY, count)
      ensures ShiftUp(cf.View(), g, pY + 1, count) == old(ShiftUp(cf.View(), g, pY, count))
    {
      ShiftUpStep(cf.View(), g, startY, count, pY);
      CopyRow(pY, pY + count);
    }

    method ShiftRowsUp(startY: int, count: int)
      requires count >= 0 && CountFits(cf.View(), RegionOf(View()), startY, count)
      modifies cf`damage, cf.cells
      ensures cf.View() == ShiftUp(old(cf.View()), RegionOf(View()), startY, count)
    {
      ghost var f, g := cf.View(), RegionOf(View());
      for pY := startY to marginBottom - count
        invariant CountFits(cf.View(), g, startY, count)
        invariant ShiftUp(cf.View(), g, pY, count) == ShiftUp(f, g, startY, count)
      {
        CopyRowUp(pY, count, g, startY);
      }
    }

    method InsertRows(startY: int, count: int)
      requires count >= 0 && CountFits(cf.View(), RegionOf(View()), startY, count)
      modifies cf`damage, cf.cells
      ensures cf.View() == Lines.InsertRows(old(cf.View()), RegionOf(View()), startY, count, attrs)
    {
      ShiftRowsDown(startY, count);
      RowsStored(cf.View(), startY, count);
      EraseRows(startY, count);
    }

    method DeleteRows(startY: int, count: int)
      requires count >= 0 && CountFits(cf.View(), RegionOf(View()), startY, count)
      modifies cf`damage, cf.cells
      ensures cf.View() == Lines.DeleteRows(old(cf.View()), RegionOf(View()), startY, count, attrs)
    {
      ShiftRowsUp(startY, count);
      RowsStored(cf.View(), marginBottom - count, count);
      EraseRows(marginBottom - count, count);
    }

    // ------------------------------------------------------------ control sequences

    method HdlCsiIl(n: nat)
      requires Good(View())
      modifies this`posX, this`lastCol, cf`damage, cf.cells
      ensures View() == InsertLines(old(View()), n)
    {
      if hMargin <= posX < nColsEff && marginTop <= posY < marginBottom {
        var lines := Min(n, marginBottom - posY);
        InsertRows(posY, lines);
        HdlC0Cr();
      }
    }

    method HdlCsiDl(n: nat)
      requires Good(View())
      modifies this`posX, this`lastCol, cf`damage, cf.cells
      ensures View() == DeleteLines(old(View()), n)
    {
      if hMargin <= posX < nColsEff && marginTop <= posY < marginBottom {
        var lines := Min(n, marginBottom - posY);
        DeleteRows(posY, lines);
        HdlC0Cr();
      }
    }

    method ScrollUpText(n: nat)
      requires Valid(cf.View()) && Fits(cf.View(), RegionOf(View())) && MayScrollUp(cf.View(), RegionOf(View()), n)
      modifies cf`scrollHead, cf`historyRows, cf`damage, cf.cells
      ensures cf.View() == ScrollTextUp(old(cf.View()), RegionOf(View()), n, attrs)
    {
      ScrollUpValid(cf.View(), n);
      cf.ScrollUp(n);
      EraseRows(marginBottom - n, n);
    }

    method ScrollDownText(n: nat)
      requires Valid(cf.View()) && Fits(cf.View(), RegionOf(View())) && MayScrollDown(cf.View(), RegionOf(View()), n)
      modifies cf`scrollHead, cf`historyRows, cf`damage, cf.cells
      ensures cf.View() == ScrollTextDown(old(cf.View()), RegionOf(View()), n, attrs)
    {
      ScrollDownValid(cf.View(), n);
      cf.ScrollDown(n);
      EraseRows(marginTop, n);
    }

    method HdlCsiSu(n: nat)
      requires Good(View()) && (!horizMarginMode ==> MayScrollUp(cf.View(), RegionOf(View()), n))
      modifies this`lastCol, cf`scrollHead, cf`historyRows, cf`damage, cf.cells
      ensures View() == SU(old(View()), n)
    {
      if horizMarginMode {
        var arg := Min(n, marginBottom - marginTop);
        DeleteRows(marginTop, arg);
      } else {
        ScrollUpText(n);
        lastCol := false;
      }
    }

    method HdlCsiSd(n: nat)
      requires Good(View()) && (!horizMarginMode ==> MayScrollDown(cf.View(), RegionOf(View()), n))
      modifies this`lastCol, cf`scrollHead, cf`historyRows, cf`damage, cf.cells
      ensures View() == SD(old(View()), n)
    {
      if horizMarginMode {
        var arg := Min(n, marginBottom - marginTop);
        InsertRows(marginTop, arg);
      } else {
        ScrollDownText(n);
        lastCol := false;
      }
    }

    method HdlEscInd() returns (scrolled: bool)
      requires Good(View())
      modifies this`posY, this`lastCol, cf`scrollHead, cf`historyRows, cf`damage, cf.cells
      ensures View() == Index(old(View())) && (scrolled <==> old(posY) == marginBottom - 1)
    {
      scrolled := false;
      MayScroll(cf.View(), RegionOf(View()), 1);
      if posY == marginBottom - 1 {
        HdlCsiSu(1);
        scrolled := true;
      } else if posY < nRows - 1 {
        posY := posY + 1;
        lastCol := false;
      }
    }

    method HdlEscRi()
      requires Good(View())
      modifies this`posY, this`lastCol, cf`scrollHead, cf`historyRows, cf`damage, cf.cells
      ensures View() == ReverseIndex(old(View()))
    {
      MayScroll(cf.View(), RegionOf(View()), 1);
      if posY == marginTop {
        HdlCsiSd(1);
      } else if posY > 0 {
        posY := posY - 1;
        lastCol := false;
      }
    }

    method SetRegion(top: int, bottom: int)
      requires Good(View()) && LegalMargins(cf.View(), top, bottom)
      modifies this`marginTop, this`marginBottom, cf
      ensures View() == if top == 0 && bottom == nRows then NoRegion(old(View()))
                        else old(View()).(frame := Scrolling.SetMargins(old(cf.View()), top, bottom),
                                          marginTop := top, marginBottom := bottom)
      ensures cf.cells == old(cf.cells) || fresh(cf.cells)
    {
      marginTop := top;
      marginBottom := bottom;
      if marginTop == 0 && marginBottom == nRows {
        marginTop, marginBottom := cf.ResetMargins();
      } else {
        cf.SetMargins(marginTop, marginBottom);
      }
    }

    /** The margins a DECSTBM asks for, if it is legal and changes anything. */
    method ChangeMargins(params: seq<nat>)
      requires Good(View())
      modifies this`marginTop, this`marginBottom, cf
      ensures View() == NewRegion(old(View()), params)
      ensures cf.cells == old(cf.cells) || fresh(cf.cells)
    {
      if |params| == 0 {
        if marginTop != 0 || marginBottom != nRows {
          marginTop, marginBottom := cf.ResetMargins();
        }
      } else if |params| == 2 {
        var newMarginTop := 0;
        var newMarginBottom := params[1];
        if params[0] > 0 {
          newMarginTop := params[0] - 1;
        }
        if newMarginBottom < newMarginTop + 2 || nRows < newMarginBottom {
          // illegal arguments
        } else if newMarginTop != marginTop || newMarginBottom != marginBottom {
          SetRegion(newMarginTop, newMarginBottom);
        }
      }
    }

    method HdlCsiDecstbm(params: seq<nat>)
      requires Good(View())
      modifies this, cf
      ensures View() == SetTopBottomMargins(old(View()), params)
      ensures cf.cells == old(cf.cells) || fresh(cf.cells)
    {
      ChangeMargins(params);
      if originMode.Absolute? {
        posX := 0;
        posY := 0;
      } else {
        posX := hMargin;
        posY := marginTop;
      }
      lastCol := false;
    }

    method ShrinkRows(rows: int)
      requires nRows > rows || posY < rows
      modifies this`posY, cf`scrollHead, cf`historyRows, cf`damage
      ensures View() == Shrink(old(View()), rows)
    {
      if rows < posY + 1 {
        var nScroll := nRows - rows;
        cf.ScrollUp(nScroll);
        posY := posY - nScroll;
      }
    }

    method GrowRows(rows: int)
      requires cf.historyRows >= 0
      modifies this`posY, cf`scrollHead, cf`historyRows, cf`damage
      ensures View() == Grow(old(View()), rows)
    {
      if nRows < rows {
        var nScroll := Min(rows - nRows, cf.historyRows);
        cf.ScrollDown(nScroll);
        posY := posY + nScroll;
      }
    }

    method FitMargins(w: int, rows: int)
      modifies this`nCols, this`nRows, this`nColsEff, this`hMargin
      ensures var right := if horizMarginMode then Min(old(nColsEff), w) else w;
        View() == old(View()).(nCols := w, nRows := rows, nColsEff := right,
                               hMargin := if horizMarginMode then Max(0, Min(old(hMargin), right - 2)) else 0)
    {
      nCols := w;
      nRows := rows;
      if horizMarginMode {
        nColsEff := Min(nColsEff, nCols);
        hMargin := Max(0, Min(hMargin, nColsEff - 2));
      } else {
        nColsEff := nCols;
        hMargin := 0;
      }
    }

    method ResizeFrame(w: int, rows: int)
      requires Good(View()) && w > 0 && rows > 0
      modifies this`posY, this`marginTop, this`marginBottom, cf
      ensures var t1 := Shrink(old(View()), rows);
        && Valid(t1.frame)
        && View() == t1.(frame := Scrolling.Resize(t1.frame, w, rows), marginTop := 0, marginBottom := rows)
      ensures fresh(cf.cells)
    {
      ResizedFrame(View(), w, rows);
      ShrinkRows(rows);
      marginTop, marginBottom := cf.Resize(w, rows);
    }

    /** On the primary screen. */
    method Resize(w: int, rows: int)
      requires Good(View()) && w > 0 && rows > 0
      modifies this, cf
      ensures View() == ResizePrimary(old(View()), w, rows)
      ensures cf.cells == old(cf.cells) || fresh(cf.cells)
    {
      if nCols == w && nRows == rows {
        return;
      }
      ResizedFrame(View(), w, rows);
      ResizeFrame(w, rows);
      GrowRows(rows);
      FitMargins(w, rows);
      NormalizeCursorPos();
    }
  }
}
