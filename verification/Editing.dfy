/** What the editing and scrolling sequences do to the text and the cursor, cell by cell. */
module Editing {
  import opened Renditions
  import opened Ring
  import opened Frames
  import opened Scrolling
  import opened Lines
  import opened Terminals

  /** The cell at a row and column of the emulator's screen or history. */
  function CellOf(t: Term, y: int, x: int): Cell
    requires Valid(t.frame) && HasRow(t.frame, y) && 0 <= x < t.frame.nCols
  {
    At(t.frame, y, x)
  }

  predicate InColumns(t: Term, x: int) {
    t.hMargin <= x < t.nColsEff
  }

  // ---------------------------------------------------------------- IL and DL

  /** The cursor is between all four margins. */
  predicate Inside(t: Term) {
    InColumns(t, t.posX) && t.marginTop <= t.posY && t.posY < t.marginBottom
  }

  lemma OutsideNothing(t: Term, n: nat)
    requires Good(t) && !Inside(t)
    ensures InsertLines(t, n) == t && DeleteLines(t, n) == t
  {
  }

  /** Nothing else than text and cursor changes: the cursor is then at the start of its line. */
  lemma LinesMoveCursor(t: Term, n: nat)
    requires Good(t) && Inside(t)
    ensures InsertLines(t, n) == t.(frame := InsertLines(t, n).frame, posX := t.hMargin, lastCol := false)
    ensures DeleteLines(t, n) == t.(frame := DeleteLines(t, n).frame, posX := t.hMargin, lastCol := false)
    ensures SameShape(t.frame, InsertLines(t, n).frame) && SameShape(t.frame, DeleteLines(t, n).frame)
  {
  }

  /** IL: between the margins the rows from the cursor's on move down by the count, at most to the
      bottom margin, and blank ones take their place; every other cell of screen and history stays. */
  lemma InsertLinesAt(t: Term, n: nat, y: int, x: int)
    requires Good(t) && Inside(t) && HasRow(t.frame, y) && 0 <= x < t.nCols
    ensures Good(InsertLines(t, n)) && HasRow(InsertLines(t, n).frame, y)
    ensures var k := if n < t.marginBottom - t.posY then n else t.marginBottom - t.posY;
      var c := CellOf(InsertLines(t, n), y, x);
      if !InColumns(t, x) || y < t.posY || y >= t.marginBottom then c == CellOf(t, y, x)
      else if y < t.posY + k then Blank(c, t.attrs)
      else c == CellOf(t, y - k, x)
  {
    LinesKeepGood(t, n);
    LinesMoveCursor(t, n);
    InsertRowsRefines(t.frame, RegionOf(t), t.posY, Min(n, t.marginBottom - t.posY), t.attrs, y, x);
  }

  /** DL: the rows below move up, and blank ones come in at the bottom margin. */
  lemma DeleteLinesAt(t: Term, n: nat, y: int, x: int)
    requires Good(t) && Inside(t) && HasRow(t.frame, y) && 0 <= x < t.nCols
    ensures Good(DeleteLines(t, n)) && HasRow(DeleteLines(t, n).frame, y)
    ensures var k := if n < t.marginBottom - t.posY then n else t.marginBottom - t.posY;
      var c := CellOf(DeleteLines(t, n), y, x);
      if !InColumns(t, x) || y < t.posY || y >= t.marginBottom then c == CellOf(t, y, x)
      else if y >= t.marginBottom - k then Blank(c, t.attrs)
      else c == CellOf(t, y + k, x)
  {
    LinesKeepGood(t, n);
    LinesMoveCursor(t, n);
    DeleteRowsRefines(t.frame, RegionOf(t), t.posY, Min(n, t.marginBottom - t.posY), t.attrs, y, x);
  }

  lemma InsertedInside(t: Term, n: nat)
    requires Good(t) && Inside(t)
    ensures var t1, t2 := InsertLines(t, n), DeleteLines(InsertLines(t, n), n);
      && Good(t1) && Inside(t1) && Good(t2) && SameShape(t.frame, t1.frame) && SameShape(t.frame, t2.frame)
      && t1 == t.(frame := t1.frame, posX := t.hMargin, lastCol := false)
      && t2 == t.(frame := t2.frame, posX := t.hMargin, lastCol := false)
  {
    LinesKeepGood(t, n);
    LinesMoveCursor(t, n);
    LinesKeepGood(InsertLines(t, n), n);
    LinesMoveCursor(InsertLines(t, n), n);
  }

  /** DL after IL of as many lines: every cell is as it was but those pushed out at the bottom margin,
      which are blank. */
  lemma DeleteUndoesInsertLines(t: Term, n: nat, y: int, x: int)
    requires Good(t) && Inside(t) && HasRow(t.frame, y) && 0 <= x < t.nCols
    ensures Good(InsertLines(t, n))
    ensures var t' := DeleteLines(InsertLines(t, n), n);
      && Good(t') && HasRow(t'.frame, y) && t' == t.(frame := t'.frame, posX := t.hMargin, lastCol := false)
      && var k := if n < t.marginBottom - t.posY then n else t.marginBottom - t.posY;
         if InColumns(t, x) && t.posY <= y && t.marginBottom - k <= y < t.marginBottom
         then Blank(CellOf(t', y, x), t.attrs) else CellOf(t', y, x) == CellOf(t, y, x)
  {
    InsertedInside(t, n);
    DeleteLinesAt(InsertLines(t, n), n, y, x);
    InsertLinesAt(t, n, if InColumns(t, x) && t.posY <= y < t.marginBottom - Min(n, t.marginBottom - t.posY)
                        then y + Min(n, t.marginBottom - t.posY) else y, x);
  }

  // ---------------------------------------------------------------- SU and SD between left and right margins

  /** SU with left and right margins: the text between all four margins moves up and blank rows come
      in at the bottom margin; nothing else changes, and not the cursor. */
  lemma ScrollUpColumnsAt(t: Term, n: nat, y: int, x: int)
    requires Good(t) && t.horizMarginMode && HasRow(t.frame, y) && 0 <= x < t.nCols
    ensures var t' := SU(t, n);
      && Good(t') && t' == t.(frame := t'.frame) && HasRow(t'.frame, y)
      && var k := if n < t.marginBottom - t.marginTop then n else t.marginBottom - t.marginTop;
         var c := CellOf(t', y, x);
         if !InColumns(t, x) || y < t.marginTop || y >= t.marginBottom then c == CellOf(t, y, x)
         else if y >= t.marginBottom - k then Blank(c, t.attrs)
         else c == CellOf(t, y + k, x)
  {
    ScrollKeepsGood(t, n);
    DeleteRowsRefines(t.frame, RegionOf(t), t.marginTop, Min(n, t.marginBottom - t.marginTop), t.attrs, y, x);
  }

  lemma ScrollDownColumnsAt(t: Term, n: nat, y: int, x: int)
    requires Good(t) && t.horizMarginMode && HasRow(t.frame, y) && 0 <= x < t.nCols
    ensures var t' := SD(t, n);
      && Good(t') && t' == t.(frame := t'.frame) && HasRow(t'.frame, y)
      && var k := if n < t.marginBottom - t.marginTop then n else t.marginBottom - t.marginTop;
         var c := CellOf(t', y, x);
         if !InColumns(t, x) || y < t.marginTop || y >= t.marginBottom then c == CellOf(t, y, x)
         else if y < t.marginTop + k then Blank(c, t.attrs)
         else c == CellOf(t, y - k, x)
  {
    ScrollKeepsGood(t, n);
    InsertRowsRefines(t.frame, RegionOf(t), t.marginTop, Min(n, t.marginBottom - t.marginTop), t.attrs, y, x);
  }

  // ---------------------------------------------------------------- SU and SD of whole rows

  /** The screen has a scrolling region of its own. */
  predicate HasRegion(t: Term) {
    t.frame.margin
  }

  /** SU of whole rows: each row shows the one `n` rows below, out of the history's end too when there
      is no region; blank rows come in above the bottom margin, and outside the region nothing moves. */
  lemma ScrollUpRowsAt(t: Term, n: nat, y: int, x: int)
    requires Good(t) && !t.horizMarginMode && n <= t.marginBottom - t.marginTop
    requires 0 <= x < t.nCols && y < t.nRows
    requires if HasRegion(t) then HasRow(t.frame, y) else -(t.frame.historyRows + n) <= y && -t.frame.saveLines <= y
    ensures MayScrollUp(t.frame, RegionOf(t), n)
    ensures var t' := SU(t, n);
      && Good(t') && t' == t.(frame := t'.frame, lastCol := false) && HasRow(t'.frame, y)
      && var c := CellOf(t', y, x);
         if t.marginBottom - n <= y < t.marginBottom then Blank(c, t.attrs)
         else if HasRegion(t) && (y < t.marginTop || y >= t.marginBottom) then c == CellOf(t, y, x)
         else c == CellOf(t, y + n, x)
  {
    MayScroll(t.frame, RegionOf(t), n);
    ScrollKeepsGood(t, n);
    ScrolledUpAt(t.frame, RegionOf(t), n, t.attrs, y, x);
  }

  lemma ScrollDownRowsAt(t: Term, n: nat, y: int, x: int)
    requires Good(t) && !t.horizMarginMode && n <= t.marginBottom - t.marginTop
    requires 0 <= x < t.nCols && y < t.nRows && (0 <= y || n - t.frame.historyRows <= y)
    ensures MayScrollDown(t.frame, RegionOf(t), n)
    ensures var t' := SD(t, n);
      && Good(t') && t' == t.(frame := t'.frame, lastCol := false) && HasRow(t'.frame, y)
      && var c := CellOf(t', y, x);
         if t.marginTop <= y < t.marginTop + n then Blank(c, t.attrs)
         else if HasRegion(t) && (y < t.marginTop || y >= t.marginBottom) then c == CellOf(t, y, x)
         else c == CellOf(t, y - n, x)
  {
    MayScroll(t.frame, RegionOf(t), n);
    ScrollKeepsGood(t, n);
    ScrolledDownAt(t.frame, RegionOf(t), n, t.attrs, y, x);
  }

  // ---------------------------------------------------------------- IND, RI and CR

  /** IND: one row down, and at the bottom margin the text scrolls up instead; on the last row below
      the region nothing happens. */
  lemma IndexMoves(t: Term)
    requires Good(t)
    ensures t.horizMarginMode || MayScrollUp(t.frame, RegionOf(t), 1)
    ensures t.posY == t.marginBottom - 1 ==> Index(t) == SU(t, 1) && Index(t).posY == t.posY
    ensures t.posY != t.marginBottom - 1 && t.posY + 1 < t.nRows ==> Index(t) == t.(posY := t.posY + 1, lastCol := false)
    ensures t.posY != t.marginBottom - 1 && t.posY + 1 == t.nRows ==> Index(t) == t
  {
    MayScroll(t.frame, RegionOf(t), 1);
  }

  /** RI: one row up, and at the top margin the text scrolls down instead; on the first row above the
      region nothing happens. */
  lemma ReverseIndexMoves(t: Term)
    requires Good(t)
    ensures t.horizMarginMode || MayScrollDown(t.frame, RegionOf(t), 1)
    ensures t.posY == t.marginTop ==> ReverseIndex(t) == SD(t, 1) && ReverseIndex(t).posY == t.posY
    ensures t.posY != t.marginTop && t.posY > 0 ==> ReverseIndex(t) == t.(posY := t.posY - 1, lastCol := false)
    ensures t.posY != t.marginTop && t.posY == 0 ==> ReverseIndex(t) == t
  {
    MayScroll(t.frame, RegionOf(t), 1);
  }

  /** RI takes back IND while neither scrolls. */
  lemma ReverseIndexUndoesIndex(t: Term)
    requires Good(t) && t.posY != t.marginBottom - 1 && t.posY + 1 < t.nRows && t.posY + 1 != t.marginTop
    ensures Good(Index(t)) && ReverseIndex(Index(t)) == t.(lastCol := false)
  {
    IndexKeepsGood(t);
    IndexMoves(t);
    ReverseIndexMoves(Index(t));
  }

  /** CR: to the left margin; from the left of it to the first column, unless the origin is the region. */
  lemma ReturnMoves(t: Term)
    requires Good(t)
    ensures CarriageReturn(t) == t.(posX := CarriageReturn(t).posX, lastCol := false)
    ensures t.hMargin <= t.posX ==> CarriageReturn(t).posX == t.hMargin
    ensures t.posX < t.hMargin ==> CarriageReturn(t).posX == (if t.originMode == Absolute then 0 else t.hMargin)
  {
  }

  // ---------------------------------------------------------------- DECSTBM

  /** A region of at least two rows of the screen; rows are counted from 1, and 0 stands for 1. */
  predicate LegalRegion(t: Term, top: nat, bottom: nat) {
    (if top == 0 then 1 else top) < bottom <= t.nRows
  }

  /** DECSTBM with a legal region sets it; without parameters the whole screen scrolls again; anything
      else leaves the margins. Only the whole screen scrolls with its history. */
  lemma RegionSet(t: Term, params: seq<nat>)
    requires Good(t)
    ensures var t' := SetTopBottomMargins(t, params);
      && Good(t')
      && ((HasRegion(t) <==> (t.marginTop, t.marginBottom) != (0, t.nRows)) ==>
            (HasRegion(t') <==> (t'.marginTop, t'.marginBottom) != (0, t.nRows)))
      && (t'.marginTop, t'.marginBottom) ==
           if |params| == 0 then (0, t.nRows)
           else if |params| == 2 && LegalRegion(t, params[0], params[1])
           then (if params[0] == 0 then 0 else params[0] - 1, params[1])
           else (t.marginTop, t.marginBottom)
  {
    MarginsKeepGood(t, params);
  }

  /** And the cursor goes home: to the corner of the screen, or of the region. */
  lemma RegionMovesCursor(t: Term, params: seq<nat>)
    requires Good(t)
    ensures var t' := SetTopBottomMargins(t, params);
      && t' == t.(frame := t'.frame, marginTop := t'.marginTop, marginBottom := t'.marginBottom,
                  posX := t'.posX, posY := t'.posY, lastCol := false)
      && (t'.posX, t'.posY) == if t.originMode == Absolute then (0, 0) else (t.hMargin, t'.marginTop)
  {
  }

  // ---------------------------------------------------------------- resizing

  /** How many rows the text moves down the screen in a resize: up when the cursor would fall off a
      smaller one, down when a larger one takes rows back from the history. */
  function Shift(t: Term, nRows: int): int {
    if nRows < t.posY + 1 then nRows - t.nRows
    else if t.nRows < nRows then Min(nRows - t.nRows, t.frame.historyRows)
    else 0
  }

  lemma ShrinkShows(t: Term, nRows: int, y: int, x: int)
    requires Good(t) && !HasRegion(t) && 0 < nRows && 0 <= x < t.nCols && nRows < t.posY + 1
    requires -t.frame.historyRows <= y < t.nRows && -t.frame.saveLines <= y + (nRows - t.nRows)
    ensures var f := Shrink(t, nRows).frame;
      && Valid(f) && HasRow(f, y + (nRows - t.nRows)) && At(f, y + (nRows - t.nRows), x) == CellOf(t, y, x)
  {
    ScrollUpAt(t.frame, t.nRows - nRows, y + (nRows - t.nRows), x);
  }

  /** A resize without a region: every cell that the new screen and history have room for is where
      the shift puts it. */
  lemma ResizeShows(t: Term, nCols: int, nRows: int, y: int, x: int)
    requires Good(t) && !HasRegion(t) && 0 < nCols && 0 < nRows && (nCols != t.nCols || nRows != t.nRows)
    requires HasRow(t.frame, y) && 0 <= x < t.nCols && x < nCols
    requires -t.frame.saveLines <= y + Shift(t, nRows) < nRows
    ensures var t', y' := ResizePrimary(t, nCols, nRows), y + Shift(t, nRows);
      && Valid(t'.frame) && t'.frame.nCols == nCols && t'.frame.nRows == nRows && HasRow(t'.frame, y')
      && CellOf(t', y', x) == CellOf(t, y, x)
  {
    var t1 := Shrink(t, nRows);
    ResizedFrame(t, nCols, nRows);
    var t2 := t1.(frame := Resize(t1.frame, nCols, nRows), marginTop := 0, marginBottom := nRows);
    GrownFrame(t2, nRows);
    if nRows < t.posY + 1 {
      ShrinkShows(t, nRows, y, x);
      ResizeAt(t1.frame, nCols, nRows, y + Shift(t, nRows), x);
    } else {
      ResizeAt(t1.frame, nCols, nRows, y, x);
      if t.nRows < nRows {
        ScrollDownAt(t2.frame, Shift(t, nRows), y + Shift(t, nRows), x);
      }
    }
  }

  /** A cursor beyond the right or bottom limit is put at the nearest place within. */
  lemma PulledIn(t: Term)
    ensures var t' := NormalizeCursorPos(t);
      && t' == t.(posX := t'.posX, posY := t'.posY, lastCol := false)
      && t'.posX <= t.posX && t'.posX < t.nColsEff && (t'.posX < t.posX ==> t'.posX == t.nColsEff - 1)
      && t'.posY <= t.posY && t'.posY < t.nRows && (t'.posY < t.posY ==> t'.posY == t.nRows - 1)
  {
  }

  /** The cursor goes with the text, and left with the right margin. The margins of a resize: none for
      the rows; those for the columns are cut, the left one only for two columns to be between. */
  lemma ResizeMoves(t: Term, nCols: int, nRows: int)
    requires Good(t) && 0 < nCols && 0 < nRows && (nCols != t.nCols || nRows != t.nRows)
    ensures var t' := ResizePrimary(t, nCols, nRows);
      && t'.posY == t.posY + Shift(t, nRows) && !t'.lastCol
      && t'.posX <= t.posX && t'.posX < t'.nColsEff && (t'.posX < t.posX ==> t'.posX == t'.nColsEff - 1)
      && t'.marginTop == 0 && t'.marginBottom == nRows && t'.nCols == nCols && t'.nRows == nRows
      && t'.horizMarginMode == t.horizMarginMode && t'.originMode == t.originMode && t'.attrs == t.attrs
      && (if !t.horizMarginMode then t'.nColsEff == nCols && t'.hMargin == 0
          else
            && t'.nColsEff <= t.nColsEff && t'.nColsEff <= nCols && (t'.nColsEff < t.nColsEff ==> t'.nColsEff == nCols)
            && 0 <= t'.hMargin <= t.hMargin
            && (t'.hMargin > 0 ==> t'.nColsEff - t'.hMargin >= 2)
            && (t'.hMargin < t.hMargin ==> t'.nColsEff - t'.hMargin <= 2))
  {
    ResizedFrame(t, nCols, nRows);
    GrownFrame(Shrink(t, nRows).(frame := Resize(Shrink(t, nRows).frame, nCols, nRows), marginTop := 0, marginBottom := nRows),
               nRows);
  }

  /** The cursor moves with the text: what was under it still is, if it stays on the screen and its
      column is still there. */
  lemma ResizeKeepsCursorCell(t: Term, nCols: int, nRows: int)
    requires Good(t) && !HasRegion(t) && 0 < nCols && 0 < nRows && (nCols != t.nCols || nRows != t.nRows)
    requires CursorFollows(t, nRows) && t.posX < nCols && !t.horizMarginMode
    ensures var t' := ResizePrimary(t, nCols, nRows);
      && Good(t') && t'.posX == t.posX && t'.posY == t.posY + Shift(t, nRows)
      && CellOf(t', t'.posY, t'.posX) == CellOf(t, t.posY, t.posX)
  {
    ResizeKeepsGoodIff(t, nCols, nRows);
    ResizeShows(t, nCols, nRows, t.posY, t.posX);
  }
}
