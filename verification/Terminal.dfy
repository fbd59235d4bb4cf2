/** The emulator's side: its cursor, its own margins and the primary frame, on values. */
module Terminals {
  import opened Renditions
  import opened Ring
  import opened Frames
  import opened Scrolling
  import opened Lines

  datatype OriginMode = Absolute | ScrollingRegion

  /** The emulator's margins are those of the frame, but its bottom margin is the last row of the
      screen where the frame's is the end of the storage. `attrs` is what erased cells take on. */
  datatype Term = Term(
    frame: Frame, posX: int, posY: int, lastCol: bool, marginTop: int, marginBottom: int,
    nCols: int, nRows: int, hMargin: int, nColsEff: int, horizMarginMode: bool,
    originMode: OriginMode, attrs: Cell)

  function RegionOf(t: Term): Region {
    Region(t.marginTop, t.marginBottom, t.hMargin, t.nColsEff)
  }

  predicate Good(t: Term) {
    && Valid(t.frame)
    && t.frame.nCols == t.nCols && t.frame.nRows == t.nRows
    && Fits(t.frame, RegionOf(t))
    && 0 <= t.posX < t.nCols && 0 <= t.posY < t.nRows
    && t.hMargin < t.nColsEff
    && (!t.horizMarginMode ==> t.hMargin == 0 && t.nColsEff == t.nCols)
  }

  function NormalizeCursorPos(t: Term): Term {
    t.(posX := if t.nColsEff < t.posX + 1 then t.nColsEff - 1 else t.posX,
       posY := if t.nRows < t.posY + 1 then t.nRows - 1 else t.posY,
       lastCol := false)
  }

  predicate CursorInsideMargins(t: Term) {
    t.hMargin <= t.posX < t.nColsEff && t.marginTop <= t.posY < t.marginBottom
  }

  function CarriageReturn(t: Term): Term {
    t.(posX := if t.originMode.Absolute? && t.posX < t.hMargin then 0 else t.hMargin, lastCol := false)
  }

  /** IL */
  function InsertLines(t: Term, lines: nat): Term
    requires Good(t)
  {
    if CursorInsideMargins(t) then
      CarriageReturn(t.(frame := InsertRows(t.frame, RegionOf(t), t.posY, Min(lines, t.marginBottom - t.posY), t.attrs)))
    else t
  }

  /** DL */
  function DeleteLines(t: Term, lines: nat): Term
    requires Good(t)
  {
    if CursorInsideMargins(t) then
      CarriageReturn(t.(frame := DeleteRows(t.frame, RegionOf(t), t.posY, Min(lines, t.marginBottom - t.posY), t.attrs)))
    else t
  }

  /** SU: with left and right margins by deleting rows at the top, else by turning the storage. */
  function SU(t: Term, n: nat): Term
    requires Good(t) && (!t.horizMarginMode ==> MayScrollUp(t.frame, RegionOf(t), n))
  {
    if t.horizMarginMode then
      t.(frame := DeleteRows(t.frame, RegionOf(t), t.marginTop, Min(n, t.marginBottom - t.marginTop), t.attrs))
    else t.(frame := ScrollTextUp(t.frame, RegionOf(t), n, t.attrs), lastCol := false)
  }

  /** SD */
  function SD(t: Term, n: nat): Term
    requires Good(t) && (!t.horizMarginMode ==> MayScrollDown(t.frame, RegionOf(t), n))
  {
    if t.horizMarginMode then
      t.(frame := InsertRows(t.frame, RegionOf(t), t.marginTop, Min(n, t.marginBottom - t.marginTop), t.attrs))
    else t.(frame := ScrollTextDown(t.frame, RegionOf(t), n, t.attrs), lastCol := false)
  }

  /** IND: move down, scrolling at the bottom margin. */
  function Index(t: Term): Term
    requires Good(t)
  {
    MayScroll(t.frame, RegionOf(t), 1);
    if t.posY == t.marginBottom - 1 then SU(t, 1)
    else if t.posY < t.nRows - 1 then t.(posY := t.posY + 1, lastCol := false)
    else t
  }

  /** RI: move up, scrolling at the top margin. */
  function ReverseIndex(t: Term): Term
    requires Good(t)
  {
    MayScroll(t.frame, RegionOf(t), 1);
    if t.posY == t.marginTop then SD(t, 1)
    else if t.posY > 0 then t.(posY := t.posY - 1, lastCol := false)
    else t
  }

  // ---------------------------------------------------------------- DECSTBM

  function NoRegion(t: Term): Term
    requires Good(t)
  {
    t.(frame := ResetMargins(t.frame), marginTop := 0, marginBottom := t.frame.nRows)
  }

  function NewRegion(t: Term, params: seq<nat>): Term
    requires Good(t)
  {
    if |params| == 0 then
      if t.marginTop != 0 || t.marginBottom != t.nRows then NoRegion(t) else t
    else if |params| == 2 then
      var top := if params[0] > 0 then params[0] - 1 else 0;
      var bottom := params[1];
      if bottom < top + 2 || t.nRows < bottom then t
      else if top != t.marginTop || bottom != t.marginBottom then
        if top == 0 && bottom == t.nRows then NoRegion(t)
        else t.(frame := SetMargins(t.frame, top, bottom), marginTop := top, marginBottom := bottom)
      else t
    else t
  }

  function SetTopBottomMargins(t: Term, params: seq<nat>): Term
    requires Good(t)
  {
    var t1 := NewRegion(t, params);
    t1.(posX := if t.originMode.Absolute? then 0 else t1.hMargin,
        posY := if t.originMode.Absolute? then 0 else t1.marginTop, lastCol := false)
  }

  // ---------------------------------------------------------------- resize

  /** Rows scroll into the history when the cursor would fall off a smaller screen. */
  function Shrink(t: Term, nRows: int): Term {
    if nRows < t.posY + 1
    then t.(frame := ScrollUp(t.frame, Max(0, t.nRows - nRows)), posY := t.posY - (t.nRows - nRows))
    else t
  }

  /** And back out of it onto a larger one. */
  function Grow(t: Term, nRows: int): Term {
    if t.nRows < nRows then
      var n := Min(nRows - t.nRows, t.frame.historyRows);
      t.(frame := ScrollDown(t.frame, Max(0, n)), posY := t.posY + n)
    else t
  }

  function ResizePrimary(t: Term, nCols: int, nRows: int): Term
    requires Good(t) && nCols > 0 && nRows > 0
  {
    if t.nCols == nCols && t.nRows == nRows then t
    else
      var t1 := Shrink(t, nRows);
      ScrollUpValid(t.frame, Max(0, t.nRows - nRows));
      var t2 := Grow(t1.(frame := Resize(t1.frame, nCols, nRows), marginTop := 0, marginBottom := nRows), nRows);
      var right := if t.horizMarginMode then Min(t.nColsEff, nCols) else nCols;
      NormalizeCursorPos(
        t2.(nCols := nCols, nRows := nRows, nColsEff := right,
            hMargin := if t.horizMarginMode then Max(0, Min(t.hMargin, right - 2)) else 0))
  }

  // ---------------------------------------------------------------- what they all keep

  lemma LinesKeepGood(t: Term, n: nat)
    requires Good(t)
    ensures Good(InsertLines(t, n)) && Good(DeleteLines(t, n))
  {
  }

  lemma ScrollKeepsGood(t: Term, n: nat)
    requires Good(t)
    ensures t.horizMarginMode || MayScrollUp(t.frame, RegionOf(t), n) ==> Good(SU(t, n))
    ensures t.horizMarginMode || MayScrollDown(t.frame, RegionOf(t), n) ==> Good(SD(t, n))
  {
    ScrollUpValid(t.frame, n);
    ScrollDownValid(t.frame, n);
  }

  lemma IndexKeepsGood(t: Term)
    requires Good(t)
    ensures Good(Index(t)) && Good(ReverseIndex(t))
  {
    ScrollKeepsGood(t, 1);
  }

  lemma NewRegionKeepsGood(t: Term, params: seq<nat>)
    requires Good(t)
    ensures Good(NewRegion(t, params))
  {
    UnwrappedAt(t.frame, 0, 0);
  }

  lemma MarginsKeepGood(t: Term, params: seq<nat>)
    requires Good(t)
    ensures Good(SetTopBottomMargins(t, params))
  {
    NewRegionKeepsGood(t, params);
  }

  lemma ResizedFrame(t: Term, nCols: int, nRows: int)
    requires Good(t) && nCols > 0 && nRows > 0
    ensures var f := Shrink(t, nRows).frame;
      Valid(f) && Valid(Resize(f, nCols, nRows)) && f.saveLines == t.frame.saveLines
  {
    ScrollUpValid(t.frame, Max(0, t.nRows - nRows));
    ResizeAt(Shrink(t, nRows).frame, nCols, nRows, 0, 0);
  }

  lemma GrownFrame(t: Term, nRows: int)
    requires Valid(t.frame)
    ensures var g := Grow(t, nRows).frame;
      Valid(g) && g == t.frame.(scrollHead := g.scrollHead, historyRows := g.historyRows, damage := g.damage)
  {
    ScrollDownValid(t.frame, Max(0, Min(nRows - t.nRows, t.frame.historyRows)));
  }

  /** The cursor stays on the screen, unless the screen shrinks past it by more rows than there are
      above it: all lost rows are counted, also those below the cursor. */
  predicate CursorFollows(t: Term, nRows: int) {
    nRows < t.posY + 1 ==> t.nRows - nRows <= t.posY
  }

  lemma ResizeKeepsGoodIff(t: Term, nCols: int, nRows: int)
    requires Good(t) && nCols > 0 && nRows > 0
    ensures Good(ResizePrimary(t, nCols, nRows)) <==> CursorFollows(t, nRows)
  {
    var t1 := Shrink(t, nRows);
    ResizedFrame(t, nCols, nRows);
    GrownFrame(t1.(frame := Resize(t1.frame, nCols, nRows), marginTop := 0, marginBottom := nRows), nRows);
  }

  /** Row 10 of 24, shrunk to 5 rows: the cursor ends up nine rows above the screen. */
  lemma ResizeLosesCursor(t: Term)
    requires Good(t) && t.nRows == 24 && t.posY == 10
    ensures ResizePrimary(t, t.nCols, 5).posY == -9
  {
    ResizedFrame(t, t.nCols, 5);
  }

  /** Setting the scrolling region moves the cursor, never the text, whatever the parameters. */
  lemma RegionMovesNoText(t: Term, params: seq<nat>)
    requires Good(t)
    ensures var t' := SetTopBottomMargins(t, params);
      && Good(t') && History(t'.frame) == History(t.frame) && Screen(t'.frame) == Screen(t.frame)
  {
    MarginsKeepGood(t, params);
    var f, g := t.frame, SetTopBottomMargins(t, params).frame;
    forall y, x | HasRow(f, y) && 0 <= x < f.nCols ensures At(g, y, x) == At(f, y, x) {
      var top, bottom := SetTopBottomMargins(t, params).marginTop, SetTopBottomMargins(t, params).marginBottom;
      MarginsMoveNothing(f, top, bottom, y, x);
    }
    forall y | HasRow(f, y) ensures RowAt(g, y) == RowAt(f, y) {
    }
  }

  // ---------------------------------------------------------------- shrinking and growing back

  /** The frame of a screen that lost `k` rows to the history and got its height back. */
  function Restored(f: Frame, k: nat): Frame
    requires Valid(f) && k < f.nRows
  {
    var g := Regrown(f, k);
    ScrollDown(g, Min(k, g.historyRows))
  }

  function Regrown(f: Frame, k: nat): Frame
    requires Valid(f) && k < f.nRows
    ensures Valid(Regrown(f, k))
  {
    ScrollUpValid(f, k);
    RegrownAt(ScrollUp(f, k), k, 0, 0);
    Resize(Resize(ScrollUp(f, k), f.nCols, f.nRows - k), f.nCols, f.nRows)
  }

  lemma RestoredAt(f: Frame, k: nat, y: int, x: int)
    requires Valid(f) && !f.margin && k < f.nRows && f.historyRows + k <= f.saveLines
    requires HasRow(f, y) && 0 <= x < f.nCols
    ensures var g := Restored(f, k);
      && Valid(g) && g.historyRows == f.historyRows && g.nRows == f.nRows && g.nCols == f.nCols
      && At(g, y, x) == At(f, y, x)
  {
    ScrollUpValid(f, k);
    RegrownAt(ScrollUp(f, k), k, y - k, x);
    ScrollDownAt(Regrown(f, k), k, y, x);
    ScrollUpAt(f, k, y - k, x);
  }

  lemma RegrownAt(f: Frame, k: nat, y: int, x: int)
    requires Valid(f) && k < f.nRows && -f.historyRows <= y < f.nRows - k && 0 <= x < f.nCols
    ensures Valid(Resize(f, f.nCols, f.nRows - k))
    ensures var g := Resize(Resize(f, f.nCols, f.nRows - k), f.nCols, f.nRows);
      && Valid(g) && g.historyRows == f.historyRows && At(g, y, x) == At(f, y, x)
  {
    ResizeAt(f, f.nCols, f.nRows - k, y, x);
    ResizeAt(Resize(f, f.nCols, f.nRows - k), f.nCols, f.nRows, y, x);
  }

  /** What shrinking by `k` rows and growing back makes of the emulator. */
  lemma ShrinkAndGrow(t: Term, k: nat)
    requires Good(t) && !t.frame.margin && !t.horizMarginMode && t.posY == t.nRows - 1 && 0 < k < t.nRows
    ensures var t1 := ResizePrimary(t, t.nCols, t.nRows - k);
      && Good(t1)
      && ResizePrimary(t1, t.nCols, t.nRows) ==
         t.(frame := Restored(t.frame, k), lastCol := false,
            posY := t.posY - k + Min(k, Min(t.frame.historyRows + k, t.frame.saveLines)))
  {
    ResizeKeepsGoodIff(t, t.nCols, t.nRows - k);
  }

  /** With no margins and the cursor on the last row: shrinking by `k` rows and growing back restores
      the history count and the cursor row exactly if the history has room for the `k` rows; then
      every cell of screen and history is restored too, and so is the whole cursor position. */
  lemma ResizeRoundTripIff(t: Term, k: nat)
    requires Good(t) && !t.frame.margin && !t.horizMarginMode && t.posY == t.nRows - 1 && 0 < k < t.nRows
    ensures var t1 := ResizePrimary(t, t.nCols, t.nRows - k);
      && Good(t1)
      && var t2 := ResizePrimary(t1, t.nCols, t.nRows);
      && (t2.frame.historyRows == t.frame.historyRows && t2.posY == t.posY
          <==> t.frame.historyRows + k <= t.frame.saveLines)
      && (t.frame.historyRows + k <= t.frame.saveLines ==>
            && Good(t2) && t2.posX == t.posX
            && Screen(t2.frame) == Screen(t.frame) && History(t2.frame) == History(t.frame))
  {
    ShrinkAndGrow(t, k);
    if t.frame.historyRows + k <= t.frame.saveLines {
      RestoredRows(t.frame, k);
    }
  }

  lemma RestoredRows(f: Frame, k: nat)
    requires Valid(f) && !f.margin && k < f.nRows && f.historyRows + k <= f.saveLines
    ensures var g := Restored(f, k);
      Valid(g) && g.nRows == f.nRows && g.nCols == f.nCols && !g.margin && g.marginTop == 0
      && Screen(g) == Screen(f) && History(g) == History(f)
  {
    var g := Restored(f, k);
    RestoredAt(f, k, 0, 0);
    forall y, x | HasRow(f, y) && 0 <= x < f.nCols ensures At(g, y, x) == At(f, y, x) {
      RestoredAt(f, k, y, x);
    }
    forall y | HasRow(f, y) ensures RowAt(g, y) == RowAt(f, y) {
    }
  }
}
