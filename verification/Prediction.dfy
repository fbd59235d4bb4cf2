/** Keystrokes into predictions. Predicted characters are one column wide. */
module Predictions {
  import opened Renditions
  import opened Ring
  import opened Overlays
  import opened Culling

  // ---------------------------------------------------------------- cursors and rows

  function LastCursor(e: Engine): CursorMove
    requires e.cursors != []
  {
    e.cursors[|e.cursors| - 1]
  }

  function WithCursor(e: Engine, m: CursorMove): Engine
    requires e.cursors != []
  {
    e.(cursors := e.cursors[|e.cursors| - 1 := m])
  }

  /** A cursor of the current epoch: where the last one was, or else where the terminal's is. */
  function InitCursor(e: Engine, s: View): (e': Engine)
    ensures e'.cursors != []
  {
    if e.cursors == [] then e.(cursors := [NewCursor(e, s.row, s.col)])
    else
      var last := LastCursor(e);
      if last.base.tentativeUntilEpoch != e.predictionEpoch
      then e.(cursors := e.cursors + [NewCursor(e, last.row, last.base.col)]) else e
  }

  function NewRow(e: Engine, rowNum: int, nCols: nat): OverlayRow {
    OverlayRow(seq(nCols, j => OverlayCell([], EMPTY_CELL, Overlay(0, j, false, e.predictionEpoch), false)), rowNum)
  }

  function RowIndex(rows: seq<OverlayRow>, rowNum: int): (i: nat)
    ensures i <= |rows| && (i < |rows| ==> rows[i].rowNum == rowNum)
    ensures forall k :: 0 <= k < i ==> rows[k].rowNum != rowNum
  {
    if rows == [] || rows[0].rowNum == rowNum then 0 else 1 + RowIndex(rows[1..], rowNum)
  }

  /** getOrMakeRow: the engine with such a row, and its place. */
  function GetOrMakeRow(e: Engine, rowNum: int, nCols: nat): (r: (Engine, nat))
    ensures r.1 < |r.0.overlays| && r.0.overlays[r.1].rowNum == rowNum
  {
    var i := RowIndex(e.overlays, rowNum);
    (if i < |e.overlays| then e else e.(overlays := e.overlays + [NewRow(e, rowNum, nCols)]), i)
  }

  /** A prediction of the current epoch, to be judged after the next frame. */
  function Predict(e: Engine, c: OverlayCell): OverlayCell {
    c.(base := c.base.(active := true, tentativeUntilEpoch := e.predictionEpoch, expirationFrame := e.localFrameSent + 1))
  }

  function BlankCells(e: Engine, cells: seq<OverlayCell>): (r: seq<OverlayCell>)
    ensures |r| == |cells|
  {
    seq(|cells|, j requires 0 <= j < |cells| =>
      Predict(e, cells[j]).(replacement := cells[j].replacement.(contents := "")))
  }

  /** To the start of the next row; on the last row the screen will scroll, and blanks are predicted. */
  function NewlineCarriageReturn(e: Engine, s: View): Engine
    requires Proper(s)
  {
    var e1 := InitCursor(e, s);
    var m := LastCursor(e1);
    var home := m.(base := m.base.(col := 0));
    if m.row == s.height - 1 then
      var (e2, i) := GetOrMakeRow(WithCursor(e1, home), m.row, s.width);
      WithCells(e2, i, BlankCells(e2, e2.overlays[i].overlayCells))
    else WithCursor(e1, home.(row := m.row + 1))
  }

  // ---------------------------------------------------------------- typing

  function Originally(c: OverlayCell, actual: Cell): OverlayCell {
    if c.originalContents == [] then c.(originalContents := [actual]) else c
  }

  /** The cell at column `i` takes over what is predicted, or shown, to its left; the last column
      cannot be known. */
  function Pushed(e: Engine, s: View, row: int, cells: seq<OverlayCell>, i: int): (c: OverlayCell)
    requires Proper(s) && 0 < i < |cells|
    ensures c.base == Predict(e, cells[i]).base
  {
    var cell := Originally(Predict(e, ResetWithOrig(cells[i])), GetCell(s, row, i));
    var prev := cells[i - 1];
    if i == s.width - 1 || (prev.base.active && prev.unknown) then cell.(unknown := true)
    else cell.(unknown := false, replacement := if prev.base.active then prev.replacement else GetCell(s, row, i - 1))
  }

  function Typed(e: Engine, s: View, row: int, cells: seq<OverlayCell>, col: int, chs: string): (c: OverlayCell)
    requires Proper(s) && 0 <= col < |cells|
    ensures c.base == Predict(e, cells[col]).base
  {
    var cell := Predict(e, ResetWithOrig(cells[col]));
    Originally(cell.(replacement := cell.replacement.(renditions := s.renditions, contents := chs)), GetCell(s, row, col))
  }

  function TypedCell(e: Engine, s: View, row: int, cells: seq<OverlayCell>, col: int, chs: string, i: int): (c: OverlayCell)
    requires Proper(s) && 0 <= col < |cells| && 0 <= i < |cells|
    ensures c.base == cells[i].base || c.base == Predict(e, cells[i]).base
  {
    if i == col then Typed(e, s, row, cells, col, chs)
    else if col < i < s.width && !e.predictOverwrite then Pushed(e, s, row, cells, i)
    else cells[i]
  }

  /** Insert at `col`, or overwrite. */
  function TypedRow(e: Engine, s: View, row: int, cells: seq<OverlayCell>, col: int, chs: string): (r: seq<OverlayCell>)
    requires Proper(s) && 0 <= col < |cells|
    ensures |r| == |cells|
    ensures forall i :: 0 <= i < |r| ==> r[i] == TypedCell(e, s, row, cells, col, chs, i)
  {
    seq(|cells|, i requires 0 <= i < |cells| => TypedCell(e, s, row, cells, col, chs, i))
  }

  predicate IsControl(chs: string) {
    |chs| == 1 && (chs[0] == '\U{7F}' || chs[0] < ' ')
  }

  function Expire(e: Engine, m: CursorMove): CursorMove {
    m.(base := m.base.(expirationFrame := e.localFrameSent + 1))
  }

  function MoveTo(m: CursorMove, col: int): CursorMove {
    m.(base := m.base.(col := col))
  }

  predicate RowsFit(rows: seq<OverlayRow>, w: int) {
    forall i :: 0 <= i < |rows| ==> RowFits(rows[i], w)
  }

  predicate RowFits(row: OverlayRow, w: int) {
    |row.overlayCells| == w && forall j :: 0 <= j < w ==> row.overlayCells[j].base.col == j
  }

  /** Sizes and positions agree with the terminal. */
  predicate Ready(e: Engine, s: View) {
    && Proper(s) && RowsFit(e.overlays, s.width)
    && e.lastWidth == s.width && e.lastHeight == s.height
    && forall i :: 0 <= i < |e.cursors| ==> 0 <= e.cursors[i].row < s.height && 0 <= e.cursors[i].base.col < s.width
  }

  /** The character at the cursor, in a row that is made if need be. */
  function Type(e: Engine, s: View, m: CursorMove, chs: string): (e': Engine)
    requires Proper(s) && RowsFit(e.overlays, s.width) && 0 <= m.base.col < s.width
    ensures e'.cursors == e.cursors
  {
    var (e1, i) := GetOrMakeRow(e, m.row, s.width);
    assert RowFits(e1.overlays[i], s.width);
    WithCells(e1, i, TypedRow(e1, s, m.row, e1.overlays[i].overlayCells, m.base.col, chs))
  }

  /** The cursor moves on, to the next row if need be. */
  function Advance(e: Engine, s: View, m: CursorMove): Engine
    requires Proper(s) && e.cursors != []
  {
    var m' := Expire(e, m);
    if m.base.col < s.width - 1 then WithCursor(e, MoveTo(m', m.base.col + 1))
    else NewlineCarriageReturn(BecomeTentative(WithCursor(e, m')), s)
  }

  function HandleUserGrapheme(e: Engine, s: View, chs: string): Engine
    requires Ready(e, s)
  {
    var e1 := InitCursor(e, s);
    if IsControl(chs) then BecomeTentative(e1)
    else
      var m := LastCursor(e1);
      var e2 := if m.base.col + 1 >= s.width then BecomeTentative(e1) else e1;
      Advance(Type(e2, s, m, chs), s, m)
  }

  datatype Key = Grapheme(chs: string) | Return | RightArrow | LeftArrow | OtherControl

  /** The arrows make sure that the row they look at exists. */
  function Arrow(e: Engine, s: View, right: bool): Engine
    requires Ready(e, s)
  {
    var e1 := InitCursor(e, s);
    var m := LastCursor(e1);
    if if right then m.base.col < s.width - 1 else m.base.col > 0 then
      var e2 := GetOrMakeRow(e1, m.row, s.width).0;
      WithCursor(e2, Expire(e2, MoveTo(m, if right then m.base.col + 1 else m.base.col - 1)))
    else e1
  }

  function Handle(e: Engine, s: View, key: Key): Engine
    requires Ready(e, s)
  {
    match key
    case Grapheme(chs) => HandleUserGrapheme(e, s, chs)
    case Return => NewlineCarriageReturn(BecomeTentative(e), s)
    case RightArrow => Arrow(e, s, true)
    case LeftArrow => Arrow(e, s, false)
    case OtherControl => BecomeTentative(e)
  }

  // ---------------------------------------------------------------- epochs of new predictions

  lemma WithCellsKeeps(e: Engine, i: nat, cells: seq<OverlayCell>, lo: int)
    requires Within(e, lo) && i < |e.overlays|
    requires forall j :: 0 <= j < |cells| ==> CellWithin(cells[j], lo, e.predictionEpoch)
    ensures Within(WithCells(e, i, cells), lo)
  {
    var e' := WithCells(e, i, cells);
    forall k | 0 <= k < |e'.overlays| ensures RowWithin(e'.overlays[k], lo, e'.predictionEpoch) {
      if k != i { assert RowWithin(e.overlays[k], lo, e.predictionEpoch); }
    }
  }

  lemma InitCursorKeeps(e: Engine, s: View, lo: int)
    requires Within(e, lo)
    ensures Within(InitCursor(e, s), lo)
  {
  }

  lemma GetOrMakeRowKeeps(e: Engine, rowNum: int, nCols: nat, lo: int)
    requires Within(e, lo)
    ensures Within(GetOrMakeRow(e, rowNum, nCols).0, lo)
  {
    assert RowWithin(NewRow(e, rowNum, nCols), lo, e.predictionEpoch);
  }

  lemma WithCursorKeeps(e: Engine, m: CursorMove, lo: int)
    requires Within(e, lo) && e.cursors != [] && lo < m.base.tentativeUntilEpoch <= e.predictionEpoch
    ensures Within(WithCursor(e, m), lo)
  {
  }

  lemma NewlineKeeps(e: Engine, s: View, lo: int)
    requires Proper(s) && Within(e, lo)
    ensures GoesOn(e, NewlineCarriageReturn(e, s), lo) && NewlineCarriageReturn(e, s).confirmedEpoch == e.confirmedEpoch
  {
    var e1 := InitCursor(e, s);
    InitCursorKeeps(e, s, lo);
    var m := LastCursor(e1);
    var home := m.(base := m.base.(col := 0));
    WithCursorKeeps(e1, home, lo);
    WithCursorKeeps(e1, home.(row := m.row + 1), lo);
    if m.row == s.height - 1 {
      GetOrMakeRowKeeps(WithCursor(e1, home), m.row, s.width, lo);
      var (e2, i) := GetOrMakeRow(WithCursor(e1, home), m.row, s.width);
      WithCellsKeeps(e2, i, BlankCells(e2, e2.overlays[i].overlayCells), lo);
    }
  }

  lemma TypedRowKeeps(e: Engine, s: View, i: nat, col: int, chs: string, lo: int)
    requires Proper(s) && Within(e, lo) && i < |e.overlays| && 0 <= col < |e.overlays[i].overlayCells|
    ensures Within(WithCells(e, i, TypedRow(e, s, e.overlays[i].rowNum, e.overlays[i].overlayCells, col, chs)), lo)
  {
    var row := e.overlays[i];
    var cells := TypedRow(e, s, row.rowNum, row.overlayCells, col, chs);
    assert RowWithin(row, lo, e.predictionEpoch);
    forall j | 0 <= j < |cells| ensures CellWithin(cells[j], lo, e.predictionEpoch) {
      assert CellWithin(row.overlayCells[j], lo, e.predictionEpoch);
    }
    WithCellsKeeps(e, i, cells, lo);
  }

  lemma TypeKeeps(e: Engine, s: View, m: CursorMove, chs: string, lo: int)
    requires Proper(s) && RowsFit(e.overlays, s.width) && 0 <= m.base.col < s.width && Within(e, lo)
    ensures var e' := Type(e, s, m, chs);
      Within(e', lo) && e'.predictionEpoch == e.predictionEpoch && e'.confirmedEpoch == e.confirmedEpoch
  {
    GetOrMakeRowKeeps(e, m.row, s.width, lo);
    var (e1, i) := GetOrMakeRow(e, m.row, s.width);
    assert RowFits(e1.overlays[i], s.width);
    TypedRowKeeps(e1, s, i, m.base.col, chs, lo);
  }

  lemma AdvanceKeeps(e: Engine, s: View, m: CursorMove, lo: int)
    requires Proper(s) && Within(e, lo) && e.cursors != [] && lo < m.base.tentativeUntilEpoch <= e.predictionEpoch
    ensures GoesOn(e, Advance(e, s, m), lo) && Advance(e, s, m).confirmedEpoch == e.confirmedEpoch
  {
    var m' := Expire(e, m);
    WithCursorKeeps(e, MoveTo(m', m.base.col + 1), lo);
    WithCursorKeeps(e, m', lo);
    BecomeTentativeKeeps(WithCursor(e, m'), lo);
    NewlineKeeps(BecomeTentative(WithCursor(e, m')), s, lo);
  }

  lemma GraphemeKeeps(e: Engine, s: View, chs: string, lo: int)
    requires Ready(e, s) && Within(e, lo)
    ensures GoesOn(e, HandleUserGrapheme(e, s, chs), lo) && HandleUserGrapheme(e, s, chs).confirmedEpoch == e.confirmedEpoch
  {
    var e1 := InitCursor(e, s);
    InitCursorKeeps(e, s, lo);
    BecomeTentativeKeeps(e1, lo);
    if !IsControl(chs) {
      var m := LastCursor(e1);
      var e2 := if m.base.col + 1 >= s.width then BecomeTentative(e1) else e1;
      TypeKeeps(e2, s, m, chs, lo);
      AdvanceKeeps(Type(e2, s, m, chs), s, m, lo);
    }
  }

  lemma ArrowKeeps(e: Engine, s: View, right: bool, lo: int)
    requires Ready(e, s) && Within(e, lo)
    ensures GoesOn(e, Arrow(e, s, right), lo) && Arrow(e, s, right).confirmedEpoch == e.confirmedEpoch
  {
    var e1 := InitCursor(e, s);
    InitCursorKeeps(e, s, lo);
    var m := LastCursor(e1);
    GetOrMakeRowKeeps(e1, m.row, s.width, lo);
    var e2 := GetOrMakeRow(e1, m.row, s.width).0;
    WithCursorKeeps(e2, Expire(e2, MoveTo(m, if right then m.base.col + 1 else m.base.col - 1)), lo);
  }

  lemma HandleKeeps(e: Engine, s: View, key: Key, lo: int)
    requires Ready(e, s) && Within(e, lo)
    ensures GoesOn(e, Handle(e, s, key), lo) && Handle(e, s, key).confirmedEpoch == e.confirmedEpoch
  {
    BecomeTentativeKeeps(e, lo);
    match key
    case Grapheme(chs) => GraphemeKeeps(e, s, chs, lo);
    case Return => NewlineKeeps(BecomeTentative(e), s, lo);
    case RightArrow => ArrowKeeps(e, s, true, lo);
    case LeftArrow => ArrowKeeps(e, s, false, lo);
    case OtherControl =>
  }

  // ---------------------------------------------------------------- sizes and positions

  /** Rows are as wide as the terminal was last seen, and no cursor is left or above of it. */
  predicate Laid(e: Engine) {
    && RowsFit(e.overlays, e.lastWidth)
    && forall i :: 0 <= i < |e.cursors| ==> 0 <= e.cursors[i].row && 0 <= e.cursors[i].base.col
  }

  lemma CullCellLaid(e: Engine, i: int, j: int, s: View)
    requires Proper(s) && 0 <= i < |e.overlays| && 0 <= j < |e.overlays[i].overlayCells| && Laid(e)
    ensures var e' := CullCell(e, i, j, s).0; Laid(e') && e'.lastWidth == e.lastWidth && e'.lastHeight == e.lastHeight
  {
    var e' := CullCell(e, i, j, s).0;
    assert RowFits(e.overlays[i], e.lastWidth);
    if CellValidity(e.overlays[i].overlayCells[j], s, e.overlays[i].rowNum, e.localFrameLateAcked).IncorrectOrExpired? {
      KillLaid(e, e.overlays[i].overlayCells[j].base.tentativeUntilEpoch, s);
    } else {
      forall a | 0 <= a < |e'.overlays| ensures RowFits(e'.overlays[a], e.lastWidth) {
        assert RowFits(e.overlays[a], e.lastWidth);
      }
    }
  }

  lemma {:induction false} EarlierOf(cursors: seq<CursorMove>, epoch: int)
    ensures forall m :: m in EarlierCursors(cursors, epoch) ==> m in cursors
  {
    if cursors != [] {
      EarlierOf(cursors[1..], epoch);
    }
  }

  lemma KillLaid(e: Engine, epoch: int, s: View)
    requires Proper(s) && Laid(e)
    ensures Laid(KillEpoch(e, epoch, s))
  {
    EarlierOf(e.cursors, epoch);
    var e' := KillEpoch(e, epoch, s);
    forall a | 0 <= a < |e'.overlays| ensures RowFits(e'.overlays[a], e.lastWidth) {
      assert RowFits(e.overlays[a], e.lastWidth);
    }
    forall i | 0 <= i < |e'.cursors| ensures 0 <= e'.cursors[i].row && 0 <= e'.cursors[i].base.col {
      assert i < |e'.cursors| - 1 ==> e'.cursors[i] in e.cursors;
    }
  }

  lemma {:induction false} CullFromLaid(e: Engine, i: int, j: int, s: View)
    requires Proper(s) && 0 <= i <= |e.overlays| && 0 <= j && (i < |e.overlays| ==> j <= |e.overlays[i].overlayCells|)
    requires Laid(e)
    ensures var e' := CullFrom(e, i, j, s).0; Laid(e') && e'.lastWidth == e.lastWidth && e'.lastHeight == e.lastHeight
    decreases |e.overlays| - i, if i < |e.overlays| then |e.overlays[i].overlayCells| - j else 0
  {
    if i < |e.overlays| {
      if !OnScreen(e.overlays[i], s) || j == |e.overlays[i].overlayCells| {
        CullFromLaid(e, i + 1, 0, s);
      } else {
        CullCellLaid(e, i, j, s);
        var (e', goOn) := CullCell(e, i, j, s);
        if goOn {
          assert SameRow(e.overlays[i], e'.overlays[i]);
          CullFromLaid(e', i, j + 1, s);
        }
      }
    }
  }

  lemma {:induction false} PendingOf(cursors: seq<CursorMove>, s: View, lateAck: int)
    ensures forall m :: m in PendingCursors(cursors, s, lateAck) ==> m in cursors && CursorValidity(m, s, lateAck).Pending?
  {
    if cursors != [] {
      PendingOf(cursors[1..], s, lateAck);
    }
  }

  lemma {:induction false} ScreenRowsFit(rows: seq<OverlayRow>, s: View, w: int)
    requires RowsFit(rows, w)
    ensures RowsFit(ScreenRows(rows, s), w)
  {
    if rows != [] {
      assert RowFits(rows[0], w);
      ScreenRowsFit(rows[1..], s, w);
    }
  }

  /** Judging first makes the engine ready for the terminal, whatever its size was before. */
  lemma CullIsReady(e: Engine, s: View)
    requires Proper(s) && Laid(e)
    ensures Ready(Cull(e, s), s)
  {
    var e0 := Resized(e, s);
    CullFromLaid(e0, 0, 0, s);
    var (e1, goOn) := CullFrom(e0, 0, 0, s);
    ScreenRowsFit(e1.overlays, s, s.width);
    PendingOf(e1.cursors, s, e1.localFrameLateAcked);
    if goOn {
      var cursors := PendingCursors(e1.cursors, s, e1.localFrameLateAcked);
      forall i | 0 <= i < |cursors| ensures 0 <= cursors[i].row < s.height && 0 <= cursors[i].base.col < s.width {
        assert cursors[i] in cursors;
      }
    } else {
      CullStops(e0, 0, 0, s);
    }
  }

  lemma WithCellsLaid(e: Engine, i: nat, cells: seq<OverlayCell>)
    requires Laid(e) && i < |e.overlays| && |cells| == |e.overlays[i].overlayCells|
    requires forall j :: 0 <= j < |cells| ==> cells[j].base.col == e.overlays[i].overlayCells[j].base.col
    ensures Laid(WithCells(e, i, cells))
  {
    var e' := WithCells(e, i, cells);
    forall a | 0 <= a < |e'.overlays| ensures RowFits(e'.overlays[a], e.lastWidth) {
      assert RowFits(e.overlays[a], e.lastWidth);
    }
  }

  lemma GetOrMakeRowLaid(e: Engine, rowNum: int)
    requires Laid(e) && e.lastWidth >= 0
    ensures Laid(GetOrMakeRow(e, rowNum, e.lastWidth).0)
  {
    assert RowFits(NewRow(e, rowNum, e.lastWidth), e.lastWidth);
  }

  lemma NewlineLaid(e: Engine, s: View)
    requires Proper(s) && Laid(e) && e.lastWidth == s.width
    ensures Laid(NewlineCarriageReturn(e, s)) && NewlineCarriageReturn(e, s).lastWidth == e.lastWidth
  {
    var e1 := InitCursor(e, s);
    var m := LastCursor(e1);
    var home := m.(base := m.base.(col := 0));
    var e2 := WithCursor(e1, home);
    assert Laid(e1) && Laid(e2);
    if m.row == s.height - 1 {
      GetOrMakeRowLaid(e2, m.row);
      var (e3, i) := GetOrMakeRow(e2, m.row, s.width);
      WithCellsLaid(e3, i, BlankCells(e3, e3.overlays[i].overlayCells));
    }
  }

  lemma TypeLaid(e: Engine, s: View, m: CursorMove, chs: string)
    requires Proper(s) && Laid(e) && e.lastWidth == s.width && 0 <= m.base.col < s.width
    ensures Laid(Type(e, s, m, chs)) && Type(e, s, m, chs).lastWidth == e.lastWidth
  {
    GetOrMakeRowLaid(e, m.row);
    var (e1, i) := GetOrMakeRow(e, m.row, s.width);
    assert RowFits(e1.overlays[i], s.width);
    var cells := TypedRow(e1, s, m.row, e1.overlays[i].overlayCells, m.base.col, chs);
    forall j | 0 <= j < |cells| ensures cells[j].base.col == e1.overlays[i].overlayCells[j].base.col {
      assert cells[j] == TypedCell(e1, s, m.row, e1.overlays[i].overlayCells, m.base.col, chs, j);
    }
    WithCellsLaid(e1, i, cells);
  }

  lemma AdvanceLaid(e: Engine, s: View, m: CursorMove)
    requires Proper(s) && Laid(e) && e.lastWidth == s.width && e.cursors != [] && 0 <= m.row && 0 <= m.base.col
    ensures Laid(Advance(e, s, m)) && Advance(e, s, m).lastWidth == e.lastWidth
  {
    var e1 := BecomeTentative(WithCursor(e, Expire(e, m)));
    assert Laid(e1);
    NewlineLaid(e1, s);
  }

  lemma GraphemeLaid(e: Engine, s: View, chs: string)
    requires Ready(e, s)
    ensures Laid(HandleUserGrapheme(e, s, chs))
  {
    var e1 := InitCursor(e, s);
    var m := LastCursor(e1);
    assert Laid(e1);
    if !IsControl(chs) {
      var e2 := if m.base.col + 1 >= s.width then BecomeTentative(e1) else e1;
      TypeLaid(e2, s, m, chs);
      AdvanceLaid(Type(e2, s, m, chs), s, m);
    }
  }

  lemma ArrowLaid(e: Engine, s: View, right: bool)
    requires Ready(e, s)
    ensures Laid(Arrow(e, s, right))
  {
    var e1 := InitCursor(e, s);
    assert Laid(e1);
    GetOrMakeRowLaid(e1, LastCursor(e1).row);
  }

  lemma HandleLaid(e: Engine, s: View, key: Key)
    requires Ready(e, s)
    ensures Laid(Handle(e, s, key))
  {
    match key
    case Grapheme(chs) => GraphemeLaid(e, s, chs);
    case Return => NewlineLaid(BecomeTentative(e), s);
    case RightArrow => ArrowLaid(e, s, true);
    case LeftArrow => ArrowLaid(e, s, false);
    case OtherControl =>
  }

  // ---------------------------------------------------------------- cursors stay on the screen

  predicate CursorOn(m: CursorMove, s: View) {
    0 <= m.row < s.height && 0 <= m.base.col < s.width
  }

  /** The cursors are on the screen, and the sizes last seen are these. */
  ghost predicate CursorsOn(e: Engine, s: View) {
    && e.lastWidth == s.width && e.lastHeight == s.height
    && forall i :: 0 <= i < |e.cursors| ==> CursorOn(e.cursors[i], s)
  }

  lemma InitCursorOn(e: Engine, s: View)
    requires Proper(s) && CursorsOn(e, s)
    ensures CursorsOn(InitCursor(e, s), s) && CursorOn(LastCursor(InitCursor(e, s)), s)
  {
  }

  lemma NewlineOn(e: Engine, s: View)
    requires Proper(s) && CursorsOn(e, s)
    ensures CursorsOn(NewlineCarriageReturn(e, s), s)
  {
    InitCursorOn(e, s);
  }

  lemma AdvanceOn(e: Engine, s: View, m: CursorMove)
    requires Proper(s) && CursorsOn(e, s) && e.cursors != [] && CursorOn(m, s)
    ensures CursorsOn(Advance(e, s, m), s)
  {
    NewlineOn(BecomeTentative(WithCursor(e, Expire(e, m))), s);
  }

  lemma GraphemeOn(e: Engine, s: View, chs: string)
    requires Ready(e, s)
    ensures CursorsOn(HandleUserGrapheme(e, s, chs), s)
  {
    InitCursorOn(e, s);
    if !IsControl(chs) {
      var e1 := InitCursor(e, s);
      var m := LastCursor(e1);
      var e2 := if m.base.col + 1 >= s.width then BecomeTentative(e1) else e1;
      AdvanceOn(Type(e2, s, m, chs), s, m);
    }
  }

  lemma ArrowOn(e: Engine, s: View, right: bool)
    requires Ready(e, s)
    ensures CursorsOn(Arrow(e, s, right), s)
  {
    InitCursorOn(e, s);
  }

  /** Whatever is typed, sizes and cursors go on agreeing with the terminal. */
  lemma HandleKeepsReady(e: Engine, s: View, key: Key)
    requires Ready(e, s)
    ensures Ready(Handle(e, s, key), s)
  {
    HandleLaid(e, s, key);
    match key
    case Grapheme(chs) => GraphemeOn(e, s, chs);
    case Return => NewlineOn(BecomeTentative(e), s);
    case RightArrow => ArrowOn(e, s, true);
    case LeftArrow => ArrowOn(e, s, false);
    case OtherControl =>
  }
}
