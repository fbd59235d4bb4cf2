/** What a keystroke predicts: which text at which place, and where the cursor goes. */
module Typing {
  import opened Renditions
  import opened Ring
  import opened Overlays
  import opened Culling
  import opened Predictions
  import opened Verdicts

  // ---------------------------------------------------------------- before the keystroke

  /** Where the next character goes: to the last predicted cursor, or else to the terminal's. */
  function CursorRow(e: Engine, s: View): int {
    if e.cursors == [] then s.row else e.cursors[|e.cursors| - 1].row
  }

  function CursorCol(e: Engine, s: View): int {
    if e.cursors == [] then s.col else e.cursors[|e.cursors| - 1].base.col
  }

  lemma CursorIsOn(e: Engine, s: View)
    requires Ready(e, s)
    ensures 0 <= CursorRow(e, s) < s.height && 0 <= CursorCol(e, s) < s.width
  {
  }

  /** The prediction for a row and column, inactive where there is none. */
  function Before(e: Engine, w: nat, row: int, x: int): OverlayCell
    requires RowsFit(e.overlays, w) && 0 <= x < w
  {
    var a := RowIndex(e.overlays, row);
    if a < |e.overlays| then assert RowFits(e.overlays[a], w); e.overlays[a].overlayCells[x]
    else OverlayCell([], EMPTY_CELL, Overlay(0, x, false, e.predictionEpoch), false)
  }

  /** `e'` has the rows of `e`, and one numbered `row` at its place or at the end; no other differs. */
  ghost predicate OnlyRow(e: Engine, e': Engine, row: int, w: nat) {
    var a := RowIndex(e.overlays, row);
    && |e'.overlays| == (if a < |e.overlays| then |e.overlays| else a + 1)
    && (forall k :: 0 <= k < |e.overlays| && k != a ==> e'.overlays[k] == e.overlays[k])
    && e'.overlays[a].rowNum == row && |e'.overlays[a].overlayCells| == w
  }

  /** The cell in that row of `e'`. */
  ghost function After(e: Engine, e': Engine, row: int, w: nat, x: int): OverlayCell
    requires OnlyRow(e, e', row, w) && 0 <= x < w
  {
    e'.overlays[RowIndex(e.overlays, row)].overlayCells[x]
  }

  // ---------------------------------------------------------------- the predicted row

  /** What the cell showed before is remembered, unless more was predicted there already. */
  function Remembered(was: OverlayCell, actual: Cell): seq<Cell> {
    if was.base.active && !was.unknown then was.originalContents + [was.replacement] else [actual]
  }

  /** Column `x` of the row after `chs` is typed at column `col`: the character itself in the
      terminal's renditions; to its right, unless characters overwrite, what was predicted or shown
      one column further left. What comes into the last column cannot be known. */
  ghost predicate TypedAt(was: OverlayCell, left: OverlayCell, c: OverlayCell, overwrite: bool, sent: int,
                          epoch: int, s: View, row: int, col: int, x: int, chs: string)
    requires Proper(s) && 0 <= row < s.height && 0 <= col < s.width && 0 <= x < s.width
  {
    if x < col || (x > col && overwrite) then c == was
    else
      && c.base == Overlay(sent + 1, was.base.col, true, epoch)
      && c.originalContents == Remembered(was, s.cells[row][x])
      && if x == col then !c.unknown && c.replacement == was.replacement.(contents := chs, renditions := s.renditions)
         else if x == s.width - 1 || (left.base.active && left.unknown) then c.unknown && c.replacement == was.replacement
         else !c.unknown && c.replacement == if left.base.active then left.replacement else s.cells[row][x - 1]
  }

  lemma MadeRow(e: Engine, row: int, w: nat, x: int)
    requires RowsFit(e.overlays, w) && 0 <= x < w
    ensures var (e1, i) := GetOrMakeRow(e, row, w);
      && i == RowIndex(e.overlays, row) && e1 == e.(overlays := e1.overlays) && OnlyRow(e, e1, row, w)
      && RowFits(e1.overlays[i], w) && e1.overlays[i].overlayCells[x] == Before(e, w, row, x)
  {
    var (e1, i) := GetOrMakeRow(e, row, w);
    assert i < |e.overlays| ==> RowFits(e.overlays[i], w);
  }

  lemma TypedCellIs(e: Engine, s: View, row: int, cells: seq<OverlayCell>, col: int, chs: string, x: int)
    requires Proper(s) && 0 <= row < s.height && |cells| == s.width && 0 <= col < s.width && 0 <= x < s.width
    ensures TypedAt(cells[x], cells[if x > 0 then x - 1 else x], TypedCell(e, s, row, cells, col, chs, x),
                    e.predictOverwrite, e.localFrameSent, e.predictionEpoch, s, row, col, x, chs)
  {
  }

  lemma TypePredicts(e: Engine, s: View, m: CursorMove, chs: string, x: int)
    requires Proper(s) && RowsFit(e.overlays, s.width)
    requires 0 <= m.row < s.height && 0 <= m.base.col < s.width && 0 <= x < s.width
    ensures var e' := Type(e, s, m, chs);
      && e' == e.(overlays := e'.overlays) && OnlyRow(e, e', m.row, s.width)
      && TypedAt(Before(e, s.width, m.row, x), Before(e, s.width, m.row, if x > 0 then x - 1 else x),
                 After(e, e', m.row, s.width, x), e.predictOverwrite, e.localFrameSent,
                 e.predictionEpoch, s, m.row, m.base.col, x, chs)
  {
    MadeRow(e, m.row, s.width, x);
    MadeRow(e, m.row, s.width, if x > 0 then x - 1 else x);
    var (e1, i) := GetOrMakeRow(e, m.row, s.width);
    var cells := TypedRow(e1, s, m.row, e1.overlays[i].overlayCells, m.base.col, chs);
    assert cells[x] == TypedCell(e1, s, m.row, e1.overlays[i].overlayCells, m.base.col, chs, x);
    TypedCellIs(e1, s, m.row, e1.overlays[i].overlayCells, m.base.col, chs, x);
  }

  // ---------------------------------------------------------------- a keystroke

  predicate Control(chs: string) {
    |chs| == 1 && (chs == "\U{7F}" || chs[0] < ' ')
  }

  /** The engine before the keystroke, which the epoch of the cursor is of no concern to. */
  lemma InitIs(e: Engine, s: View)
    ensures var e1 := InitCursor(e, s);
      && e1 == e.(cursors := e1.cursors) && e1.cursors != []
      && LastCursor(e1).row == CursorRow(e, s) && LastCursor(e1).base.col == CursorCol(e, s)
      && LastCursor(e1).base.active == (e.cursors == [] || LastCursor(e).base.tentativeUntilEpoch != e.predictionEpoch
                                        || LastCursor(e).base.active)
      && LastCursor(e1).base.tentativeUntilEpoch == e.predictionEpoch
  {
  }

  lemma BeforeInit(e: Engine, s: View, x: int)
    requires Ready(e, s) && 0 <= x < s.width
    ensures Before(InitCursor(e, s), s.width, CursorRow(e, s), x) == Before(e, s.width, CursorRow(e, s), x)
  {
  }

  lemma CharacterSteps(e: Engine, s: View, chs: string)
    requires Ready(e, s) && !Control(chs) && CursorCol(e, s) < s.width - 1
    ensures var e1 := InitCursor(e, s);
      var m, e' := LastCursor(e1), Handle(e, s, Grapheme(chs));
      && 0 <= m.row < s.height && 0 <= m.base.col && RowsFit(e1.overlays, s.width)
      && e' == e.(overlays := Type(e1, s, m, chs).overlays, cursors := e'.cursors)
      && CursorRow(e', s) == CursorRow(e, s) && CursorCol(e', s) == CursorCol(e, s) + 1
      && LastCursor(e').base.expirationFrame == e.localFrameSent + 1
      && LastCursor(e').base.tentativeUntilEpoch == e.predictionEpoch
  {
    InitIs(e, s);
    CursorIsOn(e, s);
    var e1 := InitCursor(e, s);
    TypePredicts(e1, s, LastCursor(e1), chs, 0);
  }

  /** A character typed before the last column: it is predicted where the cursor was, in the epoch
      there was, and the cursor goes one column right. */
  lemma CharacterIsPredicted(e: Engine, s: View, chs: string, x: int)
    requires Ready(e, s) && !Control(chs) && CursorCol(e, s) < s.width - 1 && 0 <= x < s.width
    ensures var e', row, col := Handle(e, s, Grapheme(chs)), CursorRow(e, s), CursorCol(e, s);
      && e' == e.(overlays := e'.overlays, cursors := e'.cursors)
      && 0 <= row < s.height && 0 <= col && OnlyRow(e, e', row, s.width)
      && TypedAt(Before(e, s.width, row, x), Before(e, s.width, row, if x > 0 then x - 1 else x),
                 After(e, e', row, s.width, x), e.predictOverwrite, e.localFrameSent,
                 e.predictionEpoch, s, row, col, x, chs)
      && CursorRow(e', s) == row && CursorCol(e', s) == col + 1
      && LastCursor(e').base.expirationFrame == e.localFrameSent + 1
      && LastCursor(e').base.tentativeUntilEpoch == e.predictionEpoch
  {
    InitIs(e, s);
    CharacterSteps(e, s, chs);
    var e1 := InitCursor(e, s);
    TypePredicts(e1, s, LastCursor(e1), chs, x);
    BeforeInit(e, s, x);
    BeforeInit(e, s, if x > 0 then x - 1 else x);
  }

  // ---------------------------------------------------------------- to the next row

  /** A blank of the current epoch; what was remembered stays. */
  function Blanked(e: Engine, epoch: int, c: OverlayCell): OverlayCell {
    c.(base := Overlay(e.localFrameSent + 1, c.base.col, true, epoch), replacement := c.replacement.(contents := ""))
  }

  /** Only the epoch, the cursors and the rows of `e'` may differ. */
  predicate OnlyPredictions(e: Engine, e': Engine) {
    e' == e.(overlays := e'.overlays, cursors := e'.cursors, predictionEpoch := e'.predictionEpoch)
  }

  /** To the start of the next row in a cursor of the current epoch. On the last row the screen will
      scroll: the cursor stays on it, and the whole row is predicted blank. */
  lemma NewlinePredicts(e: Engine, s: View, x: int)
    requires Ready(e, s) && 0 <= x < s.width
    ensures var e', row := NewlineCarriageReturn(e, s), CursorRow(e, s);
      && OnlyPredictions(e, e') && e'.predictionEpoch == e.predictionEpoch
      && CursorCol(e', s) == 0 && LastCursor(e').base.tentativeUntilEpoch == e.predictionEpoch
      && if row < s.height - 1 then CursorRow(e', s) == row + 1 && e'.overlays == e.overlays
         else
           && CursorRow(e', s) == row && OnlyRow(e, e', row, s.width)
           && After(e, e', row, s.width, x) == Blanked(e, e.predictionEpoch, Before(e, s.width, row, x))
  {
    InitIs(e, s);
    CursorIsOn(e, s);
    var e1 := InitCursor(e, s);
    var home := LastCursor(e1).(base := LastCursor(e1).base.(col := 0));
    if CursorRow(e, s) == s.height - 1 {
      MadeRow(WithCursor(e1, home), CursorRow(e, s), s.width, x);
    }
  }

  /** Return does that in the next epoch. */
  lemma ReturnPredicts(e: Engine, s: View, x: int)
    requires Ready(e, s) && 0 <= x < s.width
    ensures var e', row := Handle(e, s, Return), CursorRow(e, s);
      && OnlyPredictions(e, e') && e'.predictionEpoch == e.predictionEpoch + 1
      && CursorCol(e', s) == 0 && LastCursor(e').base.tentativeUntilEpoch == e.predictionEpoch + 1
      && if row < s.height - 1 then CursorRow(e', s) == row + 1 && e'.overlays == e.overlays
         else
           && CursorRow(e', s) == row && OnlyRow(e, e', row, s.width)
           && After(e, e', row, s.width, x) == Blanked(e, e.predictionEpoch + 1, Before(BecomeTentative(e), s.width, row, x))
  {
    NewlinePredicts(BecomeTentative(e), s, x);
  }

  // ---------------------------------------------------------------- in the last column

  /** The engine with the character put in, before the cursor goes to the next row. */
  function AtEdge(e: Engine, s: View, chs: string): Engine
    requires Ready(e, s)
  {
    var e1 := BecomeTentative(InitCursor(e, s));
    CursorIsOn(e, s);
    InitIs(e, s);
    var t := Type(e1, s, LastCursor(e1), chs);
    BecomeTentative(WithCursor(t, Expire(t, LastCursor(e1))))
  }

  lemma EdgeReady(e: Engine, s: View, chs: string)
    requires Ready(e, s)
    ensures Ready(AtEdge(e, s, chs), s) && OnlyPredictions(e, AtEdge(e, s, chs))
    ensures AtEdge(e, s, chs).predictionEpoch == e.predictionEpoch + 2
    ensures CursorRow(AtEdge(e, s, chs), s) == CursorRow(e, s)
  {
    CursorIsOn(e, s);
    InitIs(e, s);
    var e1 := BecomeTentative(InitCursor(e, s));
    assert Laid(e1);
    TypeLaid(e1, s, LastCursor(e1), chs);
    TypePredicts(e1, s, LastCursor(e1), chs, 0);
  }

  lemma SameOverlays(e: Engine, e1: Engine, t: Engine, b: Engine, row: int, w: nat, x: int)
    requires e1.overlays == e.overlays && b.overlays == t.overlays && OnlyRow(e1, t, row, w) && 0 <= x < w
    ensures OnlyRow(e, b, row, w) && After(e, b, row, w, x) == After(e1, t, row, w, x)
  {
  }

  lemma SameBefore(e: Engine, e1: Engine, w: nat, row: int, x: int)
    requires e1.overlays == e.overlays && e1.predictionEpoch == e.predictionEpoch && RowsFit(e.overlays, w) && 0 <= x < w
    ensures Before(e1, w, row, x) == Before(e, w, row, x)
  {
  }

  lemma EdgeOverlays(e: Engine, s: View, chs: string)
    requires Ready(e, s)
    ensures var e1 := BecomeTentative(InitCursor(e, s));
      && e1.overlays == e.overlays && e1.predictionEpoch == e.predictionEpoch + 1
      && e1.localFrameSent == e.localFrameSent && e1.predictOverwrite == e.predictOverwrite
      && 0 <= LastCursor(e1).row < s.height && 0 <= LastCursor(e1).base.col < s.width
      && AtEdge(e, s, chs).overlays == Type(e1, s, LastCursor(e1), chs).overlays
  {
    CursorIsOn(e, s);
    InitIs(e, s);
  }

  lemma EdgeTyped(e: Engine, s: View, chs: string, x: int)
    requires Ready(e, s) && 0 <= x < s.width
    ensures var e', e1, row := AtEdge(e, s, chs), BecomeTentative(e), CursorRow(e, s);
      && 0 <= row < s.height && 0 <= CursorCol(e, s) < s.width && OnlyRow(e, e', row, s.width)
      && TypedAt(Before(e1, s.width, row, x), Before(e1, s.width, row, if x > 0 then x - 1 else x),
                 After(e, e', row, s.width, x), e.predictOverwrite, e.localFrameSent,
                 e.predictionEpoch + 1, s, row, CursorCol(e, s), x, chs)
  {
    InitIs(e, s);
    EdgeOverlays(e, s, chs);
    var e1, row := BecomeTentative(InitCursor(e, s)), CursorRow(e, s);
    var t := Type(e1, s, LastCursor(e1), chs);
    TypePredicts(e1, s, LastCursor(e1), chs, x);
    SameOverlays(e, e1, t, AtEdge(e, s, chs), row, s.width, x);
    SameBefore(BecomeTentative(e), e1, s.width, row, x);
    SameBefore(BecomeTentative(e), e1, s.width, row, if x > 0 then x - 1 else x);
  }

  lemma EdgeSteps(e: Engine, s: View, chs: string)
    requires Ready(e, s) && !Control(chs) && CursorCol(e, s) == s.width - 1
    ensures Ready(AtEdge(e, s, chs), s)
    ensures Handle(e, s, Grapheme(chs)) == NewlineCarriageReturn(AtEdge(e, s, chs), s)
  {
    InitIs(e, s);
    EdgeReady(e, s, chs);
  }

  lemma EdgeMoves(e: Engine, s: View, chs: string, x: int)
    requires Ready(e, s) && !Control(chs) && CursorCol(e, s) == s.width - 1 && 0 <= x < s.width
    ensures var e', b, row := Handle(e, s, Grapheme(chs)), AtEdge(e, s, chs), CursorRow(e, s);
      && OnlyPredictions(e, e') && e'.predictionEpoch == e.predictionEpoch + 2
      && CursorCol(e', s) == 0 && CursorRow(e', s) == (if row < s.height - 1 then row + 1 else row)
      && LastCursor(e').base.tentativeUntilEpoch == e.predictionEpoch + 2
      && RowsFit(b.overlays, s.width)
      && if row < s.height - 1 then e'.overlays == b.overlays
         else
           && OnlyRow(b, e', row, s.width)
           && After(b, e', row, s.width, x) == Blanked(e, e.predictionEpoch + 2, Before(b, s.width, row, x))
  {
    EdgeSteps(e, s, chs);
    EdgeReady(e, s, chs);
    NewlinePredicts(AtEdge(e, s, chs), s, x);
  }

  /** A character typed in the last column: it is predicted in the next epoch, for what the program
      does there is uncertain, and the cursor goes to the start of the next row in the epoch after it. */
  lemma CharacterAtEdge(e: Engine, s: View, chs: string, x: int)
    requires Ready(e, s) && !Control(chs) && CursorCol(e, s) == s.width - 1 && 0 <= x < s.width
    requires CursorRow(e, s) < s.height - 1
    ensures var e', e1, row := Handle(e, s, Grapheme(chs)), BecomeTentative(e), CursorRow(e, s);
      && OnlyPredictions(e, e') && e'.predictionEpoch == e.predictionEpoch + 2
      && CursorCol(e', s) == 0 && CursorRow(e', s) == row + 1
      && LastCursor(e').base.tentativeUntilEpoch == e.predictionEpoch + 2
      && 0 <= row && OnlyRow(e, e', row, s.width)
      && TypedAt(Before(e1, s.width, row, x), Before(e1, s.width, row, if x > 0 then x - 1 else x),
                 After(e, e', row, s.width, x), e.predictOverwrite, e.localFrameSent,
                 e.predictionEpoch + 1, s, row, s.width - 1, x, chs)
  {
    EdgeMoves(e, s, chs, x);
    EdgeTyped(e, s, chs, x);
  }

  /** On the last row, which will scroll, the whole row is predicted blank, the character with it, and
      the cursor goes to its start. */
  lemma CharacterInCorner(e: Engine, s: View, chs: string, x: int)
    requires Ready(e, s) && !Control(chs) && CursorCol(e, s) == s.width - 1 && 0 <= x < s.width
    requires CursorRow(e, s) == s.height - 1
    ensures var e', row := Handle(e, s, Grapheme(chs)), CursorRow(e, s);
      && OnlyPredictions(e, e') && e'.predictionEpoch == e.predictionEpoch + 2
      && CursorCol(e', s) == 0 && CursorRow(e', s) == row
      && LastCursor(e').base.tentativeUntilEpoch == e.predictionEpoch + 2
      && OnlyRow(e, e', row, s.width)
      && var c := After(e, e', row, s.width, x);
         c.base == Overlay(e.localFrameSent + 1, c.base.col, true, e.predictionEpoch + 2) && c.replacement.contents == ""
  {
    EdgeMoves(e, s, chs, x);
    EdgeTyped(e, s, chs, x);
    SameIndex(e, AtEdge(e, s, chs), CursorRow(e, s), s.width);
  }

  lemma SameIndex(e: Engine, e': Engine, row: int, w: nat)
    requires OnlyRow(e, e', row, w)
    ensures RowIndex(e'.overlays, row) == RowIndex(e.overlays, row)
  {
    FirstIndex(e'.overlays, row, RowIndex(e.overlays, row));
  }

  // ---------------------------------------------------------------- arrows and other keys

  /** An arrow moves the cursor by one column within the screen and predicts no text. */
  lemma ArrowMovesCursor(e: Engine, s: View, right: bool, row: int, x: int)
    requires Ready(e, s) && 0 <= x < s.width
    ensures var e', col := Handle(e, s, if right then RightArrow else LeftArrow), CursorCol(e, s);
      && OnlyPredictions(e, e') && e'.predictionEpoch == e.predictionEpoch
      && CursorRow(e', s) == CursorRow(e, s)
      && CursorCol(e', s) == (if right then (if col < s.width - 1 then col + 1 else col) else (if col > 0 then col - 1 else col))
      && RowsFit(e'.overlays, s.width) && Before(e', s.width, row, x) == Before(e, s.width, row, x)
  {
    InitIs(e, s);
    HandleKeepsReady(e, s, if right then RightArrow else LeftArrow);
    var e1 := InitCursor(e, s);
    MadeRow(e1, LastCursor(e1).row, s.width, x);
    MadeBefore(e1, LastCursor(e1).row, s.width, row, x);
  }

  lemma MadeBefore(e: Engine, made: int, w: nat, row: int, x: int)
    requires RowsFit(e.overlays, w) && 0 <= x < w
    ensures var e1 := GetOrMakeRow(e, made, w).0;
      RowsFit(e1.overlays, w) && Before(e1, w, row, x) == Before(e, w, row, x)
  {
    var e1 := GetOrMakeRow(e, made, w).0;
    assert RowFits(NewRow(e, made, w), w);
    var a, b := RowIndex(e.overlays, row), RowIndex(e1.overlays, row);
    if a < |e.overlays| {
      assert e1.overlays[a] == e.overlays[a];
      FirstIndex(e1.overlays, row, a);
    } else if row == made {
      FirstIndex(e1.overlays, row, a);
    }
  }

  lemma FirstIndex(rows: seq<OverlayRow>, row: int, a: nat)
    requires a < |rows| && rows[a].rowNum == row && forall k :: 0 <= k < a ==> rows[k].rowNum != row
    ensures RowIndex(rows, row) == a
  {
  }

  /** A control character or sequence predicts nothing and ends the epoch. */
  lemma ControlEndsEpoch(e: Engine, s: View, key: Key)
    requires Ready(e, s) && (key.OtherControl? || (key.Grapheme? && Control(key.chs)))
    ensures var e' := Handle(e, s, key);
      && e' == e.(cursors := e'.cursors, predictionEpoch := e.predictionEpoch + 1)
      && CursorRow(e', s) == CursorRow(e, s) && CursorCol(e', s) == CursorCol(e, s)
  {
    InitIs(e, s);
  }
}
