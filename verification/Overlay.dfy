/** The prediction engine's epochs, on values. A prediction is shown only once its epoch has been
    confirmed; a prediction found wrong ends its epoch. The display preference is neither Never, with
    which nothing happens, nor Experimental. */
module Overlays {
  import opened Renditions
  import opened Ring

  datatype Validity = Pending | Correct | CorrectNoCredit | IncorrectOrExpired | Inactive

  /** The base of a prediction: the frame after which it can be judged, its column and its epoch. */
  datatype Overlay = Overlay(expirationFrame: int, col: int, active: bool, tentativeUntilEpoch: int)

  datatype CursorMove = CursorMove(base: Overlay, row: int)

  datatype OverlayCell = OverlayCell(originalContents: seq<Cell>, replacement: Cell, base: Overlay, unknown: bool)

  datatype OverlayRow = OverlayRow(overlayCells: seq<OverlayCell>, rowNum: int)

  datatype Engine = Engine(
    overlays: seq<OverlayRow>, cursors: seq<CursorMove>, confirmedEpoch: int, predictionEpoch: int,
    localFrameSent: int, localFrameLateAcked: int, lastHeight: int, lastWidth: int, predictOverwrite: bool)

  const MAX_FRAME := 0xFFFF_FFFF_FFFF_FFFF
  const MAX_EPOCH := 0x7FFF_FFFF_FFFF_FFFF
  const EMPTY_CELL := Cell("", PLAIN, false, false, false, false, false)

  // ---------------------------------------------------------------- the terminal as it is seen here

  /** Without margins: the active area is the screen. */
  datatype View = View(height: int, width: int, row: int, col: int, cells: seq<seq<Cell>>, renditions: Rendition)

  predicate Proper(s: View) {
    && 0 <= s.row < s.height && 0 <= s.col < s.width
    && |s.cells| == s.height && forall i :: 0 <= i < |s.cells| ==> |s.cells[i]| == s.width
  }

  function Clamp(x: int, limit: int): int {
    Max(0, Min(x, limit - 1))
  }

  /** A position off the screen stands for the nearest one on it. */
  function GetCell(s: View, row: int, col: int): Cell
    requires Proper(s)
  {
    s.cells[Clamp(row, s.height)][Clamp(col, s.width)]
  }

  function SetCell(s: View, row: int, col: int, c: Cell): (s': View)
    requires Proper(s)
    ensures Proper(s')
  {
    var y := Clamp(row, s.height);
    s.(cells := s.cells[y := s.cells[y][Clamp(col, s.width) := c]])
  }

  function MoveCursor(s: View, row: int, col: int): (s': View)
    requires Proper(s)
    ensures Proper(s')
  {
    s.(row := Clamp(row, s.height), col := Clamp(col, s.width))
  }

  predicate IsBlank(c: Cell) {
    !(c.dwidth || c.dwidthCont) && (c.contents == "" || c.contents == " " || c.contents == "\U{00A0}")
  }

  predicate ContentsMatch(a: Cell, b: Cell) {
    (IsBlank(a) && IsBlank(b)) || a.contents == b.contents
  }

  // ---------------------------------------------------------------- single predictions

  predicate Tentative(o: Overlay, confirmedEpoch: int) {
    o.tentativeUntilEpoch > confirmedEpoch
  }

  function ResetOverlay(o: Overlay): Overlay {
    o.(expirationFrame := MAX_FRAME, tentativeUntilEpoch := MAX_EPOCH, active := false)
  }

  function ResetCell(c: OverlayCell): OverlayCell {
    c.(unknown := false, originalContents := [], base := ResetOverlay(c.base))
  }

  /** A known prediction joins the contents the cell had before. */
  function ResetWithOrig(c: OverlayCell): OverlayCell {
    if !c.base.active || c.unknown then ResetCell(c)
    else c.(originalContents := c.originalContents + [c.replacement], base := ResetOverlay(c.base))
  }

  function CursorValidity(m: CursorMove, s: View, lateAck: int): Validity {
    if !m.base.active then Inactive
    else if m.row >= s.height || m.base.col >= s.width then IncorrectOrExpired
    else if lateAck >= m.base.expirationFrame then
      if s.col == m.base.col && s.row == m.row then Correct else IncorrectOrExpired
    else Pending
  }

  function CellValidity(c: OverlayCell, s: View, row: int, lateAck: int): Validity
    requires Proper(s)
  {
    if !c.base.active then Inactive
    else if row >= s.height || c.base.col >= s.width then IncorrectOrExpired
    else if lateAck < c.base.expirationFrame then Pending
    else if c.unknown || IsBlank(c.replacement) then CorrectNoCredit
    else if ContentsMatch(GetCell(s, row, c.base.col), c.replacement) then
      if exists i :: 0 <= i < |c.originalContents| && ContentsMatch(c.originalContents[i], c.replacement)
      then CorrectNoCredit else Correct
    else IncorrectOrExpired
  }

  // ---------------------------------------------------------------- epochs

  function BecomeTentative(e: Engine): Engine {
    e.(predictionEpoch := e.predictionEpoch + 1)
  }

  function ResetAll(e: Engine): Engine {
    BecomeTentative(e.(cursors := [], overlays := []))
  }

  function NewCursor(e: Engine, row: int, col: int): CursorMove {
    CursorMove(Overlay(e.localFrameSent + 1, col, true, e.predictionEpoch), row)
  }

  /** The cursors of epochs before `epoch`. */
  function EarlierCursors(cursors: seq<CursorMove>, epoch: int): seq<CursorMove> {
    if cursors == [] then []
    else (if Tentative(cursors[0].base, epoch - 1) then [] else [cursors[0]]) + EarlierCursors(cursors[1..], epoch)
  }

  function KillCells(cells: seq<OverlayCell>, epoch: int): (r: seq<OverlayCell>)
    ensures |r| == |cells|
  {
    seq(|cells|, j requires 0 <= j < |cells| =>
      if Tentative(cells[j].base, epoch - 1) then ResetCell(cells[j]) else cells[j])
  }

  function KillRows(rows: seq<OverlayRow>, epoch: int): (r: seq<OverlayRow>)
    ensures |r| == |rows|
  {
    seq(|rows|, i requires 0 <= i < |rows| => rows[i].(overlayCells := KillCells(rows[i].overlayCells, epoch)))
  }

  /** Give up the epoch and all later ones, and start a new one from the terminal's own cursor. */
  function KillEpoch(e: Engine, epoch: int, s: View): Engine {
    BecomeTentative(e.(cursors := EarlierCursors(e.cursors, epoch) + [NewCursor(e, s.row, s.col)],
                       overlays := KillRows(e.overlays, epoch)))
  }

  // ---------------------------------------------------------------- what every step keeps

  ghost predicate CellWithin(c: OverlayCell, lo: int, hi: int) {
    c.base.active ==> lo < c.base.tentativeUntilEpoch <= hi
  }

  ghost predicate RowWithin(row: OverlayRow, lo: int, hi: int) {
    forall j :: 0 <= j < |row.overlayCells| ==> CellWithin(row.overlayCells[j], lo, hi)
  }

  ghost predicate RowsWithin(rows: seq<OverlayRow>, lo: int, hi: int) {
    forall i :: 0 <= i < |rows| ==> RowWithin(rows[i], lo, hi)
  }

  ghost predicate CursorsWithin(cursors: seq<CursorMove>, lo: int, hi: int) {
    forall i :: 0 <= i < |cursors| ==> lo < cursors[i].base.tentativeUntilEpoch <= hi
  }

  /** Every prediction belongs to an epoch after `lo`, up to the current one. */
  ghost predicate Within(e: Engine, lo: int) {
    && lo < e.predictionEpoch
    && RowsWithin(e.overlays, lo, e.predictionEpoch)
    && CursorsWithin(e.cursors, lo, e.predictionEpoch)
  }

  ghost predicate Inv(e: Engine) {
    0 <= e.confirmedEpoch <= e.predictionEpoch && Within(e, 0)
  }

  /** No prediction would be shown: all are of epochs not yet confirmed. */
  ghost predicate Hidden(e: Engine) {
    Within(e, e.confirmedEpoch)
  }

  /** The epochs go on, and predictions stay above `lo`. */
  ghost predicate GoesOn(e: Engine, e': Engine, lo: int) {
    e.predictionEpoch <= e'.predictionEpoch && Within(e', lo)
  }

  lemma BecomeTentativeKeeps(e: Engine, lo: int)
    requires Within(e, lo)
    ensures GoesOn(e, BecomeTentative(e), lo)
  {
  }

  lemma {:induction false} EarlierKeep(cursors: seq<CursorMove>, epoch: int, lo: int, hi: int)
    requires CursorsWithin(cursors, lo, hi)
    ensures CursorsWithin(EarlierCursors(cursors, epoch), lo, hi)
    ensures forall i :: 0 <= i < |EarlierCursors(cursors, epoch)| ==>
      EarlierCursors(cursors, epoch)[i].base.tentativeUntilEpoch < epoch
  {
    if cursors != [] {
      EarlierKeep(cursors[1..], epoch, lo, hi);
    }
  }

  lemma KillRowsKeep(rows: seq<OverlayRow>, epoch: int, lo: int, hi: int)
    requires RowsWithin(rows, lo, hi)
    ensures RowsWithin(KillRows(rows, epoch), lo, hi)
  {
    forall i | 0 <= i < |rows| ensures RowWithin(KillRows(rows, epoch)[i], lo, hi) {
      assert RowWithin(rows[i], lo, hi);
      forall j | 0 <= j < |rows[i].overlayCells| ensures CellWithin(KillCells(rows[i].overlayCells, epoch)[j], lo, hi) {
        assert CellWithin(rows[i].overlayCells[j], lo, hi);
      }
    }
  }

  lemma KillEpochKeeps(e: Engine, epoch: int, s: View, lo: int)
    requires Within(e, lo)
    ensures GoesOn(e, KillEpoch(e, epoch, s), lo)
  {
    EarlierKeep(e.cursors, epoch, lo, e.predictionEpoch);
    KillRowsKeep(e.overlays, epoch, lo, e.predictionEpoch);
    var e' := KillEpoch(e, epoch, s);
    forall i | 0 <= i < |e'.overlays| ensures RowWithin(e'.overlays[i], lo, e'.predictionEpoch) {
      assert RowWithin(KillRows(e.overlays, epoch)[i], lo, e.predictionEpoch);
      forall j | 0 <= j < |e'.overlays[i].overlayCells|
        ensures CellWithin(e'.overlays[i].overlayCells[j], lo, e'.predictionEpoch)
      {
        assert CellWithin(e'.overlays[i].overlayCells[j], lo, e.predictionEpoch);
      }
    }
  }

  /** What killing an epoch is for: of that epoch and later ones nothing is left but the new cursor. */
  lemma KillEpochKills(e: Engine, epoch: int, s: View)
    requires Within(e, 0) && epoch < MAX_EPOCH
    ensures var e' := KillEpoch(e, epoch, s);
      && RowsWithin(e'.overlays, 0, epoch - 1)
      && (forall i :: 0 <= i < |e'.cursors| - 1 ==> e'.cursors[i].base.tentativeUntilEpoch < epoch)
      && e'.cursors[|e'.cursors| - 1] == NewCursor(e, s.row, s.col)
  {
    EarlierKeep(e.cursors, epoch, 0, e.predictionEpoch);
  }
}
