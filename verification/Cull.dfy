/** Judging all predictions against the terminal. */
module Culling {
  import opened Renditions
  import opened Ring
  import opened Overlays

  function WithCells(e: Engine, i: int, cells: seq<OverlayCell>): Engine
    requires 0 <= i < |e.overlays|
  {
    e.(overlays := e.overlays[i := e.overlays[i].(overlayCells := cells)])
  }

  /** The rest of the row takes on the renditions the terminal shows. */
  function Rerender(cells: seq<OverlayCell>, from: int, r: Rendition): (cells': seq<OverlayCell>)
    ensures |cells'| == |cells|
  {
    seq(|cells|, k requires 0 <= k < |cells| =>
      if k < from then cells[k] else cells[k].(replacement := cells[k].replacement.(renditions := r)))
  }

  /** A prediction found right confirms its epoch. */
  function Confirm(e: Engine, i: int, j: int, s: View): Engine
    requires Proper(s) && 0 <= i < |e.overlays| && 0 <= j < |e.overlays[i].overlayCells|
  {
    var row := e.overlays[i];
    var cell := row.overlayCells[j];
    var cells := Rerender(row.overlayCells, j, GetCell(s, row.rowNum, cell.base.col).renditions);
    WithCells(e, i, cells[j := ResetCell(cells[j])]).(confirmedEpoch := Max(e.confirmedEpoch, cell.base.tentativeUntilEpoch))
  }

  /** Judge one cell, and say whether to go on: a wrong prediction that was shown takes all with it. */
  function CullCell(e: Engine, i: int, j: int, s: View): (r: (Engine, bool))
    requires Proper(s) && 0 <= i < |e.overlays| && 0 <= j < |e.overlays[i].overlayCells|
    ensures r.1 ==> SameLayout(e, r.0)
  {
    var row := e.overlays[i];
    var cell := row.overlayCells[j];
    match CellValidity(cell, s, row.rowNum, e.localFrameLateAcked)
    case IncorrectOrExpired =>
      if Tentative(cell.base, e.confirmedEpoch) then (KillEpoch(e, cell.base.tentativeUntilEpoch, s), true)
      else (ResetAll(e), false)
    case Correct => (Confirm(e, i, j, s), true)
    case CorrectNoCredit => (WithCells(e, i, row.overlayCells[j := ResetCell(cell)]), true)
    case Pending => (e, true)
    case Inactive => (e, true)
  }

  predicate SameRow(a: OverlayRow, b: OverlayRow) {
    a.rowNum == b.rowNum && |a.overlayCells| == |b.overlayCells|
  }

  predicate SameLayout(e: Engine, e': Engine) {
    && |e.overlays| == |e'.overlays|
    && forall i :: 0 <= i < |e.overlays| ==> SameRow(e.overlays[i], e'.overlays[i])
  }

  predicate OnScreen(row: OverlayRow, s: View) {
    0 <= row.rowNum < s.height
  }

  /** From cell `j` of row `i` to the last; rows off the screen are passed over. */
  function CullFrom(e: Engine, i: int, j: int, s: View): (r: (Engine, bool))
    requires Proper(s) && 0 <= i <= |e.overlays| && 0 <= j && (i < |e.overlays| ==> j <= |e.overlays[i].overlayCells|)
    decreases |e.overlays| - i, if i < |e.overlays| then |e.overlays[i].overlayCells| - j else 0
  {
    if i == |e.overlays| then (e, true)
    else if !OnScreen(e.overlays[i], s) || j == |e.overlays[i].overlayCells| then CullFrom(e, i + 1, 0, s)
    else
      var (e', goOn) := CullCell(e, i, j, s);
      if goOn then assert SameRow(e.overlays[i], e'.overlays[i]); CullFrom(e', i, j + 1, s) else (e', false)
  }

  function ScreenRows(rows: seq<OverlayRow>, s: View): seq<OverlayRow> {
    if rows == [] then []
    else (if OnScreen(rows[0], s) then [rows[0]] else []) + ScreenRows(rows[1..], s)
  }

  function PendingCursors(cursors: seq<CursorMove>, s: View, lateAck: int): seq<CursorMove> {
    if cursors == [] then []
    else (if CursorValidity(cursors[0], s, lateAck).Pending? then [cursors[0]] else [])
         + PendingCursors(cursors[1..], s, lateAck)
  }

  /** The cursors: a wrong last one takes all predictions with it; of the others the pending stay. */
  function CullCursors(e: Engine, s: View): Engine {
    var n := |e.cursors|;
    if n > 0 && CursorValidity(e.cursors[n - 1], s, e.localFrameLateAcked).IncorrectOrExpired? then ResetAll(e)
    else e.(cursors := PendingCursors(e.cursors, s, e.localFrameLateAcked))
  }

  /** Predictions for a terminal of another size are dropped. */
  function Resized(e: Engine, s: View): Engine {
    if e.lastHeight != s.height || e.lastWidth != s.width
    then ResetAll(e.(lastHeight := s.height, lastWidth := s.width)) else e
  }

  function Cull(e: Engine, s: View): Engine
    requires Proper(s)
  {
    var (e1, goOn) := CullFrom(Resized(e, s), 0, 0, s);
    if goOn then CullCursors(e1.(overlays := ScreenRows(e1.overlays, s)), s) else e1
  }

  // ---------------------------------------------------------------- epochs

  /** Judging goes on with the epochs: the confirmed one never falls back, nor beyond the current. */
  ghost predicate Judged(e: Engine, e': Engine, lo: int) {
    && GoesOn(e, e', lo)
    && e.confirmedEpoch <= e'.confirmedEpoch
    && (e.confirmedEpoch <= e.predictionEpoch ==> e'.confirmedEpoch <= e'.predictionEpoch)
  }

  lemma ResetOneKeeps(e: Engine, i: int, cells: seq<OverlayCell>, j: int, lo: int)
    requires Within(e, lo) && 0 <= i < |e.overlays| && 0 <= j < |cells| == |e.overlays[i].overlayCells|
    requires forall k :: 0 <= k < |cells| && k != j ==> cells[k].base == e.overlays[i].overlayCells[k].base
    requires !cells[j].base.active
    ensures Within(WithCells(e, i, cells), lo)
  {
    var e' := WithCells(e, i, cells);
    forall k | 0 <= k < |e'.overlays| ensures RowWithin(e'.overlays[k], lo, e'.predictionEpoch) {
      assert RowWithin(e.overlays[k], lo, e.predictionEpoch);
      if k == i {
        forall m | 0 <= m < |cells| ensures CellWithin(cells[m], lo, e.predictionEpoch) {
          assert CellWithin(e.overlays[i].overlayCells[m], lo, e.predictionEpoch);
        }
      }
    }
  }

  lemma CullCellKeeps(e: Engine, i: int, j: int, s: View, lo: int)
    requires Proper(s) && 0 <= i < |e.overlays| && 0 <= j < |e.overlays[i].overlayCells|
    requires Within(e, lo)
    ensures Judged(e, CullCell(e, i, j, s).0, lo)
  {
    var row := e.overlays[i];
    var cell := row.overlayCells[j];
    assert RowWithin(row, lo, e.predictionEpoch) && CellWithin(cell, lo, e.predictionEpoch);
    match CellValidity(cell, s, row.rowNum, e.localFrameLateAcked)
    case IncorrectOrExpired => KillEpochKeeps(e, cell.base.tentativeUntilEpoch, s, lo);
    case Correct =>
      var cells := Rerender(row.overlayCells, j, GetCell(s, row.rowNum, cell.base.col).renditions);
      ResetOneKeeps(e, i, cells[j := ResetCell(cells[j])], j, lo);
    case CorrectNoCredit => ResetOneKeeps(e, i, row.overlayCells[j := ResetCell(cell)], j, lo);
    case Pending =>
    case Inactive =>
  }

  lemma {:induction false} CullFromKeeps(e: Engine, i: int, j: int, s: View, lo: int)
    requires Proper(s) && 0 <= i <= |e.overlays| && 0 <= j && (i < |e.overlays| ==> j <= |e.overlays[i].overlayCells|)
    requires Within(e, lo)
    ensures Judged(e, CullFrom(e, i, j, s).0, lo)
    decreases |e.overlays| - i, if i < |e.overlays| then |e.overlays[i].overlayCells| - j else 0
  {
    if i < |e.overlays| {
      if !OnScreen(e.overlays[i], s) || j == |e.overlays[i].overlayCells| {
        CullFromKeeps(e, i + 1, 0, s, lo);
      } else {
        CullCellKeeps(e, i, j, s, lo);
        var (e', goOn) := CullCell(e, i, j, s);
        if goOn {
          assert SameRow(e.overlays[i], e'.overlays[i]);
          CullFromKeeps(e', i, j + 1, s, lo);
        }
      }
    }
  }

  lemma {:induction false} ScreenRowsKeep(rows: seq<OverlayRow>, s: View, lo: int, hi: int)
    requires RowsWithin(rows, lo, hi)
    ensures RowsWithin(ScreenRows(rows, s), lo, hi)
    ensures forall row :: row in ScreenRows(rows, s) ==> row in rows && OnScreen(row, s)
  {
    if rows != [] {
      ScreenRowsKeep(rows[1..], s, lo, hi);
      assert RowWithin(rows[0], lo, hi);
    }
  }

  lemma {:induction false} PendingKeep(cursors: seq<CursorMove>, s: View, lateAck: int, lo: int, hi: int)
    requires CursorsWithin(cursors, lo, hi)
    ensures CursorsWithin(PendingCursors(cursors, s, lateAck), lo, hi)
    ensures forall m :: m in PendingCursors(cursors, s, lateAck) ==> CursorValidity(m, s, lateAck).Pending?
  {
    if cursors != [] {
      PendingKeep(cursors[1..], s, lateAck, lo, hi);
    }
  }

  lemma CullCursorsKeeps(e: Engine, s: View, lo: int)
    requires Within(e, lo)
    ensures Judged(e, CullCursors(e, s), lo)
  {
    PendingKeep(e.cursors, s, e.localFrameLateAcked, lo, e.predictionEpoch);
  }

  /** A whole judging: outside the predictions' own epochs nothing is made up, and both epochs only
      go forward, the confirmed one behind the current. */
  lemma CullKeeps(e: Engine, s: View, lo: int)
    requires Proper(s) && Within(e, lo)
    ensures Judged(e, Cull(e, s), lo)
  {
    var e0 := Resized(e, s);
    CullFromKeeps(e0, 0, 0, s, lo);
    var (e1, goOn) := CullFrom(e0, 0, 0, s);
    ScreenRowsKeep(e1.overlays, s, lo, e1.predictionEpoch);
    CullCursorsKeeps(e1.(overlays := ScreenRows(e1.overlays, s)), s, lo);
  }

  // ---------------------------------------------------------------- what judging leaves

  /** On the screen, and not due yet. */
  predicate CellDone(c: OverlayCell, s: View, row: int, lateAck: int) {
    c.base.active ==> row < s.height && c.base.col < s.width && lateAck < c.base.expirationFrame
  }

  ghost predicate RowDone(row: OverlayRow, to: int, s: View, lateAck: int)
    requires Proper(s)
  {
    OnScreen(row, s) ==> forall b :: 0 <= b < |row.overlayCells| && b < to ==> CellDone(row.overlayCells[b], s, row.rowNum, lateAck)
  }

  /** All cells before cell `j` of row `i` have been judged. */
  ghost predicate JudgedTo(e: Engine, i: int, j: int, s: View)
    requires Proper(s)
  {
    forall a :: 0 <= a < |e.overlays| && a <= i ==>
      RowDone(e.overlays[a], if a < i then |e.overlays[a].overlayCells| else j, s, e.localFrameLateAcked)
  }

  lemma KillRowDone(e: Engine, a: int, to: int, epoch: int, s: View)
    requires Proper(s) && 0 <= a < |e.overlays| && RowDone(e.overlays[a], to, s, e.localFrameLateAcked)
    ensures RowDone(KillEpoch(e, epoch, s).overlays[a], to, s, e.localFrameLateAcked)
  {
    var row, row' := e.overlays[a], KillEpoch(e, epoch, s).overlays[a];
    forall b | 0 <= b < |row.overlayCells| && b < to && OnScreen(row, s)
      ensures CellDone(row'.overlayCells[b], s, row.rowNum, e.localFrameLateAcked)
    {
      assert CellDone(row.overlayCells[b], s, row.rowNum, e.localFrameLateAcked);
    }
  }

  lemma CullCellDone(e: Engine, i: int, j: int, s: View)
    requires Proper(s) && 0 <= i < |e.overlays| && 0 <= j < |e.overlays[i].overlayCells|
    requires JudgedTo(e, i, j, s) && CullCell(e, i, j, s).1
    ensures JudgedTo(CullCell(e, i, j, s).0, i, j + 1, s)
  {
    var row, e' := e.overlays[i], CullCell(e, i, j, s).0;
    var cell, ack := row.overlayCells[j], e.localFrameLateAcked;
    var row' := e'.overlays[i];
    forall a | 0 <= a < |e'.overlays| && a < i
      ensures RowDone(e'.overlays[a], |e'.overlays[a].overlayCells|, s, ack)
    {
      if CellValidity(cell, s, row.rowNum, ack).IncorrectOrExpired? {
        KillRowDone(e, a, |e.overlays[a].overlayCells|, cell.base.tentativeUntilEpoch, s);
      }
    }
    assert RowDone(row, j, s, ack);
    if CellValidity(cell, s, row.rowNum, ack).IncorrectOrExpired? {
      KillRowDone(e, i, j, cell.base.tentativeUntilEpoch, s);
    }
    assert SameRow(row, row');
    forall b | 0 <= b < |row'.overlayCells| && b < j + 1 && OnScreen(row', s)
      ensures CellDone(row'.overlayCells[b], s, row'.rowNum, ack)
    {
      if b < j {
        assert CellDone(row.overlayCells[b], s, row.rowNum, ack);
      }
    }
  }

  lemma {:induction false} CullFromDone(e: Engine, i: int, j: int, s: View)
    requires Proper(s) && 0 <= i <= |e.overlays| && 0 <= j && (i < |e.overlays| ==> j <= |e.overlays[i].overlayCells|)
    requires JudgedTo(e, i, j, s) && CullFrom(e, i, j, s).1
    ensures var e' := CullFrom(e, i, j, s).0;
      && e'.localFrameLateAcked == e.localFrameLateAcked
      && forall a :: 0 <= a < |e'.overlays| ==> RowDone(e'.overlays[a], |e'.overlays[a].overlayCells|, s, e'.localFrameLateAcked)
    decreases |e.overlays| - i, if i < |e.overlays| then |e.overlays[i].overlayCells| - j else 0
  {
    if i < |e.overlays| {
      if !OnScreen(e.overlays[i], s) || j == |e.overlays[i].overlayCells| {
        assert RowDone(e.overlays[i], |e.overlays[i].overlayCells|, s, e.localFrameLateAcked);
        if i + 1 < |e.overlays| { assert RowDone(e.overlays[i + 1], 0, s, e.localFrameLateAcked); }
        CullFromDone(e, i + 1, 0, s);
      } else {
        CullCellDone(e, i, j, s);
        var e' := CullCell(e, i, j, s).0;
        assert SameRow(e.overlays[i], e'.overlays[i]);
        CullFromDone(e', i, j + 1, s);
      }
    }
  }

  ghost predicate AllPending(e: Engine, s: View)
    requires Proper(s)
  {
    && (forall row :: row in e.overlays ==> OnScreen(row, s) && RowDone(row, |row.overlayCells|, s, e.localFrameLateAcked))
    && (forall m :: m in e.cursors ==>
          m.base.active && m.row < s.height && m.base.col < s.width && e.localFrameLateAcked < m.base.expirationFrame)
  }

  /** After judging, every prediction left is one that cannot be judged yet. */
  lemma CullLeavesPending(e: Engine, s: View)
    requires Proper(s) && Within(e, 0)
    ensures AllPending(Cull(e, s), s)
  {
    var e0 := Resized(e, s);
    var (e1, goOn) := CullFrom(e0, 0, 0, s);
    CullFromKeeps(e0, 0, 0, s, 0);
    if goOn {
      if e0.overlays != [] { assert RowDone(e0.overlays[0], 0, s, e0.localFrameLateAcked); }
      CullFromDone(e0, 0, 0, s);
      ScreenRowsKeep(e1.overlays, s, 0, e1.predictionEpoch);
      PendingKeep(e1.cursors, s, e1.localFrameLateAcked, 0, e1.predictionEpoch);
    } else {
      CullStops(e0, 0, 0, s);
    }
  }

  lemma {:induction false} CullStops(e: Engine, i: int, j: int, s: View)
    requires Proper(s) && 0 <= i <= |e.overlays| && 0 <= j && (i < |e.overlays| ==> j <= |e.overlays[i].overlayCells|)
    requires !CullFrom(e, i, j, s).1
    ensures CullFrom(e, i, j, s).0.overlays == [] && CullFrom(e, i, j, s).0.cursors == []
    ensures e.confirmedEpoch <= e.predictionEpoch && Within(e, 0) ==>
      CullFrom(e, i, j, s).0.confirmedEpoch < CullFrom(e, i, j, s).0.predictionEpoch
    decreases |e.overlays| - i, if i < |e.overlays| then |e.overlays[i].overlayCells| - j else 0
  {
    if !OnScreen(e.overlays[i], s) || j == |e.overlays[i].overlayCells| {
      CullStops(e, i + 1, 0, s);
    } else {
      var (e', goOn) := CullCell(e, i, j, s);
      if goOn {
        assert SameRow(e.overlays[i], e'.overlays[i]);
        if Within(e, 0) { CullCellKeeps(e, i, j, s, 0); }
        CullStops(e', i, j + 1, s);
      }
    }
  }

  // ---------------------------------------------------------------- a shown prediction that is wrong

  /** No text, or a blank one column wide. */
  predicate NoText(c: Cell) {
    !c.dwidth && !c.dwidthCont && (c.contents == "" || c.contents == " " || c.contents == "\U{00A0}")
  }

  /** The prediction is due and says which text the terminal will show. */
  predicate Telling(c: OverlayCell, lateAck: int) {
    c.base.active && lateAck >= c.base.expirationFrame && !c.unknown && !NoText(c.replacement)
  }

  /** The terminal has no such column, or shows other text than a prediction that is due. */
  predicate Refuted(c: OverlayCell, s: View, row: int, lateAck: int)
    requires Proper(s) && 0 <= row < s.height
  {
    c.base.active && (c.base.col >= s.width
                      || (0 <= c.base.col && Telling(c, lateAck) && s.cells[row][c.base.col].contents != c.replacement.contents))
  }

  lemma RefutedIsWrong(c: OverlayCell, s: View, row: int, lateAck: int)
    requires Proper(s) && 0 <= row < s.height && 0 <= c.base.col
    ensures Refuted(c, s, row, lateAck) <==> CellValidity(c, s, row, lateAck).IncorrectOrExpired?
  {
  }

  /** Cell `b` of row `a` is on the screen, shown, and refuted. */
  ghost predicate ShownWrong(e: Engine, a: int, b: int, s: View)
    requires Proper(s)
  {
    && 0 <= a < |e.overlays| && 0 <= b < |e.overlays[a].overlayCells|
    && OnScreen(e.overlays[a], s)
    && var c := e.overlays[a].overlayCells[b];
       c.base.tentativeUntilEpoch <= e.confirmedEpoch && 0 <= c.base.col
       && Refuted(c, s, e.overlays[a].rowNum, e.localFrameLateAcked)
  }

  lemma CullCellKeepsWrong(e: Engine, i: int, j: int, s: View, a: int, b: int)
    requires Proper(s) && 0 <= i < |e.overlays| && 0 <= j < |e.overlays[i].overlayCells|
    requires ShownWrong(e, a, b, s) && (a != i || b != j) && CullCell(e, i, j, s).1
    ensures ShownWrong(CullCell(e, i, j, s).0, a, b, s)
  {
    var row, ack := e.overlays[i], e.localFrameLateAcked;
    var cell := row.overlayCells[j];
    match CellValidity(cell, s, row.rowNum, ack)
    case IncorrectOrExpired => KillSparesShown(e, cell.base.tentativeUntilEpoch, a, b, s);
    case Correct =>
      var r := GetCell(s, row.rowNum, cell.base.col).renditions;
      var c := e.overlays[a].overlayCells[b];
      var e' := Confirm(e, i, j, s);
      assert SameRow(e.overlays[a], e'.overlays[a]);
      assert e'.overlays[a].overlayCells[b] == if a == i && b > j then c.(replacement := c.replacement.(renditions := r)) else c;
    case CorrectNoCredit =>
    case Pending =>
    case Inactive =>
  }

  lemma KillSparesShown(e: Engine, epoch: int, a: int, b: int, s: View)
    requires Proper(s) && ShownWrong(e, a, b, s) && epoch > e.confirmedEpoch
    ensures ShownWrong(KillEpoch(e, epoch, s), a, b, s)
  {
    var e' := KillEpoch(e, epoch, s);
    assert SameRow(e.overlays[a], e'.overlays[a]);
    assert e'.overlays[a].overlayCells[b] == e.overlays[a].overlayCells[b];
  }

  /** It stops the judging, whatever is judged before it. */
  lemma {:induction false} WrongStops(e: Engine, i: int, j: int, s: View, a: int, b: int)
    requires Proper(s) && 0 <= i <= |e.overlays| && 0 <= j && (i < |e.overlays| ==> j <= |e.overlays[i].overlayCells|)
    requires ShownWrong(e, a, b, s) && (a > i || (a == i && b >= j))
    ensures !CullFrom(e, i, j, s).1
    decreases |e.overlays| - i, if i < |e.overlays| then |e.overlays[i].overlayCells| - j else 0
  {
    if !OnScreen(e.overlays[i], s) || j == |e.overlays[i].overlayCells| {
      WrongStops(e, i + 1, 0, s, a, b);
    } else if a == i && b == j {
      RefutedIsWrong(e.overlays[a].overlayCells[b], s, e.overlays[a].rowNum, e.localFrameLateAcked);
    } else {
      var (e', goOn) := CullCell(e, i, j, s);
      if goOn {
        CullCellKeepsWrong(e, i, j, s, a, b);
        assert SameRow(e.overlays[i], e'.overlays[i]);
        WrongStops(e', i, j + 1, s, a, b);
      }
    }
  }

  /** When a shown prediction turns out wrong, all predictions go, and the epoch is a new one that
      nothing has confirmed: nothing would be shown. */
  lemma WrongHidesAll(e: Engine, s: View, a: int, b: int)
    requires Proper(s) && Inv(e) && e.lastHeight == s.height && e.lastWidth == s.width && ShownWrong(e, a, b, s)
    ensures var e' := Cull(e, s); e'.overlays == [] && e'.cursors == [] && Hidden(e')
  {
    WrongStops(e, 0, 0, s, a, b);
    CullStops(e, 0, 0, s);
  }
}
