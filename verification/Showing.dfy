/** What predictions show, and the way of a character from the keystroke to its confirmation. */
module Showing {
  import opened Renditions
  import opened Ring
  import opened Overlays
  import opened Culling
  import opened Predictions
  import opened Epochs
  import opened Verdicts
  import opened Typing

  // ---------------------------------------------------------------- one row each

  /** No row has two lists of predictions, and none lies above the screen. */
  ghost predicate Tidy(rows: seq<OverlayRow>) {
    && (forall i, j :: 0 <= i < j < |rows| ==> rows[i].rowNum != rows[j].rowNum)
    && (forall i :: 0 <= i < |rows| ==> rows[i].rowNum >= 0)
  }

  lemma SameLayoutTidy(e: Engine, e': Engine)
    requires Tidy(e.overlays) && SameLayout(e, e')
    ensures Tidy(e'.overlays)
  {
    forall i | 0 <= i < |e'.overlays| ensures e'.overlays[i].rowNum == e.overlays[i].rowNum {
      assert SameRow(e.overlays[i], e'.overlays[i]);
    }
  }

  lemma {:induction false} CullFromTidy(e: Engine, i: int, j: int, s: View)
    requires Proper(s) && InRange(e, i, j) && Tidy(e.overlays)
    ensures Tidy(CullFrom(e, i, j, s).0.overlays)
    decreases |e.overlays| - i, if i < |e.overlays| then |e.overlays[i].overlayCells| - j else 0
  {
    if i < |e.overlays| {
      if !OnScreen(e.overlays[i], s) || j == |e.overlays[i].overlayCells| {
        CullFromTidy(e, i + 1, 0, s);
      } else {
        var (e', goOn) := CullCell(e, i, j, s);
        if goOn {
          assert SameRow(e.overlays[i], e'.overlays[i]);
          SameLayoutTidy(e, e');
          CullFromTidy(e', i, j + 1, s);
        }
      }
    }
  }

  lemma {:induction false} ScreenRowsTidy(rows: seq<OverlayRow>, s: View)
    requires Tidy(rows)
    ensures Tidy(ScreenRows(rows, s))
    ensures forall row :: row in ScreenRows(rows, s) ==> row in rows
  {
    if rows != [] {
      assert Tidy(rows[1..]);
      ScreenRowsTidy(rows[1..], s);
      var rest := ScreenRows(rows[1..], s);
      forall k | 0 <= k < |rest| ensures rest[k].rowNum != rows[0].rowNum {
        assert rest[k] in rows[1..];
      }
    }
  }

  lemma CullTidy(e: Engine, s: View)
    requires Proper(s) && Tidy(e.overlays)
    ensures Tidy(Cull(e, s).overlays)
  {
    CullFromTidy(Resized(e, s), 0, 0, s);
    ScreenRowsTidy(CullFrom(Resized(e, s), 0, 0, s).0.overlays, s);
  }

  lemma MadeTidy(e: Engine, row: int, w: nat)
    requires Tidy(e.overlays) && row >= 0
    ensures Tidy(GetOrMakeRow(e, row, w).0.overlays)
  {
  }

  lemma WithCellsTidy(e: Engine, i: nat, cells: seq<OverlayCell>)
    requires Tidy(e.overlays) && i < |e.overlays|
    ensures Tidy(WithCells(e, i, cells).overlays)
  {
  }

  lemma NewlineTidy(e: Engine, s: View)
    requires Ready(e, s) && Tidy(e.overlays)
    ensures Tidy(NewlineCarriageReturn(e, s).overlays)
  {
    InitIs(e, s);
    CursorIsOn(e, s);
    var e1 := InitCursor(e, s);
    var home := LastCursor(e1).(base := LastCursor(e1).base.(col := 0));
    var e2 := WithCursor(e1, home);
    MadeTidy(e2, CursorRow(e, s), s.width);
    var (e3, i) := GetOrMakeRow(e2, CursorRow(e, s), s.width);
    WithCellsTidy(e3, i, BlankCells(e3, e3.overlays[i].overlayCells));
  }

  lemma TypeTidy(e: Engine, s: View, m: CursorMove, chs: string)
    requires Proper(s) && RowsFit(e.overlays, s.width) && 0 <= m.base.col < s.width && 0 <= m.row && Tidy(e.overlays)
    ensures Tidy(Type(e, s, m, chs).overlays)
  {
    MadeTidy(e, m.row, s.width);
    var (e1, i) := GetOrMakeRow(e, m.row, s.width);
    assert RowFits(e1.overlays[i], s.width);
    WithCellsTidy(e1, i, TypedRow(e1, s, m.row, e1.overlays[i].overlayCells, m.base.col, chs));
  }

  lemma CharacterTidy(e: Engine, s: View, chs: string)
    requires Ready(e, s) && Tidy(e.overlays)
    ensures Tidy(HandleUserGrapheme(e, s, chs).overlays)
  {
    InitIs(e, s);
    CursorIsOn(e, s);
    var e1 := InitCursor(e, s);
    if !Control(chs) {
      if CursorCol(e, s) < s.width - 1 {
        TypeTidy(e1, s, LastCursor(e1), chs);
      } else {
        EdgeSteps(e, s, chs);
        TypeTidy(BecomeTentative(e1), s, LastCursor(e1), chs);
        EdgeOverlays(e, s, chs);
        NewlineTidy(AtEdge(e, s, chs), s);
      }
    }
  }

  lemma HandleTidy(e: Engine, s: View, key: Key)
    requires Ready(e, s) && Tidy(e.overlays)
    ensures Tidy(Handle(e, s, key).overlays)
  {
    match key
    case Grapheme(chs) => CharacterTidy(e, s, chs);
    case Return => NewlineTidy(BecomeTentative(e), s);
    case OtherControl =>
    case _ =>
      InitIs(e, s);
      CursorIsOn(e, s);
      MadeTidy(InitCursor(e, s), CursorRow(e, s), s.width);
  }

  /** Cursors stay active until they are dropped. */
  ghost predicate Live(cursors: seq<CursorMove>) {
    forall k :: 0 <= k < |cursors| ==> cursors[k].base.active
  }

  lemma {:induction false} CullFromLive(e: Engine, i: int, j: int, s: View)
    requires Proper(s) && InRange(e, i, j) && Live(e.cursors)
    ensures Live(CullFrom(e, i, j, s).0.cursors)
    decreases |e.overlays| - i, if i < |e.overlays| then |e.overlays[i].overlayCells| - j else 0
  {
    if i < |e.overlays| {
      if !OnScreen(e.overlays[i], s) || j == |e.overlays[i].overlayCells| {
        CullFromLive(e, i + 1, 0, s);
      } else {
        var (e', goOn) := CullCell(e, i, j, s);
        KillLive(e, Guess(e, i, j).base.tentativeUntilEpoch, s);
        if goOn {
          assert SameRow(e.overlays[i], e'.overlays[i]);
          CullFromLive(e', i, j + 1, s);
        }
      }
    }
  }

  lemma KillLive(e: Engine, epoch: int, s: View)
    requires Live(e.cursors)
    ensures Live(KillEpoch(e, epoch, s).cursors)
  {
    var kept := EarlierCursors(e.cursors, epoch);
    EarlierOf(e.cursors, epoch);
    forall k | 0 <= k < |kept| ensures kept[k].base.active {
      assert kept[k] in e.cursors;
    }
  }

  lemma CullLive(e: Engine, s: View)
    requires Proper(s) && Live(e.cursors)
    ensures Live(Cull(e, s).cursors)
  {
    CullFromLive(Resized(e, s), 0, 0, s);
    var e1 := CullFrom(Resized(e, s), 0, 0, s).0;
    PendingOf(e1.cursors, s, e1.localFrameLateAcked);
    var kept := PendingCursors(e1.cursors, s, e1.localFrameLateAcked);
    forall k | 0 <= k < |kept| ensures kept[k].base.active {
      assert kept[k] in e1.cursors;
    }
  }

  lemma HandleLive(e: Engine, s: View, key: Key)
    requires Ready(e, s) && Live(e.cursors)
    ensures Live(Handle(e, s, key).cursors)
  {
    match key
    case Grapheme(chs) => CharacterLive(e, s, chs);
    case Return => NewlineLive(BecomeTentative(e), s);
    case OtherControl =>
    case _ => InitIs(e, s);
  }

  lemma NewlineLive(e: Engine, s: View)
    requires Ready(e, s) && Live(e.cursors)
    ensures Live(NewlineCarriageReturn(e, s).cursors)
  {
    InitIs(e, s);
  }

  lemma CharacterLive(e: Engine, s: View, chs: string)
    requires Ready(e, s) && Live(e.cursors)
    ensures Live(HandleUserGrapheme(e, s, chs).cursors)
  {
    CursorIsOn(e, s);
    if !Control(chs) && CursorCol(e, s) == s.width - 1 {
      EdgeLive(e, s, chs);
      EdgeSteps(e, s, chs);
      NewlineLive(AtEdge(e, s, chs), s);
    } else {
      InitIs(e, s);
    }
  }

  lemma EdgeLive(e: Engine, s: View, chs: string)
    requires Ready(e, s) && Live(e.cursors)
    ensures Live(AtEdge(e, s, chs).cursors)
  {
    InitIs(e, s);
  }

  /** So it is in every run. */
  lemma {:induction false} RunTidy(e: Engine, steps: seq<Step>)
    requires Laid(e) && Tidy(e.overlays) && Live(e.cursors) && forall i :: 0 <= i < |steps| ==> StepProper(steps[i])
    ensures Tidy(Run(e, steps).overlays) && Live(Run(e, steps).cursors)
    decreases |steps|
  {
    if steps != [] {
      NextLaid(e, steps[0]);
      if !steps[0].Frames? {
        CullTidy(e, steps[0].s);
        CullLive(e, steps[0].s);
        CullIsReady(e, steps[0].s);
        if steps[0].Input? {
          HandleTidy(Cull(e, steps[0].s), steps[0].s, steps[0].key);
          HandleLive(Cull(e, steps[0].s), steps[0].s, steps[0].key);
        }
      }
      RunTidy(Next(e, steps[0]), steps[1..]);
    }
  }

  // ---------------------------------------------------------------- what is shown

  /** A single underline. */
  function WithUnderline(c: Cell): Cell {
    c.(renditions := c.renditions.(on := c.renditions.on.(underline := true), ulStyle := 1))
  }

  /** The nearest place on the screen. */
  lemma NearestPlace(s: View, row: int, col: int)
    requires Proper(s)
    ensures var s' := MoveCursor(s, row, col);
      && Proper(s') && s' == s.(row := s'.row, col := s'.col) && GetCell(s, row, col) == s.cells[s'.row][s'.col]
      && (s'.row == row || (row < 0 && s'.row == 0) || (row >= s.height && s'.row == s.height - 1))
      && (s'.col == col || (col < 0 && s'.col == 0) || (col >= s.width && s'.col == s.width - 1))
  {
  }

  /** A cell of the terminal with a prediction over it: nothing changes for one whose epoch is not
      confirmed; an unknown one underlines at most what is there; any other puts its text there.
      Blanks over blanks are not underlined, nor is what is there already. */
  function ShownOver(c: OverlayCell, actual: Cell, confirmedEpoch: int, lastColumn: bool, flag: bool): Cell {
    var underline := flag && !(NoText(c.replacement) && NoText(actual));
    if !c.base.active || c.base.tentativeUntilEpoch > confirmedEpoch then actual
    else if c.unknown then (if underline && !lastColumn then WithUnderline(actual) else actual)
    else if actual == c.replacement || !underline then c.replacement
    else WithUnderline(c.replacement)
  }

  lemma ApplyCellAt(c: OverlayCell, s: View, confirmedEpoch: int, row: int, flag: bool, y: int, x: int)
    requires Proper(s) && 0 <= row && 0 <= c.base.col && 0 <= y < s.height && 0 <= x < s.width
    ensures var s' := ApplyCell(c, s, confirmedEpoch, row, flag);
      && s' == s.(cells := s'.cells)
      && s'.cells[y][x] == if y == row && x == c.base.col
                           then ShownOver(c, s.cells[y][x], confirmedEpoch, x == s.width - 1, flag) else s.cells[y][x]
  {
  }

  lemma {:induction false} ApplyCellsAt(cells: seq<OverlayCell>, s: View, confirmedEpoch: int, row: int, flag: bool,
                                        first: nat, y: int, x: int)
    requires Proper(s) && 0 <= row && 0 <= y < s.height && 0 <= x < s.width
    requires forall k :: 0 <= k < |cells| ==> cells[k].base.col == first + k
    ensures var s' := ApplyCells(cells, s, confirmedEpoch, row, flag);
      && s' == s.(cells := s'.cells)
      && s'.cells[y][x] == if y == row && first <= x < first + |cells|
                           then ShownOver(cells[x - first], s.cells[y][x], confirmedEpoch, x == s.width - 1, flag)
                           else s.cells[y][x]
    decreases |cells|
  {
    if cells != [] {
      ApplyCellAt(cells[0], s, confirmedEpoch, row, flag, y, x);
      ApplyCellsAt(cells[1..], ApplyCell(cells[0], s, confirmedEpoch, row, flag), confirmedEpoch, row, flag, first + 1, y, x);
    }
  }

  lemma {:induction false} ApplyRowsAt(rows: seq<OverlayRow>, s: View, confirmedEpoch: int, flag: bool, y: int, x: int)
    requires Proper(s) && RowsFit(rows, s.width) && Tidy(rows) && 0 <= y < s.height && 0 <= x < s.width
    ensures var s', a := ApplyRows(rows, s, confirmedEpoch, flag), RowIndex(rows, y);
      && s' == s.(cells := s'.cells) && (a < |rows| ==> |rows[a].overlayCells| == s.width)
      && s'.cells[y][x] == if a < |rows|
                           then ShownOver(rows[a].overlayCells[x], s.cells[y][x], confirmedEpoch, x == s.width - 1, flag)
                           else s.cells[y][x]
    decreases |rows|
  {
    if rows != [] {
      assert RowFits(rows[0], s.width);
      ApplyCellsAt(rows[0].overlayCells, s, confirmedEpoch, rows[0].rowNum, flag, 0, y, x);
      assert RowsFit(rows[1..], s.width) && Tidy(rows[1..]);
      ApplyRowsAt(rows[1..], ApplyCells(rows[0].overlayCells, s, confirmedEpoch, rows[0].rowNum, flag), confirmedEpoch, flag, y, x);
    }
  }

  /** A cursor of a confirmed epoch. */
  predicate CursorShown(m: CursorMove, confirmedEpoch: int) {
    m.base.active && m.base.tentativeUntilEpoch <= confirmedEpoch
  }

  lemma {:induction false} ApplyCursorsIs(cursors: seq<CursorMove>, s: View, confirmedEpoch: int, k: nat)
    requires Proper(s) && forall i :: 0 <= i < |cursors| ==> CursorOn(cursors[i], s)
    requires k <= |cursors| && forall i :: k <= i < |cursors| ==> !CursorShown(cursors[i], confirmedEpoch)
    requires k > 0 ==> CursorShown(cursors[k - 1], confirmedEpoch)
    ensures ApplyCursors(cursors, s, confirmedEpoch) ==
      if k == 0 then s else s.(row := cursors[k - 1].row, col := cursors[k - 1].base.col)
    decreases |cursors|
  {
    if cursors != [] {
      var s1 := if CursorShown(cursors[0], confirmedEpoch) then MoveCursor(s, cursors[0].row, cursors[0].base.col) else s;
      if k > 1 {
        ApplyCursorsIs(cursors[1..], s1, confirmedEpoch, k - 1);
      } else {
        ApplyCursorsIs(cursors[1..], s1, confirmedEpoch, 0);
      }
    }
  }

  /** What applying the predictions makes of the terminal: every cell has its own prediction over it,
      and nothing but cells and cursor changes. */
  lemma ApplyShows(e: Engine, s: View, flag: bool, y: int, x: int)
    requires Ready(e, s) && Tidy(e.overlays) && 0 <= y < s.height && 0 <= x < s.width
    ensures var s' := Apply(e, s, true, flag);
      && Proper(s') && s' == s.(cells := s'.cells, row := s'.row, col := s'.col)
      && s'.cells[y][x] == ShownOver(Before(e, s.width, y, x), s.cells[y][x], e.confirmedEpoch, x == s.width - 1, flag)
  {
    ApplyRowsAt(e.overlays, s, e.confirmedEpoch, flag, y, x);
    ApplyCursorsKeepCells(e.cursors, ApplyRows(e.overlays, s, e.confirmedEpoch, flag), e.confirmedEpoch);
  }

  lemma {:induction false} ApplyCursorsKeepCells(cursors: seq<CursorMove>, s: View, confirmedEpoch: int)
    requires Proper(s)
    ensures var s' := ApplyCursors(cursors, s, confirmedEpoch);
      Proper(s') && s' == s.(row := s'.row, col := s'.col)
    decreases |cursors|
  {
    if cursors != [] {
      var m := cursors[0];
      ApplyCursorsKeepCells(cursors[1..], if CursorShown(m, confirmedEpoch) then MoveCursor(s, m.row, m.base.col) else s,
                            confirmedEpoch);
    }
  }

  /** And the cursor: it is where the last cursor of a confirmed epoch is, or where it was. */
  lemma ApplyMovesCursor(e: Engine, s: View, flag: bool, k: nat)
    requires Ready(e, s) && Tidy(e.overlays)
    requires k <= |e.cursors| && forall i :: k <= i < |e.cursors| ==> !CursorShown(e.cursors[i], e.confirmedEpoch)
    requires k > 0 ==> CursorShown(e.cursors[k - 1], e.confirmedEpoch)
    ensures var s' := Apply(e, s, true, flag);
      (s'.row, s'.col) == if k == 0 then (s.row, s.col) else (e.cursors[k - 1].row, e.cursors[k - 1].base.col)
  {
    ApplyRowsAt(e.overlays, s, e.confirmedEpoch, flag, 0, 0);
    ApplyCursorsIs(e.cursors, ApplyRows(e.overlays, s, e.confirmedEpoch, flag), e.confirmedEpoch, k);
  }

  // ---------------------------------------------------------------- from the keystroke to its confirmation

  /** The character that was typed, as a prediction of `e'`. */
  lemma TypedIsThere(e: Engine, s: View, chs: string)
    requires Ready(e, s) && Tidy(e.overlays) && !Control(chs) && CursorCol(e, s) < s.width - 1
    ensures var e', row, col := Handle(e, s, Grapheme(chs)), CursorRow(e, s), CursorCol(e, s);
      && 0 <= row < s.height && 0 <= col
      && Ready(e', s) && Tidy(e'.overlays) && OnlyRow(e, e', row, s.width)
      && var c := Before(e', s.width, row, col);
      && c == After(e, e', row, s.width, col)
      && c.base == Overlay(e.localFrameSent + 1, col, true, e.predictionEpoch) && !c.unknown
      && c.replacement.contents == chs && c.replacement.renditions == s.renditions
      && c.originalContents == Remembered(Before(e, s.width, row, col), s.cells[row][col])
  {
    var row, col := CursorRow(e, s), CursorCol(e, s);
    CursorIsOn(e, s);
    CharacterIsPredicted(e, s, chs, col);
    HandleKeepsReady(e, s, Grapheme(chs));
    HandleTidy(e, s, Grapheme(chs));
    SameIndex(e, Handle(e, s, Grapheme(chs)), row, s.width);
    BeforeColumn(e, s.width, row, col);
  }

  lemma BeforeColumn(e: Engine, w: nat, row: int, x: int)
    requires RowsFit(e.overlays, w) && 0 <= x < w
    ensures Before(e, w, row, x).base.col == x
  {
    var a := RowIndex(e.overlays, row);
    if a < |e.overlays| {
      assert RowFits(e.overlays[a], w);
    }
  }

  /** Once its epoch is confirmed, a typed character is shown where the cursor was, whatever the
      terminal of that size shows by then. */
  lemma TypedIsShown(e: Engine, s: View, chs: string, t: View, confirmed: int, flag: bool)
    requires Ready(e, s) && Tidy(e.overlays) && Live(e.cursors) && !Control(chs) && CursorCol(e, s) < s.width - 1
    requires Proper(t) && t.height == s.height && t.width == s.width && confirmed >= e.predictionEpoch
    ensures var e', row, col := Handle(e, s, Grapheme(chs)).(confirmedEpoch := confirmed), CursorRow(e, s), CursorCol(e, s);
      var t' := Apply(e', t, true, flag);
      && Proper(t') && 0 <= row < t'.height && 0 <= col < t'.width
      && t'.cells[row][col].contents == chs && (t'.row, t'.col) == (row, col + 1)
  {
    var e0, row, col := Handle(e, s, Grapheme(chs)), CursorRow(e, s), CursorCol(e, s);
    var e' := e0.(confirmedEpoch := confirmed);
    TypedIsThere(e, s, chs);
    CharacterIsPredicted(e, s, chs, col);
    CharacterCursor(e, s, chs);
    ApplyShows(e', t, flag, row, col);
    ApplyMovesCursor(e', t, flag, |e'.cursors|);
  }

  lemma CharacterCursor(e: Engine, s: View, chs: string)
    requires Ready(e, s) && Live(e.cursors) && !Control(chs) && CursorCol(e, s) < s.width - 1
    ensures var e' := Handle(e, s, Grapheme(chs)); e'.cursors != [] && LastCursor(e').base.active
  {
    InitIs(e, s);
    CharacterSteps(e, s, chs);
  }

  /** The character was echoed: the terminal shows it where it was predicted, and has seen the frame
      it was sent in. */
  predicate Echoed(e: Engine, s: View, chs: string, t: View, ack: int)
    requires Ready(e, s)
  {
    && Proper(t) && t.height == s.height && t.width == s.width && ack >= e.localFrameSent + 1
    && 0 <= CursorRow(e, s) < t.height && 0 <= CursorCol(e, s) < t.width
    && t.cells[CursorRow(e, s)][CursorCol(e, s)].contents == chs
  }

  /** It is never held against the prediction. If it is not blank, nor among what is remembered of the
      cell, and nothing else is refuted, it confirms the epoch it was typed in. */
  lemma EchoConfirms(e: Engine, s: View, chs: string, t: View, ack: int)
    requires Ready(e, s) && Tidy(e.overlays) && !Control(chs) && CursorCol(e, s) < s.width - 1 && Echoed(e, s, chs, t, ack)
    ensures var e', row, col := Handle(e, s, Grapheme(chs)).(localFrameLateAcked := ack), CursorRow(e, s), CursorCol(e, s);
      && Ready(e', t) && !Refuted(Before(e', t.width, row, col), t, row, ack)
      && (chs != "" && chs != " " && chs != "\U{00A0}" && NoneRefuted(e', t)
          && (forall c :: c in Remembered(Before(e, s.width, row, col), s.cells[row][col]) ==> c.contents != chs)
          ==> e.predictionEpoch <= Cull(e', t).confirmedEpoch)
  {
    var e0, row, col := Handle(e, s, Grapheme(chs)), CursorRow(e, s), CursorCol(e, s);
    var e' := e0.(localFrameLateAcked := ack);
    TypedIsThere(e, s, chs);
    var c, a := Before(e', t.width, row, col), RowIndex(e'.overlays, row);
    SameIndex(e, e0, row, s.width);
    assert a < |e'.overlays| && c == Guess(e', a, col);
    if chs != "" && chs != " " && chs != "\U{00A0}" && NoneRefuted(e', t)
       && (forall d :: d in Remembered(Before(e, s.width, row, col), s.cells[row][col]) ==> d.contents != chs) {
      assert Holds(e', a, col, t) && Confirming(c, t, row, ack);
      assert ConfirmingAt(e', t, a, col);
      TextConfirms(e', t, a, col);
    }
  }

  // ---------------------------------------------------------------- a fresh epoch

  /** Nothing is predicted when `chs` is typed, and the terminal answers with it: what was right of the
      cursor moves along, unless characters overwrite, and the cursor is behind the character. */
  predicate AnsweredFresh(e: Engine, s: View, chs: string, t: View, ack: int)
    requires Ready(e, s)
  {
    && e.overlays == [] && e.cursors == [] && !Control(chs) && s.col < s.width - 1
    && chs != "" && chs != " " && chs != "\U{00A0}" && s.cells[s.row][s.col].contents != chs
    && Echoed(e, s, chs, t, ack) && (t.row, t.col) == (s.row, s.col + 1)
    && (forall x :: s.col < x < s.width - 1 && !e.predictOverwrite ==>
          t.cells[s.row][x].contents == s.cells[s.row][x - 1].contents)
  }

  lemma FreshRow(e: Engine, s: View, chs: string, t: View, ack: int, x: int)
    requires Ready(e, s) && AnsweredFresh(e, s, chs, t, ack) && 0 <= x < s.width
    ensures var e' := Handle(e, s, Grapheme(chs));
      && |e'.overlays| == 1 && e'.overlays[0].rowNum == s.row && |e'.overlays[0].overlayCells| == s.width
      && !Refuted(e'.overlays[0].overlayCells[x], t, s.row, ack)
      && (x == s.col ==> Confirming(e'.overlays[0].overlayCells[x], t, s.row, ack))
      && e'.overlays[0].overlayCells[x].base.tentativeUntilEpoch >= e.predictionEpoch
      && |e'.cursors| == 1 && !CursorRefuted(e'.cursors[0], t, ack) && !CursorPending(e'.cursors[0], t, ack)
      && e'.predictionEpoch == e.predictionEpoch
  {
    CharacterIsPredicted(e, s, chs, x);
  }

  lemma SomeIn<T>(xs: seq<T>)
    ensures xs != [] ==> exists x :: x in xs
  {
    if xs != [] {
      assert xs[0] in xs;
    }
  }

  /** What is judged when the answer comes: nothing is refuted, and the character confirms its epoch. */
  lemma FreshAnswer(e: Engine, s: View, chs: string, t: View, ack: int)
    requires Ready(e, s) && AnsweredFresh(e, s, chs, t, ack)
    ensures var e0 := Handle(e, s, Grapheme(chs)).(localFrameLateAcked := ack);
      && Ready(e0, t) && Tidy(e0.overlays) && NoneRefuted(e0, t) && !LastCursorRefuted(e0, t)
      && ConfirmingAt(e0, t, 0, s.col) && Guess(e0, 0, s.col).base.tentativeUntilEpoch >= e.predictionEpoch
      && |e0.cursors| == 1 && !CursorPending(e0.cursors[0], t, ack) && e0.predictionEpoch == e.predictionEpoch
  {
    var e0 := Handle(e, s, Grapheme(chs)).(localFrameLateAcked := ack);
    HandleKeepsReady(e, s, Grapheme(chs));
    HandleTidy(e, s, Grapheme(chs));
    FreshRow(e, s, chs, t, ack, s.col);
    forall a, b | Holds(e0, a, b, t) ensures !Refuted(Guess(e0, a, b), t, e0.overlays[a].rowNum, ack) {
      FreshRow(e, s, chs, t, ack, b);
    }
  }

  /** The answer confirms the epoch, which goes on. */
  lemma FirstEchoConfirms(e: Engine, s: View, chs: string, t: View, ack: int)
    requires Ready(e, s) && AnsweredFresh(e, s, chs, t, ack)
    ensures var e' := Cull(Handle(e, s, Grapheme(chs)).(localFrameLateAcked := ack), t);
      && Ready(e', t) && Tidy(e'.overlays)
      && e'.predictionEpoch == e.predictionEpoch <= e'.confirmedEpoch && e'.cursors == []
  {
    var e0 := Handle(e, s, Grapheme(chs)).(localFrameLateAcked := ack);
    FreshAnswer(e, s, chs, t, ack);
    CullTidy(e0, t);
    CullIsReady(e0, t);
    TextConfirms(e0, t, 0, s.col);
    OnlyDueAreJudged(e0, t, 0, s.col);
    SomeIn(Cull(e0, t).cursors);
  }

  /** The terminal `t` with `chs` at a place, and the cursor behind it. */
  predicate Displayed(t': View, t: View, row: int, col: int, chs: string) {
    && Proper(t') && t'.height == t.height && t'.width == t.width
    && 0 <= row < t.height && 0 <= col < t.width && t'.cells[row][col].contents == chs
    && t'.row == row && t'.col == col + 1
  }

  /** And the next character is shown as soon as it is typed, before the terminal knows of it. */
  lemma NextIsShownAtOnce(e: Engine, s: View, chs: string, t: View, ack: int, next: string, flag: bool)
    requires Ready(e, s) && AnsweredFresh(e, s, chs, t, ack) && !Control(next) && s.col + 1 < s.width - 1
    ensures var e1 := Cull(Handle(e, s, Grapheme(chs)).(localFrameLateAcked := ack), t);
      Ready(e1, t) && Displayed(Apply(Handle(e1, t, Grapheme(next)), t, true, flag), t, s.row, s.col + 1, next)
  {
    FirstEchoConfirms(e, s, chs, t, ack);
    ShownFresh(Cull(Handle(e, s, Grapheme(chs)).(localFrameLateAcked := ack), t), t, next, flag);
  }

  /** Without predicted cursors it is shown at the terminal's own. */
  lemma ShownFresh(e: Engine, s: View, chs: string, flag: bool)
    requires Ready(e, s) && Tidy(e.overlays) && e.cursors == [] && !Control(chs) && s.col < s.width - 1
    requires e.predictionEpoch <= e.confirmedEpoch
    ensures Displayed(Apply(Handle(e, s, Grapheme(chs)), s, true, flag), s, s.row, s.col, chs)
  {
    ShownAtOnce(e, s, chs, flag);
  }

  /** In a confirmed epoch a character is shown as soon as it is typed. */
  lemma ShownAtOnce(e: Engine, s: View, chs: string, flag: bool)
    requires Ready(e, s) && Tidy(e.overlays) && Live(e.cursors) && !Control(chs) && CursorCol(e, s) < s.width - 1
    requires e.predictionEpoch <= e.confirmedEpoch
    ensures Displayed(Apply(Handle(e, s, Grapheme(chs)), s, true, flag), s, CursorRow(e, s), CursorCol(e, s), chs)
  {
    CharacterIsPredicted(e, s, chs, 0);
    TypedIsThere(e, s, chs);
    TypedIsShown(e, s, chs, s, e.confirmedEpoch, flag);
    ApplyShows(Handle(e, s, Grapheme(chs)), s, flag, 0, 0);
  }
}
