/** The prediction engine, updated in place. */
module PredictionEngines {
  import opened Renditions
  import opened Ring
  import opened Overlays
  import opened Culling
  import opened Predictions
  import opened Epochs

  class PredictionEngine {
    var overlays: seq<OverlayRow>
    var cursors: seq<CursorMove>
    var confirmedEpoch: int
    var predictionEpoch: int
    var localFrameSent: int
    var localFrameLateAcked: int
    var lastHeight: int
    var lastWidth: int
    const predictOverwrite: bool

    function View(): Engine
      reads this
    {
      Engine(overlays, cursors, confirmedEpoch, predictionEpoch, localFrameSent, localFrameLateAcked,
             lastHeight, lastWidth, predictOverwrite)
    }

    constructor (predictOverwrite: bool)
      ensures View() == Start(predictOverwrite)
    {
      overlays := [];
      cursors := [];
      predictionEpoch := 1;
      confirmedEpoch := 0;
      localFrameSent := 0;
      localFrameLateAcked := 0;
      lastHeight := 0;
      lastWidth := 0;
      this.predictOverwrite := predictOverwrite;
    }

    method BecomeTentative()
      modifies this`predictionEpoch
      ensures View() == Overlays.BecomeTentative(old(View()))
    {
      predictionEpoch := predictionEpoch + 1;
    }

    method Reset()
      modifies this
      ensures View() == ResetAll(old(View()))
    {
      cursors := [];
      overlays := [];
      BecomeTentative();
    }

    method InitCursor(s: View)
      modifies this`cursors
      ensures View() == Predictions.InitCursor(old(View()), s)
    {
      if |cursors| == 0 {
        cursors := cursors + [NewCursor(View(), s.row, s.col)];
      } else if cursors[|cursors| - 1].base.tentativeUntilEpoch != predictionEpoch {
        var cursor := NewCursor(View(), cursors[|cursors| - 1].row, cursors[|cursors| - 1].base.col);
        cursors := cursors + [cursor];
      }
    }

    method GetOrMakeRow(rowNum: int, nCols: nat) returns (it: nat)
      modifies this`overlays
      ensures (View(), it) == Predictions.GetOrMakeRow(old(View()), rowNum, nCols)
    {
      it := 0;
      while it < |overlays| && overlays[it].rowNum != rowNum
        invariant it <= |overlays| && RowIndex(overlays, rowNum) == it + RowIndex(overlays[it..], rowNum)
      {
        it := it + 1;
      }
      if it == |overlays| {
        overlays := overlays + [NewRow(View(), rowNum, nCols)];
      }
    }

    // ------------------------------------------------------------ judging

    method KillCursors(epoch: int)
      modifies this`cursors
      ensures cursors == EarlierCursors(old(cursors), epoch)
    {
      var kept := [];
      for i := 0 to |cursors|
        invariant cursors == old(cursors)
        invariant kept + EarlierCursors(cursors[i..], epoch) == EarlierCursors(cursors, epoch)
      {
        if Tentative(cursors[i].base, epoch - 1) {
          continue;
        }
        kept := kept + [cursors[i]];
      }
      cursors := kept;
    }

    method KillEpoch(epoch: int, s: View)
      modifies this
      ensures View() == Overlays.KillEpoch(old(View()), epoch, s)
    {
      KillCursors(epoch);
      cursors := cursors + [NewCursor(View(), s.row, s.col)];
      for i := 0 to |overlays|
        invariant View() == old(View()).(cursors := cursors, overlays := overlays)
        invariant cursors == EarlierCursors(old(cursors), epoch) + [NewCursor(old(View()), s.row, s.col)]
        invariant |overlays| == |old(overlays)|
        invariant forall k :: 0 <= k < |overlays| ==> overlays[k] == if k < i then KillRows(old(overlays), epoch)[k] else old(overlays)[k]
      {
        var cells := KillRow(overlays[i].overlayCells, epoch);
        overlays := overlays[i := overlays[i].(overlayCells := cells)];
      }
      assert overlays == KillRows(old(overlays), epoch);
      BecomeTentative();
    }

    method KillRow(cells: seq<OverlayCell>, epoch: int) returns (r: seq<OverlayCell>)
      ensures r == KillCells(cells, epoch)
    {
      r := cells;
      for j := 0 to |cells|
        invariant |r| == |cells|
        invariant forall k :: 0 <= k < |r| ==> r[k] == if k < j then KillCells(cells, epoch)[k] else cells[k]
      {
        if Tentative(r[j].base, epoch - 1) {
          r := r[j := ResetCell(r[j])];
        }
      }
    }

    method Rerendered(cells: seq<OverlayCell>, from: nat, r: Rendition) returns (cells': seq<OverlayCell>)
      requires from <= |cells|
      ensures cells' == Rerender(cells, from, r)
    {
      cells' := cells;
      for k := from to |cells|
        invariant |cells'| == |cells|
        invariant forall m :: 0 <= m < |cells| ==> cells'[m] == if m < k then Rerender(cells, from, r)[m] else cells[m]
      {
        cells' := cells'[k := cells'[k].(replacement := cells'[k].replacement.(renditions := r))];
      }
    }

    method JudgeCell(i: nat, j: nat, s: View) returns (goOn: bool)
      requires Proper(s) && i < |overlays| && j < |overlays[i].overlayCells|
      modifies this
      ensures (View(), goOn) == CullCell(old(View()), i, j, s)
    {
      var row := overlays[i];
      var cell := row.overlayCells[j];
      match CellValidity(cell, s, row.rowNum, localFrameLateAcked) {
        case IncorrectOrExpired =>
          if Tentative(cell.base, confirmedEpoch) {
            KillEpoch(cell.base.tentativeUntilEpoch, s);
          } else {
            Reset();
            return false;
          }
        case Correct =>
          if Tentative(cell.base, confirmedEpoch) {
            confirmedEpoch := cell.base.tentativeUntilEpoch;
          }
          var actualRenditions := GetCell(s, row.rowNum, cell.base.col).renditions;
          var cells := Rerendered(row.overlayCells, j, actualRenditions);
          overlays := overlays[i := row.(overlayCells := cells[j := ResetCell(cells[j])])];
        case CorrectNoCredit =>
          overlays := overlays[i := row.(overlayCells := row.overlayCells[j := ResetCell(cell)])];
        case Pending =>
        case Inactive =>
      }
      return true;
    }

    /** The cells of one row from the first to the last, unless a shown one is wrong. */
    method JudgeRow(i: nat, s: View) returns (goOn: bool)
      requires Proper(s) && i < |overlays| && OnScreen(overlays[i], s)
      modifies this
      ensures goOn ==> |overlays| == |old(overlays)| && CullFrom(View(), i + 1, 0, s) == CullFrom(old(View()), i, 0, s)
      ensures !goOn ==> (View(), false) == CullFrom(old(View()), i, 0, s)
    {
      var j := 0;
      while j < |overlays[i].overlayCells|
        invariant |overlays| == |old(overlays)| && OnScreen(overlays[i], s) && j <= |overlays[i].overlayCells|
        invariant CullFrom(View(), i, j, s) == CullFrom(old(View()), i, 0, s)
        decreases |overlays[i].overlayCells| - j
      {
        ghost var e := View();
        var ok := JudgeCell(i, j, s);
        if !ok {
          return false;
        }
        assert SameRow(e.overlays[i], View().overlays[i]);
        j := j + 1;
      }
      return true;
    }

    method JudgeRows(s: View) returns (goOn: bool)
      requires Proper(s)
      modifies this
      ensures (View(), goOn) == CullFrom(old(View()), 0, 0, s)
    {
      var i := 0;
      while i < |overlays|
        invariant i <= |overlays| == |old(overlays)|
        invariant CullFrom(View(), i, 0, s) == CullFrom(old(View()), 0, 0, s)
      {
        if OnScreen(overlays[i], s) {
          var ok := JudgeRow(i, s);
          if !ok {
            return false;
          }
        }
        i := i + 1;
      }
      return true;
    }

    method Cull(s: View)
      requires Proper(s)
      modifies this
      ensures View() == Culling.Cull(old(View()), s)
    {
      if lastHeight != s.height || lastWidth != s.width {
        lastHeight := s.height;
        lastWidth := s.width;
        Reset();
      }
      assert View() == Resized(old(View()), s);
      var goOn := JudgeRows(s);
      if !goOn {
        return;
      }
      DropRows(s);
      JudgeCursors(s);
    }

    /** Rows that are off the screen. */
    method DropRows(s: View)
      modifies this`overlays
      ensures overlays == ScreenRows(old(overlays), s)
    {
      var kept := [];
      for i := 0 to |overlays|
        invariant overlays == old(overlays)
        invariant kept + ScreenRows(overlays[i..], s) == ScreenRows(overlays, s)
      {
        if overlays[i].rowNum < 0 || overlays[i].rowNum >= s.height {
          continue;
        }
        kept := kept + [overlays[i]];
      }
      overlays := kept;
    }

    method JudgeCursors(s: View)
      modifies this
      ensures View() == CullCursors(old(View()), s)
    {
      if |cursors| > 0 && CursorValidity(cursors[|cursors| - 1], s, localFrameLateAcked) == IncorrectOrExpired {
        Reset();
        return;
      }
      DropJudged(s);
    }

    /** Cursors that are not pending. */
    method DropJudged(s: View)
      modifies this`cursors
      ensures cursors == PendingCursors(old(cursors), s, localFrameLateAcked)
    {
      var kept := [];
      for i := 0 to |cursors|
        invariant cursors == old(cursors)
        invariant kept + PendingCursors(cursors[i..], s, localFrameLateAcked) == PendingCursors(cursors, s, localFrameLateAcked)
      {
        if CursorValidity(cursors[i], s, localFrameLateAcked) != Pending {
          continue;
        } else {
          kept := kept + [cursors[i]];
        }
      }
      cursors := kept;
    }

    // ------------------------------------------------------------ typing

    method NewlineCarriageReturn(s: View)
      requires Proper(s)
      modifies this
      ensures View() == Predictions.NewlineCarriageReturn(old(View()), s)
    {
      InitCursor(s);
      var back := |cursors| - 1;
      cursors := cursors[back := cursors[back].(base := cursors[back].base.(col := 0))];
      if cursors[back].row == s.height - 1 {
        var it := GetOrMakeRow(cursors[back].row, s.width);
        var cells := overlays[it].overlayCells;
        for i := 0 to |overlays[it].overlayCells|
          invariant |cells| == |overlays[it].overlayCells|
          invariant forall k :: 0 <= k < |cells| ==>
            cells[k] == (if k < i then BlankCells(View(), overlays[it].overlayCells)[k] else overlays[it].overlayCells[k])
        {
          cells := cells[i := Predict(View(), cells[i]).(replacement := cells[i].replacement.(contents := ""))];
        }
        assert cells == BlankCells(View(), overlays[it].overlayCells);
        overlays := overlays[it := overlays[it].(overlayCells := cells)];
      } else {
        cursors := cursors[back := cursors[back].(row := cursors[back].row + 1)];
      }
    }

    /** Insert in reverse order, then put the character at the cursor. */
    method TypeAtCursor(s: View, m: CursorMove, chs: string)
      requires Proper(s) && RowsFit(overlays, s.width) && 0 <= m.base.col < s.width
      modifies this`overlays
      ensures View() == Type(old(View()), s, m, chs)
    {
      var it := GetOrMakeRow(m.row, s.width);
      ghost var e := View();
      assert RowFits(overlays[it], s.width);
      var col := m.base.col;
      var was := overlays[it].overlayCells;
      var cells := was;
      var rightMostColumn := if predictOverwrite then col else s.width - 1;
      var i := rightMostColumn;
      while i > col
        invariant col <= i <= rightMostColumn && |cells| == |was|
        invariant forall k :: 0 <= k < |cells| ==>
          cells[k] == if k > i then TypedCell(e, s, m.row, was, col, chs, k) else was[k]
      {
        cells := cells[i := Pushed(View(), s, m.row, cells, i)];
        i := i - 1;
      }
      cells := cells[col := Typed(View(), s, m.row, cells, col, chs)];
      assert cells == TypedRow(e, s, m.row, was, col, chs);
      overlays := overlays[it := overlays[it].(overlayCells := cells)];
    }

    method HandleUserGrapheme(s: View, chs: string)
      requires Ready(View(), s)
      modifies this
      ensures View() == Predictions.HandleUserGrapheme(old(View()), s, chs)
    {
      InitCursor(s);
      if |chs| == 1 && (chs[0] == '\U{7F}' || chs[0] < ' ') {
        BecomeTentative();
        return;
      }
      var m := cursors[|cursors| - 1];
      if m.base.col + 1 >= s.width {
        BecomeTentative();
      }
      TypeAtCursor(s, m, chs);
      AdvanceCursor(s, m);
    }

    method AdvanceCursor(s: View, m: CursorMove)
      requires Proper(s) && cursors != []
      modifies this
      ensures View() == Advance(old(View()), s, m)
    {
      var back := |cursors| - 1;
      if m.base.col < s.width - 1 {
        cursors := cursors[back := MoveTo(Expire(View(), m), m.base.col + 1)];
      } else {
        cursors := cursors[back := Expire(View(), m)];
        BecomeTentative();
        NewlineCarriageReturn(s);
      }
    }

    method MoveCursor(s: View, right: bool)
      requires Ready(View(), s)
      modifies this
      ensures View() == Arrow(old(View()), s, right)
    {
      InitCursor(s);
      var back := |cursors| - 1;
      var m := cursors[back];
      if right && m.base.col < s.width - 1 {
        var _ := GetOrMakeRow(m.row, s.width);
        cursors := cursors[back := Expire(View(), MoveTo(m, m.base.col + 1))];
      } else if !right && m.base.col > 0 {
        var _ := GetOrMakeRow(m.row, s.width);
        cursors := cursors[back := Expire(View(), MoveTo(m, m.base.col - 1))];
      }
    }

    /** The previous predictions are judged before the key makes new ones. */
    method NewUserInput(s: View, key: Key)
      requires Proper(s) && Laid(View())
      modifies this
      ensures Laid(View()) && View() == Next(old(View()), Input(s, key))
    {
      NextLaid(View(), Input(s, key));
      CullIsReady(View(), s);
      Cull(s);
      match key {
        case Grapheme(chs) => HandleUserGrapheme(s, chs);
        case Return => BecomeTentative(); NewlineCarriageReturn(s);
        case RightArrow => MoveCursor(s, true);
        case LeftArrow => MoveCursor(s, false);
        case OtherControl => BecomeTentative();
      }
    }

    // ------------------------------------------------------------ showing

    method Apply(s: View, on: bool, flag: bool) returns (s': View)
      requires Proper(s)
      ensures s' == Epochs.Apply(View(), s, on, flag)
    {
      s' := s;
      if !on {
        return;
      }
      for i := 0 to |overlays|
        invariant Proper(s')
        invariant ApplyRows(overlays[i..], s', confirmedEpoch, flag) == ApplyRows(overlays, s, confirmedEpoch, flag)
      {
        var row := overlays[i];
        ghost var before := s';
        for j := 0 to |row.overlayCells|
          invariant Proper(s')
          invariant ApplyCells(row.overlayCells[j..], s', confirmedEpoch, row.rowNum, flag)
                 == ApplyCells(row.overlayCells, before, confirmedEpoch, row.rowNum, flag)
        {
          s' := ApplyCell(row.overlayCells[j], s', confirmedEpoch, row.rowNum, flag);
        }
        assert overlays[i..][1..] == overlays[i + 1..];
      }
      ghost var shown := s';
      for i := 0 to |cursors|
        invariant Proper(s')
        invariant ApplyCursors(cursors[i..], s', confirmedEpoch) == ApplyCursors(cursors, shown, confirmedEpoch)
      {
        var m := cursors[i];
        if m.base.active && !Tentative(m.base, confirmedEpoch) {
          s' := Overlays.MoveCursor(s', m.row, m.base.col);
        }
        assert cursors[i..][1..] == cursors[i + 1..];
      }
    }
  }
}
