/** What judging concludes from the text of the terminal: which epochs it confirms, what it throws
    away, and what it leaves. */
module Verdicts {
  import opened Renditions
  import opened Ring
  import opened Overlays
  import opened Culling
  import opened Predictions

  /** There is a cell `b` in row `a`, and that row is on the screen. */
  predicate Holds(e: Engine, a: int, b: int, s: View) {
    0 <= a < |e.overlays| && 0 <= b < |e.overlays[a].overlayCells| && OnScreen(e.overlays[a], s)
  }

  function Guess(e: Engine, a: int, b: int): OverlayCell
    requires 0 <= a < |e.overlays| && 0 <= b < |e.overlays[a].overlayCells|
  {
    e.overlays[a].overlayCells[b]
  }

  /** The terminal shows the predicted text, and no text the cell had before is that text. */
  predicate Confirming(c: OverlayCell, s: View, row: int, lateAck: int)
    requires Proper(s) && 0 <= row < s.height
  {
    && Telling(c, lateAck) && 0 <= c.base.col < s.width
    && s.cells[row][c.base.col].contents == c.replacement.contents
    && forall i :: 0 <= i < |c.originalContents| ==> c.originalContents[i].contents != c.replacement.contents
  }

  ghost predicate RefutedAt(e: Engine, s: View, a: int, b: int)
    requires Proper(s)
  {
    Holds(e, a, b, s) && Refuted(Guess(e, a, b), s, e.overlays[a].rowNum, e.localFrameLateAcked)
  }

  ghost predicate ConfirmingAt(e: Engine, s: View, a: int, b: int)
    requires Proper(s)
  {
    Holds(e, a, b, s) && Confirming(Guess(e, a, b), s, e.overlays[a].rowNum, e.localFrameLateAcked)
  }

  lemma ConfirmingIsCorrect(c: OverlayCell, s: View, row: int, lateAck: int)
    requires Proper(s) && 0 <= row < s.height && 0 <= c.base.col
    ensures Confirming(c, s, row, lateAck) <==> CellValidity(c, s, row, lateAck).Correct?
  {
  }

  /** The same prediction, up to the renditions it would be shown in. */
  predicate Alike(c: OverlayCell, c': OverlayCell) {
    c' == c.(replacement := c.replacement.(renditions := c'.replacement.renditions))
  }

  lemma AlikeSame(c: OverlayCell, c': OverlayCell, s: View, row: int, lateAck: int)
    requires Proper(s) && 0 <= row < s.height && Alike(c, c')
    ensures Refuted(c', s, row, lateAck) <==> Refuted(c, s, row, lateAck)
    ensures Confirming(c', s, row, lateAck) <==> Confirming(c, s, row, lateAck)
  {
  }

  /** No prediction any more, and nothing remembered of one. */
  predicate Gone(c: OverlayCell) {
    !c.base.active && !c.unknown && c.originalContents == []
  }

  /** All columns are those of the screen or right of it. */
  ghost predicate Columns(e: Engine) {
    forall a, b :: 0 <= a < |e.overlays| && 0 <= b < |e.overlays[a].overlayCells| ==> 0 <= Guess(e, a, b).base.col
  }

  ghost predicate InRange(e: Engine, i: int, j: int) {
    0 <= i <= |e.overlays| && 0 <= j && (i < |e.overlays| ==> j <= |e.overlays[i].overlayCells|)
  }

  /** Cell `b` of row `a` comes at cell `j` of row `i` or after it. */
  predicate From(a: int, b: int, i: int, j: int) {
    a > i || (a == i && b >= j)
  }

  // ---------------------------------------------------------------- one cell

  /** A confirmed cell is cleared, and the rest of its row takes on the renditions the terminal shows. */
  lemma ConfirmLeaves(e: Engine, i: int, j: int, s: View, a: int, b: int)
    requires Proper(s) && Holds(e, i, j, s) && 0 <= a < |e.overlays| && 0 <= b < |e.overlays[a].overlayCells|
    ensures var e' := Confirm(e, i, j, s);
      var c, c' := Guess(e, a, b), e'.overlays[a].overlayCells[b];
      && e' == e.(overlays := e'.overlays, confirmedEpoch := e'.confirmedEpoch) && SameLayout(e, e')
      && c'.replacement.renditions ==
           (if a == i && b >= j then GetCell(s, e.overlays[i].rowNum, Guess(e, i, j).base.col).renditions
            else c.replacement.renditions)
      && (if a == i && b == j then Gone(c') && c'.base.col == c.base.col else Alike(c, c'))
  {
  }

  lemma ClearLeaves(e: Engine, i: int, j: int, s: View, a: int, b: int)
    requires Holds(e, i, j, s) && 0 <= a < |e.overlays| && 0 <= b < |e.overlays[a].overlayCells|
    ensures var e' := WithCells(e, i, e.overlays[i].overlayCells[j := ResetCell(Guess(e, i, j))]);
      var c, c' := Guess(e, a, b), e'.overlays[a].overlayCells[b];
      && e' == e.(overlays := e'.overlays) && SameLayout(e, e') && c'.replacement == c.replacement
      && (if a == i && b == j then Gone(c') && c'.base.col == c.base.col else c' == c)
  {
  }

  lemma KillLeaves(e: Engine, epoch: int, s: View, a: int, b: int)
    requires 0 <= a < |e.overlays| && 0 <= b < |e.overlays[a].overlayCells|
    ensures var e' := KillEpoch(e, epoch, s);
      var c, c' := Guess(e, a, b), e'.overlays[a].overlayCells[b];
      && SameLayout(e, e') && e'.localFrameLateAcked == e.localFrameLateAcked && e'.localFrameSent == e.localFrameSent
      && (if c.base.tentativeUntilEpoch >= epoch then Gone(c') && c'.base.col == c.base.col else c' == c)
  {
  }

  /** Any cell after one was judged: as it was, or no prediction any more. */
  lemma CullCellLeaves(e: Engine, i: int, j: int, s: View, a: int, b: int)
    requires Proper(s) && Holds(e, i, j, s) && 0 <= a < |e.overlays| && 0 <= b < |e.overlays[a].overlayCells|
    requires CullCell(e, i, j, s).1
    ensures var e' := CullCell(e, i, j, s).0;
      && SameLayout(e, e') && SameRow(e.overlays[a], e'.overlays[a])
      && e'.localFrameLateAcked == e.localFrameLateAcked && e'.localFrameSent == e.localFrameSent
      && (Alike(Guess(e, a, b), Guess(e', a, b))
          || (Gone(Guess(e', a, b)) && Guess(e', a, b).base.col == Guess(e, a, b).base.col))
  {
    ConfirmLeaves(e, i, j, s, a, b);
    ClearLeaves(e, i, j, s, a, b);
    KillLeaves(e, Guess(e, i, j).base.tentativeUntilEpoch, s, a, b);
  }

  lemma CullCellColumns(e: Engine, i: int, j: int, s: View)
    requires Proper(s) && Holds(e, i, j, s) && Columns(e) && CullCell(e, i, j, s).1
    ensures Columns(CullCell(e, i, j, s).0)
  {
    var e' := CullCell(e, i, j, s).0;
    forall a, b | 0 <= a < |e'.overlays| && 0 <= b < |e'.overlays[a].overlayCells|
      ensures 0 <= Guess(e', a, b).base.col
    {
      assert SameRow(e.overlays[a], e'.overlays[a]);
      CullCellLeaves(e, i, j, s, a, b);
    }
  }

  // ---------------------------------------------------------------- nothing else confirms

  lemma ConfirmingBefore(e: Engine, i: int, j: int, s: View, a: int, b: int)
    requires Proper(s) && Holds(e, i, j, s) && CullCell(e, i, j, s).1
    requires ConfirmingAt(CullCell(e, i, j, s).0, s, a, b)
    ensures ConfirmingAt(e, s, a, b)
    ensures Guess(CullCell(e, i, j, s).0, a, b).base.tentativeUntilEpoch == Guess(e, a, b).base.tentativeUntilEpoch
  {
    var e' := CullCell(e, i, j, s).0;
    assert SameLayout(e, e') && SameRow(e.overlays[a], e'.overlays[a]);
    CullCellLeaves(e, i, j, s, a, b);
    AlikeSame(Guess(e, a, b), Guess(e', a, b), s, e.overlays[a].rowNum, e.localFrameLateAcked);
  }

  ghost predicate ConfirmedBy(e: Engine, s: View, epoch: int)
    requires Proper(s)
  {
    exists a, b :: ConfirmingAt(e, s, a, b) && Guess(e, a, b).base.tentativeUntilEpoch == epoch
  }

  lemma {:induction false} CullFromConfirms(e: Engine, i: int, j: int, s: View)
    requires Proper(s) && InRange(e, i, j) && Columns(e)
    ensures var epoch := CullFrom(e, i, j, s).0.confirmedEpoch;
      epoch == e.confirmedEpoch || ConfirmedBy(e, s, epoch)
    decreases |e.overlays| - i, if i < |e.overlays| then |e.overlays[i].overlayCells| - j else 0
  {
    if i < |e.overlays| {
      if !OnScreen(e.overlays[i], s) || j == |e.overlays[i].overlayCells| {
        CullFromConfirms(e, i + 1, 0, s);
      } else {
        var (e', goOn) := CullCell(e, i, j, s);
        assert Holds(e, i, j, s);
        CullCellConfirms(e, i, j, s);
        if goOn {
          CullCellColumns(e, i, j, s);
          assert SameRow(e.overlays[i], e'.overlays[i]);
          CullFromConfirms(e', i, j + 1, s);
          ConfirmedByBefore(e, i, j, s, CullFrom(e, i, j, s).0.confirmedEpoch);
        }
      }
    }
  }

  lemma CullCellConfirms(e: Engine, i: int, j: int, s: View)
    requires Proper(s) && Holds(e, i, j, s) && Columns(e)
    ensures var epoch := CullCell(e, i, j, s).0.confirmedEpoch;
      epoch == e.confirmedEpoch || ConfirmedBy(e, s, epoch)
    ensures ConfirmingAt(e, s, i, j) ==>
      CullCell(e, i, j, s).1 && CullCell(e, i, j, s).0.confirmedEpoch >= Guess(e, i, j).base.tentativeUntilEpoch
    ensures CullCell(e, i, j, s).0.confirmedEpoch >= e.confirmedEpoch
    ensures CullCell(e, i, j, s).0.predictionEpoch >= e.predictionEpoch
    ensures !CullCell(e, i, j, s).1 ==> CullCell(e, i, j, s).0.predictionEpoch > e.predictionEpoch
  {
    assert 0 <= Guess(e, i, j).base.col;
    ConfirmingIsCorrect(Guess(e, i, j), s, e.overlays[i].rowNum, e.localFrameLateAcked);
    if CellValidity(Guess(e, i, j), s, e.overlays[i].rowNum, e.localFrameLateAcked).Correct? {
      assert ConfirmingAt(e, s, i, j);
    }
  }

  lemma ConfirmedByBefore(e: Engine, i: int, j: int, s: View, epoch: int)
    requires Proper(s) && Holds(e, i, j, s) && CullCell(e, i, j, s).1
    ensures ConfirmedBy(CullCell(e, i, j, s).0, s, epoch) ==> ConfirmedBy(e, s, epoch)
  {
    var e' := CullCell(e, i, j, s).0;
    if ConfirmedBy(e', s, epoch) {
      var a, b :| ConfirmingAt(e', s, a, b) && Guess(e', a, b).base.tentativeUntilEpoch == epoch;
      ConfirmingBefore(e, i, j, s, a, b);
      assert ConfirmingAt(e, s, a, b) && Guess(e, a, b).base.tentativeUntilEpoch == epoch;
    }
  }

  lemma LaidColumns(e: Engine, s: View)
    requires Laid(e)
    ensures Columns(Resized(e, s))
  {
    forall a, b | 0 <= a < |e.overlays| && 0 <= b < |e.overlays[a].overlayCells| ensures 0 <= Guess(e, a, b).base.col {
      assert RowFits(e.overlays[a], e.lastWidth);
    }
  }

  /** Judging confirms no epoch but that of a due prediction whose text the terminal shows, where it
      was not before: blank and unknown ones confirm nothing, nor those that match what was there. */
  lemma OnlyTextConfirms(e: Engine, s: View)
    requires Proper(s) && Laid(e)
    ensures var epoch := Cull(e, s).confirmedEpoch; epoch == e.confirmedEpoch || ConfirmedBy(e, s, epoch)
  {
    LaidColumns(e, s);
    CullFromConfirms(Resized(e, s), 0, 0, s);
  }

  // ---------------------------------------------------------------- when nothing is refuted

  ghost predicate NoneRefuted(e: Engine, s: View)
    requires Proper(s)
  {
    forall a, b :: Holds(e, a, b, s) ==> !Refuted(Guess(e, a, b), s, e.overlays[a].rowNum, e.localFrameLateAcked)
  }

  predicate Due(c: OverlayCell, lateAck: int) {
    c.base.active && lateAck >= c.base.expirationFrame
  }

  lemma CullCellAlone(e: Engine, i: int, j: int, s: View, a: int, b: int)
    requires Proper(s) && Holds(e, i, j, s) && Columns(e)
    requires !Refuted(Guess(e, i, j), s, e.overlays[i].rowNum, e.localFrameLateAcked)
    requires 0 <= a < |e.overlays| && 0 <= b < |e.overlays[a].overlayCells|
    ensures var (e', goOn) := CullCell(e, i, j, s);
      && goOn && SameLayout(e, e') && SameRow(e.overlays[a], e'.overlays[a])
      && e' == e.(overlays := e'.overlays, confirmedEpoch := e'.confirmedEpoch)
      && if a == i && b == j && Due(Guess(e, a, b), e.localFrameLateAcked) then Gone(Guess(e', a, b))
         else Alike(Guess(e, a, b), Guess(e', a, b))
  {
    RefutedIsWrong(Guess(e, i, j), s, e.overlays[i].rowNum, e.localFrameLateAcked);
    ConfirmLeaves(e, i, j, s, a, b);
    ClearLeaves(e, i, j, s, a, b);
  }

  lemma StillNoneRefuted(e: Engine, i: int, j: int, s: View)
    requires Proper(s) && Holds(e, i, j, s) && Columns(e) && NoneRefuted(e, s)
    ensures NoneRefuted(CullCell(e, i, j, s).0, s)
  {
    var e' := CullCell(e, i, j, s).0;
    CullCellAlone(e, i, j, s, i, j);
    forall a, b | Holds(e', a, b, s)
      ensures !Refuted(Guess(e', a, b), s, e'.overlays[a].rowNum, e'.localFrameLateAcked)
    {
      assert SameRow(e.overlays[a], e'.overlays[a]) && Holds(e, a, b, s);
      CullCellAlone(e, i, j, s, a, b);
      AlikeSame(Guess(e, a, b), if Alike(Guess(e, a, b), Guess(e', a, b)) then Guess(e', a, b) else Guess(e, a, b),
                s, e.overlays[a].rowNum, e.localFrameLateAcked);
    }
  }

  /** One cell judged, when nothing is refuted: judging goes on, and nothing is refuted then either. */
  lemma AloneStep(e: Engine, i: int, j: int, s: View, a: int, b: int)
    requires Proper(s) && Holds(e, i, j, s) && Columns(e) && NoneRefuted(e, s)
    requires 0 <= a < |e.overlays| && 0 <= b < |e.overlays[a].overlayCells|
    ensures var (e', goOn) := CullCell(e, i, j, s);
      && goOn && InRange(e', i, j + 1) && Columns(e') && NoneRefuted(e', s)
      && |e'.overlays| == |e.overlays| && |e'.overlays[i].overlayCells| == |e.overlays[i].overlayCells|
      && SameRow(e.overlays[a], e'.overlays[a])
      && e' == e.(overlays := e'.overlays, confirmedEpoch := e'.confirmedEpoch)
  {
    CullCellAlone(e, i, j, s, a, b);
    CullCellColumns(e, i, j, s);
    StillNoneRefuted(e, i, j, s);
    assert SameRow(e.overlays[i], CullCell(e, i, j, s).0.overlays[i]);
  }

  /** Another cell that will confirm its epoch still does. */
  lemma StillConfirming(e: Engine, i: int, j: int, s: View, a: int, b: int)
    requires Proper(s) && Holds(e, i, j, s) && Columns(e) && NoneRefuted(e, s)
    requires ConfirmingAt(e, s, a, b) && (a != i || b != j)
    ensures var e' := CullCell(e, i, j, s).0;
      ConfirmingAt(e', s, a, b) && Alike(Guess(e, a, b), Guess(e', a, b))
  {
    CullCellAlone(e, i, j, s, a, b);
    AlikeSame(Guess(e, a, b), Guess(CullCell(e, i, j, s).0, a, b), s, e.overlays[a].rowNum, e.localFrameLateAcked);
  }

  /** What becomes of cell `b` of row `a` from cell `j` of row `i` on. */
  lemma {:induction false} CullFromAlone(e: Engine, i: int, j: int, s: View, a: int, b: int)
    requires Proper(s) && InRange(e, i, j) && Columns(e) && NoneRefuted(e, s)
    requires 0 <= a < |e.overlays| && 0 <= b < |e.overlays[a].overlayCells|
    ensures var (e', goOn) := CullFrom(e, i, j, s);
      && goOn && |e'.overlays| == |e.overlays| && SameRow(e.overlays[a], e'.overlays[a])
      && e' == e.(overlays := e'.overlays, confirmedEpoch := e'.confirmedEpoch)
      && (if OnScreen(e.overlays[a], s) && From(a, b, i, j) && Due(Guess(e, a, b), e.localFrameLateAcked)
          then Gone(Guess(e', a, b)) else Alike(Guess(e, a, b), Guess(e', a, b)))
    decreases |e.overlays| - i, if i < |e.overlays| then |e.overlays[i].overlayCells| - j else 0
  {
    if i < |e.overlays| {
      if !OnScreen(e.overlays[i], s) || j == |e.overlays[i].overlayCells| {
        CullFromAlone(e, i + 1, 0, s, a, b);
      } else {
        var e1 := CullCell(e, i, j, s).0;
        assert Holds(e, i, j, s);
        AloneStep(e, i, j, s, a, b);
        CullCellAlone(e, i, j, s, a, b);
        CullFromAlone(e1, i, j + 1, s, a, b);
      }
    }
  }

  /** And its epoch, if it confirms that. */
  lemma {:induction false} CullFromCredits(e: Engine, i: int, j: int, s: View, a: int, b: int)
    requires Proper(s) && InRange(e, i, j) && Columns(e) && NoneRefuted(e, s)
    requires From(a, b, i, j) && ConfirmingAt(e, s, a, b)
    ensures Guess(e, a, b).base.tentativeUntilEpoch <= CullFrom(e, i, j, s).0.confirmedEpoch
    decreases |e.overlays| - i, if i < |e.overlays| then |e.overlays[i].overlayCells| - j else 0
  {
    if !OnScreen(e.overlays[i], s) || j == |e.overlays[i].overlayCells| {
      CullFromCredits(e, i + 1, 0, s, a, b);
    } else {
      assert Holds(e, i, j, s);
      AloneStep(e, i, j, s, a, b);
      CullCellConfirms(e, i, j, s);
      if a == i && b == j {
        CullFromGoesOn(CullCell(e, i, j, s).0, i, j + 1, s);
      } else {
        StillConfirming(e, i, j, s, a, b);
        CullFromCredits(CullCell(e, i, j, s).0, i, j + 1, s, a, b);
      }
    }
  }

  lemma {:induction false} CullFromGoesOn(e: Engine, i: int, j: int, s: View)
    requires Proper(s) && InRange(e, i, j) && Columns(e)
    ensures e.confirmedEpoch <= CullFrom(e, i, j, s).0.confirmedEpoch
    ensures e.predictionEpoch <= CullFrom(e, i, j, s).0.predictionEpoch
    decreases |e.overlays| - i, if i < |e.overlays| then |e.overlays[i].overlayCells| - j else 0
  {
    if i < |e.overlays| {
      if !OnScreen(e.overlays[i], s) || j == |e.overlays[i].overlayCells| {
        CullFromGoesOn(e, i + 1, 0, s);
      } else {
        var (e1, goOn) := CullCell(e, i, j, s);
        assert Holds(e, i, j, s);
        CullCellConfirms(e, i, j, s);
        if goOn {
          CullCellColumns(e, i, j, s);
          assert SameRow(e.overlays[i], e1.overlays[i]);
          CullFromGoesOn(e1, i, j + 1, s);
        }
      }
    }
  }

  // ---------------------------------------------------------------- renditions

  /** No cell of row `a` from column `from` to `b`, and judged from (i, j) on, is confirmed. */
  ghost predicate NoneConfirms(e: Engine, s: View, a: int, b: int, i: int, j: int)
    requires Proper(s)
  {
    forall k :: k <= b && From(a, k, i, j) ==> !ConfirmingAt(e, s, a, k)
  }

  lemma NoneConfirmsNext(e: Engine, i: int, j: int, s: View, a: int, b: int, i1: int, j1: int)
    requires Proper(s) && Holds(e, i, j, s) && CullCell(e, i, j, s).1 && NoneConfirms(e, s, a, b, i1, j1)
    ensures NoneConfirms(CullCell(e, i, j, s).0, s, a, b, i1, j1) && NoneConfirms(CullCell(e, i, j, s).0, s, a, b, i1, j1 + 1)
  {
    var e' := CullCell(e, i, j, s).0;
    forall k | k <= b && From(a, k, i1, j1) ensures !ConfirmingAt(e', s, a, k) {
      if ConfirmingAt(e', s, a, k) {
        ConfirmingBefore(e, i, j, s, a, k);
        assert false;
      }
    }
  }

  /** A prediction keeps its renditions unless a cell left of it in the row, or it itself, is confirmed. */
  lemma {:induction false} CullFromRenders(e: Engine, i: int, j: int, s: View, a: int, b: int)
    requires Proper(s) && InRange(e, i, j) && Columns(e) && NoneRefuted(e, s) && NoneConfirms(e, s, a, b, i, j)
    requires 0 <= a < |e.overlays| && 0 <= b < |e.overlays[a].overlayCells|
    ensures var e' := CullFrom(e, i, j, s).0;
      && |e'.overlays| == |e.overlays| && SameRow(e.overlays[a], e'.overlays[a])
      && Guess(e', a, b).replacement == Guess(e, a, b).replacement
    decreases |e.overlays| - i, if i < |e.overlays| then |e.overlays[i].overlayCells| - j else 0
  {
    if i < |e.overlays| {
      if !OnScreen(e.overlays[i], s) || j == |e.overlays[i].overlayCells| {
        assert NoneConfirms(e, s, a, b, i + 1, 0);
        CullFromRenders(e, i + 1, 0, s, a, b);
      } else {
        assert Holds(e, i, j, s);
        AloneStep(e, i, j, s, a, b);
        NoneConfirmsNext(e, i, j, s, a, b, i, j);
        CullCellRenders(e, i, j, s, a, b);
        CullFromRenders(CullCell(e, i, j, s).0, i, j + 1, s, a, b);
      }
    }
  }

  lemma CullCellRenders(e: Engine, i: int, j: int, s: View, a: int, b: int)
    requires Proper(s) && Holds(e, i, j, s) && Columns(e)
    requires !Refuted(Guess(e, i, j), s, e.overlays[i].rowNum, e.localFrameLateAcked)
    requires 0 <= a < |e.overlays| && 0 <= b < |e.overlays[a].overlayCells|
    ensures var e' := CullCell(e, i, j, s).0;
      && |e'.overlays| == |e.overlays| && SameRow(e.overlays[a], e'.overlays[a])
      && Guess(e', a, b).replacement == Guess(e, a, b).replacement.(renditions := Guess(e', a, b).replacement.renditions)
      && Guess(e', a, b).replacement.renditions ==
           if a == i && b >= j && ConfirmingAt(e, s, i, j) then s.cells[e.overlays[i].rowNum][Guess(e, i, j).base.col].renditions
           else Guess(e, a, b).replacement.renditions
  {
    RefutedIsWrong(Guess(e, i, j), s, e.overlays[i].rowNum, e.localFrameLateAcked);
    ConfirmingIsCorrect(Guess(e, i, j), s, e.overlays[i].rowNum, e.localFrameLateAcked);
    ConfirmLeaves(e, i, j, s, a, b);
    ClearLeaves(e, i, j, s, a, b);
  }

  /** One cell judged before the confirmed one. */
  lemma RerenderStep(e: Engine, i: int, j: int, s: View, a: int, b: int, at: int)
    requires Proper(s) && Holds(e, i, j, s) && Columns(e) && NoneRefuted(e, s)
    requires 0 <= a < |e.overlays| && 0 <= at <= b < |e.overlays[a].overlayCells| && (a != i || at != j)
    requires From(a, at, i, j) && ConfirmingAt(e, s, a, at) && NoneConfirms(e, s, a, b, a, at + 1)
    ensures var e' := CullCell(e, i, j, s).0;
      && From(a, at, i, j + 1) && ConfirmingAt(e', s, a, at) && NoneConfirms(e', s, a, b, a, at + 1)
      && e'.overlays[a].rowNum == e.overlays[a].rowNum && Guess(e', a, at).base.col == Guess(e, a, at).base.col
  {
    AloneStep(e, i, j, s, a, b);
    NoneConfirmsNext(e, i, j, s, a, b, a, at + 1);
    StillConfirming(e, i, j, s, a, at);
  }

  /** After a confirmed cell it takes on the renditions the terminal shows there. */
  lemma {:induction false} CullFromRerenders(e: Engine, i: int, j: int, s: View, a: int, b: int, at: int)
    requires Proper(s) && InRange(e, i, j) && Columns(e) && NoneRefuted(e, s)
    requires 0 <= a < |e.overlays| && 0 <= at <= b < |e.overlays[a].overlayCells|
    requires From(a, at, i, j) && ConfirmingAt(e, s, a, at) && NoneConfirms(e, s, a, b, a, at + 1)
    ensures var e' := CullFrom(e, i, j, s).0;
      && |e'.overlays| == |e.overlays| && SameRow(e.overlays[a], e'.overlays[a])
      && Guess(e', a, b).replacement.renditions == s.cells[e.overlays[a].rowNum][Guess(e, a, at).base.col].renditions
    decreases |e.overlays| - i, if i < |e.overlays| then |e.overlays[i].overlayCells| - j else 0
  {
    if !OnScreen(e.overlays[i], s) || j == |e.overlays[i].overlayCells| {
      CullFromRerenders(e, i + 1, 0, s, a, b, at);
    } else {
      var e1 := CullCell(e, i, j, s).0;
      assert Holds(e, i, j, s);
      AloneStep(e, i, j, s, a, b);
      if a == i && at == j {
        CullCellRenders(e, i, j, s, a, b);
        NoneConfirmsNext(e, i, j, s, a, b, a, at + 1);
        CullFromRenders(e1, i, j + 1, s, a, b);
      } else {
        RerenderStep(e, i, j, s, a, b, at);
        CullFromRerenders(e1, i, j + 1, s, a, b, at);
      }
    }
  }

  // ---------------------------------------------------------------- when one is refuted

  /** No prediction of `epoch` or a later one is left, but for cursors at the terminal's own. */
  ghost predicate Cleared(e: Engine, epoch: int, s: View) {
    && (forall a, b :: 0 <= a < |e.overlays| && 0 <= b < |e.overlays[a].overlayCells| && Guess(e, a, b).base.active ==>
          Guess(e, a, b).base.tentativeUntilEpoch < epoch)
    && (forall k :: 0 <= k < |e.cursors| ==> CursorCleared(e.cursors[k], epoch, s, e.localFrameSent))
  }

  predicate CursorCleared(m: CursorMove, epoch: int, s: View, sent: int) {
    || m.base.tentativeUntilEpoch < epoch
    || (m.row == s.row && m.base.col == s.col && m.base.active && m.base.expirationFrame == sent + 1)
  }

  lemma KillClears(e: Engine, killed: int, epoch: int, s: View)
    requires killed <= epoch || Cleared(e, epoch, s)
    ensures Cleared(KillEpoch(e, killed, s), epoch, s)
  {
    var e' := KillEpoch(e, killed, s);
    forall a, b | 0 <= a < |e'.overlays| && 0 <= b < |e'.overlays[a].overlayCells| && Guess(e', a, b).base.active
      ensures Guess(e', a, b).base.tentativeUntilEpoch < epoch
    {
      KillLeaves(e, killed, s, a, b);
    }
    EarlierOf(e.cursors, killed);
    EarlierAre(e.cursors, killed);
    forall k | 0 <= k < |e'.cursors| ensures CursorCleared(e'.cursors[k], epoch, s, e'.localFrameSent) {
      if k < |e'.cursors| - 1 {
        assert e'.cursors[k] in EarlierCursors(e.cursors, killed);
      }
    }
  }

  lemma {:induction false} EarlierAre(cursors: seq<CursorMove>, epoch: int)
    ensures forall m :: m in EarlierCursors(cursors, epoch) ==> m.base.tentativeUntilEpoch < epoch
  {
    if cursors != [] {
      EarlierAre(cursors[1..], epoch);
    }
  }

  lemma CullCellStaysCleared(e: Engine, i: int, j: int, s: View, epoch: int)
    requires Proper(s) && Holds(e, i, j, s) && Cleared(e, epoch, s)
    ensures Cleared(CullCell(e, i, j, s).0, epoch, s)
  {
    var e' := CullCell(e, i, j, s).0;
    KillClears(e, Guess(e, i, j).base.tentativeUntilEpoch, epoch, s);
    forall a, b | 0 <= a < |e.overlays| && 0 <= b < |e.overlays[a].overlayCells| && a < |e'.overlays|
                  && b < |e'.overlays[a].overlayCells| && Guess(e', a, b).base.active
      ensures Guess(e', a, b).base.tentativeUntilEpoch < epoch
    {
      ConfirmLeaves(e, i, j, s, a, b);
      ClearLeaves(e, i, j, s, a, b);
    }
    assert CullCell(e, i, j, s).1 ==> forall a :: 0 <= a < |e.overlays| ==> SameRow(e.overlays[a], e'.overlays[a]);
  }

  lemma {:induction false} CullFromStaysCleared(e: Engine, i: int, j: int, s: View, epoch: int)
    requires Proper(s) && InRange(e, i, j) && Cleared(e, epoch, s)
    ensures Cleared(CullFrom(e, i, j, s).0, epoch, s)
    decreases |e.overlays| - i, if i < |e.overlays| then |e.overlays[i].overlayCells| - j else 0
  {
    if i < |e.overlays| {
      if !OnScreen(e.overlays[i], s) || j == |e.overlays[i].overlayCells| {
        CullFromStaysCleared(e, i + 1, 0, s, epoch);
      } else {
        CullCellStaysCleared(e, i, j, s, epoch);
        var (e', goOn) := CullCell(e, i, j, s);
        if goOn {
          assert SameRow(e.overlays[i], e'.overlays[i]);
          CullFromStaysCleared(e', i, j + 1, s, epoch);
        }
      }
    }
  }

  /** Judging another cell leaves a refuted one refuted, or has cleared its epoch already. */
  lemma StillRefuted(e: Engine, i: int, j: int, s: View, a: int, b: int)
    requires Proper(s) && Holds(e, i, j, s) && RefutedAt(e, s, a, b) && (a != i || b != j) && CullCell(e, i, j, s).1
    ensures var e', epoch := CullCell(e, i, j, s).0, Guess(e, a, b).base.tentativeUntilEpoch;
      Cleared(e', epoch, s) || (RefutedAt(e', s, a, b) && Guess(e', a, b).base.tentativeUntilEpoch == epoch)
    ensures CullCell(e, i, j, s).0.predictionEpoch > e.predictionEpoch || RefutedAt(CullCell(e, i, j, s).0, s, a, b)
  {
    var e', epoch := CullCell(e, i, j, s).0, Guess(e, a, b).base.tentativeUntilEpoch;
    var killed := Guess(e, i, j).base.tentativeUntilEpoch;
    assert SameLayout(e, e') && SameRow(e.overlays[a], e'.overlays[a]);
    if CellValidity(Guess(e, i, j), s, e.overlays[i].rowNum, e.localFrameLateAcked).IncorrectOrExpired? {
      KillLeaves(e, killed, s, a, b);
      if killed <= epoch {
        KillClears(e, killed, epoch, s);
      }
    } else {
      StaysRefuted(e, i, j, s, a, b);
    }
  }

  lemma StaysRefuted(e: Engine, i: int, j: int, s: View, a: int, b: int)
    requires Proper(s) && Holds(e, i, j, s) && RefutedAt(e, s, a, b) && (a != i || b != j)
    requires !CellValidity(Guess(e, i, j), s, e.overlays[i].rowNum, e.localFrameLateAcked).IncorrectOrExpired?
    ensures var e' := CullCell(e, i, j, s).0;
      RefutedAt(e', s, a, b) && Guess(e', a, b).base.tentativeUntilEpoch == Guess(e, a, b).base.tentativeUntilEpoch
  {
    var e' := CullCell(e, i, j, s).0;
    assert SameLayout(e, e') && SameRow(e.overlays[a], e'.overlays[a]);
    ConfirmLeaves(e, i, j, s, a, b);
    ClearLeaves(e, i, j, s, a, b);
    AlikeSame(Guess(e, a, b), Guess(e', a, b), s, e.overlays[a].rowNum, e.localFrameLateAcked);
  }

  lemma RefutedIsCleared(e: Engine, i: int, j: int, s: View)
    requires Proper(s) && RefutedAt(e, s, i, j) && Columns(e)
    ensures Cleared(CullCell(e, i, j, s).0, Guess(e, i, j).base.tentativeUntilEpoch, s)
    ensures CullCell(e, i, j, s).1 <==> Guess(e, i, j).base.tentativeUntilEpoch > e.confirmedEpoch
    ensures CullCell(e, i, j, s).0.predictionEpoch > e.predictionEpoch
  {
    RefutedIsWrong(Guess(e, i, j), s, e.overlays[i].rowNum, e.localFrameLateAcked);
    KillClears(e, Guess(e, i, j).base.tentativeUntilEpoch, Guess(e, i, j).base.tentativeUntilEpoch, s);
  }

  lemma {:induction false} RefutedClears(e: Engine, i: int, j: int, s: View, a: int, b: int)
    requires Proper(s) && InRange(e, i, j) && Columns(e) && RefutedAt(e, s, a, b) && From(a, b, i, j)
    ensures Cleared(CullFrom(e, i, j, s).0, Guess(e, a, b).base.tentativeUntilEpoch, s)
    decreases |e.overlays| - i, if i < |e.overlays| then |e.overlays[i].overlayCells| - j else 0
  {
    if !OnScreen(e.overlays[i], s) || j == |e.overlays[i].overlayCells| {
      RefutedClears(e, i + 1, 0, s, a, b);
    } else {
      var (e', goOn) := CullCell(e, i, j, s);
      assert Holds(e, i, j, s);
      var epoch := Guess(e, a, b).base.tentativeUntilEpoch;
      if a == i && b == j {
        RefutedIsCleared(e, i, j, s);
      }
      if goOn {
        assert SameRow(e.overlays[i], e'.overlays[i]);
        CullCellColumns(e, i, j, s);
        if a != i || b != j { StillRefuted(e, i, j, s, a, b); }
        if Cleared(e', epoch, s) {
          CullFromStaysCleared(e', i, j + 1, s, epoch);
        } else {
          RefutedClears(e', i, j + 1, s, a, b);
        }
      } else if a != i || b != j {
        assert CullFrom(e, i, j, s).0.overlays == [] && CullFrom(e, i, j, s).0.cursors == [];
      }
    }
  }

  /** And a new epoch begins. */
  lemma {:induction false} RefutedAdvances(e: Engine, i: int, j: int, s: View, a: int, b: int)
    requires Proper(s) && InRange(e, i, j) && Columns(e) && RefutedAt(e, s, a, b) && From(a, b, i, j)
    ensures CullFrom(e, i, j, s).0.predictionEpoch > e.predictionEpoch
    decreases |e.overlays| - i, if i < |e.overlays| then |e.overlays[i].overlayCells| - j else 0
  {
    if !OnScreen(e.overlays[i], s) || j == |e.overlays[i].overlayCells| {
      RefutedAdvances(e, i + 1, 0, s, a, b);
    } else {
      var (e', goOn) := CullCell(e, i, j, s);
      assert Holds(e, i, j, s);
      CullCellConfirms(e, i, j, s);
      if a == i && b == j {
        RefutedIsCleared(e, i, j, s);
      } else if goOn {
        StillRefuted(e, i, j, s, a, b);
      }
      if goOn {
        assert SameRow(e.overlays[i], e'.overlays[i]);
        CullCellColumns(e, i, j, s);
        CullFromGoesOn(e', i, j + 1, s);
        if e'.predictionEpoch == e.predictionEpoch {
          RefutedAdvances(e', i, j + 1, s, a, b);
        }
      }
    }
  }

  // ---------------------------------------------------------------- cursors

  /** The last cursor is off the screen, or due and not where the terminal's is. */
  predicate CursorRefuted(m: CursorMove, s: View, lateAck: int) {
    m.base.active && (m.row >= s.height || m.base.col >= s.width
                      || (lateAck >= m.base.expirationFrame && !(m.row == s.row && m.base.col == s.col)))
  }

  predicate CursorPending(m: CursorMove, s: View, lateAck: int) {
    m.base.active && m.row < s.height && m.base.col < s.width && lateAck < m.base.expirationFrame
  }

  lemma {:induction false} PendingAre(cursors: seq<CursorMove>, s: View, lateAck: int)
    ensures forall m :: m in PendingCursors(cursors, s, lateAck) <==> m in cursors && CursorPending(m, s, lateAck)
    ensures cursors != [] && CursorPending(cursors[|cursors| - 1], s, lateAck) ==>
      var kept := PendingCursors(cursors, s, lateAck); kept != [] && kept[|kept| - 1] == cursors[|cursors| - 1]
  {
    if cursors != [] {
      PendingAre(cursors[1..], s, lateAck);
    }
  }

  lemma {:induction false} ScreenRowsAre(rows: seq<OverlayRow>, s: View)
    ensures forall row :: row in ScreenRows(rows, s) <==> row in rows && OnScreen(row, s)
  {
    if rows != [] {
      ScreenRowsAre(rows[1..], s);
    }
  }

  ghost predicate LastCursorRefuted(e: Engine, s: View) {
    e.cursors != [] && CursorRefuted(e.cursors[|e.cursors| - 1], s, e.localFrameLateAcked)
  }

  // ---------------------------------------------------------------- a whole judging

  /** Predictions for a terminal of this size. */
  predicate Fitting(e: Engine, s: View) {
    Proper(s) && Laid(e) && e.lastHeight == s.height && e.lastWidth == s.width
  }

  /** A due prediction whose text the terminal shows confirms its epoch, if no other is refuted. */
  lemma TextConfirms(e: Engine, s: View, a: int, b: int)
    requires Fitting(e, s) && NoneRefuted(e, s) && ConfirmingAt(e, s, a, b)
    ensures Guess(e, a, b).base.tentativeUntilEpoch <= Cull(e, s).confirmedEpoch && e.confirmedEpoch <= Cull(e, s).confirmedEpoch
  {
    LaidColumns(e, s);
    CullFromAlone(e, 0, 0, s, a, b);
    CullFromCredits(e, 0, 0, s, a, b);
    CullFromGoesOn(e, 0, 0, s);
  }

  /** Row `row` of `e` is there with cell `b` being `c`. */
  ghost predicate Left(e: Engine, rowNum: int, b: int, c: OverlayCell) {
    exists a :: 0 <= a < |e.overlays| && 0 <= b < |e.overlays[a].overlayCells| && e.overlays[a].rowNum == rowNum && Guess(e, a, b) == c
  }

  /** If nothing is refuted, neither text nor the last cursor, then of the predictions on the screen
      exactly those that are due are gone; the others wait for their frame as they were. */
  lemma OnlyDueAreJudged(e: Engine, s: View, a: int, b: int)
    requires Fitting(e, s) && NoneRefuted(e, s) && !LastCursorRefuted(e, s) && Holds(e, a, b, s)
    ensures exists c ::
      && Left(Cull(e, s), e.overlays[a].rowNum, b, c)
      && (if Due(Guess(e, a, b), e.localFrameLateAcked) then Gone(c) else Alike(Guess(e, a, b), c))
    ensures Cull(e, s).predictionEpoch == e.predictionEpoch
    ensures forall m :: m in Cull(e, s).cursors <==> m in e.cursors && CursorPending(m, s, e.localFrameLateAcked)
  {
    LaidColumns(e, s);
    CullFromAlone(e, 0, 0, s, a, b);
    PendingAre(e.cursors, s, e.localFrameLateAcked);
    LeftAfterRows(e, s, a, b);
  }

  /** What waits right of a confirmed cell takes on the renditions the terminal shows at the nearest one. */
  lemma RestOfRowRerendered(e: Engine, s: View, a: int, b: int, at: int)
    requires Fitting(e, s) && NoneRefuted(e, s) && !LastCursorRefuted(e, s) && Holds(e, a, b, s)
    requires 0 <= at <= b && ConfirmingAt(e, s, a, at) && forall k :: at < k <= b ==> !ConfirmingAt(e, s, a, k)
    ensures exists c ::
      && Left(Cull(e, s), e.overlays[a].rowNum, b, c)
      && c.replacement.renditions == s.cells[e.overlays[a].rowNum][at].renditions
  {
    LaidColumns(e, s);
    assert RowFits(e.overlays[a], s.width);
    CullFromAlone(e, 0, 0, s, a, b);
    CullFromRerenders(e, 0, 0, s, a, b, at);
    LeftAfterRows(e, s, a, b);
  }

  /** The rows of the screen stay when judging goes through. */
  lemma LeftAfterRows(e: Engine, s: View, a: int, b: int)
    requires Fitting(e, s) && NoneRefuted(e, s) && !LastCursorRefuted(e, s) && Holds(e, a, b, s)
    ensures var e1 := CullFrom(e, 0, 0, s).0;
      && |e1.overlays| == |e.overlays| && SameRow(e.overlays[a], e1.overlays[a])
      && Left(Cull(e, s), e.overlays[a].rowNum, b, Guess(e1, a, b))
  {
    LaidColumns(e, s);
    CullFromAlone(e, 0, 0, s, a, b);
    var e1 := CullFrom(e, 0, 0, s).0;
    ScreenRowsAre(e1.overlays, s);
    var row, rows := e1.overlays[a], ScreenRows(e1.overlays, s);
    assert row in rows;
    var k :| 0 <= k < |rows| && rows[k] == row;
    assert Cull(e, s).overlays == rows;
    assert Guess(Cull(e, s), k, b) == Guess(e1, a, b);
  }

  /** A cursor that is not where the terminal's is when it is due takes every prediction with it. */
  lemma WrongCursorClearsAll(e: Engine, s: View)
    requires Fitting(e, s) && NoneRefuted(e, s) && LastCursorRefuted(e, s)
    ensures var e' := Cull(e, s); e'.overlays == [] && e'.cursors == [] && e'.predictionEpoch == e.predictionEpoch + 1
  {
    LaidColumns(e, s);
    if e.overlays != [] {
      assert RowFits(e.overlays[0], e.lastWidth);
      CullFromAlone(e, 0, 0, s, 0, 0);
    }
  }

  /** A refuted prediction: nothing of its epoch or later is left but cursors where the terminal's is;
      if it was shown, nothing is left at all; and what is typed next belongs to a new epoch. */
  lemma RefutedEndsEpoch(e: Engine, s: View, a: int, b: int)
    requires Fitting(e, s) && RefutedAt(e, s, a, b)
    ensures Cleared(Cull(e, s), Guess(e, a, b).base.tentativeUntilEpoch, s)
    ensures Guess(e, a, b).base.tentativeUntilEpoch <= e.confirmedEpoch ==> Cull(e, s).overlays == [] && Cull(e, s).cursors == []
    ensures Cull(e, s).predictionEpoch > e.predictionEpoch
  {
    LaidColumns(e, s);
    var epoch := Guess(e, a, b).base.tentativeUntilEpoch;
    RefutedClears(e, 0, 0, s, a, b);
    RefutedAdvances(e, 0, 0, s, a, b);
    var e1 := CullFrom(e, 0, 0, s).0;
    ScreenRowsAre(e1.overlays, s);
    PendingAre(e1.cursors, s, e1.localFrameLateAcked);
    FilteredCleared(e1, Cull(e, s), epoch, s);
    if epoch <= e.confirmedEpoch {
      assert ShownWrong(e, a, b, s);
      WrongStops(e, 0, 0, s, a, b);
      CullStops(e, 0, 0, s);
    }
  }

  lemma FilteredCleared(e: Engine, e': Engine, epoch: int, s: View)
    requires Cleared(e, epoch, s) && e'.localFrameSent == e.localFrameSent
    requires forall row :: row in e'.overlays ==> row in e.overlays
    requires forall m :: m in e'.cursors ==> m in e.cursors
    ensures Cleared(e', epoch, s)
  {
    forall a, b | 0 <= a < |e'.overlays| && 0 <= b < |e'.overlays[a].overlayCells| && Guess(e', a, b).base.active
      ensures Guess(e', a, b).base.tentativeUntilEpoch < epoch
    {
      var row := e'.overlays[a];
      assert row in e.overlays;
      var k :| 0 <= k < |e.overlays| && e.overlays[k] == row;
      assert Guess(e, k, b) == Guess(e', a, b);
    }
    forall k | 0 <= k < |e'.cursors| ensures CursorCleared(e'.cursors[k], epoch, s, e'.localFrameSent) {
      var m := e'.cursors[k];
      assert m in e.cursors;
    }
  }
}
