/** Predictions onto the terminal, and runs of typing and showing. */
module Epochs {
  import opened Renditions
  import opened Ring
  import opened Overlays
  import opened Culling
  import opened Predictions

  // ---------------------------------------------------------------- showing predictions

  function Underlined(c: Cell): Cell {
    c.(renditions := c.renditions.(on := c.renditions.on.(underline := true), ulStyle := ULS_SINGLE))
  }

  /** `flag`: whether shown predictions are underlined. */
  function ApplyCell(c: OverlayCell, s: View, confirmedEpoch: int, row: int, flag: bool): (s': View)
    requires Proper(s)
    ensures Proper(s') && s' == s.(cells := s'.cells)
  {
    if !c.base.active || row >= s.height || c.base.col >= s.width || Tentative(c.base, confirmedEpoch) then s
    else
      var actual := GetCell(s, row, c.base.col);
      var underline := flag && !(IsBlank(c.replacement) && IsBlank(actual));
      if c.unknown then
        if underline && c.base.col != s.width - 1 then SetCell(s, row, c.base.col, Underlined(actual)) else s
      else if actual != c.replacement then
        SetCell(s, row, c.base.col, if underline then Underlined(c.replacement) else c.replacement)
      else s
  }

  function ApplyCells(cells: seq<OverlayCell>, s: View, confirmedEpoch: int, row: int, flag: bool): (s': View)
    requires Proper(s)
    ensures Proper(s')
    decreases |cells|
  {
    if cells == [] then s
    else ApplyCells(cells[1..], ApplyCell(cells[0], s, confirmedEpoch, row, flag), confirmedEpoch, row, flag)
  }

  function ApplyRows(rows: seq<OverlayRow>, s: View, confirmedEpoch: int, flag: bool): (s': View)
    requires Proper(s)
    ensures Proper(s')
    decreases |rows|
  {
    if rows == [] then s
    else ApplyRows(rows[1..], ApplyCells(rows[0].overlayCells, s, confirmedEpoch, rows[0].rowNum, flag), confirmedEpoch, flag)
  }

  function ApplyCursors(cursors: seq<CursorMove>, s: View, confirmedEpoch: int): (s': View)
    requires Proper(s)
    ensures Proper(s')
    decreases |cursors|
  {
    if cursors == [] then s
    else
      var m := cursors[0];
      ApplyCursors(cursors[1..], if m.base.active && !Tentative(m.base, confirmedEpoch) then MoveCursor(s, m.row, m.base.col) else s,
                   confirmedEpoch)
  }

  /** `on`: whether slow links, glitches or the preference have predictions shown at all. */
  function Apply(e: Engine, s: View, on: bool, flag: bool): View
    requires Proper(s)
  {
    if !on then s
    else ApplyCursors(e.cursors, ApplyRows(e.overlays, s, e.confirmedEpoch, flag), e.confirmedEpoch)
  }

  lemma {:induction false} CellsShowNothing(cells: seq<OverlayCell>, s: View, row: int, flag: bool, lo: int, hi: int)
    requires Proper(s) && forall j :: 0 <= j < |cells| ==> CellWithin(cells[j], lo, hi)
    ensures ApplyCells(cells, s, lo, row, flag) == s
    decreases |cells|
  {
    if cells != [] {
      CellsShowNothing(cells[1..], s, row, flag, lo, hi);
    }
  }

  lemma {:induction false} RowsShowNothing(rows: seq<OverlayRow>, s: View, flag: bool, lo: int, hi: int)
    requires Proper(s) && RowsWithin(rows, lo, hi)
    ensures ApplyRows(rows, s, lo, flag) == s
    decreases |rows|
  {
    if rows != [] {
      assert RowWithin(rows[0], lo, hi);
      CellsShowNothing(rows[0].overlayCells, s, rows[0].rowNum, flag, lo, hi);
      RowsShowNothing(rows[1..], s, flag, lo, hi);
    }
  }

  lemma {:induction false} CursorsShowNothing(cursors: seq<CursorMove>, s: View, lo: int, hi: int)
    requires Proper(s) && CursorsWithin(cursors, lo, hi)
    ensures ApplyCursors(cursors, s, lo) == s
    decreases |cursors|
  {
    if cursors != [] {
      CursorsShowNothing(cursors[1..], s, lo, hi);
    }
  }

  lemma HiddenShowsNothing(e: Engine, s: View, on: bool, flag: bool)
    requires Proper(s) && Hidden(e)
    ensures Apply(e, s, on, flag) == s
  {
    RowsShowNothing(e.overlays, s, flag, e.confirmedEpoch, e.predictionEpoch);
    CursorsShowNothing(e.cursors, s, e.confirmedEpoch, e.predictionEpoch);
  }

  // ---------------------------------------------------------------- runs

  /** What happens to the engine. The terminal may be another one at every step. */
  datatype Step =
    | Input(s: View, key: Key)
    | Show(s: View)
    | Frames(sent: int, lateAcked: int)

  predicate StepProper(step: Step) {
    !step.Frames? ==> Proper(step.s)
  }

  /** Both typing and showing judge the predictions first. */
  function Next(e: Engine, step: Step): Engine
    requires Laid(e) && StepProper(step)
  {
    match step
    case Input(s, key) => CullIsReady(e, s); Handle(Cull(e, s), s, key)
    case Show(s) => Cull(e, s)
    case Frames(sent, lateAcked) => e.(localFrameSent := sent, localFrameLateAcked := lateAcked)
  }

  function Start(predictOverwrite: bool): Engine {
    Engine([], [], 0, 1, 0, 0, 0, 0, predictOverwrite)
  }

  lemma NextLaid(e: Engine, step: Step)
    requires Laid(e) && StepProper(step)
    ensures Laid(Next(e, step))
  {
    if !step.Frames? {
      CullIsReady(e, step.s);
      if step.Input? {
        HandleLaid(Cull(e, step.s), step.s, step.key);
      }
    }
  }

  lemma NextKeeps(e: Engine, step: Step, lo: int)
    requires Laid(e) && StepProper(step) && Within(e, lo)
    ensures Judged(e, Next(e, step), lo)
  {
    if !step.Frames? {
      CullKeeps(e, step.s, lo);
      if step.Input? {
        CullIsReady(e, step.s);
        HandleKeeps(Cull(e, step.s), step.s, step.key, lo);
      }
    }
  }

  function Run(e: Engine, steps: seq<Step>): (e': Engine)
    requires Laid(e) && forall i :: 0 <= i < |steps| ==> StepProper(steps[i])
    decreases |steps|
  {
    if steps == [] then e else NextLaid(e, steps[0]); Run(Next(e, steps[0]), steps[1..])
  }

  lemma {:induction false} RunKeeps(e: Engine, steps: seq<Step>, lo: int)
    requires Laid(e) && Within(e, lo) && forall i :: 0 <= i < |steps| ==> StepProper(steps[i])
    ensures Laid(Run(e, steps)) && Judged(e, Run(e, steps), lo)
    decreases |steps|
  {
    if steps != [] {
      NextLaid(e, steps[0]);
      NextKeeps(e, steps[0], lo);
      RunKeeps(Next(e, steps[0]), steps[1..], lo);
    }
  }

  /** In every run both epochs only go forward, the confirmed one behind the current, and every
      prediction belongs to an epoch up to the current. */
  lemma EpochsGoForward(predictOverwrite: bool, steps: seq<Step>, more: seq<Step>)
    requires forall i :: 0 <= i < |steps| ==> StepProper(steps[i])
    requires forall i :: 0 <= i < |more| ==> StepProper(more[i])
    ensures var e := Run(Start(predictOverwrite), steps);
      && Inv(e) && Laid(e)
      && var e' := Run(e, more);
         Inv(e') && e.predictionEpoch <= e'.predictionEpoch && e.confirmedEpoch <= e'.confirmedEpoch
  {
    RunKeeps(Start(predictOverwrite), steps, 0);
    RunKeeps(Run(Start(predictOverwrite), steps), more, 0);
  }

  /** In every run what is shown was judged first: only predictions that cannot be judged yet are. */
  lemma OnlyPendingAreShown(predictOverwrite: bool, steps: seq<Step>, s: View)
    requires Proper(s) && forall i :: 0 <= i < |steps| ==> StepProper(steps[i])
    ensures var e := Run(Start(predictOverwrite), steps);
      Laid(e) && AllPending(Next(e, Show(s)), s)
  {
    RunKeeps(Start(predictOverwrite), steps, 0);
    CullLeavesPending(Run(Start(predictOverwrite), steps), s);
  }

  /** Once nothing would be shown, nothing is, until a prediction of a newer epoch is confirmed. */
  lemma HiddenUntilConfirmed(e: Engine, steps: seq<Step>, s: View, on: bool, flag: bool)
    requires Laid(e) && Hidden(e) && Proper(s) && forall i :: 0 <= i < |steps| ==> StepProper(steps[i])
    requires Run(e, steps).confirmedEpoch == e.confirmedEpoch
    ensures Apply(Run(e, steps), s, on, flag) == s
  {
    RunKeeps(e, steps, e.confirmedEpoch);
    HiddenShowsNothing(Run(e, steps), s, on, flag);
  }

  /** So a new engine shows nothing before a first prediction was confirmed. */
  lemma NothingShownAtFirst(predictOverwrite: bool, steps: seq<Step>, s: View, on: bool, flag: bool)
    requires Proper(s) && forall i :: 0 <= i < |steps| ==> StepProper(steps[i])
    requires Run(Start(predictOverwrite), steps).confirmedEpoch == Start(predictOverwrite).confirmedEpoch
    ensures Apply(Run(Start(predictOverwrite), steps), s, on, flag) == s
  {
    HiddenUntilConfirmed(Start(predictOverwrite), steps, s, on, flag);
  }

  /** A shown prediction that turns out wrong: from then on no cell is changed and no cursor moved,
      whatever is typed and whatever the terminal becomes, until a newer epoch is confirmed. */
  lemma WrongStaysHidden(e: Engine, s: View, a: int, b: int, steps: seq<Step>, t: View, on: bool, flag: bool)
    requires Laid(e) && Inv(e) && Proper(s) && e.lastHeight == s.height && e.lastWidth == s.width
    requires ShownWrong(e, a, b, s)
    requires Proper(t) && forall i :: 0 <= i < |steps| ==> StepProper(steps[i])
    ensures Laid(Cull(e, s))
    ensures Run(Cull(e, s), steps).confirmedEpoch == Cull(e, s).confirmedEpoch ==> Apply(Run(Cull(e, s), steps), t, on, flag) == t
  {
    WrongHidesAll(e, s, a, b);
    CullIsReady(e, s);
    if Run(Cull(e, s), steps).confirmedEpoch == Cull(e, s).confirmedEpoch {
      HiddenUntilConfirmed(Cull(e, s), steps, t, on, flag);
    }
  }
}
