/** Runs of a frame's operations: what they keep, and copying only what they damaged. */
module Deltas {
  import opened Renditions
  import opened Ring
  import opened Frames
  import opened Scrolling

  datatype Op =
    | Put(y: int, x: int, c: Cell)
    | Erase(y: int, startX: int, count: int, attrs: Cell)
    | Move(y: int, dstX: int, srcX: int, count: int)
    | Copy(dstY: int, srcY: int, startX: int, count: int)
    | Up(n: nat)
    | Down(n: nat)
    | Margins(top: int, bottom: int)
    | NoMargins
    | Drop
    | NewSize(nCols: int, nRows: int)

  predicate Legal(f: Frame, op: Op) {
    Valid(f) &&
    match op
    case Put(y, x, _) => HasRow(f, y) && 0 <= x < f.nCols
    case Erase(y, startX, count, _) => Stored(f, y) && InCols(f, startX, count)
    case Move(y, dstX, srcX, count) => HasRow(f, y) && InCols(f, dstX, count) && InCols(f, srcX, count)
    case Copy(dstY, srcY, startX, count) => HasRow(f, dstY) && HasRow(f, srcY) && InCols(f, startX, count)
    case Margins(top, bottom) => LegalMargins(f, top, bottom)
    case NewSize(nCols, nRows) => nCols > 0 && nRows > 0
    case _ => true
  }

  function Apply(f: Frame, op: Op): Frame
    requires Legal(f, op)
  {
    match op
    case Put(y, x, c) => PutCell(f, y, x, c)
    case Erase(y, startX, count, attrs) => EraseInRow(f, y, startX, count, attrs)
    case Move(y, dstX, srcX, count) => MoveInRow(f, y, dstX, srcX, count)
    case Copy(dstY, srcY, startX, count) => CopyRow(f, dstY, srcY, startX, count)
    case Up(n) => ScrollUp(f, n)
    case Down(n) => ScrollDown(f, n)
    case Margins(top, bottom) => SetMargins(f, top, bottom)
    case NoMargins => ResetMargins(f)
    case Drop => DropHistory(f)
    case NewSize(nCols, nRows) => Resize(f, nCols, nRows)
  }

  /** Whatever is done keeps the storage in order: the head within the margins, no more history
      than `saveLines`, room for every row. */
  lemma ApplyKeepsValid(f: Frame, op: Op)
    requires Legal(f, op)
    ensures Valid(Apply(f, op))
  {
    match op
    case Put(y, x, c) => PutCellAt(f, y, x, c, y, x);
    case Up(n) => ScrollUpValid(f, n);
    case Down(n) => ScrollDownValid(f, n);
    case Margins(top, bottom) => MarginsMoveNothing(f, top, bottom, 0, 0);
    case NoMargins => UnwrappedAt(f, 0, 0);
    case NewSize(nCols, nRows) => ResizeAt(f, nCols, nRows, 0, 0);
    case _ =>
  }

  ghost predicate LegalRun(f: Frame, ops: seq<Op>)
    decreases ops
  {
    ops == [] || (Legal(f, ops[0]) && LegalRun(Apply(f, ops[0]), ops[1..]))
  }

  ghost function Run(f: Frame, ops: seq<Op>): Frame
    requires LegalRun(f, ops)
    decreases ops
  {
    if ops == [] then f else Run(Apply(f, ops[0]), ops[1..])
  }

  /** In every run: distinct cells of screen and history have distinct places in the storage. */
  lemma {:induction false} RunKeepsAddressMap(f: Frame, ops: seq<Op>, y: int, x: int, z: int, u: int)
    requires Valid(f) && LegalRun(f, ops)
    requires var g := Run(f, ops); HasRow(g, y) && HasRow(g, z) && 0 <= x < g.nCols && 0 <= u < g.nCols
    ensures var g := Run(f, ops);
      && Valid(g) && 0 <= Idx(g, y, x) < |g.cells|
      && (Idx(g, y, x) == Idx(g, z, u) <==> y == z && x == u)
    decreases ops
  {
    if ops == [] {
      AddressMap(f, y, x, z, u);
    } else {
      ApplyKeepsValid(f, ops[0]);
      RunKeepsAddressMap(Apply(f, ops[0]), ops[1..], y, x, z, u);
    }
  }

  // ---------------------------------------------------------------- copies of the screen

  /** Equal but for the dirty flag. */
  predicate SameCell(a: Cell, b: Cell) {
    a.(dirty := b.dirty) == b
  }

  predicate OnScreen(f: Frame, y: int, x: int) {
    0 <= y < f.nRows && 0 <= x < f.nCols
  }

  lemma InGrid(w: int, rows: int, i: int)
    requires w > 0 && 0 <= i < w * rows
    ensures 0 <= i / w < rows && 0 <= i % w < w && i == w * (i / w) + i % w
  {
    if i / w > rows {
      RowsApart(w, rows, i / w);
    }
  }

  /** The whole screen, row by row. */
  function FullCopy(f: Frame): (dst: seq<Cell>)
    requires Valid(f)
    ensures |dst| == f.nCols * f.nRows
  {
    CellsWithin(f.nCols, 0, f.nRows);
    seq(f.nCols * f.nRows, i requires 0 <= i < f.nCols * f.nRows =>
      InGrid(f.nCols, f.nRows, i);
      At(f, i / f.nCols, i % f.nCols))
  }

  /** Only damaged cells are compared, and those that differ are copied and marked dirty. */
  function DeltaCopy(f: Frame, dst: seq<Cell>): (r: seq<Cell>)
    requires Valid(f) && |dst| == f.nCols * f.nRows
    ensures |r| == |dst|
  {
    seq(|dst|, i requires 0 <= i < |dst| =>
      InGrid(f.nCols, f.nRows, i);
      var y, x := i / f.nCols, i % f.nCols;
      if Damaged(f.damage, Idx(f, y, x)) && dst[i] != At(f, y, x) then At(f, y, x).(dirty := true) else dst[i])
  }

  /** The cell of row `y` and column `x` in a copy of the screen. */
  lemma PlaceInCopy(f: Frame, y: int, x: int)
    requires Valid(f) && OnScreen(f, y, x)
    ensures var i := y * f.nCols + x; 0 <= i < f.nCols * f.nRows && i / f.nCols == y && i % f.nCols == x
  {
    var i := y * f.nCols + x;
    CellsWithin(f.nCols, y, f.nRows);
    if i / f.nCols > y { RowsApart(f.nCols, y, i / f.nCols); }
    if i / f.nCols < y { RowsApart(f.nCols, i / f.nCols, y); }
  }

  /** A copy shows the screen row by row. A delta copy changes only cells that are damaged and shown
      wrongly, marks just those dirty, and leaves none that is damaged and shown wrongly. */
  lemma DeltaCopiedAt(f: Frame, dst: seq<Cell>, y: int, x: int)
    requires Valid(f) && |dst| == f.nCols * f.nRows && OnScreen(f, y, x)
    ensures var i := y * f.nCols + x;
      && 0 <= i < |dst| && FullCopy(f)[i] == At(f, y, x)
      && var c := DeltaCopy(f, dst)[i];
      && (Damaged(f.damage, Idx(f, y, x)) ==> SameCell(At(f, y, x), c))
      && (c != dst[i] ==> Damaged(f.damage, Idx(f, y, x)) && dst[i] != At(f, y, x))
      && (Damaged(f.damage, Idx(f, y, x)) && dst[i] != At(f, y, x) ==> c.dirty)
  {
    PlaceInCopy(f, y, x);
  }

  /** What the copy does not show correctly lies in the damage. */
  ghost predicate Synced(f: Frame, dst: seq<Cell>)
    requires Valid(f)
  {
    && |dst| == f.nCols * f.nRows
    && forall i :: 0 <= i < |dst| ==> InSync(f, dst, i)
  }

  ghost predicate InSync(f: Frame, dst: seq<Cell>, i: int)
    requires Valid(f) && 0 <= i < |dst| == f.nCols * f.nRows
  {
    InGrid(f.nCols, f.nRows, i);
    var y, x := i / f.nCols, i % f.nCols;
    Damaged(f.damage, Idx(f, y, x)) || SameCell(At(f, y, x), dst[i])
  }

  predicate SameCells(a: seq<Cell>, b: seq<Cell>) {
    |a| == |b| && forall i :: 0 <= i < |a| ==> SameCell(a[i], b[i])
  }

  /** A cell operation that adds the range it may change to the damage. */
  lemma CellsStayInSync(f: Frame, g: Frame, start: int, end: int, dst: seq<Cell>)
    requires Valid(f) && SameShape(f, g) && start <= end && g.damage == AddDamage(f.damage, start, end)
    requires forall i :: 0 <= i < |f.cells| && !(start <= i < end) ==> g.cells[i] == f.cells[i]
    requires Synced(f, dst)
    ensures Valid(g) && Synced(g, dst)
  {
    SameShapeKeeps(f, g);
    forall i | 0 <= i < |dst| ensures InSync(g, dst, i) {
      InGrid(f.nCols, f.nRows, i);
      var y, x := i / f.nCols, i % f.nCols;
      assert InSync(f, dst, i);
      AddressMap(f, y, x, y, x);
      AddDamageCovers(f.damage, start, end, Idx(f, y, x));
    }
  }

  lemma RowsWithinRange(w: int, top: int, bottom: int, r: int, x: int)
    requires 0 <= x < w && top <= r < bottom
    ensures top * w <= w * r + x < bottom * w
  {
    RowsApart(w, r, bottom);
    if top < r {
      RowsApart(w, top, r);
    }
  }

  /** Turning the region: outside it nothing changes, and all of it becomes damage. */
  lemma TurnStaysInSync(f: Frame, g: Frame, dst: seq<Cell>)
    requires Valid(f) && Valid(g) && Synced(f, dst)
    requires g == f.(scrollHead := g.scrollHead, historyRows := g.historyRows, damage := g.damage)
    requires g.damage == AddDamage(f.damage, f.marginTop * f.nCols, f.marginBottom * f.nCols)
    ensures Synced(g, dst)
  {
    RowsWithinRange(f.nCols, f.marginTop, f.marginBottom, f.scrollHead, 0);
    forall i | 0 <= i < |dst| ensures InSync(g, dst, i) {
      InGrid(f.nCols, f.nRows, i);
      var y, x := i / f.nCols, i % f.nCols;
      assert InSync(f, dst, i);
      var p := PhysicalRow(g, y);
      if f.marginTop <= p < f.marginBottom {
        RowsWithinRange(f.nCols, f.marginTop, f.marginBottom, p, x);
      } else {
        assert p == PhysicalRow(f, y);
      }
      AddDamageCovers(f.damage, f.marginTop * f.nCols, f.marginBottom * f.nCols, Idx(g, y, x));
    }
  }

  lemma ExposedIsInSync(f: Frame, dst: seq<Cell>)
    requires Valid(f) && f.damage == Expose(f.damage) && |dst| == f.nCols * f.nRows
    ensures Synced(f, dst)
  {
    forall i | 0 <= i < |dst| ensures InSync(f, dst, i) {
      InGrid(f.nCols, f.nRows, i);
      AddressMap(f, i / f.nCols, i % f.nCols, 0, 0);
    }
  }

  /** Whatever happens to the frame, short of a new size: damage covers every difference. */
  lemma ApplyStaysInSync(f: Frame, op: Op, dst: seq<Cell>)
    requires Legal(f, op) && !op.NewSize? && Synced(f, dst)
    ensures var g := Apply(f, op); Valid(g) && g.nCols == f.nCols && g.nRows == f.nRows && Synced(g, dst)
  {
    ApplyKeepsValid(f, op);
    var g := Apply(f, op);
    match op
    case Put(y, x, c) =>
      AddressMap(f, y, x, y, x);
      CellsStayInSync(f, g, Idx(f, y, x), Idx(f, y, x) + 1, dst);
    case Erase(y, startX, count, attrs) =>
      if count != 0 { CellsStayInSync(f, g, Idx(f, y, startX), Idx(f, y, startX) + count, dst); }
    case Move(y, dstX, srcX, count) =>
      RowWithin(f, y, srcX, count);
      if count != 0 { CellsStayInSync(f, g, Idx(f, y, dstX), Idx(f, y, dstX) + count, dst); }
    case Copy(dstY, srcY, startX, count) =>
      RowWithin(f, srcY, startX, count);
      if count != 0 { CellsStayInSync(f, g, Idx(f, dstY, startX), Idx(f, dstY, startX) + count, dst); }
    case Up(n) => TurnStaysInSync(f, g, dst);
    case Down(n) => TurnStaysInSync(f, g, dst);
    case _ => ExposedIsInSync(g, dst);
  }

  predicate KeepsSize(ops: seq<Op>) {
    forall i :: 0 <= i < |ops| ==> !ops[i].NewSize?
  }

  lemma {:induction false} RunStaysInSync(f: Frame, ops: seq<Op>, dst: seq<Cell>)
    requires Valid(f) && LegalRun(f, ops) && KeepsSize(ops) && Synced(f, dst)
    ensures var g := Run(f, ops); Valid(g) && g.nCols == f.nCols && g.nRows == f.nRows && Synced(g, dst)
    decreases ops
  {
    if ops != [] {
      ApplyStaysInSync(f, ops[0], dst);
      RunStaysInSync(Apply(f, ops[0]), ops[1..], dst);
    }
  }

  /** In sync, copying the damage gives the screen. */
  lemma DeltaIsFull(f: Frame, dst: seq<Cell>)
    requires Valid(f) && Synced(f, dst)
    ensures SameCells(DeltaCopy(f, dst), FullCopy(f))
  {
    forall i | 0 <= i < |dst| ensures SameCell(DeltaCopy(f, dst)[i], FullCopy(f)[i]) {
      assert InSync(f, dst, i);
    }
  }

  /** A delta copy equals a full copy, up to the dirty flags: if the destination matched the screen
      when the damage was last reset, then after any run of cell writes, erases, moves, row copies,
      scrolls and margin changes. */
  lemma DeltaCopyIsFullCopy(f: Frame, dst: seq<Cell>, ops: seq<Op>)
    requires Valid(f) && SameCells(dst, FullCopy(f))
    requires LegalRun(ResetDamage(f), ops) && KeepsSize(ops)
    ensures var g := Run(ResetDamage(f), ops);
      Valid(g) && |dst| == g.nCols * g.nRows && SameCells(DeltaCopy(g, dst), FullCopy(g))
  {
    var f0 := ResetDamage(f);
    forall i | 0 <= i < |dst| ensures InSync(f0, dst, i) {
      InGrid(f.nCols, f.nRows, i);
      assert SameCell(dst[i], FullCopy(f)[i]);
    }
    RunStaysInSync(f0, ops, dst);
    DeltaIsFull(Run(f0, ops), dst);
  }
}
