/** ProcessPayload as the code stands. Two of its steps go through slices that share storage with
    the list they rebuild: the reference state is read through a pointer into a slice that was
    compacted in place, and inserting out of order overwrites a slot before it is copied. */
module AsWritten {
  import opened Prefixes
  import opened StateSync
  import opened Links
  import opened Runs

  /** The storage behind the list after compaction: the survivors, then what was there before. */
  function Compacted<E>(states: seq<Stamped<E>>, num: nat): (r: seq<Stamped<E>>)
    ensures |r| == |states|
  {
    var kept := KeepFrom(states, num);
    kept + states[|kept|..]
  }

  /** Inserting before slot i writes the new state there, then copies from slot i on. */
  function InsertAsWritten<E>(states: seq<Stamped<E>>, x: Stamped<E>): seq<Stamped<E>> {
    var i := InsertAt(states, x.num);
    if i == |states| then states + [x] else states[..i] + [x] + states[i := x][i..]
  }

  function ReceiveAsWritten<E>(r: Receiver<E>, inst: Instruction<E>, now: int): (Receiver<E>, Reception) {
    if HasNum(r.states, inst.newNum) then (r, Duplicate)
    else if !HasNum(r.states, inst.oldNum) then (r, NoReference)
    else AcceptAsWritten(r, IndexOf(r.states, inst.oldNum), inst, now)
  }

  /** `slot` is where the reference was found. */
  function AcceptAsWritten<E>(r: Receiver<E>, slot: nat, inst: Instruction<E>, now: int): (Receiver<E>, Reception)
    requires slot < |r.states|
  {
    var kept := KeepFrom(r.states, inst.throwawayNum);
    var reference := Compacted(r.states, inst.throwawayNum)[slot].actions;
    StoredAsWritten(r.(states := kept), Stamped(inst.newNum, reference + inst.diff, now), now)
  }

  function StoredAsWritten<E>(r: Receiver<E>, x: Stamped<E>, now: int): (Receiver<E>, Reception) {
    if Quenched(r, now) then (r, QueueFull)
    else
      (Receiver(InsertAsWritten(r.states, x), r.last,
                if InsertAt(r.states, x.num) == |r.states| then x.num else r.ackNum,
                if |r.states| > RECEIVED_LIMIT then now + QUENCH_INTERVAL else r.quench), Stored)
  }

  /** Neither shared slice does harm: the instruction is not stored at all, or it is the newest and
      compaction left the reference's slot alone, or put a state with the same events there. */
  predicate Clean<E(==)>(r: Receiver<E>, inst: Instruction<E>, now: int) {
    var kept := KeepFrom(r.states, inst.throwawayNum);
    var slot := IndexOf(r.states, inst.oldNum);
    || HasNum(r.states, inst.newNum)
    || slot == |r.states|
    || Quenched(r.(states := kept), now)
    || (&& InsertAt(kept, inst.newNum) == |kept|
        && (slot >= |kept| || kept[slot].actions == r.states[slot].actions))
  }

  lemma NextAfter<T>(a: seq<T>, x: T, b: seq<T>)
    requires b != []
    ensures (a + [x] + b)[|a| + 1] == b[0]
  {
  }

  lemma InsertAgrees<E>(states: seq<Stamped<E>>, x: Stamped<E>, y: Stamped<E>)
    requires x.num == y.num
    ensures Insert(states, x) == InsertAsWritten(states, y) <==> InsertAt(states, x.num) == |states| && x == y
  {
    var i := InsertAt(states, x.num);
    if i < |states| {
      NextAfter(states[..i], x, states[i..]);
      NextAfter(states[..i], y, states[i := y][i..]);
    } else {
      assert states[..i] == states && states[i..] == [];
      LastAround(states, x, []);
      LastAround(states, y, []);
      assert Insert(states, x) == states + [x] + [] && InsertAsWritten(states, y) == states + [y] + [];
    }
  }

  /** The code does what its comments say exactly on clean instructions. */
  lemma AsWrittenIff<E>(r: Receiver<E>, inst: Instruction<E>, now: int)
    ensures ReceiveAsWritten(r, inst, now) == Receive(r, inst, now) <==> Clean(r, inst, now)
  {
    var kept := KeepFrom(r.states, inst.throwawayNum);
    var slot := IndexOf(r.states, inst.oldNum);
    if !HasNum(r.states, inst.newNum) && slot < |r.states| && !Quenched(r.(states := kept), now) {
      var a, b := r.states[slot].actions, Compacted(r.states, inst.throwawayNum)[slot].actions;
      InsertAgrees(kept, Stamped(inst.newNum, a + inst.diff, now), Stamped(inst.newNum, b + inst.diff, now));
      SameStart(a, b, inst.diff);
    }
  }

  // ---------------------------------------------------------------- runs

  ghost function NextAsWritten<E>(l: Link<E>, a: Label<E>): Link<E>
    requires l.s.sent != [] && l.r.states != []
  {
    if a.Deliver? then
      var (r, outcome) := ReceiveAsWritten(l.r, a.inst, a.now);
      l.(r := r, accepted := if outcome.Stored? then l.accepted + {a.inst.newNum} else l.accepted)
    else Next(l, a)
  }

  /** A run of the code in which every delivery is clean. */
  ghost predicate CleanRun<E>(l: Link<E>, labels: seq<Label<E>>)
    decreases labels
  {
    labels == [] ||
    (&& Enabled(l, labels[0])
     && (labels[0].Deliver? ==> Clean(l.r, labels[0].inst, labels[0].now))
     && CleanRun(NextAsWritten(l, labels[0]), labels[1..]))
  }

  ghost function RunAsWritten<E>(l: Link<E>, labels: seq<Label<E>>): Link<E>
    requires CleanRun(l, labels)
    decreases labels
  {
    if labels == [] then l else RunAsWritten(NextAsWritten(l, labels[0]), labels[1..])
  }

  /** Clean runs of the code are runs of the protocol, so everything proved of those holds. */
  lemma {:induction false} CleanRunIsRun<E>(l: Link<E>, labels: seq<Label<E>>)
    requires CleanRun(l, labels)
    ensures Legal(l, labels) && Run(l, labels) == RunAsWritten(l, labels)
    decreases labels
  {
    if labels != [] {
      if labels[0].Deliver? {
        AsWrittenIff(l.r, labels[0].inst, labels[0].now);
      }
      CleanRunIsRun(Next(l, labels[0]), labels[1..]);
    }
  }

  lemma ExactlyOnceWhenClean<E>(wire: seq<E> -> seq<E>, time: int, labels: seq<Label<E>>)
    requires CleanRun(Init(wire, time), labels)
    ensures RunAsWritten(Init(wire, time), labels).selected <= Pushes(labels)
  {
    CleanRunIsRun(Init(wire, time), labels);
    ExactlyOnce(wire, time, labels);
  }

  /** Every step of the labels, with instructions handled as the code does. After an insertion out of
      order two slots share a stream, which two equal values stand for here; rebasing on a fetch
      cannot tell the difference as long as the oldest state held has no events, as in the runs below. */
  ghost predicate PossibleRun<E>(l: Link<E>, labels: seq<Label<E>>)
    decreases labels
  {
    labels == [] || (Enabled(l, labels[0]) && PossibleRun(NextAsWritten(l, labels[0]), labels[1..]))
  }

  ghost function CodeRun<E>(l: Link<E>, labels: seq<Label<E>>): Link<E>
    requires PossibleRun(l, labels)
    decreases labels
  {
    if labels == [] then l else CodeRun(NextAsWritten(l, labels[0]), labels[1..])
  }

  // ---------------------------------------------------------------- two runs that go wrong

  const AT_ONCE := Poll(0, 0, 0, true, true, false)
  const LATE := Poll(1000, 1000, 0, true, true, false)

  /** A late state takes the slot of the state that overtook it. */
  lemma LateTakesSlot<E>(r: Receiver<E>, zero: Stamped<E>, two: Stamped<E>, inst: Instruction<E>, now: int)
    requires r.states == [zero, two] && zero.num == inst.oldNum == inst.throwawayNum
    requires zero.num < inst.newNum < two.num
    ensures var one := Stamped(inst.newNum, zero.actions + inst.diff, now);
      ReceiveAsWritten(r, inst, now) == (r.(states := [zero, one, one]), Stored)
  {
    var one := Stamped(inst.newNum, zero.actions + inst.diff, now);
    KeepFromAll(r.states, inst.throwawayNum);
    assert IndexOf(r.states, inst.oldNum) == 0;
    assert !HasNum(r.states, inst.newNum);
    assert InsertAt(r.states, one.num) == 1;
    assert InsertAsWritten(r.states, one) == [zero, one, one];
  }

  /** A newest state is appended to its reference's events, wherever that is, if nothing is thrown away. */
  lemma NewestIsAppended<E>(r: Receiver<E>, inst: Instruction<E>, k: nat, now: int)
    requires k < |r.states| <= RECEIVED_LIMIT && r.states[k].num == inst.oldNum
    requires forall i :: 0 <= i < |r.states| ==> inst.throwawayNum <= r.states[i].num < inst.newNum
    requires forall i :: 0 <= i < k ==> r.states[i].num != inst.oldNum
    ensures var x := Stamped(inst.newNum, r.states[k].actions + inst.diff, now);
      ReceiveAsWritten(r, inst, now) == (r.(states := r.states + [x], ackNum := x.num), Stored)
    ensures Clean(r, inst, now)
  {
    KeepFromAll(r.states, inst.throwawayNum);
    assert HasNum(r.states, inst.oldNum);
    assert IndexOf(r.states, inst.oldNum) == k;
    assert !HasNum(r.states, inst.newNum);
  }

  /** A fetch while the oldest state is empty leaves the states alone. */
  lemma FetchFromEmpty<E>(r: Receiver<E>)
    requires r.states != [] && r.states[0].actions == []
    ensures Fetch(r) == (r.(last := Last(r.states).actions), Minus(Last(r.states).actions, r.last))
  {
    assert SubtractAll(r.states, []) == r.states;
  }

  lemma Prepend<E>(l: Link<E>, a: Label<E>, rest: seq<Label<E>>)
    requires Enabled(l, a) && PossibleRun(NextAsWritten(l, a), rest)
    ensures PossibleRun(l, [a] + rest) && CodeRun(l, [a] + rest) == CodeRun(NextAsWritten(l, a), rest)
  {
    assert ([a] + rest)[1..] == rest;
  }

  ghost function WithReceiver<E>(l: Link<E>, states: seq<Stamped<E>>, last: seq<E>, ack: nat,
                                 accepted: set<nat>, selected: seq<E>): Link<E> {
    l.(r := l.r.(states := states, last := last, ackNum := ack), accepted := accepted, selected := selected)
  }

  lemma StoreStep<E>(l: Link<E>, inst: Instruction<E>, states: seq<Stamped<E>>, ack: nat)
    requires l.s.sent != [] && l.r.states != []
    requires ReceiveAsWritten(l.r, inst, 0) == (l.r.(states := states, ackNum := ack), Stored)
    ensures NextAsWritten(l, Deliver(inst, 0))
         == WithReceiver(l, states, l.r.last, ack, l.accepted + {inst.newNum}, l.selected)
  {
  }

  /** A fetch while the oldest state is empty leaves everything else of the link alone. */
  lemma FetchStep<E>(l: Link<E>, out: seq<E>)
    requires l.s.sent != [] && l.r.states != [] && l.r.states[0].actions == []
    requires l.selected + Minus(Last(l.r.states).actions, l.r.last) == out
    ensures NextAsWritten(l, FetchDiff)
         == WithReceiver(l, l.r.states, Last(l.r.states).actions, l.r.ackNum, l.accepted, out)
              .(lastNum := Newest(l), given := l.given + Conveyed(l.wire, Minus(Last(l.r.states).actions, l.r.last)))
  {
    FetchFromEmpty(l.r);
  }

  /** A delivery and a fetch. */
  ghost function Round<E>(l: Link<E>, inst: Instruction<E>): Link<E>
    requires l.s.sent != [] && l.r.states != []
  {
    var l1 := NextAsWritten(l, Deliver(inst, 0));
    if l1.s.sent != [] && l1.r.states != [] then NextAsWritten(l1, FetchDiff) else l1
  }

  /** The link holds these states, and these events were handed over. */
  ghost predicate At<E>(l: Link<E>, from: Link<E>, states: seq<Stamped<E>>, last: seq<E>, out: seq<E>) {
    && l.s == from.s && l.net == from.net && l.s.sent != [] && l.r.states != []
    && l.r.states == states && l.r.last == last && l.selected == l.given == out
  }

  /** What a fetch adds to what was selected and given. */
  lemma FetchAdds<E>(l: Link<E>)
    requires l.s.sent != [] && l.r.states != []
    ensures var diff := Minus(Last(l.r.states).actions, l.r.last);
      var l' := NextAsWritten(l, FetchDiff);
      l'.selected == l.selected + diff && l'.given == l.given + Conveyed(l.wire, diff) && l'.s == l.s
  {
  }

  lemma RoundAdds<E>(l: Link<E>, inst: Instruction<E>, states: seq<Stamped<E>>, ack: nat)
    requires l.s.sent != [] && l.r.states != [] && states != []
    requires ReceiveAsWritten(l.r, inst, 0) == (l.r.(states := states, ackNum := ack), Stored)
    ensures var diff := Minus(Last(states).actions, l.r.last);
      && Round(l, inst).selected == l.selected + diff && Round(l, inst).given == l.given + Conveyed(l.wire, diff)
      && Round(l, inst).s == l.s
  {
    StoreStep(l, inst, states, ack);
    FetchAdds(WithReceiver(l, states, l.r.last, ack, l.accepted + {inst.newNum}, l.selected));
  }

  lemma RoundStep<E>(l: Link<E>, inst: Instruction<E>, states: seq<Stamped<E>>, ack: nat, out: seq<E>)
    requires l.s.sent != [] && l.r.states != [] && states != [] && states[0].actions == []
    requires ReceiveAsWritten(l.r, inst, 0) == (l.r.(states := states, ackNum := ack), Stored)
    requires l.given == l.selected && l.selected + Minus(Last(states).actions, l.r.last) == out
    requires var diff := Minus(Last(states).actions, l.r.last); Conveyed(l.wire, diff) == diff
    ensures At(Round(l, inst), l, states, Last(states).actions, out)
    ensures Round(l, inst).r.ackNum == ack && Round(l, inst).acks == l.acks && Round(l, inst).wire == l.wire
  {
    StoreStep(l, inst, states, ack);
    FetchStep(WithReceiver(l, states, l.r.last, ack, l.accepted + {inst.newNum}, l.selected), out);
  }

  lemma FirstRound<E>(l: Link<E>, both: Instruction<E>, a: E, b: E)
    requires At(l, l, [Stamped(0, [], 0)], [], [])
    requires both == Instruction(0, 2, 0, 0, [a, b]) && l.wire([a, b]) == [a, b]
    ensures At(Round(l, both), l, [Stamped(0, [], 0), Stamped(2, [a, b], 0)], [a, b], [a, b])
  {
    var zero, two := Stamped(0, [], 0), Stamped(2, [a, b], 0);
    NewestIsAppended(l.r, both, 0, 0);
    assert zero.actions + both.diff == [a, b];
    assert l.r.states + [two] == [zero, two];
    assert Minus([a, b], []) == [a, b] && [] + [a, b] == [a, b];
    RoundStep(l, both, [zero, two], 2, [a, b]);
  }

  lemma SecondRound<E>(l: Link<E>, one: Instruction<E>, a: E, b: E)
    requires At(l, l, [Stamped(0, [], 0), Stamped(2, [a, b], 0)], [a, b], [a, b])
    requires one == Instruction(0, 1, 0, 0, [a])
    ensures At(Round(l, one), l, [Stamped(0, [], 0), Stamped(1, [a], 0), Stamped(1, [a], 0)], [a], [a, b])
  {
    var zero, at1, two := Stamped(0, [], 0), Stamped(1, [a], 0), Stamped(2, [a, b], 0);
    LateTakesSlot(l.r, zero, two, one, 0);
    assert zero.actions + one.diff == [a];
    CommonPrefixUnique([a], [a, b], 1);
    MinusIs([a], [a, b]);
    assert Minus([a], [a, b]) == [] && [a, b] + [] == [a, b];
    RoundStep(l, one, [zero, at1, at1], l.r.ackNum, [a, b]);
  }

  lemma ThirdRound<E>(l: Link<E>, both: Instruction<E>, a: E, b: E)
    requires At(l, l, [Stamped(0, [], 0), Stamped(1, [a], 0), Stamped(1, [a], 0)], [a], [a, b])
    requires both == Instruction(0, 2, 0, 0, [a, b])
    ensures Round(l, both).selected == [a, b, b]
    ensures l.wire([b]) == [b] ==> Round(l, both).given == [a, b, b]
  {
    var zero, two := Stamped(0, [], 0), Stamped(2, [a, b], 0);
    NewestIsAppended(l.r, both, 0, 0);
    assert zero.actions + both.diff == [a, b];
    MinusPrefix([a, b], [a]);
    assert [a, b] + [b] == [a, b, b];
    RoundAdds(l, both, l.r.states + [two], 2);
  }

  lemma PrependRound<E>(l: Link<E>, inst: Instruction<E>, rest: seq<Label<E>>)
    requires l.s.sent != [] && l.r.states != [] && inst in l.net
    requires ReceiveAsWritten(l.r, inst, 0).0.states != [] && PossibleRun(Round(l, inst), rest)
    ensures PossibleRun(l, [Deliver(inst, 0), FetchDiff] + rest)
    ensures CodeRun(l, [Deliver(inst, 0), FetchDiff] + rest) == CodeRun(Round(l, inst), rest)
  {
    Prepend(NextAsWritten(l, Deliver(inst, 0)), FetchDiff, rest);
    Prepend(l, Deliver(inst, 0), [FetchDiff] + rest);
    assert [Deliver(inst, 0)] + ([FetchDiff] + rest) == [Deliver(inst, 0), FetchDiff] + rest;
  }

  /** State 2 overtakes state 1, which then takes its slot; when state 2 arrives again, its last
      event is handed over a second time. */
  lemma OvertakenRun<E>(l: Link<E>, one: Instruction<E>, both: Instruction<E>, a: E, b: E)
    requires At(l, l, [Stamped(0, [], 0)], [], []) && one in l.net && both in l.net
    requires one == Instruction(0, 1, 0, 0, [a]) && both == Instruction(0, 2, 0, 0, [a, b])
    requires l.wire([a, b]) == [a, b]
    ensures var twice: seq<Label<E>> := [Deliver(both, 0), FetchDiff];
      var labels := twice + ([Deliver(one, 0), FetchDiff] + twice);
      && PossibleRun(l, labels) && CodeRun(l, labels).selected == [a, b, b]
      && (l.wire([b]) == [b] ==> CodeRun(l, labels).given == [a, b, b])
  {
    var l2, twice: seq<Label<E>> := Round(l, both), [Deliver(both, 0), FetchDiff];
    FirstRound(l, both, a, b);
    SecondRound(l2, one, a, b);
    ThirdRound(Round(l2, one), both, a, b);
    assert twice + [] == twice;
    PrependRound(Round(l2, one), both, []);
    PrependRound(l2, one, twice);
    PrependRound(l, both, [Deliver(one, 0), FetchDiff] + twice);
  }

  /** The first event is sent as state 1. */
  lemma FirstTick<E>(wire: seq<E> -> seq<E>, s: Sender<E>, a: E)
    requires s.current == [a] && |s.sent| == 1 && s.sent[0] == Stamped(0, [], 0) && !s.shutdown
    requires wire([a]) == [a]
    ensures Sends(s, AT_ONCE) && TickDiff(s, AT_ONCE) == [a]
    ensures Tick(s, AT_ONCE, 0, wire)
         == (s.(sent := s.sent + [Stamped(1, [a], 0)]), Some(Instruction(0, 1, 0, 0, [a])))
  {
    TickCases(s, AT_ONCE, 0, wire);
    assert SubtractAll(s.sent, []) == s.sent;
    assert Minus([a], []) == [a];
    assert Tick(s, AT_ONCE, 0, wire).0.sent == s.sent + [Stamped(1, [a], 0)];
  }

  /** Once state 1 has timed out, both events are sent as state 2. */
  lemma SecondTick<E>(wire: seq<E> -> seq<E>, a: E, b: E)
    requires wire([a, b]) == [a, b]
    ensures var s := Sender([a, b], [Stamped(0, [], 0), Stamped(1, [a], 0)], false);
      && Sends(s, LATE) && TickDiff(s, LATE) == [a, b]
      && Tick(s, LATE, 0, wire).1 == Some(Instruction(0, 2, 0, 0, [a, b]))
      && Tick(s, LATE, 0, wire).0.sent != []
  {
    var s := Sender([a, b], [Stamped(0, [], 0), Stamped(1, [a], 0)], false);
    assert SubtractAll(s.sent, []) == s.sent;
    assert Minus([a, b], []) == [a, b];
    assert !Recent(s.sent[1], 1000, 0);
    assert Tick(s, LATE, 0, wire).0.sent[0] == s.sent[0];
  }

  lemma PrependTick<E>(l: Link<E>, e: E, p: Poll, rest: seq<Label<E>>)
    requires Enabled(l, Push(e)) && Enabled(Next(l, Push(e)), DoTick(p, 0))
    requires PossibleRun(NextTick(Next(l, Push(e)), p, 0), rest)
    ensures PossibleRun(l, [Push(e), DoTick(p, 0)] + rest)
    ensures CodeRun(l, [Push(e), DoTick(p, 0)] + rest) == CodeRun(NextTick(Next(l, Push(e)), p, 0), rest)
  {
    Prepend(Next(l, Push(e)), DoTick(p, 0), rest);
    Prepend(l, Push(e), [DoTick(p, 0)] + rest);
    assert [Push(e)] + ([DoTick(p, 0)] + rest) == [Push(e), DoTick(p, 0)] + rest;
  }

  /** The receiver's side of `l`, with both instructions in flight. */
  ghost predicate BothInFlight<E>(l: Link<E>, a: E, b: E) {
    && At(l, l, [Stamped(0, [], 0)], [], [])
    && Instruction(0, 1, 0, 0, [a]) in l.net && Instruction(0, 2, 0, 0, [a, b]) in l.net
  }

  ghost function Overtaking<E>(a: E, b: E): seq<Label<E>> {
    [Push(a), DoTick(AT_ONCE, 0)] + ([Push(b), DoTick(LATE, 0)] +
    ([Deliver(Instruction(0, 2, 0, 0, [a, b]), 0), FetchDiff] +
    ([Deliver(Instruction(0, 1, 0, 0, [a]), 0), FetchDiff] +
     [Deliver(Instruction(0, 2, 0, 0, [a, b]), 0), FetchDiff])))
  }

  lemma FirstSend<E>(l: Link<E>, a: E)
    requires l == Init(l.wire, 0) && l.wire([a]) == [a]
    ensures var l1 := Next(l, Push(a)); var l2 := NextTick(l1, AT_ONCE, 0);
      && Enabled(l, Push(a)) && Enabled(l1, DoTick(AT_ONCE, 0))
      && l2.s == Sender([a], [Stamped(0, [], 0), Stamped(1, [a], 0)], false)
      && l2.r == l.r && l2.selected == l2.given == [] && l2.wire == l.wire
      && Instruction(0, 1, 0, 0, [a]) in l2.net
  {
    assert [] + [a] == [a];
    FirstTick(l.wire, Next(l, Push(a)).s, a);
  }

  lemma SecondSend<E>(l: Link<E>, a: E, b: E)
    requires l.s == Sender([a], [Stamped(0, [], 0), Stamped(1, [a], 0)], false)
    requires l.r.states == [Stamped(0, [], 0)] && l.r.last == [] && l.selected == l.given == [] && l.wire([a, b]) == [a, b]
    requires Instruction(0, 1, 0, 0, [a]) in l.net
    ensures var l1 := Next(l, Push(b));
      && Enabled(l, Push(b)) && Enabled(l1, DoTick(LATE, 0))
      && BothInFlight(NextTick(l1, LATE, 0), a, b) && NextTick(l1, LATE, 0).wire == l.wire
  {
    SecondTick(l.wire, a, b);
    assert [a] + [b] == [a, b];
  }

  lemma PushesOnce<E>(e: E, p: Poll, rest: seq<Label<E>>)
    ensures Pushes([Push(e), DoTick(p, 0)] + rest) == [e] + Pushes(rest)
  {
    var labels := [Push(e), DoTick(p, 0)] + rest;
    assert labels[1..] == [DoTick(p, 0)] + rest && labels[1..][1..] == rest;
  }

  lemma PushesNothing<E>(inst: Instruction<E>, rest: seq<Label<E>>)
    ensures Pushes([Deliver(inst, 0), FetchDiff] + rest) == Pushes(rest)
  {
    var labels := [Deliver(inst, 0), FetchDiff] + rest;
    assert labels[1..] == [FetchDiff] + rest && labels[1..][1..] == rest;
  }

  lemma OvertakingPushes<E>(a: E, b: E)
    ensures Pushes(Overtaking(a, b)) == [a, b]
  {
    var one, both := Instruction(0, 1, 0, 0, [a]), Instruction(0, 2, 0, 0, [a, b]);
    var r1: seq<Label<E>> := [Deliver(both, 0), FetchDiff];
    var r2 := [Deliver(one, 0), FetchDiff] + r1;
    var r3 := [Deliver(both, 0), FetchDiff] + r2;
    assert r1 == r1 + [];
    PushesNothing(both, []);
    PushesNothing(one, r1);
    PushesNothing(both, r2);
    PushesOnce(b, LATE, r3);
    PushesOnce(a, AT_ONCE, [Push(b), DoTick(LATE, 0)] + r3);
  }

  /** Exactly-once delivery fails of the code as written, for any two events. */
  lemma ExactlyOnceFailsAsWritten<E>(wire: seq<E> -> seq<E>, a: E, b: E)
    requires wire([a]) == [a] && wire([a, b]) == [a, b]
    ensures PossibleRun(Init(wire, 0), Overtaking(a, b))
    ensures CodeRun(Init(wire, 0), Overtaking(a, b)).selected == [a, b, b]
    ensures wire([b]) == [b] ==> CodeRun(Init(wire, 0), Overtaking(a, b)).given == [a, b, b]
    ensures Pushes(Overtaking(a, b)) == [a, b]
  {
    OvertakingPushes(a, b);
    var l := Init(wire, 0);
    var l2 := NextTick(Next(l, Push(a)), AT_ONCE, 0);
    var l4 := NextTick(Next(l2, Push(b)), LATE, 0);
    FirstSend(l, a);
    SecondSend(l2, a, b);
    OvertakenRun(l4, Instruction(0, 1, 0, 0, [a]), Instruction(0, 2, 0, 0, [a, b]), a, b);
    var receiving: seq<Label<E>> := [Deliver(Instruction(0, 2, 0, 0, [a, b]), 0), FetchDiff] +
      ([Deliver(Instruction(0, 1, 0, 0, [a]), 0), FetchDiff] +
       [Deliver(Instruction(0, 2, 0, 0, [a, b]), 0), FetchDiff]);
    PrependTick(l2, b, LATE, receiving);
    PrependTick(l, a, AT_ONCE, [Push(b), DoTick(LATE, 0)] + receiving);
  }

  // ---------------------------------------------------------------- the stale reference

  /** Compaction moves state 2 into the slot of the reference state 1: the events between them are
      stored twice. */
  lemma StaleReference<E>(r: Receiver<E>, a: E, b: E, c: E, now: int)
    requires r.states == [Stamped(0, [], 0), Stamped(1, [a], 0), Stamped(2, [a, b], 0)]
    ensures var inst := Instruction(1, 3, 0, 1, [b, c]);
      && Last(Receive(r, inst, now).0.states).actions == [a, b, c]
      && ReceiveAsWritten(r, inst, now) ==
         (r.(states := r.states[1..] + [Stamped(3, [a, b, b, c], now)], ackNum := 3), Stored)
  {
    var inst := Instruction(1, 3, 0, 1, [b, c]);
    ThrownAway(r.states, r.states[0], r.states[1], r.states[2]);
    assert InsertAt(r.states[1..], 3) == 2;
    assert [a, b] + [b, c] == [a, b, b, c];
  }

  lemma ThrownAway<E>(states: seq<Stamped<E>>, zero: Stamped<E>, one: Stamped<E>, two: Stamped<E>)
    requires states == [zero, one, two] && zero.num == 0 && one.num == 1 && two.num == 2
    ensures HasNum(states, 1) && !HasNum(states, 3) && IndexOf(states, 1) == 1
    ensures KeepFrom(states, 1) == states[1..] == [one, two] && Compacted(states, 1)[1] == two
  {
    assert states[1..] == [one, two] && states[1] == one;
    KeepFromAll([one, two], 1);
  }
}
