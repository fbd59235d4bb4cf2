/** Two runs without loss, duplication or reordering in which the far side is not given what was
    pushed: one fetch for two deliveries, and a reference that moved under the pointer. */
module InOrder {
  import opened Prefixes
  import opened StateSync
  import opened Links
  import opened Runs
  import opened AsWritten
  import opened UserStreams
  import opened UserDiffs
  import opened TransportSenders

  // ---------------------------------------------------------------- two sends

  /** State 1 was sent just now, so the second event goes out as a diff against it. */
  lemma TickAgainstFirst<E>(s: Sender<E>, wire: seq<E> -> seq<E>, a: E, b: E)
    requires s.current == [a, b] && |s.sent| == 2 && !s.shutdown && wire([b]) == [b]
    requires s.sent[0] == Stamped(0, [], 0) && s.sent[1] == Stamped(1, [a], 0)
    ensures Sends(s, AT_ONCE) && TickDiff(s, AT_ONCE) == [b]
    ensures Tick(s, AT_ONCE, 0, wire)
         == (s.(sent := s.sent + [Stamped(2, [a, b], 0)]), Some(Instruction(1, 2, 0, 0, [b])))
  {
    TickCases(s, AT_ONCE, 0, wire);
    assert SubtractAll(s.sent, []) == s.sent;
    assert Minus([a, b], []) == [a, b];
    MinusPrefix([a, b], [a]);
    assert Recent(s.sent[1], 0, 0);
  }

  /** Both states are sent, neither has arrived. */
  ghost predicate TwoSent<E>(l: Link<E>, a: E, b: E) {
    && l.s == Sender([a, b], [Stamped(0, [], 0), Stamped(1, [a], 0), Stamped(2, [a, b], 0)], false)
    && l.r == Receiver([Stamped(0, [], 0)], [], 0, 0) && l.selected == [] && l.given == []
    && Instruction(0, 1, 0, 0, [a]) in l.net && Instruction(1, 2, 0, 0, [b]) in l.net
  }

  lemma SendsTwo<E>(l: Link<E>, a: E, b: E)
    requires l == Init(l.wire, 0) && l.wire([a]) == [a] && l.wire([b]) == [b]
    ensures var l1 := Next(l, Push(a)); var l2 := NextTick(l1, AT_ONCE, 0);
      var l3 := Next(l2, Push(b)); var l4 := NextTick(l3, AT_ONCE, 0);
      && Enabled(l, Push(a)) && Enabled(l1, DoTick(AT_ONCE, 0))
      && Enabled(l2, Push(b)) && Enabled(l3, DoTick(AT_ONCE, 0))
      && TwoSent(l4, a, b) && l4.wire == l.wire
  {
    FirstSend(l, a);
    var l2 := NextTick(Next(l, Push(a)), AT_ONCE, 0);
    assert [a] + [b] == [a, b];
    TickAgainstFirst(Next(l2, Push(b)).s, l.wire, a, b);
  }

  // ---------------------------------------------------------------- one fetch for two deliveries

  lemma PrependClean<E>(l: Link<E>, a: Label<E>, rest: seq<Label<E>>)
    requires Enabled(l, a) && (a.Deliver? ==> Clean(l.r, a.inst, a.now))
    requires CleanRun(NextAsWritten(l, a), rest)
    ensures CleanRun(l, [a] + rest) && RunAsWritten(l, [a] + rest) == RunAsWritten(NextAsWritten(l, a), rest)
  {
    assert ([a] + rest)[1..] == rest;
  }

  /** Both deliveries append: the receiver then holds all three states. */
  lemma DeliversTwo<E>(l: Link<E>, a: E, b: E)
    requires TwoSent(l, a, b)
    ensures Clean(l.r, Instruction(0, 1, 0, 0, [a]), 0)
    ensures var l1 := NextAsWritten(l, Deliver(Instruction(0, 1, 0, 0, [a]), 0));
      && l1 == WithReceiver(l, [Stamped(0, [], 0), Stamped(1, [a], 0)], [], 1, l.accepted + {1}, [])
      && Clean(l1.r, Instruction(1, 2, 0, 0, [b]), 0)
      && NextAsWritten(l1, Deliver(Instruction(1, 2, 0, 0, [b]), 0)) ==
         WithReceiver(l1, [Stamped(0, [], 0), Stamped(1, [a], 0), Stamped(2, [a, b], 0)], [], 2, l1.accepted + {2}, [])
  {
    var first, second := Instruction(0, 1, 0, 0, [a]), Instruction(1, 2, 0, 0, [b]);
    var zero, one, two := Stamped(0, [], 0), Stamped(1, [a], 0), Stamped(2, [a, b], 0);
    NewestIsAppended(l.r, first, 0, 0);
    assert [] + [a] == [a] && [zero] + [one] == [zero, one];
    StoreStep(l, first, [zero, one], 1);
    var l1 := NextAsWritten(l, Deliver(first, 0));
    NewestIsAppended(l1.r, second, 1, 0);
    assert [a] + [b] == [a, b] && [zero, one] + [two] == [zero, one, two];
    StoreStep(l1, second, [zero, one, two], 2);
  }

  ghost function Together<E>(a: E, b: E): seq<Label<E>> {
    [Deliver(Instruction(0, 1, 0, 0, [a]), 0)] + ([Deliver(Instruction(1, 2, 0, 0, [b]), 0)] + [FetchDiff])
  }

  lemma FetchesTogether<E>(l: Link<E>, a: E, b: E)
    requires TwoSent(l, a, b)
    ensures CleanRun(l, Together(a, b))
    ensures RunAsWritten(l, Together(a, b)).selected == [a, b]
    ensures RunAsWritten(l, Together(a, b)).given == l.wire([a, b])
  {
    DeliversTwo(l, a, b);
    var l1 := NextAsWritten(l, Deliver(Instruction(0, 1, 0, 0, [a]), 0));
    var l2 := NextAsWritten(l1, Deliver(Instruction(1, 2, 0, 0, [b]), 0));
    assert [] + Minus([a, b], []) == [a, b];
    FetchStep(l2, [a, b]);
    var last: seq<Label<E>> := [FetchDiff];
    assert last + [] == last;
    PrependClean(l2, FetchDiff, []);
    PrependClean(l1, Deliver(Instruction(1, 2, 0, 0, [b]), 0), [FetchDiff]);
    PrependClean(l, Deliver(Instruction(0, 1, 0, 0, [a]), 0), [Deliver(Instruction(1, 2, 0, 0, [b]), 0)] + [FetchDiff]);
  }

  ghost function TwoPushes<E>(a: E, b: E, rest: seq<Label<E>>): seq<Label<E>> {
    [Push(a), DoTick(AT_ONCE, 0)] + ([Push(b), DoTick(AT_ONCE, 0)] + rest)
  }

  lemma PushedTwice<E>(a: E, b: E, rest: seq<Label<E>>)
    ensures Pushes(TwoPushes(a, b, rest)) == [a, b] + Pushes(rest)
  {
    PushesOnce(b, AT_ONCE, rest);
    PushesOnce(a, AT_ONCE, [Push(b), DoTick(AT_ONCE, 0)] + rest);
    assert [a] + ([b] + Pushes(rest)) == [a, b] + Pushes(rest);
  }

  lemma PushAndTick<E>(l: Link<E>, e: E, p: Poll, rest: seq<Label<E>>)
    requires Enabled(l, Push(e)) && Enabled(Next(l, Push(e)), DoTick(p, 0))
    requires CleanRun(NextTick(Next(l, Push(e)), p, 0), rest)
    ensures CleanRun(l, [Push(e), DoTick(p, 0)] + rest)
    ensures RunAsWritten(l, [Push(e), DoTick(p, 0)] + rest) == RunAsWritten(NextTick(Next(l, Push(e)), p, 0), rest)
  {
    PrependClean(Next(l, Push(e)), DoTick(p, 0), rest);
    PrependClean(l, Push(e), [DoTick(p, 0)] + rest);
    assert [Push(e)] + ([DoTick(p, 0)] + rest) == [Push(e), DoTick(p, 0)] + rest;
  }

  lemma {:induction false} NothingPushed<E>(labels: seq<Label<E>>)
    requires forall i :: 0 <= i < |labels| ==> !labels[i].Push?
    ensures Pushes(labels) == []
  {
    if labels != [] {
      NothingPushed(labels[1..]);
    }
  }

  lemma TogetherPushesNothing<E>(a: E, b: E)
    ensures Pushes(Together(a, b)) == []
  {
    NothingPushed(Together(a, b));
  }

  /** Two sends, and whatever clean run follows. */
  lemma CleanAfterTwo<E>(wire: seq<E> -> seq<E>, a: E, b: E, l: Link<E>, rest: seq<Label<E>>)
    requires wire([a]) == [a] && wire([b]) == [b]
    requires l == AfterTwo(wire, a, b) && CleanRun(l, rest)
    ensures CleanRun(Init(wire, 0), TwoPushes(a, b, rest))
    ensures RunAsWritten(Init(wire, 0), TwoPushes(a, b, rest)) == RunAsWritten(l, rest)
  {
    var l0 := Init(wire, 0);
    var l2 := NextTick(Next(l0, Push(a)), AT_ONCE, 0);
    SendsTwo(l0, a, b);
    PushAndTick(l2, b, AT_ONCE, rest);
    PushAndTick(l0, a, AT_ONCE, [Push(b), DoTick(AT_ONCE, 0)] + rest);
  }

  /** The link once both events were sent. */
  ghost function AfterTwo<E>(wire: seq<E> -> seq<E>, a: E, b: E): Link<E>
    requires wire([a]) == [a] && wire([b]) == [b]
  {
    SendsTwo(Init(wire, 0), a, b);
    NextTick(Next(NextTick(Next(Init(wire, 0), Push(a)), AT_ONCE, 0), Push(b)), AT_ONCE, 0)
  }

  lemma AfterTwoIs<E>(wire: seq<E> -> seq<E>, a: E, b: E)
    requires wire([a]) == [a] && wire([b]) == [b]
    ensures TwoSent(AfterTwo(wire, a, b), a, b) && AfterTwo(wire, a, b).wire == wire
  {
    SendsTwo(Init(wire, 0), a, b);
  }

  /** Every tick's events survive the wire and every delivery is clean, yet the one fetch gives what
      the wire leaves of both events together. */
  lemma OneFetchForTwo<E>(wire: seq<E> -> seq<E>, a: E, b: E)
    requires wire([a]) == [a] && wire([b]) == [b]
    ensures var labels := TwoPushes(a, b, Together(a, b));
      && CleanRun(Init(wire, 0), labels) && Pushes(labels) == [a, b]
      && RunAsWritten(Init(wire, 0), labels).selected == [a, b]
      && RunAsWritten(Init(wire, 0), labels).given == wire([a, b])
  {
    var l := AfterTwo(wire, a, b);
    AfterTwoIs(wire, a, b);
    FetchesTogether(l, a, b);
    CleanAfterTwo(wire, a, b, l, Together(a, b));
    TogetherPushesNothing(a, b);
    PushedTwice(a, b, Together(a, b));
    assert [a, b] + [] == [a, b];
  }

  lemma AloneCarried(e: UserEvent, split: string -> seq<string>)
    requires e.Resize? ==> FitsInt32(e.width) && FitsInt32(e.height)
    requires e.UserByte? ==> split(e.chs) == [e.chs]
    ensures Carried([e], split) == [e]
  {
    var s := [e];
    assert s[..0] == [] && Message([]) == [];
    var um := AddEvent([], e);
    assert Message(s) == um && |um| == 1 && um[1..] == [];
    match e
    case UserByte(chs) =>
      assert KeyEvents(split(chs)) == [e];
      assert Rebuild(um, split) == KeyEvents(split(chs)) + Rebuild(um[1..], split);
    case Resize(w, h) =>
      assert Rebuild(um, split) == [Resize(Int32(w), Int32(h))] + Rebuild(um[1..], split);
  }

  lemma KeyAfterResize(r: UserEvent, k: UserEvent, split: string -> seq<string>)
    requires r.Resize? && k.UserByte? && split(k.chs) == [k.chs]
    ensures Carried([r, k], split) == [k]
  {
    var s, first := [r, k], [r];
    assert s[..1] == first && first[..0] == [] && Message([]) == [];
    assert Message(first) == AddEvent([], r);
    assert Message(s) == AddEvent(Message(first), k) == [Keystroke(k.chs)];
    var um := [Keystroke(k.chs)];
    assert um[1..] == [] && KeyEvents(split(k.chs)) == [k];
    assert Rebuild(um, split) == KeyEvents(split(k.chs)) + Rebuild(um[1..], split);
  }

  /** A resize and then a key, each in its own instruction, both delivered before the program
      fetches: it is given the key alone. */
  lemma ResizeGivenUp(r: UserEvent, k: UserEvent, split: string -> seq<string>)
    requires r.Resize? && FitsInt32(r.width) && FitsInt32(r.height)
    requires k.UserByte? && split(k.chs) == [k.chs]
    ensures var l, labels := Init(Wire(split), 0), TwoPushes(r, k, Together(r, k));
      CleanRun(l, labels) && Pushes(labels) == [r, k] && RunAsWritten(l, labels).given == [k]
  {
    AloneCarried(r, split);
    AloneCarried(k, split);
    KeyAfterResize(r, k, split);
    OneFetchForTwo(Wire(split), r, k);
  }

  // ---------------------------------------------------------------- a reference that moved

  /** Only state 1 was acknowledged, and by now state 2 has timed out: the third instruction starts
      from state 1 and throws state 0 away. */
  lemma TickAgainstAcked<E>(s: Sender<E>, wire: seq<E> -> seq<E>, a: E, b: E, c: E)
    requires s.current == [a, b, c] && |s.sent| == 2 && !s.shutdown && wire([b, c]) == [b, c]
    requires s.sent[0] == Stamped(1, [a], 0) && s.sent[1] == Stamped(2, [a, b], 0)
    ensures Sends(s, LATE) && TickDiff(s, LATE) == [b, c]
    ensures Tick(s, LATE, 0, wire).1 == Some(Instruction(1, 3, 0, 1, [b, c]))
  {
    TickCases(s, LATE, 0, wire);
    var r := Rationalize(s);
    MinusPrefix([a, b, c], [a]);
    MinusPrefix([a], [a]);
    assert r.current == [b, c] && r.sent[0] == Stamped(1, [], 0);
    assert !Recent(s.sent[1], 1000, 0);
    assert Minus([b, c], []) == [b, c];
    assert Tick(s, LATE, 0, wire).0.sent[0] == r.sent[0];
  }

  /** The receiver after two rounds, the second instruction's acknowledgement still under way. */
  ghost predicate TwoReceived<E>(l: Link<E>, a: E, b: E) {
    && l.s == Sender([a, b], [Stamped(1, [a], 0), Stamped(2, [a, b], 0)], false)
    && l.r.states == [Stamped(0, [], 0), Stamped(1, [a], 0), Stamped(2, [a, b], 0)]
    && l.r.last == [a, b] && l.selected == l.given == [a, b]
  }

  lemma FirstArrives<E>(l: Link<E>, a: E, b: E)
    requires TwoSent(l, a, b) && l.wire([a]) == [a]
    ensures var l1 := Round(l, Instruction(0, 1, 0, 0, [a]));
      && At(l1, l, [Stamped(0, [], 0), Stamped(1, [a], 0)], [a], [a])
      && l1.r.ackNum == 1 && l1.wire == l.wire
      && ReceiveAsWritten(l.r, Instruction(0, 1, 0, 0, [a]), 0).0.states != []
  {
    var zero, one := Stamped(0, [], 0), Stamped(1, [a], 0);
    NewestIsAppended(l.r, Instruction(0, 1, 0, 0, [a]), 0, 0);
    assert [] + [a] == [a] && [zero] + [one] == [zero, one];
    assert Minus([a], []) == [a];
    assert [] + Minus([a], []) == [a];
    RoundStep(l, Instruction(0, 1, 0, 0, [a]), [zero, one], 1, [a]);
  }

  lemma SecondArrives<E>(l: Link<E>, a: E, b: E)
    requires At(l, l, [Stamped(0, [], 0), Stamped(1, [a], 0)], [a], [a]) && l.wire([b]) == [b]
    ensures var l1 := Round(l, Instruction(1, 2, 0, 0, [b]));
      && At(l1, l, [Stamped(0, [], 0), Stamped(1, [a], 0), Stamped(2, [a, b], 0)], [a, b], [a, b]) && l1.wire == l.wire
      && ReceiveAsWritten(l.r, Instruction(1, 2, 0, 0, [b]), 0).0.states != []
  {
    var zero, one, two := Stamped(0, [], 0), Stamped(1, [a], 0), Stamped(2, [a, b], 0);
    NewestIsAppended(l.r, Instruction(1, 2, 0, 0, [b]), 1, 0);
    assert [a] + [b] == [a, b] && [zero, one] + [two] == [zero, one, two];
    MinusPrefix([a, b], [a]);
    assert [a] + Minus([a, b], [a]) == [a, b];
    RoundStep(l, Instruction(1, 2, 0, 0, [b]), [zero, one, two], 2, [a, b]);
  }

  /** The acknowledgement of state 1 arrives. */
  lemma AckArrives<E>(l: Link<E>, a: E, b: E)
    requires l.s == Sender([a, b], [Stamped(0, [], 0), Stamped(1, [a], 0), Stamped(2, [a, b], 0)], false)
    requires l.r.states != [] && l.r.ackNum == 1
    ensures var l1 := Next(l, SendAck);
      && Enabled(l, SendAck) && Enabled(l1, DeliverAck(1))
      && Next(l1, DeliverAck(1)) ==
         l1.(s := Sender([a, b], [Stamped(1, [a], 0), Stamped(2, [a, b], 0)], false))
  {
    var zero, one, two := Stamped(0, [], 0), Stamped(1, [a], 0), Stamped(2, [a, b], 0);
    var sent := [zero, one, two];
    assert sent[1].num == 1;
    assert sent[1..] == [one, two];
    KeepFromAll([one, two], 1);
    assert KeepFrom(sent, 1) == [one, two];
  }

  /** The third instruction arrives: compaction has moved state 2 under the reference. */
  lemma ThirdArrives<E>(l: Link<E>, a: E, b: E, c: E)
    requires l.s.sent != [] && l.r.last == [a, b] && l.selected == l.given == [a, b] && l.wire([b, c]) == [b, c]
    requires l.r.states == [Stamped(0, [], 0), Stamped(1, [a], 0), Stamped(2, [a, b], 0)]
    ensures var inst := Instruction(1, 3, 0, 1, [b, c]);
      && Round(l, inst).selected == Round(l, inst).given == [a, b, b, c]
      && ReceiveAsWritten(l.r, inst, 0).0.states != []
      && l.s.sent != [] && Round(l, inst).s == l.s
  {
    var inst := Instruction(1, 3, 0, 1, [b, c]);
    StaleReference(l.r, a, b, c, 0);
    var states := l.r.states[1..] + [Stamped(3, [a, b, b, c], 0)];
    assert Last(states).actions == [a, b, b, c];
    MinusPrefix([a, b, b, c], [a, b]);
    assert [a, b] + [b, c] == [a, b, b, c];
    RoundAdds(l, inst, states, 3);
  }

  lemma ThirdIsSent<E>(l: Link<E>, a: E, b: E, c: E)
    requires TwoReceived(l, a, b) && l.wire([b, c]) == [b, c]
    ensures var l1 := Next(l, Push(c)); var l2 := NextTick(l1, LATE, 0);
      && Enabled(l, Push(c)) && Enabled(l1, DoTick(LATE, 0))
      && l2.r == l.r && l2.selected == l.selected && l2.given == l.given && l2.wire == l.wire && l2.s.sent != []
      && Instruction(1, 3, 0, 1, [b, c]) in l2.net
  {
    assert [a, b] + [c] == [a, b, c];
    TickAgainstAcked(Next(l, Push(c)).s, l.wire, a, b, c);
  }

  // the run from where both events were sent, in three pieces

  ghost function LastPiece<E>(b: E, c: E): seq<Label<E>> {
    [Push(c), DoTick(LATE, 0)] + [Deliver(Instruction(1, 3, 0, 1, [b, c]), 0), FetchDiff]
  }

  ghost function MiddlePiece<E>(b: E, c: E): seq<Label<E>> {
    [SendAck] + ([DeliverAck(1)] + ([Deliver(Instruction(1, 2, 0, 0, [b]), 0), FetchDiff] + LastPiece(b, c)))
  }

  ghost function InOrderRun<E>(a: E, b: E, c: E): seq<Label<E>> {
    [Deliver(Instruction(0, 1, 0, 0, [a]), 0), FetchDiff] + MiddlePiece(b, c)
  }

  lemma RunsLast<E>(l: Link<E>, a: E, b: E, c: E)
    requires TwoReceived(l, a, b) && l.wire([b, c]) == [b, c]
    ensures PossibleRun(l, LastPiece(b, c)) && CodeRun(l, LastPiece(b, c)).selected == CodeRun(l, LastPiece(b, c)).given == [a, b, b, c]
  {
    var inst := Instruction(1, 3, 0, 1, [b, c]);
    ThirdIsSent(l, a, b, c);
    var l2 := NextTick(Next(l, Push(c)), LATE, 0);
    ThirdArrives(l2, a, b, c);
    RunsRound(l2, inst);
    PrependTick(l, c, LATE, [Deliver(inst, 0), FetchDiff]);
  }

  lemma RunsRound<E>(l: Link<E>, inst: Instruction<E>)
    requires l.s.sent != [] && l.r.states != [] && inst in l.net && Round(l, inst).s.sent != []
    requires ReceiveAsWritten(l.r, inst, 0).0.states != []
    ensures PossibleRun(l, [Deliver(inst, 0), FetchDiff])
    ensures CodeRun(l, [Deliver(inst, 0), FetchDiff]) == Round(l, inst)
  {
    var round: seq<Label<E>> := [Deliver(inst, 0), FetchDiff];
    assert round + [] == round;
    PrependRound(l, inst, []);
  }

  lemma RunsMiddle<E>(l: Link<E>, a: E, b: E, c: E)
    requires At(l, l, [Stamped(0, [], 0), Stamped(1, [a], 0)], [a], [a]) && l.r.ackNum == 1
    requires l.s == Sender([a, b], [Stamped(0, [], 0), Stamped(1, [a], 0), Stamped(2, [a, b], 0)], false)
    requires Instruction(1, 2, 0, 0, [b]) in l.net && l.wire([b]) == [b] && l.wire([b, c]) == [b, c]
    ensures PossibleRun(l, MiddlePiece(b, c)) && CodeRun(l, MiddlePiece(b, c)).selected == CodeRun(l, MiddlePiece(b, c)).given == [a, b, b, c]
  {
    var second := Instruction(1, 2, 0, 0, [b]);
    AckArrives(l, a, b);
    var l1 := Next(l, SendAck);
    var l2 := Next(l1, DeliverAck(1));
    SecondArrives(l2, a, b);
    RunsLast(Round(l2, second), a, b, c);
    PrependRound(l2, second, LastPiece(b, c));
    var rest := [Deliver(second, 0), FetchDiff] + LastPiece(b, c);
    Prepend(l1, DeliverAck(1), rest);
    Prepend(l, SendAck, [DeliverAck(1)] + rest);
  }

  lemma RunsInOrder<E>(l: Link<E>, a: E, b: E, c: E)
    requires TwoSent(l, a, b) && l.wire([a]) == [a] && l.wire([b]) == [b] && l.wire([b, c]) == [b, c]
    ensures PossibleRun(l, InOrderRun(a, b, c)) && CodeRun(l, InOrderRun(a, b, c)).selected == CodeRun(l, InOrderRun(a, b, c)).given == [a, b, b, c]
  {
    FirstArrives(l, a, b);
    RunsMiddle(Round(l, Instruction(0, 1, 0, 0, [a])), a, b, c);
    PrependRound(l, Instruction(0, 1, 0, 0, [a]), MiddlePiece(b, c));
  }

  lemma InOrderPushes<E>(a: E, b: E, c: E)
    ensures Pushes(TwoPushes(a, b, InOrderRun(a, b, c))) == [a, b, c]
  {
    var last: seq<Label<E>> := [Deliver(Instruction(1, 3, 0, 1, [b, c]), 0), FetchDiff];
    assert last + [] == last;
    PushesNothing(Instruction(1, 3, 0, 1, [b, c]), []);
    PushesOnce(c, LATE, last);
    PushesNothing(Instruction(1, 2, 0, 0, [b]), LastPiece(b, c));
    var rest := [Deliver(Instruction(1, 2, 0, 0, [b]), 0), FetchDiff] + LastPiece(b, c);
    assert MiddlePiece(b, c)[1..] == [DeliverAck(1)] + rest && MiddlePiece(b, c)[1..][1..] == rest;
    PushesNothing(Instruction(0, 1, 0, 0, [a]), MiddlePiece(b, c));
    PushedTwice(a, b, InOrderRun(a, b, c));
    assert [a, b] + [c] == [a, b, c];
  }

  /** Exactly-once delivery fails of the code as written in a run that loses, repeats and reorders
      nothing: the second event is handed over twice. */
  lemma ExactlyOnceFailsInOrder<E>(wire: seq<E> -> seq<E>, a: E, b: E, c: E)
    requires wire([a]) == [a] && wire([b]) == [b] && wire([b, c]) == [b, c]
    ensures var labels := TwoPushes(a, b, InOrderRun(a, b, c));
      && PossibleRun(Init(wire, 0), labels) && Pushes(labels) == [a, b, c]
      && CodeRun(Init(wire, 0), labels).selected == [a, b, b, c]
      && CodeRun(Init(wire, 0), labels).given == [a, b, b, c]
  {
    var l0 := Init(wire, 0);
    var l := AfterTwo(wire, a, b);
    AfterTwoIs(wire, a, b);
    SendsTwo(l0, a, b);
    RunsInOrder(l, a, b, c);
    var l2 := NextTick(Next(l0, Push(a)), AT_ONCE, 0);
    PrependTick(l2, b, AT_ONCE, InOrderRun(a, b, c));
    PrependTick(l0, a, AT_ONCE, [Push(b), DoTick(AT_ONCE, 0)] + InOrderRun(a, b, c));
    InOrderPushes(a, b, c);
  }
}
