/** What holds over whole runs of one direction of the protocol. */
module Runs {
  import opened Prefixes
  import opened StateSync
  import opened Links

  /** Every label may be taken in the state the labels before it lead to. */
  ghost predicate Legal<E>(l: Link<E>, labels: seq<Label<E>>)
    decreases labels
  {
    labels == [] || (Enabled(l, labels[0]) && Legal(Next(l, labels[0]), labels[1..]))
  }

  ghost function Run<E>(l: Link<E>, labels: seq<Label<E>>): Link<E>
    requires Legal(l, labels)
    decreases labels
  {
    if labels == [] then l else Run(Next(l, labels[0]), labels[1..])
  }

  /** The events the labels push, in order. */
  ghost function Pushes<E>(labels: seq<Label<E>>): seq<E> {
    if labels == [] then []
    else (if labels[0].Push? then [labels[0].e] else []) + Pushes(labels[1..])
  }

  lemma InitInv<E>(wire: seq<E> -> seq<E>, time: int)
    ensures Inv(Init(wire, time))
  {
  }

  /** Every enabled step keeps the invariant. */
  lemma StepKeeps<E>(l: Link<E>, a: Label<E>)
    requires Inv(l) && Enabled(l, a)
    ensures Inv(Next(l, a))
  {
    match a
    case Push(e) => PushKeeps(l, e);
    case Wait => WaitKeeps(l);
    case DoTick(p, ack) => TickKeeps(l, p, ack);
    case Deliver(inst, now) => DeliverKeeps(l, inst, now);
    case SendAck =>
    case DeliverAck(num) => AckKeeps(l, num);
    case FetchDiff => FetchKeeps(l);
    case StartShutdown =>
  }

  /** No step forgets: recorded streams stay as first recorded, accepted numbers stay accepted, the
      acknowledged number does not fall, and what was selected and given is only added to. */
  ghost predicate Advances<E>(l: Link<E>, l': Link<E>) {
    && Extends(l.hist, l'.hist)
    && l.accepted <= l'.accepted && l.acks <= l'.acks && l.net <= l'.net
    && l.r.ackNum <= l'.r.ackNum
    && l.selected <= l'.selected && l.given <= l'.given
    && (l.overflowed ==> l'.overflowed)
  }

  lemma StepAdvances<E>(l: Link<E>, a: Label<E>)
    requires Inv(l) && Enabled(l, a)
    ensures Advances(l, Next(l, a))
  {
    match a
    case Push(e) =>
    case Wait => RationalizeKeeps(l);
    case DoTick(p, ack) => TickAdvances(l, p, ack);
    case Deliver(inst, now) => DeliverAdvances(l, inst, now);
    case SendAck =>
    case DeliverAck(num) =>
    case FetchDiff =>
    case StartShutdown =>
  }

  lemma DeliverAdvances<E>(l: Link<E>, inst: Instruction<E>, now: int)
    requires Inv(l) && inst in l.net
    ensures Advances(l, Next(l, Deliver(inst, now)))
  {
    DeliverKeeps(l, inst, now);
  }

  lemma StepPushes<E>(l: Link<E>, a: Label<E>)
    requires Inv(l) && Enabled(l, a)
    ensures Pushed(Next(l, a)) == Pushed(l) + (if a.Push? then [a.e] else [])
  {
    match a
    case DoTick(p, ack) => TickAdvances(l, p, ack);
    case Wait => RationalizeKeeps(l);
    case _ =>
  }

  lemma TickAdvances<E>(l: Link<E>, p: Poll, ack: nat)
    requires SenderInv(l)
    ensures Advances(l, NextTick(l, p, ack)) && Pushed(NextTick(l, p, ack)) == Pushed(l)
  {
    RationalizeKeeps(l);
    if Sends(l.s, p) {
      SendAdvances(Rationalized(l), AssumedIndex(l.s.sent, 0, p.now, p.timeout), TickDiff(l.s, p), ack, p.stamp);
    }
  }

  lemma SendAdvances<E>(l: Link<E>, k: nat, diff: seq<E>, ack: nat, stamp: int)
    requires k < |l.s.sent|
    ensures Advances(l, Sent(l, k, diff, ack, stamp)) && Pushed(Sent(l, k, diff, ack, stamp)) == Pushed(l)
  {
  }

  lemma AdvancesTrans<E>(a: Link<E>, b: Link<E>, c: Link<E>)
    requires Advances(a, b) && Advances(b, c)
    ensures Advances(a, c)
  {
  }

  lemma {:induction false} RunInv<E>(l: Link<E>, labels: seq<Label<E>>)
    requires Inv(l) && Legal(l, labels)
    ensures Inv(Run(l, labels))
    decreases labels
  {
    if labels != [] {
      StepKeeps(l, labels[0]);
      RunInv(Next(l, labels[0]), labels[1..]);
    }
  }

  lemma {:induction false} RunAdvances<E>(l: Link<E>, labels: seq<Label<E>>)
    requires Inv(l) && Legal(l, labels)
    ensures Advances(l, Run(l, labels))
    decreases labels
  {
    if labels != [] {
      StepKeeps(l, labels[0]);
      StepAdvances(l, labels[0]);
      RunAdvances(Next(l, labels[0]), labels[1..]);
      AdvancesTrans(l, Next(l, labels[0]), Run(l, labels));
    }
  }

  lemma {:induction false} RunPushes<E>(l: Link<E>, labels: seq<Label<E>>)
    requires Inv(l) && Legal(l, labels)
    ensures Pushed(Run(l, labels)) == Pushed(l) + Pushes(labels)
    decreases labels
  {
    if labels != [] {
      StepKeeps(l, labels[0]);
      StepPushes(l, labels[0]);
      RunPushes(Next(l, labels[0]), labels[1..]);
      Regroup(Pushed(l), if labels[0].Push? then [labels[0].e] else [], Pushes(labels[1..]));
    }
  }

  // ---------------------------------------------------------------- delivery

  /** Exactly-once, in-order delivery: whatever the network loses, repeats or reorders, what the
      fetches selected so far is a prefix of what was pushed; right after a fetch it is the whole
      stream of the newest state the receiver then held. */
  lemma ExactlyOnce<E>(wire: seq<E> -> seq<E>, time: int, labels: seq<Label<E>>)
    requires Legal(Init(wire, time), labels)
    ensures var l := Run(Init(wire, time), labels);
      && l.selected <= Pushes(labels)
      && l.s.sent != [] && l.r.states != [] && Newest(l) in l.hist
      && Next(l, FetchDiff).selected == l.hist[Newest(l)] == l.rbase + Last(l.r.states).actions
  {
    InitInv(wire, time);
    RunInv(Init(wire, time), labels);
    RunPushes(Init(wire, time), labels);
    var l := Run(Init(wire, time), labels);
    assert Pushed(l) == Pushes(labels);
    FetchKeepsReceiver(l);
  }

  /** Agreement: every state the receiver holds is the stream its number was first assigned for, and
      so is every state the sender still has under that number, up to what each side subtracted. */
  lemma Agreement<E>(wire: seq<E> -> seq<E>, time: int, labels: seq<Label<E>>, i: nat)
    requires Legal(Init(wire, time), labels) && i < |Run(Init(wire, time), labels).r.states|
    ensures var l := Run(Init(wire, time), labels);
      var num := l.r.states[i].num;
      && num in l.hist && l.rbase + l.r.states[i].actions == l.hist[num]
      && forall j :: 0 <= j < |l.s.sent| && l.s.sent[j].num == num ==> l.sbase + l.s.sent[j].actions == l.hist[num]
  {
    InitInv(wire, time);
    RunInv(Init(wire, time), labels);
  }

  /** Whatever number a tick sends under, new or old, stands for everything pushed so far. */
  lemma TickRecords<E>(l: Link<E>, p: Poll, ack: nat)
    requires Inv(l) && Enabled(l, DoTick(p, ack)) && Sends(l.s, p)
    ensures var l1 := Next(l, DoTick(p, ack));
      var inst := Tick(l.s, p, ack, l.wire).1.value;
      && Inv(l1) && inst in l1.net
      && inst.oldNum == l.s.sent[AssumedIndex(l.s.sent, 0, p.now, p.timeout)].num
      && inst.newNum in l1.hist && l1.hist[inst.newNum] == Pushed(l1) == Pushed(l)
  {
    WaitKeeps(l);
    RationalizeKeeps(l);
    TickKeeps(l, p, ack);
    SendKeepsSender(Rationalized(l), AssumedIndex(l.s.sent, 0, p.now, p.timeout), TickDiff(l.s, p), ack, p.stamp);
  }

  /** What a sent number stands for never changes afterwards. */
  lemma RecordedForGood<E>(l: Link<E>, p: Poll, ack: nat, labels: seq<Label<E>>)
    requires Inv(l) && Enabled(l, DoTick(p, ack)) && Sends(l.s, p)
    requires Legal(Next(l, DoTick(p, ack)), labels)
    ensures var num := Tick(l.s, p, ack, l.wire).1.value.newNum;
      && num in Run(Next(l, DoTick(p, ack)), labels).hist
      && Run(Next(l, DoTick(p, ack)), labels).hist[num] == Pushed(l)
  {
    TickRecords(l, p, ack);
    RunAdvances(Next(l, DoTick(p, ack)), labels);
  }

  /** What the receiver holds under the number of a tick's instruction is everything that was pushed
      before that tick, however much later it is looked at. */
  lemma HeldIsWhatWasSent<E>(wire: seq<E> -> seq<E>, time: int, before: seq<Label<E>>, p: Poll, ack: nat,
                             after: seq<Label<E>>, i: nat)
    requires Legal(Init(wire, time), before)
    requires var l := Run(Init(wire, time), before);
      && Enabled(l, DoTick(p, ack)) && Sends(l.s, p) && Legal(Next(l, DoTick(p, ack)), after)
      && var l' := Run(Next(l, DoTick(p, ack)), after);
      i < |l'.r.states| && l'.r.states[i].num == Tick(l.s, p, ack, l.wire).1.value.newNum
    ensures var l := Run(Init(wire, time), before);
      var l' := Run(Next(l, DoTick(p, ack)), after);
      l'.rbase + l'.r.states[i].actions == Pushes(before)
  {
    var l := Run(Init(wire, time), before);
    InitInv(wire, time);
    RunInv(Init(wire, time), before);
    RunPushes(Init(wire, time), before);
    assert Pushed(l) == Pushes(before);
    TickRecords(l, p, ack);
    RecordedForGood(l, p, ack, after);
    RunInv(Next(l, DoTick(p, ack)), after);
  }

  /** While no sent state was dropped unacknowledged, the receiver still holds the state the
      sender counts as known. */
  lemma ReferenceSurvives<E>(wire: seq<E> -> seq<E>, time: int, labels: seq<Label<E>>)
    requires Legal(Init(wire, time), labels) && !Run(Init(wire, time), labels).overflowed
    ensures var l := Run(Init(wire, time), labels);
      l.s.sent != [] && HasNum(l.r.states, l.s.sent[0].num)
  {
    InitInv(wire, time);
    RunInv(Init(wire, time), labels);
    RunPushes(Init(wire, time), labels);
  }

  /** Every acknowledgement in flight names a state the receiver accepted, and names no more than
      the receiver's newest; without overflow, a shutdown seen as acknowledged was accepted, and
      its state is everything that was pushed. */
  lemma AcksAreTruthful<E>(wire: seq<E> -> seq<E>, time: int, labels: seq<Label<E>>)
    requires Legal(Init(wire, time), labels)
    ensures var l := Run(Init(wire, time), labels);
      && l.s.sent != [] && l.r.states != []
      && (forall n :: n in l.acks ==> n in l.accepted && n <= Newest(l))
      && l.r.ackNum == Newest(l)
      && (!l.overflowed && l.s.sent[0].num == SHUTDOWN_NUM ==>
            && SHUTDOWN_NUM in l.accepted && SHUTDOWN_NUM in l.hist
            && l.hist[SHUTDOWN_NUM] == Pushes(labels))
  {
    InitInv(wire, time);
    RunInv(Init(wire, time), labels);
    RunPushes(Init(wire, time), labels);
    assert Pushed(Run(Init(wire, time), labels)) == Pushes(labels);
  }

  // ---------------------------------------------------------------- progress

  /** No unacknowledged state was sent recently enough to be given the benefit of the doubt. */
  ghost predicate TimedOut<E>(s: Sender<E>, p: Poll) {
    forall i :: 1 <= i < |s.sent| ==> p.now - s.sent[i].timestamp >= p.timeout + 100
  }

  /** One tick, and the delivery of what it sent. */
  ghost function Exchange<E>(l: Link<E>, p: Poll, ack: nat, now: int): Link<E>
    requires l.s.sent != [] && l.r.states != []
  {
    var l1 := Next(l, DoTick(p, ack));
    match Tick(l.s, p, ack, l.wire).1
    case None => l1
    case Some(inst) => if l1.s.sent != [] then Next(l1, Deliver(inst, now)) else l1
  }

  /** The newest state the receiver holds is everything that was pushed. */
  ghost predicate UpToDate<E>(l: Link<E>)
    requires l.r.states != []
  {
    Newest(l) in l.hist && l.hist[Newest(l)] == Pushed(l)
  }

  lemma HoldingAllIsUpToDate<E>(l: Link<E>, num: nat)
    requires Inv(l) && HasNum(l.r.states, num) && l.hist[num] == Pushed(l)
    ensures UpToDate(l)
  {
    HeldIsAccepted(l, num);
    assert l.hist[num] <= l.hist[Newest(l)] <= Pushed(l);
  }

  /** Delivering an instruction that diffs against `oldNum` and carries the whole stream. */
  lemma DeliverAll<E>(l: Link<E>, inst: Instruction<E>, now: int)
    requires Inv(l) && inst in l.net && |l.r.states| <= RECEIVED_LIMIT && l.hist[inst.newNum] == Pushed(l)
    ensures Inv(Next(l, Deliver(inst, now)))
    ensures UpToDate(Next(l, Deliver(inst, now))) <==> (HasNum(l.r.states, inst.oldNum) || UpToDate(l))
  {
    var l' := Next(l, Deliver(inst, now));
    DeliverKeeps(l, inst, now);
    if HasNum(l.r.states, inst.newNum) {
      HoldingAllIsUpToDate(l, inst.newNum);
    } else if HasNum(l.r.states, inst.oldNum) {
      StoredIsHeld(l, inst, now);
      HoldingAllIsUpToDate(l', inst.newNum);
    }
  }

  lemma SameUpToDate<E>(l: Link<E>, l': Link<E>)
    requires Inv(l) && l'.r == l.r && Pushed(l') == Pushed(l) && Extends(l.hist, l'.hist)
    ensures UpToDate(l') <==> UpToDate(l)
  {
    assert HasNum(l.r.states, Newest(l));
    HeldIsAccepted(l, Newest(l));
  }

  /** Once every unacknowledged state has timed out, delivering the next instruction brings the
      receiver up to date exactly if it holds the sender's front state (or lacked nothing). */
  lemma NotStuckIff<E>(l: Link<E>, p: Poll, ack: nat, now: int)
    requires Inv(l) && Enabled(l, DoTick(p, ack)) && TimedOut(l.s, p) && Sends(l.s, p)
    requires |l.r.states| <= RECEIVED_LIMIT
    ensures Inv(Exchange(l, p, ack, now))
    ensures UpToDate(Exchange(l, p, ack, now))
       <==> (HasNum(l.r.states, l.s.sent[0].num) || UpToDate(l))
  {
    var l1 := Next(l, DoTick(p, ack));
    TickRecords(l, p, ack);
    TickAdvances(l, p, ack);
    SameUpToDate(l, l1);
    DeliverAll(l1, Tick(l.s, p, ack, l.wire).1.value, now);
  }

  lemma StoredIsHeld<E>(l: Link<E>, inst: Instruction<E>, now: int)
    requires Inv(l) && inst in l.net && |l.r.states| <= RECEIVED_LIMIT
    requires !HasNum(l.r.states, inst.newNum) && HasNum(l.r.states, inst.oldNum)
    ensures HasNum(Next(l, Deliver(inst, now)).r.states, inst.newNum)
  {
    var x := Stamped(inst.newNum, l.r.states[IndexOf(l.r.states, inst.oldNum)].actions + inst.diff, now);
    InsertHolds(KeepFrom(l.r.states, inst.throwawayNum), x);
  }

  /** A tick with nothing to send: the front already is everything. */
  lemma SilentIsUpToDate<E>(l: Link<E>, p: Poll, ack: nat)
    requires Inv(l) && Enabled(l, DoTick(p, ack)) && TimedOut(l.s, p)
    requires p.hasPeer && (p.sendDue || p.ackDue) && !Sends(l.s, p)
    requires HasNum(l.r.states, l.s.sent[0].num)
    ensures Inv(Rationalized(l)) && UpToDate(Rationalized(l))
  {
    WaitKeeps(l);
    RationalizeKeeps(l);
    DiffCompletes(Rationalized(l), 0);
    HoldingAllIsUpToDate(Rationalized(l), l.s.sent[0].num);
  }

  lemma UpToDateFetch<E>(l: Link<E>)
    requires Inv(l) && UpToDate(l)
    ensures Next(l, FetchDiff).selected == Pushed(l)
  {
    FetchKeepsReceiver(l);
  }

  /** From any state of the invariant, without overflow: one exchange brings the receiver up to date. */
  lemma ExchangeCatchesUp<E>(l: Link<E>, p: Poll, ack: nat, now: int)
    requires Inv(l) && !l.overflowed && Enabled(l, DoTick(p, ack)) && TimedOut(l.s, p)
    requires p.hasPeer && (p.sendDue || p.ackDue) && |l.r.states| <= RECEIVED_LIMIT
    ensures var l' := Exchange(l, p, ack, now); Inv(l') && UpToDate(l')
  {
    if Sends(l.s, p) {
      NotStuckIff(l, p, ack, now);
    } else {
      SilentIsUpToDate(l, p, ack);
    }
  }

  lemma DeliverLeavesSender<E>(l: Link<E>, inst: Instruction<E>, now: int)
    requires l.s.sent != [] && l.r.states != []
    ensures Pushed(Next(l, Deliver(inst, now))) == Pushed(l)
  {
  }

  lemma ExchangePushesNothing<E>(l: Link<E>, p: Poll, ack: nat, now: int)
    requires Inv(l) && Enabled(l, DoTick(p, ack))
    ensures Pushed(Exchange(l, p, ack, now)) == Pushed(l)
  {
    TickAdvances(l, p, ack);
    var l1 := Next(l, DoTick(p, ack));
    match Tick(l.s, p, ack, l.wire).1
    case None =>
    case Some(inst) =>
      if l1.s.sent != [] { DeliverLeavesSender(l1, inst, now); }
  }

  /** Never stuck: from every reachable state without overflow in which the unacknowledged states
      have timed out, one more tick, its delivery and a fetch hand over everything pushed. */
  lemma NeverStuck<E>(wire: seq<E> -> seq<E>, time: int, labels: seq<Label<E>>, p: Poll, ack: nat, now: int)
    requires Legal(Init(wire, time), labels)
    requires var l := Run(Init(wire, time), labels);
      && !l.overflowed && Enabled(l, DoTick(p, ack)) && TimedOut(l.s, p)
      && p.hasPeer && (p.sendDue || p.ackDue) && |l.r.states| <= RECEIVED_LIMIT
    ensures var l := Exchange(Run(Init(wire, time), labels), p, ack, now);
      l.s.sent != [] && l.r.states != [] && Next(l, FetchDiff).selected == Pushes(labels)
  {
    var l := Run(Init(wire, time), labels);
    InitInv(wire, time);
    RunInv(Init(wire, time), labels);
    RunPushes(Init(wire, time), labels);
    ExchangeCatchesUp(l, p, ack, now);
    ExchangePushesNothing(l, p, ack, now);
    UpToDateFetch(Exchange(l, p, ack, now));
  }
}
