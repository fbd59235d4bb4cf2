/** What dropping the sixteen oldest sent states does when one of them is the acknowledged front. */
module Overflow {
  import opened Prefixes
  import opened StateSync
  import opened Links
  import opened Runs

  /** The receiver holds nothing numbered `front` or above, the sender nothing below, and every
      instruction in flight outside `lost` names only numbers the receiver does not hold. */
  ghost predicate Deadlocked<E>(l: Link<E>, front: nat, lost: set<Instruction<E>>) {
    && l.s.sent != [] && l.r.states != []
    && (forall i :: 0 <= i < |l.r.states| ==> l.r.states[i].num < front)
    && (forall i :: 0 <= i < |l.s.sent| ==> l.s.sent[i].num >= front)
    && (forall inst :: inst in l.net && inst !in lost ==> inst.oldNum >= front && inst.newNum >= front)
    && (forall n :: n in l.acks ==> n < front)
    && l.r.ackNum < front
  }

  /** The labels deliver none of the `lost` instructions. */
  ghost predicate Losing<E>(labels: seq<Label<E>>, lost: set<Instruction<E>>) {
    forall i :: 0 <= i < |labels| && labels[i].Deliver? ==> labels[i].inst !in lost
  }

  lemma SendStaysAbove<E>(s: Sender<E>, k: nat, diff: seq<E>, ack: nat, stamp: int, wire: seq<E> -> seq<E>, front: nat)
    requires k < |s.sent| && NextNum(s, diff) >= front
    requires forall i :: 0 <= i < |s.sent| ==> s.sent[i].num >= front
    ensures var (s', inst) := SendToReceiver(s, k, diff, ack, stamp, wire);
      && (forall i :: 0 <= i < |s'.sent| ==> s'.sent[i].num >= front)
      && inst.oldNum >= front && inst.newNum >= front && s'.sent != []
  {
  }

  lemma DeadlockedSent<E>(l: Link<E>, k: nat, diff: seq<E>, ack: nat, stamp: int, front: nat, lost: set<Instruction<E>>)
    requires Deadlocked(l, front, lost) && k < |l.s.sent| && NextNum(l.s, diff) >= front
    ensures Deadlocked(Sent(l, k, diff, ack, stamp), front, lost)
  {
    SendStaysAbove(l.s, k, diff, ack, stamp, l.wire, front);
  }

  lemma DeadlockedRationalized<E>(l: Link<E>, front: nat, lost: set<Instruction<E>>)
    requires Deadlocked(l, front, lost)
    ensures Deadlocked(Rationalized(l), front, lost)
  {
  }

  lemma DeadlockedTick<E>(l: Link<E>, p: Poll, ack: nat, front: nat, lost: set<Instruction<E>>)
    requires Inv(l) && Deadlocked(l, front, lost) && Enabled(l, DoTick(p, ack))
    ensures Deadlocked(NextTick(l, p, ack), front, lost)
  {
    DeadlockedRationalized(l, front, lost);
    if Sends(l.s, p) {
      var diff := TickDiff(l.s, p);
      NextNumAbove(l, diff);
      DeadlockedSent(Rationalized(l), AssumedIndex(l.s.sent, 0, p.now, p.timeout), diff, ack, p.stamp, front, lost);
    }
  }

  lemma NextNumAbove<E>(l: Link<E>, diff: seq<E>)
    requires SenderInv(l) && (l.s.shutdown || Last(l.s.sent).num + 1 < SHUTDOWN_NUM)
    ensures NextNum(Rationalize(l.s), diff) >= Last(l.s.sent).num
  {
    RationalizeKeeps(l);
    NextNumFits(Rationalized(l), diff);
  }

  lemma DeadlockedStep<E>(l: Link<E>, a: Label<E>, front: nat, lost: set<Instruction<E>>)
    requires Inv(l) && Deadlocked(l, front, lost) && Enabled(l, a)
    requires a.Deliver? ==> a.inst !in lost
    ensures Deadlocked(Next(l, a), front, lost) && Newest(Next(l, a)) == Newest(l)
  {
    if a.DoTick? {
      DeadlockedTick(l, a.p, a.ack, front, lost);
    } else {
      DeadlockedOtherwise(l, a, front, lost);
    }
  }

  /** Any step but a tick. */
  lemma DeadlockedOtherwise<E>(l: Link<E>, a: Label<E>, front: nat, lost: set<Instruction<E>>)
    requires Deadlocked(l, front, lost) && Enabled(l, a) && !a.DoTick?
    requires a.Deliver? ==> a.inst !in lost
    ensures Deadlocked(Next(l, a), front, lost) && Newest(Next(l, a)) == Newest(l)
  {
    match a
    case Wait => DeadlockedRationalized(l, front, lost);
    case Deliver(inst, now) => NotHeld(l.r, inst, now, front);
    case DeliverAck(num) => NotSent(l.s, num, front);
    case _ =>
  }

  lemma NotHeld<E>(r: Receiver<E>, inst: Instruction<E>, now: int, front: nat)
    requires forall i :: 0 <= i < |r.states| ==> r.states[i].num < front
    requires inst.oldNum >= front && inst.newNum >= front
    ensures Receive(r, inst, now) == (r, NoReference)
  {
  }

  lemma NotSent<E>(s: Sender<E>, num: nat, front: nat)
    requires (forall i :: 0 <= i < |s.sent| ==> s.sent[i].num >= front) && num < front
    ensures AckThrough(s, num) == s
  {
  }

  /** A deadlocked receiver never moves again, whatever is pushed, sent and delivered afterwards. */
  lemma {:induction false} DeadlockedForGood<E>(l: Link<E>, labels: seq<Label<E>>, front: nat, lost: set<Instruction<E>>)
    requires Inv(l) && Deadlocked(l, front, lost) && Legal(l, labels) && Losing(labels, lost)
    ensures Deadlocked(Run(l, labels), front, lost) && Newest(Run(l, labels)) == Newest(l)
    decreases labels
  {
    if labels != [] {
      StepKeeps(l, labels[0]);
      DeadlockedStep(l, labels[0], front, lost);
      forall i | 0 <= i < |labels[1..]| && labels[1..][i].Deliver? ensures labels[1..][i].inst !in lost {
        assert labels[1..][i] == labels[i + 1];
      }
      DeadlockedForGood(Next(l, labels[0]), labels[1..], front, lost);
    }
  }

  // ---------------------------------------------------------------- how an idle link gets there

  /** `n` states numbered from 0, none with events. */
  ghost predicate Idle<E>(sent: seq<Stamped<E>>, n: nat) {
    |sent| == n && forall i :: 0 <= i < n ==> sent[i].num == i && sent[i].actions == []
  }

  /** `k` empty acks were sent and none was answered. */
  ghost predicate Unanswered<E>(l: Link<E>, k: nat) {
    && Inv(l) && l.s.current == [] && !l.s.shutdown && Idle(l.s.sent, k + 1)
    && |l.r.states| == 1 && l.r.states[0].num == 0 && l.r.ackNum == 0 && l.acks == {0}
    && !l.overflowed
  }

  lemma NothingToSend<E>(s: Sender<E>, p: Poll)
    requires s.current == [] && s.sent != [] && forall i :: 0 <= i < |s.sent| ==> s.sent[i].actions == []
    ensures Rationalize(s) == s && TickDiff(s, p) == []
  {
    assert SubtractAll(s.sent, []) == s.sent;
  }

  /** A tick with nothing to send but an ack that is due. */
  lemma EmptyAckTick<E>(s: Sender<E>, p: Poll, ack: nat, wire: seq<E> -> seq<E>, num: nat)
    requires s.sent != [] && num == Succ(Last(s.sent).num) && p.hasPeer && p.ackDue && !s.shutdown && Rationalize(s) == s && TickDiff(s, p) == []
    ensures Sends(s, p) && Tick(s, p, ack, wire).0 == AddSent(s, num, p.stamp)
  {
    TickCases(s, p, ack, wire);
  }

  lemma AddIdle<E>(s: Sender<E>, k: nat, stamp: int)
    requires Idle(s.sent, k + 1) && s.current == [] && k < SENT_LIMIT
    ensures var sent := AddSent(s, k + 1, stamp).sent;
      if k + 1 < SENT_LIMIT then Idle(sent, k + 2)
      else sent != [] && forall i :: 0 <= i < |sent| ==> sent[i].num >= SENT_DROP
  {
  }

  /** One more unanswered empty ack; the thirty-second drops the front. */
  lemma KeepAlive<E>(s: Sender<E>, k: nat, p: Poll, ack: nat, wire: seq<E> -> seq<E>)
    requires Idle(s.sent, k + 1) && s.current == [] && !s.shutdown && k < SENT_LIMIT && p.hasPeer && p.ackDue
    ensures Sends(s, p) && TickDiff(s, p) == []
    ensures Tick(s, p, ack, wire).0 == AddSent(s, k + 1, p.stamp)
  {
    assert s.sent[k].num == k && Succ(k) == k + 1;
    NothingToSend(s, p);
    EmptyAckTick(s, p, ack, wire, k + 1);
  }

  lemma KeepAliveKeeps<E>(l: Link<E>, k: nat, p: Poll, ack: nat)
    requires Unanswered(l, k) && k < SENT_LIMIT && p.hasPeer && p.ackDue
    ensures var l' := NextTick(l, p, ack);
      && Enabled(l, DoTick(p, ack)) && Inv(l') && l'.r == l.r
      && (k + 1 < SENT_LIMIT ==> Unanswered(l', k + 1))
      && (k + 1 == SENT_LIMIT ==> Deadlocked(l', SENT_DROP, l'.net))
  {
    KeepAlive(l.s, k, p, ack, l.wire);
    AddIdle(l.s, k, p.stamp);
    TickKeeps(l, p, ack);
  }

  /** Ticks at which an ack is due. */
  ghost predicate AllKeepAlive<E>(labels: seq<Label<E>>) {
    forall i :: 0 <= i < |labels| ==> labels[i].DoTick? && labels[i].p.hasPeer && labels[i].p.ackDue
  }

  lemma KeepAliveFirst<E>(l: Link<E>, k: nat, labels: seq<Label<E>>)
    requires Unanswered(l, k) && k < SENT_LIMIT && AllKeepAlive(labels) && labels != []
    ensures Enabled(l, labels[0]) && AllKeepAlive(labels[1..])
    ensures var l' := Next(l, labels[0]);
      && Inv(l') && l'.r == l.r
      && (k + 1 < SENT_LIMIT ==> Unanswered(l', k + 1))
      && (k + 1 == SENT_LIMIT ==> Deadlocked(l', SENT_DROP, l'.net))
  {
    KeepAliveKeeps(l, k, labels[0].p, labels[0].ack);
  }

  lemma {:induction false} KeepAlivesRun<E>(l: Link<E>, k: nat, labels: seq<Label<E>>)
    requires Unanswered(l, k) && AllKeepAlive(labels) && labels != [] && k + |labels| == SENT_LIMIT
    ensures Legal(l, labels) && Inv(Run(l, labels))
    ensures var l' := Run(l, labels); Deadlocked(l', SENT_DROP, l'.net) && l'.r == l.r
    decreases |labels|
  {
    KeepAliveFirst(l, k, labels);
    RunFirst(l, labels);
    if |labels| > 1 {
      KeepAlivesRun(Next(l, labels[0]), k + 1, labels[1..]);
    } else {
      assert labels[1..] == [];
    }
  }

  lemma RunFirst<E>(l: Link<E>, labels: seq<Label<E>>)
    requires labels != [] && Enabled(l, labels[0])
    ensures Legal(l, labels) <==> Legal(Next(l, labels[0]), labels[1..])
    ensures Legal(l, labels) ==> Run(l, labels) == Run(Next(l, labels[0]), labels[1..])
  {
  }

  lemma InitIsUnanswered<E>(wire: seq<E> -> seq<E>, time: int)
    ensures Unanswered(Init(wire, time), 0)
  {
    InitInv(wire, time);
  }

  /** Thirty-two empty acks lost in a row deadlock the link: whatever is pushed and sent afterwards,
      and whatever of it arrives, the receiver stays at state 0. */
  lemma IdleOutageDeadlocks<E>(wire: seq<E> -> seq<E>, time: int, outage: seq<Label<E>>, labels: seq<Label<E>>)
    requires AllKeepAlive(outage) && |outage| == SENT_LIMIT
    requires Legal(Init(wire, time), outage) ==>
      var l := Run(Init(wire, time), outage); Legal(l, labels) && Losing(labels, l.net)
    ensures Legal(Init(wire, time), outage)
    ensures var l := Run(Run(Init(wire, time), outage), labels);
      l.r.states != [] && Newest(l) == 0
  {
    InitIsUnanswered(wire, time);
    KeepAlivesRun(Init(wire, time), 0, outage);
    var l := Run(Init(wire, time), outage);
    DeadlockedForGood(l, labels, SENT_DROP, l.net);
  }
}
