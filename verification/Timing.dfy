/** What the clock decides: which state a tick diffs against and whether it sends, how a sent state
    is recorded, and how fast a full receiver takes in states. Times are in milliseconds. */
module Timing {
  import opened Prefixes
  import opened StateSync
  import opened Rebasing
  import opened AsWritten

  // ---------------------------------------------------------------- the assumed state

  /** The states after the front up to state `i` were all sent less than the round-trip timeout and
      100 ms ago, and the one after it was not. */
  ghost predicate ReachesTo<E>(s: Sender<E>, p: Poll, i: nat) {
    && i < |s.sent|
    && (forall j :: 1 <= j <= i ==> p.now - s.sent[j].timestamp < p.timeout + 100)
    && (i + 1 < |s.sent| ==> p.now - s.sent[i + 1].timestamp >= p.timeout + 100)
  }

  ghost predicate DistinctNums<E>(s: Sender<E>) {
    forall i, j :: 0 <= i < j < |s.sent| ==> s.sent[i].num != s.sent[j].num
  }

  lemma ReachesOnce<E>(s: Sender<E>, p: Poll, i: nat, k: nat)
    requires ReachesTo(s, p, i) && ReachesTo(s, p, k)
    ensures i == k
  {
  }

  lemma AssumedIff<E>(s: Sender<E>, p: Poll, i: nat)
    requires i < |s.sent|
    ensures AssumedIndex(s.sent, 0, p.now, p.timeout) == i <==> ReachesTo(s, p, i)
  {
    var k := AssumedIndex(s.sent, 0, p.now, p.timeout);
    forall j | 1 <= j <= k ensures p.now - s.sent[j].timestamp < p.timeout + 100 {
      assert Recent(s.sent[j], p.now, p.timeout);
    }
    if ReachesTo(s, p, i) {
      ReachesOnce(s, p, i, k);
    }
  }

  /** An instruction refers to a sent state exactly if the clock reaches to that one. */
  lemma OldNumIff<E>(s: Sender<E>, p: Poll, ack: nat, wire: seq<E> -> seq<E>, i: nat)
    requires i < |s.sent| && DistinctNums(s) && Tick(s, p, ack, wire).1.Some?
    ensures Tick(s, p, ack, wire).1.value.oldNum == s.sent[i].num <==> ReachesTo(s, p, i)
  {
    AssumedIff(s, p, i);
    assert Rationalize(s).sent[AssumedIndex(s.sent, 0, p.now, p.timeout)].num
        == s.sent[AssumedIndex(s.sent, 0, p.now, p.timeout)].num;
  }

  // ---------------------------------------------------------------- whether a tick sends

  /** A tick sends exactly if there is a peer and an acknowledgement is due, or a send is due and the
      current state holds more than the state the clock reaches to; what it sends is then the rest. */
  lemma SendsIff<E>(s: Sender<E>, p: Poll, ack: nat, wire: seq<E> -> seq<E>, i: nat)
    requires ReachesTo(s, p, i) && Chain(s.sent, s.current)
    ensures Tick(s, p, ack, wire).1.Some? <==>
      p.hasPeer && (p.ackDue || (p.sendDue && s.current != s.sent[i].actions))
    ensures s.sent[i].actions + TickDiff(s, p) == s.current
    ensures Tick(s, p, ack, wire).1.Some? ==>
      Tick(s, p, ack, wire).1.value.diff == if s.current == s.sent[i].actions then [] else wire(TickDiff(s, p))
  {
    AssumedIff(s, p, i);
    RebasingPreservesDiffs(s, 0, i);
    MinusPrefix(s.current, s.sent[i].actions);
    assert TickDiff(s, p) == Minus(s.current, s.sent[i].actions);
  }

  /** Nothing is sent again while it may still be on its way: everything was sent, and each
      unacknowledged state less than the timeout and 100 ms ago. */
  lemma QuietInFlight<E>(s: Sender<E>, p: Poll, ack: nat, wire: seq<E> -> seq<E>)
    requires s.sent != [] && Chain(s.sent, s.current) && s.current == s.sent[|s.sent| - 1].actions && !p.ackDue
    requires forall i :: 1 <= i < |s.sent| ==> p.now - s.sent[i].timestamp < p.timeout + 100
    ensures Tick(s, p, ack, wire).1 == None
  {
    assert ReachesTo(s, p, |s.sent| - 1);
    SendsIff(s, p, ack, wire, |s.sent| - 1);
  }

  /** Once a state is older than that, it counts as lost: what is sent reaches back before it. */
  lemma LostIsSentAgain<E>(s: Sender<E>, p: Poll, ack: nat, wire: seq<E> -> seq<E>, j: nat)
    requires 1 <= j < |s.sent| && Chain(s.sent, s.current) && DistinctNums(s)
    requires p.now - s.sent[j].timestamp >= p.timeout + 100
    requires p.hasPeer && p.sendDue && s.sent[j - 1].actions != s.current
    ensures Tick(s, p, ack, wire).1.Some?
    ensures exists i :: (0 <= i < j && Tick(s, p, ack, wire).1.value.oldNum == s.sent[i].num
                         && s.sent[i].actions + TickDiff(s, p) == s.current)
  {
    var i := AssumedIndex(s.sent, 0, p.now, p.timeout);
    AssumedIff(s, p, i);
    SendsIff(s, p, ack, wire, i);
    assert s.sent[i].actions <= s.sent[j - 1].actions <= s.current;
    OldNumIff(s, p, ack, wire, i);
  }

  // ---------------------------------------------------------------- how it is recorded

  /** The number a tick sends under: that of the last state if everything in it was sent before and
      something is sent again, the next one otherwise; the greatest during a shutdown. */
  function NewNum<E(==)>(s: Sender<E>, again: bool): nat
    requires s.sent != []
  {
    var last := s.sent[|s.sent| - 1];
    if s.shutdown then 0xFFFF_FFFF_FFFF_FFFF
    else if again then last.num
    else if last.num < 0xFFFF_FFFF_FFFF_FFFF then last.num + 1 else 0
  }

  /** A state sent again gets the new time under its old number; anything else is appended, and of 33
      states the sixteen oldest go. */
  function AfterSend<E>(sent: seq<Stamped<E>>, current: seq<E>, again: bool, num: nat, stamp: int): seq<Stamped<E>>
    requires sent != []
  {
    var back := |sent| - 1;
    if again then sent[back := Stamped(sent[back].num, sent[back].actions, stamp)]
    else if |sent| < 32 then sent + [Stamped(num, current, stamp)]
    else (sent + [Stamped(num, current, stamp)])[16..]
  }

  lemma RecordIs<E>(s: Sender<E>, diff: seq<E>, stamp: int)
    requires s.sent != []
    ensures var last := s.sent[|s.sent| - 1];
      var num := NewNum(s, diff != [] && s.current == last.actions);
      && NextNum(s, diff) == num
      && Record(s, diff, stamp) == s.(sent := AfterSend(s.sent, s.current, diff != [] && num == last.num, num, stamp))
  {
  }

  lemma SameLast<E>(s: Sender<E>)
    requires s.sent != [] && Chain(s.sent, s.current)
    ensures var s1, k := Rationalize(s), |s.sent| - 1;
      && |s1.sent| == |s.sent| && s1.sent[k].num == s.sent[k].num && s1.shutdown == s.shutdown
      && (s1.current == s1.sent[k].actions <==> s.current == s.sent[k].actions)
  {
    var s1, k := Rationalize(s), |s.sent| - 1;
    RebasingPreservesDiffs(s, 0, k);
    MinusPrefix(s.current, s.sent[0].actions);
    SameEnd(s.sent[0].actions, s1.current, s1.sent[k].actions);
  }

  /** What an instruction says, and what becomes of the sent states. */
  lemma TickIsRecorded<E>(s: Sender<E>, p: Poll, ack: nat, wire: seq<E> -> seq<E>)
    requires s.sent != [] && Chain(s.sent, s.current) && Tick(s, p, ack, wire).1.Some?
    ensures var last := s.sent[|s.sent| - 1];
      var (s', out) := Tick(s, p, ack, wire);
      var s1, inst := Rationalize(s), out.value;
      && inst.newNum == NewNum(s, TickDiff(s, p) != [] && s.current == last.actions)
      && inst.ackNum == ack && s'.sent != [] && inst.throwawayNum == s'.sent[0].num
      && s' == s1.(sent := AfterSend(s1.sent, s1.current, TickDiff(s, p) != [] && inst.newNum == last.num,
                                     inst.newNum, p.stamp))
  {
    SameLast(s);
    RecordIs(Rationalize(s), TickDiff(s, p), p.stamp);
  }

  /** A tick that sends nothing only cuts the front's events out of every state. */
  lemma SilentTick<E>(s: Sender<E>, p: Poll, ack: nat, wire: seq<E> -> seq<E>, i: nat)
    requires i < |s.sent| && Chain(s.sent, s.current) && Tick(s, p, ack, wire).1.None?
    ensures var s' := Tick(s, p, ack, wire).0;
      && s'.shutdown == s.shutdown && |s'.sent| == |s.sent|
      && s.sent[0].actions + s'.current == s.current
      && s'.sent[i] == s.sent[i].(actions := s'.sent[i].actions)
      && s.sent[0].actions + s'.sent[i].actions == s.sent[i].actions
  {
    RebasingPreservesDiffs(s, 0, i);
    MinusPrefix(s.current, s.sent[0].actions);
  }

  // ---------------------------------------------------------------- a full receiver

  /** The instruction is new, its reference is there, and after throwing away `n` states are left. */
  ghost predicate Leaves<E>(r: Receiver<E>, inst: Instruction<E>, n: nat) {
    !HasNum(r.states, inst.newNum) && HasNum(r.states, inst.oldNum) && |KeepFrom(r.states, inst.throwawayNum)| == n
  }

  /** With up to 1024 states left a state is stored at any time. */
  lemma StoredWithRoom<E>(r: Receiver<E>, inst: Instruction<E>, now: int, n: nat)
    requires Leaves(r, inst, n) && n <= 1024
    ensures var (r', reception) := ReceiveAsWritten(r, inst, now);
      reception == Stored && |r'.states| == n + 1 && r'.quench == r.quench && r'.last == r.last
  {
    InsertedLength(KeepFrom(r.states, inst.throwawayNum), Stamped(inst.newNum, [], now));
  }

  /** With more, none is before the quench time, and nothing but the thrown away states changes; at or
      after it one is, and the quench time is then 15 seconds away. */
  lemma QuenchedWhenFull<E>(r: Receiver<E>, inst: Instruction<E>, now: int, n: nat)
    requires Leaves(r, inst, n) && n > 1024
    ensures now < r.quench ==>
      ReceiveAsWritten(r, inst, now) == (r.(states := KeepFrom(r.states, inst.throwawayNum)), QueueFull)
    ensures now >= r.quench ==>
      var (r', reception) := ReceiveAsWritten(r, inst, now);
      reception == Stored && |r'.states| == n + 1 && r'.quench == now + 15000 && r'.last == r.last
  {
    InsertedLength(KeepFrom(r.states, inst.throwawayNum), Stamped(inst.newNum, [], now));
  }

  lemma InsertedLength<E>(states: seq<Stamped<E>>, x: Stamped<E>)
    ensures forall y: Stamped<E> :: y.num == x.num ==> |InsertAsWritten(states, y)| == |states| + 1
  {
  }

  /** So a full receiver stores one state, and for 15 seconds no other. */
  lemma OneIn15Seconds<E>(r: Receiver<E>, inst: Instruction<E>, now: int, n: nat,
                          next: Instruction<E>, later: int, m: nat)
    requires Leaves(r, inst, n) && n > 1024 && now >= r.quench
    requires Leaves(ReceiveAsWritten(r, inst, now).0, next, m) && m > 1024
    ensures ReceiveAsWritten(ReceiveAsWritten(r, inst, now).0, next, later).1 == (if later < now + 15000 then QueueFull else Stored)
  {
    QuenchedWhenFull(r, inst, now, n);
    QuenchedWhenFull(ReceiveAsWritten(r, inst, now).0, next, later, m);
  }

  /** The protocol takes in states at the same times as the code. */
  lemma SameReception<E>(r: Receiver<E>, inst: Instruction<E>, now: int)
    ensures Receive(r, inst, now).1 == ReceiveAsWritten(r, inst, now).1
    ensures Receive(r, inst, now).0.quench == ReceiveAsWritten(r, inst, now).0.quench
  {
  }
}
