/** The sending half of a transport over user streams, updated in place. */
module TransportSenders {
  import opened Prefixes
  import opened StateSync
  import opened UserStreams

  /** A numbered state. The stream is shared by every copy of the record. */
  datatype TimestampedState = TimestampedState(state: UserStream, timestamp: int, num: nat)

  const APRILSH_PROTOCOL_VERSION := 3

  datatype PbInstruction = PbInstruction(
    protocolVersion: nat, oldNum: nat, newNum: nat, ackNum: nat, throwawayNum: nat, diff: UserMessage)

  /** The instruction as the peer will apply it. */
  function Decoded(inst: PbInstruction, split: string -> seq<string>): Instruction<UserEvent> {
    Instruction(inst.oldNum, inst.newNum, inst.ackNum, inst.throwawayNum, Rebuild(inst.diff, split))
  }

  function Wire(split: string -> seq<string>): seq<UserEvent> -> seq<UserEvent> {
    s => Carried(s, split)
  }

  function Streams(states: seq<TimestampedState>): set<UserStream> {
    set i | 0 <= i < |states| :: states[i].state
  }

  /** The states as the streams stand now. */
  ghost function Values(states: seq<TimestampedState>): (r: seq<Stamped<UserEvent>>)
    reads Streams(states)
    ensures |r| == |states|
    ensures forall i :: 0 <= i < |r| ==>
      r[i] == Stamped(states[i].num, states[i].state.actions, states[i].timestamp)
  {
    seq(|states|, i requires 0 <= i < |states| reads Streams(states) =>
      assert states[i].state in Streams(states);
      Stamped(states[i].num, states[i].state.actions, states[i].timestamp))
  }

  ghost predicate Distinct(states: seq<TimestampedState>) {
    forall i, j :: 0 <= i < j < |states| ==> states[i].state != states[j].state
  }

  lemma ValuesAppend(states: seq<TimestampedState>, x: TimestampedState)
    ensures Values(states + [x]) == Values(states) + [Stamped(x.num, x.state.actions, x.timestamp)]
  {
  }

  lemma AppendApart(states: seq<TimestampedState>, x: TimestampedState)
    ensures Streams(states + [x]) == Streams(states) + {x.state}
    ensures Distinct(states) && x.state !in Streams(states) ==> Distinct(states + [x])
  {
    var r := states + [x];
    assert r[|states|] == x;
    forall s | s in Streams(states) ensures s in Streams(r) {
      var i :| 0 <= i < |states| && states[i].state == s;
      assert r[i].state == s;
    }
  }

  lemma DropApart(states: seq<TimestampedState>, n: nat)
    requires n <= |states|
    ensures Streams(states[n..]) <= Streams(states) && Values(states[n..]) == Values(states)[n..]
    ensures Distinct(states) ==> Distinct(states[n..])
  {
    forall s | s in Streams(states[n..]) ensures s in Streams(states) {
      var i :| 0 <= i < |states| - n && states[n..][i].state == s;
      assert states[n + i].state == s;
    }
  }

  /** The records numbered `num` and above. */
  function KeepNums(states: seq<TimestampedState>, num: nat): (r: seq<TimestampedState>)
    ensures |r| <= |states|
  {
    if states == [] then []
    else (if states[0].num >= num then [states[0]] else []) + KeepNums(states[1..], num)
  }

  lemma {:induction false} KeepNumsValues(states: seq<TimestampedState>, num: nat)
    ensures Values(KeepNums(states, num)) == KeepFrom(Values(states), num)
  {
    if states != [] {
      KeepNumsValues(states[1..], num);
      assert Values(states)[1..] == Values(states[1..]);
      assert states[0].num < num ==> KeepNums(states, num) == KeepNums(states[1..], num);
    }
  }

  lemma {:induction false} KeepNumsSnoc(states: seq<TimestampedState>, x: TimestampedState, num: nat)
    ensures KeepNums(states + [x], num) == KeepNums(states, num) + (if x.num >= num then [x] else [])
  {
    if states != [] {
      KeepNumsSnoc(states[1..], x, num);
      assert (states + [x])[1..] == states[1..] + [x];
    }
  }

  lemma {:induction false} KeepNumsDistinct(states: seq<TimestampedState>, num: nat)
    ensures Streams(KeepNums(states, num)) <= Streams(states)
    ensures Distinct(states) ==> Distinct(KeepNums(states, num))
  {
    if states != [] {
      var rest := states[1..];
      forall i, j | 0 <= i < j < |rest| && Distinct(states) ensures rest[i].state != rest[j].state {
        assert rest[i] == states[i + 1] && rest[j] == states[j + 1];
      }
      KeepNumsDistinct(rest, num);
      assert states[0].state in Streams(states);
      forall s | s in Streams(rest)
        ensures s in Streams(states) && (Distinct(states) ==> s != states[0].state)
      {
        var i :| 0 <= i < |rest| && rest[i].state == s;
        assert states[i + 1].state == s;
      }
    }
  }

  /** The loop that keeps the records numbered `num` and above. */
  method KeepNumbered(states: seq<TimestampedState>, num: nat) returns (rs: seq<TimestampedState>)
    ensures rs == KeepNums(states, num)
  {
    rs := [];
    for j := 0 to |states|
      invariant rs == KeepNums(states[..j], num)
    {
      KeepNumsSnoc(states[..j], states[j], num);
      assert states[..j + 1] == states[..j] + [states[j]];
      if states[j].num < num {
      } else {
        rs := rs + [states[j]];
      }
    }
    assert states[..|states|] == states;
  }

  /** The sender's new value and what it put on the wire are those of a tick. */
  ghost predicate Ticked(t: (Sender<UserEvent>, Option<Instruction<UserEvent>>), v: Sender<UserEvent>,
                         sent: Option<PbInstruction>, split: string -> seq<string>) {
    && v == t.0
    && (sent.Some? <==> t.1.Some?)
    && (sent.Some? ==> sent.value.protocolVersion == APRILSH_PROTOCOL_VERSION
                       && Decoded(sent.value, split) == t.1.value)
  }

  /** A sender that recorded what was due, and the instruction it made of it. */
  lemma DueTicked(v: Sender<UserEvent>, p: Poll, k: nat, ack: nat, split: string -> seq<string>,
                  v': Sender<UserEvent>, inst: PbInstruction)
    requires v.sent != [] && k == AssumedIndex(v.sent, 0, p.now, p.timeout) && Sends(v, p)
    requires v' == Record(Rationalize(v), TickDiff(v, p), p.stamp)
    requires inst == PbInstruction(APRILSH_PROTOCOL_VERSION, v.sent[k].num, NextNum(Rationalize(v), TickDiff(v, p)),
                                   ack, v'.sent[0].num, Message(TickDiff(v, p)))
    ensures Ticked(StateSync.Tick(v, p, ack, Wire(split)), v', Some(inst), split)
  {
    TickCases(v, p, ack, Wire(split));
    MessageEmpty(TickDiff(v, p));
  }

  lemma TickDiffIs(v: Sender<UserEvent>, p: Poll, k: nat)
    requires v.sent != [] && k == AssumedIndex(v.sent, 0, p.now, p.timeout)
    ensures var r := Rationalize(v);
      && k < |r.sent| && r.sent[k].num == v.sent[k].num
      && TickDiff(v, p) == Minus(r.current, r.sent[k].actions)
  {
  }

  lemma SilentTicked(v: Sender<UserEvent>, p: Poll, ack: nat, split: string -> seq<string>)
    requires v.sent != [] && !Sends(v, p)
    ensures Ticked(StateSync.Tick(v, p, ack, Wire(split)), Rationalize(v), None, split)
  {
    TickCases(v, p, ack, Wire(split));
  }

  lemma DueCases(v: Sender<UserEvent>, p: Poll)
    requires v.sent != [] && p.hasPeer && (p.ackDue || p.sendDue)
    ensures Sends(v, p) <==> p.ackDue || TickDiff(v, p) != []
    ensures Message(TickDiff(v, p)) == [] <==> TickDiff(v, p) == []
  {
    MessageEmpty(TickDiff(v, p));
  }

  class TransportSender {
    var currentState: UserStream
    var sentStates: seq<TimestampedState>
    // a copy of the record the code points at; the stream in it is shared
    var assumedReceiverState: TimestampedState
    var ackNum: nat
    var shutdownInProgress: bool

    ghost function Footprint(): set<UserStream>
      reads this`currentState, this`sentStates
    {
      {currentState} + Streams(sentStates)
    }

    ghost predicate Valid()
      reads this`currentState, this`sentStates
    {
      && sentStates != []
      && Distinct(sentStates)
      && currentState !in Streams(sentStates)
    }

    ghost function View(): Sender<UserEvent>
      reads this`currentState, this`sentStates, this`shutdownInProgress, Footprint()
    {
      Sender(currentState.actions, Values(sentStates), shutdownInProgress)
    }

    constructor (initialState: UserStream, now: int)
      ensures Valid() && currentState == initialState && fresh(Streams(sentStates))
      ensures View() == Sender(initialState.actions, [Stamped(0, initialState.actions, now)], false)
      ensures ackNum == 0
    {
      currentState := initialState;
      sentStates := [];
      ackNum := 0;
      shutdownInProgress := false;
      assumedReceiverState := TimestampedState(initialState, now, 0);
      new;
      AddSentState(now, 0, initialState);
      assumedReceiverState := sentStates[0];
    }

    method SetAckNum(num: nat)
      modifies this`ackNum
      ensures ackNum == num
    {
      ackNum := num;
    }

    method UpdateAssumedReceiverState(now: int, timeout: int)
      requires Valid()
      modifies this`assumedReceiverState
      ensures assumedReceiverState == sentStates[AssumedIndex(View().sent, 0, now, timeout)]
    {
      assumedReceiverState := sentStates[0];
      ghost var sent := View().sent;
      for i := 1 to |sentStates|
        invariant assumedReceiverState == sentStates[i - 1]
        invariant AssumedIndex(sent, 0, now, timeout) == AssumedIndex(sent, i - 1, now, timeout)
      {
        if now - sentStates[i].timestamp < timeout + ACK_DELAY {
          assumedReceiverState := sentStates[i];
        } else {
          return;
        }
      }
    }

    method AppendCopy(timestamp: int, num: nat, state: UserStream)
      requires Distinct(sentStates) && state == currentState
      requires currentState !in Streams(sentStates)
      modifies this`sentStates
      ensures Valid() && Values(sentStates) == old(Values(sentStates)) + [Stamped(num, state.actions, timestamp)]
      ensures fresh(Streams(sentStates) - old(Streams(sentStates)))
    {
      ghost var was, values := sentStates, Values(sentStates);
      var clone := state.Clone();
      var s := TimestampedState(clone, timestamp, num);
      assert Values(was) == values;
      AppendApart(was, s);
      ValuesAppend(was, s);
      sentStates := sentStates + [s];
    }

    method AddSentState(timestamp: int, num: nat, state: UserStream)
      requires Distinct(sentStates) && state == currentState
      requires currentState !in Streams(sentStates)
      modifies this`sentStates
      ensures Valid() && View() == AddSent(old(View()), num, timestamp)
      ensures fresh(Streams(sentStates) - old(Streams(sentStates)))
    {
      AppendCopy(timestamp, num, state);
      if |sentStates| > 32 {
        DropApart(sentStates, 16);
        sentStates := sentStates[16..];
      }
    }

    /** Subtract the acknowledged events everywhere, from the last state back to the front itself. */
    method RationalizeStates()
      requires Valid()
      modifies Footprint()
      ensures Valid() && View() == Rationalize(old(View()))
    {
      var knownReceiverState := sentStates[0].state;
      ghost var known := knownReceiverState.actions;
      currentState.Subtract(knownReceiverState);
      var i := |sentStates| - 1;
      while i >= 0
        invariant -1 <= i < |sentStates| && Valid()
        invariant currentState.actions == Minus(old(currentState.actions), known)
        invariant forall k :: 0 <= k <= i ==> sentStates[k].state.actions == old(sentStates[k].state.actions)
        invariant forall k :: i < k < |sentStates| ==>
          sentStates[k].state.actions == Minus(old(sentStates[k].state.actions), known)
      {
        assert sentStates[i].state in Streams(sentStates);
        sentStates[i].state.Subtract(knownReceiverState);
        assert forall k :: 0 <= k < |sentStates| && k != i ==> sentStates[k].state != sentStates[i].state;
        i := i - 1;
      }
      assert Values(sentStates) == SubtractAll(old(Values(sentStates)), known);
    }

    method SendInFragments(diff: UserMessage, newNum: nat) returns (inst: PbInstruction)
      requires sentStates != []
      ensures inst == PbInstruction(APRILSH_PROTOCOL_VERSION, assumedReceiverState.num, newNum,
                                    ackNum, sentStates[0].num, diff)
    {
      return PbInstruction(APRILSH_PROTOCOL_VERSION, assumedReceiverState.num, newNum,
                           ackNum, sentStates[0].num, diff);
    }

    /** A state already sent keeps its number. */
    method ChooseNumber(ghost events: seq<UserEvent>) returns (newNum: nat)
      requires Valid() && events != []
      ensures newNum == NextNum(View(), events)
    {
      var back := |sentStates| - 1;
      var same := currentState.Equal(sentStates[back].state);
      assert Last(View().sent) == View().sent[back];
      if same {
        newNum := sentStates[back].num;
      } else {
        newNum := Succ(sentStates[back].num);
      }
      if shutdownInProgress {
        newNum := SHUTDOWN_NUM;
      }
    }

    /** Renew the last state's time, or add the current state under a new number. */
    method RecordSent(newNum: nat, stamp: int, ghost events: seq<UserEvent>)
      requires Valid() && events != [] && newNum == NextNum(View(), events)
      modifies this`sentStates
      ensures Valid() && View() == Record(old(View()), events, stamp)
      ensures fresh(Streams(sentStates) - old(Streams(sentStates)))
    {
      var back := |sentStates| - 1;
      if newNum == sentStates[back].num {
        ghost var was := sentStates;
        sentStates := sentStates[back := sentStates[back].(timestamp := stamp)];
        assert forall i :: 0 <= i < |was| ==> sentStates[i].state == was[i].state;
      } else {
        AddSentState(stamp, newNum, currentState);
      }
    }

    method SendToReceiver(diff: UserMessage, stamp: int, ghost events: seq<UserEvent>) returns (inst: PbInstruction)
      requires Valid() && events != []
      modifies this`sentStates, this`assumedReceiverState
      ensures Valid() && fresh(Streams(sentStates) - old(Streams(sentStates)))
      ensures View() == Record(old(View()), events, stamp)
      ensures inst == PbInstruction(APRILSH_PROTOCOL_VERSION, old(assumedReceiverState.num),
                                    NextNum(old(View()), events), ackNum, sentStates[0].num, diff)
    {
      ghost var v := View();
      var newNum := ChooseNumber(events);
      assert View() == v;
      RecordSent(newNum, stamp, events);
      assert View() == Record(v, events, stamp);
      inst := SendInFragments(diff, newNum);
      assumedReceiverState := sentStates[|sentStates| - 1];
    }

    method SendEmptyAck(now: int) returns (inst: PbInstruction)
      requires Valid()
      modifies this`sentStates
      ensures Valid() && fresh(Streams(sentStates) - old(Streams(sentStates)))
      ensures View() == Record(old(View()), [], now)
      ensures inst == PbInstruction(APRILSH_PROTOCOL_VERSION, assumedReceiverState.num,
                                    NextNum(old(View()), []), ackNum, sentStates[0].num, [])
    {
      var back := |sentStates| - 1;
      var newNum := Succ(sentStates[back].num);
      if shutdownInProgress {
        newNum := SHUTDOWN_NUM;
      }
      AddSentState(now, newNum, currentState);
      inst := SendInFragments([], newNum);
    }

    /** Choose the assumed receiver state and cut the common prefix out of all states. */
    method CalculateTimers(now: int, timeout: int)
      requires Valid()
      modifies this`assumedReceiverState, Footprint()
      ensures Valid() && View() == Rationalize(old(View()))
      ensures assumedReceiverState == sentStates[AssumedIndex(old(View()).sent, 0, now, timeout)]
    {
      UpdateAssumedReceiverState(now, timeout);
      RationalizeStates();
    }

    /** Send data or an ack if necessary. */
    method Tick(p: Poll, ghost split: string -> seq<string>) returns (sent: Option<PbInstruction>)
      requires Valid()
      modifies this`sentStates, this`assumedReceiverState, Footprint()
      ensures Valid() && fresh(Streams(sentStates) - old(Streams(sentStates)))
      ensures Ticked(StateSync.Tick(old(View()), p, ackNum, Wire(split)), View(), sent, split)
    {
      ghost var v := View();
      ghost var k := AssumedIndex(v.sent, 0, p.now, p.timeout);
      CalculateTimers(p.now, p.timeout);
      if !p.hasPeer {
        TickCases(v, p, ackNum, Wire(split));
        return None;
      }
      if !p.ackDue && !p.sendDue {
        TickCases(v, p, ackNum, Wire(split));
        return None;
      }
      sent := SendWhatIsDue(p, k, v, split);
    }

    method SendDataDue(diff: UserMessage, p: Poll, ghost k: nat, ghost v: Sender<UserEvent>,
                       ghost split: string -> seq<string>) returns (inst: PbInstruction)
      requires Valid() && v.sent != [] && k == AssumedIndex(v.sent, 0, p.now, p.timeout) && Sends(v, p)
      requires View() == Rationalize(v) && assumedReceiverState.num == v.sent[k].num
      requires TickDiff(v, p) != [] && diff == Message(TickDiff(v, p))
      modifies this`sentStates, this`assumedReceiverState
      ensures Valid() && fresh(Streams(sentStates) - old(Streams(sentStates)))
      ensures Ticked(StateSync.Tick(v, p, ackNum, Wire(split)), View(), Some(inst), split)
    {
      inst := SendToReceiver(diff, p.stamp, TickDiff(v, p));
      DueTicked(v, p, k, ackNum, split, View(), inst);
    }

    method SendAckDue(p: Poll, ghost k: nat, ghost v: Sender<UserEvent>, ghost split: string -> seq<string>)
      returns (inst: PbInstruction)
      requires Valid() && v.sent != [] && k == AssumedIndex(v.sent, 0, p.now, p.timeout) && Sends(v, p)
      requires View() == Rationalize(v) && assumedReceiverState.num == v.sent[k].num && TickDiff(v, p) == []
      modifies this`sentStates
      ensures Valid() && fresh(Streams(sentStates) - old(Streams(sentStates)))
      ensures Ticked(StateSync.Tick(v, p, ackNum, Wire(split)), View(), Some(inst), split)
    {
      inst := SendEmptyAck(p.stamp);
      DueTicked(v, p, k, ackNum, split, View(), inst);
    }

    /** The diff against the state the peer is assumed to have. */
    method DueDiff(ghost p: Poll, ghost k: nat, ghost v: Sender<UserEvent>) returns (diff: UserMessage)
      requires Valid() && v.sent != [] && View() == Rationalize(v) && k == AssumedIndex(v.sent, 0, p.now, p.timeout)
      requires assumedReceiverState == sentStates[k]
      ensures diff == Message(TickDiff(v, p)) && assumedReceiverState.num == v.sent[k].num
      ensures View() == Rationalize(v)
    {
      ghost var r := View();
      TickDiffIs(v, p, k);
      assert r.sent[k].num == sentStates[k].num && r.sent[k].actions == sentStates[k].state.actions;
      diff := currentState.DiffFrom(assumedReceiverState.state);
      assert View() == r;
    }

    method SendWhatIsDue(p: Poll, ghost k: nat, ghost v: Sender<UserEvent>, ghost split: string -> seq<string>)
      returns (sent: Option<PbInstruction>)
      requires Valid() && p.hasPeer && (p.ackDue || p.sendDue)
      requires v.sent != [] && View() == Rationalize(v) && k == AssumedIndex(v.sent, 0, p.now, p.timeout)
      requires assumedReceiverState == sentStates[k]
      modifies this`sentStates, this`assumedReceiverState
      ensures Valid() && fresh(Streams(sentStates) - old(Streams(sentStates)))
      ensures Ticked(StateSync.Tick(v, p, ackNum, Wire(split)), View(), sent, split)
    {
      var diff := DueDiff(p, k, v);
      sent := SendDue(diff, p, k, v, split);
    }

    method SendDue(diff: UserMessage, p: Poll, ghost k: nat, ghost v: Sender<UserEvent>,
                   ghost split: string -> seq<string>) returns (sent: Option<PbInstruction>)
      requires Valid() && p.hasPeer && (p.ackDue || p.sendDue)
      requires v.sent != [] && View() == Rationalize(v) && k == AssumedIndex(v.sent, 0, p.now, p.timeout)
      requires assumedReceiverState.num == v.sent[k].num && diff == Message(TickDiff(v, p))
      modifies this`sentStates, this`assumedReceiverState
      ensures Valid() && fresh(Streams(sentStates) - old(Streams(sentStates)))
      ensures Ticked(StateSync.Tick(v, p, ackNum, Wire(split)), View(), sent, split)
    {
      DueCases(v, p);
      if |diff| == 0 {
        if p.ackDue {
          var inst := SendAckDue(p, k, v, split);
          return Some(inst);
        }
        SilentTicked(v, p, ackNum, split);
        return None;
      } else {
        var inst := SendDataDue(diff, p, k, v, split);
        return Some(inst);
      }
    }

    /** Drop the sent states before the one acknowledged, if it is still there. */
    method ProcessAcknowledgmentThrough(ack: nat)
      requires Valid()
      modifies this`sentStates
      ensures Valid() && View() == AckThrough(old(View()), ack)
      ensures Streams(sentStates) <= old(Streams(sentStates))
    {
      for i := 0 to |sentStates|
        invariant sentStates == old(sentStates)
        invariant forall j :: 0 <= j < i ==> sentStates[j].num != ack
      {
        if sentStates[i].num == ack {
          assert View().sent[i].num == ack;
          KeepFromHas(View().sent, i, ack);
          KeepNumsValues(sentStates, ack);
          KeepNumsDistinct(sentStates, ack);
          var ss := KeepNumbered(sentStates, ack);
          sentStates := ss;
          return;
        }
      }
    }
  }

  lemma MessageEmpty(events: seq<UserEvent>)
    ensures Message(events) == [] <==> events == []
  {
  }

  lemma {:induction false} KeepFromHas<E>(states: seq<Stamped<E>>, i: nat, num: nat)
    requires i < |states| && states[i].num >= num
    ensures KeepFrom(states, num) != []
  {
    if i > 0 {
      KeepFromHas(states[1..], i - 1, num);
    }
  }
}
