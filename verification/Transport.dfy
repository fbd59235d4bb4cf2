/** One endpoint over user streams: its sender, and the receiving half updated in place. The list
    of received states is a slice of `slots`; both loops that rebuild it write to those slots. */
module Transports {
  import opened Prefixes
  import opened StateSync
  import opened AsWritten
  import opened UserStreams
  import opened TransportSenders

  /** How far through the list the loop gets before it meets a greater number. */
  function InsertPos(states: seq<TimestampedState>, num: nat): (i: nat)
    ensures i <= |states|
    ensures forall j :: 0 <= j < i ==> states[j].num <= num
    ensures i < |states| ==> states[i].num > num
  {
    if states == [] || states[0].num > num then 0 else 1 + InsertPos(states[1..], num)
  }

  lemma InsertPosUnique'(states: seq<TimestampedState>, num: nat, i: nat)
    requires i <= |states| && (forall j :: 0 <= j < i ==> states[j].num <= num)
    requires i < |states| ==> states[i].num > num
    ensures InsertPos(states, num) == i
  {
  }

  function StampedOf(x: TimestampedState): Stamped<UserEvent>
    reads x.state
  {
    Stamped(x.num, x.state.actions, x.timestamp)
  }

  /** What the loop that inserts a new state leaves in the list. */
  function Inserted(states: seq<TimestampedState>, x: TimestampedState): seq<TimestampedState> {
    var i := InsertPos(states, x.num);
    if i == |states| then states + [x] else states[..i] + [x] + states[i := x][i..]
  }

  lemma {:induction false} InsertPosValues(states: seq<TimestampedState>, num: nat)
    ensures InsertPos(states, num) == InsertAt(Values(states), num)
  {
    if states != [] && states[0].num <= num {
      InsertPosValues(states[1..], num);
      assert Values(states)[1..] == Values(states[1..]);
    }
  }

  lemma ValuesConcat(a: seq<TimestampedState>, b: seq<TimestampedState>)
    ensures Values(a + b) == Values(a) + Values(b)
  {
  }

  lemma InsertedValues(states: seq<TimestampedState>, x: TimestampedState)
    ensures Values(Inserted(states, x)) == InsertAsWritten(Values(states), StampedOf(x))
  {
    InsertPosValues(states, x.num);
    var i := InsertPos(states, x.num);
    var v, y := Values(states), states[..i] + [x];
    if i < |states| {
      var changed := states[i := x];
      assert Values(changed) == v[i := StampedOf(x)];
      DropApart(changed, i);
      ValuesAppend(states[..i], x);
      assert Values(states[..i]) == v[..i];
      ValuesConcat(y, changed[i..]);
    } else {
      ValuesAppend(states, x);
    }
  }

  datatype Outcome = VersionMismatch | Received(reception: Reception)

  /** Subtract the oldest state from all, last of all from itself. */
  method SubtractFirst(states: seq<TimestampedState>)
    requires states != [] && Distinct(states)
    modifies Streams(states)
    ensures forall k :: 0 <= k < |states| ==>
      states[k].state.actions == Minus(old(states[k].state.actions), old(states[0].state.actions))
  {
    var oldestReceivedState := states[0].state;
    ghost var known := oldestReceivedState.actions;
    var i := |states| - 1;
    while i >= 0
      invariant -1 <= i < |states|
      invariant forall k :: 0 <= k <= i ==> states[k].state.actions == old(states[k].state.actions)
      invariant forall k :: i < k < |states| ==>
        states[k].state.actions == Minus(old(states[k].state.actions), known)
    {
      assert states[i].state in Streams(states);
      states[i].state.Subtract(oldestReceivedState);
      assert forall k :: 0 <= k < |states| && k != i ==> states[k].state != states[i].state;
      i := i - 1;
    }
  }

  method SubtractOldest(states: seq<TimestampedState>)
    requires states != [] && Distinct(states)
    modifies Streams(states)
    ensures Values(states) == SubtractAll(old(Values(states)), old(states[0].state.actions))
  {
    ghost var was, known := Values(states), states[0].state.actions;
    assert forall k :: 0 <= k < |states| ==> was[k].actions == states[k].state.actions;
    SubtractFirst(states);
    assert Values(states) == SubtractAll(was, known);
  }

  predicate Newest<E>(states: seq<Stamped<E>>, num: nat) {
    InsertAt(states, num) == |states|
  }

  /** Only new streams came in and, if `tidy`, no two records share a stream that did not before. */
  twostate predicate KeepsApart(was: seq<TimestampedState>, new states: seq<TimestampedState>, tidy: bool) {
    && (forall s :: s in Streams(states) && s !in Streams(was) ==> fresh(s))
    && (Distinct(was) && tidy ==> Distinct(states))
  }

  lemma InsertedApart(states: seq<TimestampedState>, x: TimestampedState)
    ensures Streams(Inserted(states, x)) <= Streams(states) + {x.state}
    ensures Distinct(states) && x.state !in Streams(states) && InsertPos(states, x.num) == |states| ==>
      Distinct(Inserted(states, x))
  {
    var i := InsertPos(states, x.num);
    if i < |states| {
      StreamsAround(states, x, i);
    } else {
      AppendApart(states, x);
    }
  }

  lemma StreamsAround(states: seq<TimestampedState>, x: TimestampedState, i: nat)
    requires i < |states|
    ensures Streams(states[..i] + [x] + states[i := x][i..]) <= Streams(states) + {x.state}
  {
    var r := states[..i] + [x] + states[i := x][i..];
    forall k | 0 <= k < |r| ensures r[k].state in Streams(states) + {x.state} {
      if k < i {
        assert r[k] == states[k];
      } else if k > i + 1 {
        assert r[k] == states[k - 1];
      }
    }
  }

  lemma CleanStoresNewest<E>(r: Receiver<E>, inst: Instruction<E>, now: int)
    requires Clean(r, inst, now)
    ensures ReceiveAsWritten(r, inst, now).1.Stored? ==> Newest(KeepFrom(r.states, inst.throwawayNum), inst.newNum)
  {
  }

  class Transport {
    const sender: TransportSender
    var slots: array<TimestampedState>
    var held: nat
    var lastReceiverState: UserStream
    var receiverQuenchTimer: int

    constructor (initialState: UserStream, initialRemote: UserStream, now: int)
      ensures Valid() && fresh(sender) && fresh(slots) && sender.currentState == initialState
      ensures sender.View() == Sender(initialState.actions, [Stamped(0, initialState.actions, now)], false)
      ensures View() == Receiver([Stamped(0, initialRemote.actions, now)], initialRemote.actions, 0, 0)
    {
      sender := new TransportSender(initialState, now);
      var remote := initialRemote.Clone();
      var first := TimestampedState(remote, now, 0);
      slots := new TimestampedState[1](_ => first);
      held := 1;
      lastReceiverState := remote;
      receiverQuenchTimer := 0;
    }

    ghost function Held(): seq<TimestampedState>
      reads this`slots, this`held, slots
      requires held <= slots.Length
    {
      slots[..held]
    }

    ghost predicate Valid()
      reads this`slots, this`held, this`lastReceiverState, slots, sender`currentState, sender`sentStates
    {
      && 0 < held <= slots.Length
      && Distinct(Held())
      && sender.Valid()
      && sender.Footprint() !! Streams(Held())
      && lastReceiverState !in sender.Footprint()
    }

    ghost function View(): Receiver<UserEvent>
      requires held <= slots.Length
      reads this`slots, this`held, this`lastReceiverState, this`receiverQuenchTimer, slots
      reads sender`ackNum, lastReceiverState, Streams(Held())
    {
      Receiver(Values(Held()), lastReceiverState.actions, sender.ackNum, receiverQuenchTimer)
    }

    /** Compact the slice in place; the slots behind the survivors keep what they held. */
    method ProcessThrowawayUntil(throwawayNum: nat)
      requires held <= slots.Length
      modifies this`held, slots
      ensures held <= old(held) && Held() == KeepNums(old(Held()), throwawayNum)
      ensures forall k :: held <= k < slots.Length ==> slots[k] == old(slots[k])
    {
      var rs := 0;
      ghost var was := slots[..held];
      for i := 0 to held
        invariant rs <= i && held == old(held)
        invariant slots[..rs] == KeepNums(was[..i], throwawayNum)
        invariant forall k :: rs <= k < slots.Length ==> slots[k] == old(slots[k])
      {
        KeepNumsSnoc(was[..i], was[i], throwawayNum);
        assert was[..i + 1] == was[..i] + [was[i]];
        assert slots[i] == was[i];
        if slots[i].num >= throwawayNum {
          slots[rs] := slots[i];
          rs := rs + 1;
          assert slots[..rs] == slots[..rs - 1] + [was[i]];
        }
      }
      assert was[..held] == was;
      held := rs;
    }

    /** What that means for the states, and for what a pointer into the slice now reads. */
    method ThrowAway(throwawayNum: nat)
      requires held <= slots.Length
      modifies this`held, slots
      ensures held <= slots.Length
      ensures Held() == KeepNums(old(Held()), throwawayNum)
      ensures Values(Held()) == KeepFrom(old(Values(Held())), throwawayNum)
      ensures forall k :: 0 <= k < old(held) ==>
        slots[k].state.actions == Compacted(old(Values(Held())), throwawayNum)[k].actions
    {
      ghost var was, values := Held(), Values(Held());
      ProcessThrowawayUntil(throwawayNum);
      KeepNumsValues(was, throwawayNum);
      assert Values(was) == values;
      assert Values(Held()) == KeepFrom(values, throwawayNum);
    }

    /** Make room behind the slice, as append does when it is full. */
    method Grow(filler: TimestampedState)
      requires held <= slots.Length
      modifies this`slots
      ensures held < slots.Length && slots[..held] == old(slots[..held])
      ensures slots == old(slots) || fresh(slots)
    {
      if held == slots.Length {
        var was := slots[..];
        slots := new TimestampedState[2 * held + 1](i requires 0 <= i => if i < |was| then was[i] else filler);
      }
    }

    /** Move the slots from `i` on one place up, the last first. */
    method ShiftUp(i: nat)
      requires i <= held < slots.Length
      modifies slots
      ensures slots[..held + 1] == old(slots[..i + 1]) + old(slots[i..held])
    {
      var j := held;
      while j > i
        invariant i <= j <= held
        invariant forall k :: 0 <= k <= j ==> slots[k] == old(slots[k])
        invariant forall k :: j < k <= held ==> slots[k] == old(slots[k - 1])
      {
        slots[j] := slots[j - 1];
        j := j - 1;
      }
    }

    /** Insert a new record in the loop that rebuilds the slice over its own slots: when a greater
        number is met, its slot is overwritten before the rest is appended. */
    method InsertNewState(newState: TimestampedState) returns (newest: bool)
      requires held <= slots.Length
      modifies this`slots, this`held, slots
      ensures held == old(held) + 1 <= slots.Length && (slots == old(slots) || fresh(slots))
      ensures slots[..held] == Inserted(old(slots[..held]), newState)
      ensures newest <==> InsertPos(old(slots[..held]), newState.num) == old(held)
    {
      ghost var was := slots[..held];
      var i := 0;
      while i < held && slots[i].num <= newState.num
        invariant 0 <= i <= held && slots[..held] == was
        invariant forall j :: 0 <= j < i ==> was[j].num <= newState.num
      {
        i := i + 1;
      }
      InsertPosUnique'(was, newState.num, i);
      newest := i == held;
      Grow(newState);
      PutAt(i, newState);
    }

    /** Append the new record at `i` and then the rest of the slice from `i` on, which now starts with it. */
    method PutAt(i: nat, newState: TimestampedState)
      requires i <= held < slots.Length
      modifies this`held, slots
      ensures held == old(held) + 1
      ensures slots[..held] == if i == old(held) then old(slots[..held]) + [newState]
                               else old(slots[..i]) + [newState] + old(slots[..held])[i := newState][i..]
    {
      ghost var was := slots[..held];
      slots[i] := newState;
      if i == held {
        assert slots[..held] == was;
      } else {
        assert slots[..held] == was[i := newState];
        ShiftUp(i);
        assert was[i := newState][..i + 1] == was[..i] + [newState];
      }
      held := held + 1;
    }

    /** Subtract the oldest state from all of them. */
    method SubtractFromHeld()
      requires 0 < held <= slots.Length && Distinct(Held())
      modifies Streams(Held())
      ensures Held() == old(Held())
      ensures Values(Held()) == SubtractAll(old(Values(Held())), old(Values(Held()))[0].actions)
    {
      ghost var rs := Held();
      SubtractOldest(slots[..held]);
      assert Held() == rs;
    }

    method RebaseStates()
      requires 0 < held <= slots.Length && Distinct(Held())
      modifies this`lastReceiverState, Streams(Held())
      ensures View() == Fetch(old(View())).0 && lastReceiverState == Held()[held - 1].state
    {
      SubtractFromHeld();
      NoteNewest();
    }

    method NoteNewest()
      requires 0 < held <= slots.Length
      modifies this`lastReceiverState
      ensures View() == old(View()).(last := Last(old(View()).states).actions)
      ensures lastReceiverState == Held()[held - 1].state
    {
      ghost var values := Values(Held());
      lastReceiverState := slots[held - 1].state;
      assert Values(Held()) == values;
      assert lastReceiverState.actions == Last(values).actions;
    }

    method NewestDiff() returns (ret: UserMessage)
      requires 0 < held <= slots.Length
      ensures ret == Message(Minus(Last(View().states).actions, View().last))
      ensures View() == old(View()) && sender.View() == old(sender.View())
    {
      assert Held()[held - 1] == slots[held - 1];
      ret := slots[held - 1].state.DiffFrom(lastReceiverState);
    }

    /** The diff since the last call; the states are then rebased on the oldest. */
    method GetRemoteDiff() returns (ret: UserMessage)
      requires Valid()
      modifies this`lastReceiverState, Streams(Held())
      ensures Valid() && Held() == old(Held())
      ensures var (r, selected) := Fetch(old(View())); View() == r && ret == Message(selected)
      ensures sender.View() == old(sender.View())
    {
      ret := NewestDiff();
      Rebase();
    }

    method Rebase()
      requires Valid()
      modifies this`lastReceiverState, Streams(Held())
      ensures Valid() && Held() == old(Held()) && sender.View() == old(sender.View())
      ensures View() == Fetch(old(View())).0
    {
      ghost var rs, sent := Held(), sender.sentStates;
      RebaseStates();
      assert Held() == rs && sender.sentStates == sent;
      assert sender.currentState in sender.Footprint() && sender.currentState !in Streams(rs);
      assert Values(sent) == old(Values(sender.sentStates)) by {
        forall i | 0 <= i < |sent| ensures sent[i].state.actions == old(sent[i].state.actions) {
          assert sent[i].state in Streams(sent) && sent[i].state !in Streams(rs);
        }
      }
    }

    method HasReceived(num: nat) returns (found: bool, at: nat)
      requires held <= slots.Length
      ensures found <==> HasNum(Values(Held()), num)
      ensures found ==> at == IndexOf(Values(Held()), num)
    {
      ghost var v := Values(Held());
      for i := 0 to held
        invariant forall j :: 0 <= j < i ==> v[j].num != num
      {
        if slots[i].num == num {
          assert v[i].num == num;
          return true, i;
        }
      }
      return false, 0;
    }

    /** Only a new newest state is acknowledged. */
    method AddNewState(newState: TimestampedState)
      requires held <= slots.Length
      modifies this`slots, this`held, slots, sender`ackNum
      ensures 0 < held <= slots.Length && (slots == old(slots) || fresh(slots))
      ensures Held() == Inserted(old(Held()), newState)
      ensures Values(Held()) == InsertAsWritten(old(Values(Held())), old(StampedOf(newState)))
      ensures sender.ackNum == if InsertAt(old(Values(Held())), newState.num) == old(held) then newState.num
                               else old(sender.ackNum)
    {
      ghost var was := Held();
      InsertedValues(was, newState);
      InsertPosValues(was, newState.num);
      var newest := InsertNewState(newState);
      assert Values(Inserted(was, newState)) == old(Values(Inserted(Held(), newState)));
      if newest {
        assert Held()[held - 1] == newState;
        sender.SetAckNum(slots[held - 1].num);
      }
    }

    /** Apply the diff to a copy of the reference and put the result in the list. */
    method AddReceived(reference: UserStream, inst: PbInstruction, now: int, split: string -> seq<string>)
      requires held <= slots.Length
      modifies this`slots, this`held, slots, sender`ackNum
      ensures 0 < held <= slots.Length && (slots == old(slots) || fresh(slots))
      ensures KeepsApart(old(Held()), Held(), Newest(old(Values(Held())), inst.newNum))
      ensures var x := Stamped(inst.newNum, old(reference.actions) + Rebuild(inst.diff, split), now);
        Values(Held()) == InsertAsWritten(old(Values(Held())), x)
      ensures sender.ackNum == if InsertAt(old(Values(Held())), inst.newNum) == old(held) then inst.newNum
                               else old(sender.ackNum)
    {
      var state := reference.Clone();
      var newState := TimestampedState(state, now, inst.newNum);
      if |inst.diff| > 0 {
        newState.state.ApplyString(inst.diff, split);
      }
      assert StampedOf(newState) == Stamped(inst.newNum, old(reference.actions) + Rebuild(inst.diff, split), now);
      assert Values(Held()) == old(Values(Held()));
      ghost var was := Held();
      InsertPosValues(was, inst.newNum);
      InsertedApart(was, newState);
      AddNewState(newState);
    }

    /** Throw away what the peer no longer needs, then store the new state unless the queue is full. */
    method Accept(at: nat, inst: PbInstruction, now: int, split: string -> seq<string>) returns (reception: Reception)
      requires at < held <= slots.Length
      modifies this`slots, this`held, this`receiverQuenchTimer, slots, sender`ackNum
      ensures 0 < held <= slots.Length && (slots == old(slots) || fresh(slots))
      ensures (View(), reception) == AcceptAsWritten(old(View()), at, Decoded(inst, split), now)
      ensures KeepsApart(old(Held()), Held(), reception.Stored? ==>
        Newest(KeepFrom(old(View()).states, inst.throwawayNum), inst.newNum))
    {
      ghost var v, was := View(), Held();
      KeepNumsDistinct(was, inst.throwawayNum);
      ThrowAway(inst.throwawayNum);
      ghost var r1 := v.(states := KeepFrom(v.states, inst.throwawayNum));
      assert View() == r1;
      reception := StoreUnlessFull(slots[at].state, inst, now, split);
    }

    method StoreUnlessFull(reference: UserStream, inst: PbInstruction, now: int, split: string -> seq<string>)
      returns (reception: Reception)
      requires held <= slots.Length
      modifies this`slots, this`held, this`receiverQuenchTimer, slots, sender`ackNum
      ensures 0 < held <= slots.Length && (slots == old(slots) || fresh(slots))
      ensures var x := Stamped(inst.newNum, old(reference.actions) + Rebuild(inst.diff, split), now);
        (View(), reception) == StoredAsWritten(old(View()), x, now)
      ensures KeepsApart(old(Held()), Held(), reception.Stored? ==> Newest(old(View()).states, inst.newNum))
    {
      var full := QueueRefuses(now);
      if full {
        return QueueFull;
      }
      AddReceived(reference, inst, now, split);
      return Stored;
    }

    /** The limit on the queue. */
    method QueueRefuses(now: int) returns (full: bool)
      requires held <= slots.Length
      modifies this`receiverQuenchTimer
      ensures full <==> Quenched(old(View()), now)
      ensures full ==> held > 0
      ensures var r := old(View());
        View() == if !full && |r.states| > RECEIVED_LIMIT then r.(quench := now + QUENCH_INTERVAL) else r
    {
      ghost var values := Values(Held());
      assert View().states == values;
      if held > 1024 {
        if now < receiverQuenchTimer {
          return true;
        }
        receiverQuenchTimer := now + 15000;
      }
      assert Values(Held()) == values;
      return false;
    }

    method ProcessInstruction(inst: PbInstruction, now: int, split: string -> seq<string>)
      returns (reception: Reception)
      requires held <= slots.Length
      modifies this`slots, this`held, this`receiverQuenchTimer, slots, sender`ackNum
      ensures held <= slots.Length && (slots == old(slots) || fresh(slots)) && (old(held) > 0 ==> held > 0)
      ensures KeepsApart(old(Held()), Held(), reception.Stored? ==>
        Newest(KeepFrom(old(View()).states, inst.throwawayNum), inst.newNum))
      ensures (View(), reception) == ReceiveAsWritten(old(View()), Decoded(inst, split), now)
    {
      ghost var v, decoded := View(), Decoded(inst, split);
      assert v.states == Values(Held());
      assert decoded.newNum == inst.newNum && decoded.oldNum == inst.oldNum;
      var duplicate, _ := HasReceived(inst.newNum);
      assert View() == v;
      if duplicate {
        return Duplicate;
      }
      var found, at := HasReceived(inst.oldNum);
      assert View() == v;
      if !found {
        return NoReference;
      }
      reception := Accept(at, inst, now, split);
    }

    /** A complete instruction from the peer: its acknowledgment for the sender, its diff for the receiver. */
    method ProcessPayload(inst: PbInstruction, now: int, split: string -> seq<string>) returns (outcome: Outcome)
      requires Valid()
      modifies this`slots, this`held, this`receiverQuenchTimer, slots, sender`ackNum, sender`sentStates
      ensures outcome.VersionMismatch? <==> inst.protocolVersion != APRILSH_PROTOCOL_VERSION
      ensures held <= slots.Length
      ensures outcome.VersionMismatch? ==> View() == old(View()) && sender.View() == old(sender.View())
      ensures Clean(old(View()), Decoded(inst, split), now) ==> Valid()
      ensures outcome.Received? ==>
        && sender.View() == AckThrough(old(sender.View()), inst.ackNum)
        && (View(), outcome.reception) == ReceiveAsWritten(old(View()), Decoded(inst, split), now)
    {
      if inst.protocolVersion != APRILSH_PROTOCOL_VERSION {
        return VersionMismatch;
      }
      AcknowledgeFirst(inst.ackNum);
      var reception := TakeIn(inst, now, split);
      return Received(reception);
    }

    /** The receiver's part: after a clean instruction what is held is still in order and apart. */
    method TakeIn(inst: PbInstruction, now: int, split: string -> seq<string>) returns (reception: Reception)
      requires Valid()
      modifies this`slots, this`held, this`receiverQuenchTimer, slots, sender`ackNum
      ensures held <= slots.Length && sender.View() == old(sender.View())
      ensures Clean(old(View()), Decoded(inst, split), now) ==> Valid()
      ensures (View(), reception) == ReceiveAsWritten(old(View()), Decoded(inst, split), now)
    {
      ghost var v, sent, decoded := View(), sender.View(), Decoded(inst, split);
      reception := ProcessInstruction(inst, now, split);
      assert sender.View() == sent;
      if Clean(v, decoded, now) {
        CleanStoresNewest(v, decoded, now);
      }
    }

    /** The sender's part of a payload leaves the receiver alone. */
    method AcknowledgeFirst(ackNum: nat)
      requires Valid()
      modifies sender`sentStates
      ensures Valid() && View() == old(View())
      ensures sender.View() == AckThrough(old(sender.View()), ackNum)
    {
      ghost var v := View();
      sender.ProcessAcknowledgmentThrough(ackNum);
      assert View() == v;
    }
  }
}
