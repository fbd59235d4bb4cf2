/** What rationalizing the sent states leaves alone, and what a tick's events become at the peer. */
module Rebasing {
  import opened Prefixes
  import opened StateSync
  import opened Links
  import opened Runs
  import opened UserStreams
  import opened UserDiffs
  import opened TransportSenders

  /** The states are prefixes of one another in order, and of `top`. */
  ghost predicate Chain<E>(states: seq<Stamped<E>>, top: seq<E>) {
    && (forall i, j :: 0 <= i <= j < |states| ==> states[i].actions <= states[j].actions)
    && (forall i :: 0 <= i < |states| ==> states[i].actions <= top)
  }

  lemma MinusKeepsPrefix<E>(known: seq<E>, a: seq<E>, b: seq<E>)
    requires known <= a <= b
    ensures Minus(a, known) <= Minus(b, known)
    ensures Minus(Minus(b, known), Minus(a, known)) == Minus(b, a)
  {
    CommonPrefixOfPrefix(a, known);
    CommonPrefixOfPrefix(b, known);
    CommonPrefixOfPrefix(b, a);
    assert Minus(a, known) == a[|known|..] && Minus(b, known) == b[|known|..];
    CommonPrefixOfPrefix(b[|known|..], a[|known|..]);
  }

  /** On a chain of sent states, subtracting the front from all of them, the front itself last,
      leaves every diff as it was: between the current state and any sent state, and between any
      two sent states. Only the front's own events are gone, and the states still form a chain. */
  lemma RebasingPreservesDiffs<E>(s: Sender<E>, i: nat, j: nat)
    requires s.sent != [] && Chain(s.sent, s.current) && i <= j < |s.sent|
    ensures var s' := Rationalize(s);
      && |s'.sent| == |s.sent| && Chain(s'.sent, s'.current) && s'.sent[0].actions == []
      && Minus(s'.current, s'.sent[j].actions) == Minus(s.current, s.sent[j].actions)
      && Minus(s'.sent[j].actions, s'.sent[i].actions) == Minus(s.sent[j].actions, s.sent[i].actions)
      && s.sent[j].actions == s.sent[0].actions + s'.sent[j].actions
  {
    var known := s.sent[0].actions;
    RebasedChain(s.sent, s.current, known);
    MinusKeepsPrefix(known, s.sent[j].actions, s.current);
    MinusKeepsPrefix(known, s.sent[i].actions, s.sent[j].actions);
    CommonPrefixOfPrefix(known, known);
  }

  lemma RebasedChain<E>(states: seq<Stamped<E>>, top: seq<E>, known: seq<E>)
    requires Chain(states, top) && known <= top && forall i :: 0 <= i < |states| ==> known <= states[i].actions
    ensures Chain(SubtractAll(states, known), Minus(top, known))
  {
    var r := SubtractAll(states, known);
    forall a, b | 0 <= a <= b < |r| ensures r[a].actions <= r[b].actions {
      MinusKeepsPrefix(known, states[a].actions, states[b].actions);
    }
    forall a | 0 <= a < |r| ensures r[a].actions <= Minus(top, known) {
      MinusKeepsPrefix(known, states[a].actions, top);
    }
  }

  /** In every run the sent states form a chain below the current state, overflow or not. */
  lemma SentStatesFormChain<E>(wire: seq<E> -> seq<E>, time: int, labels: seq<Label<E>>)
    requires Legal(Init(wire, time), labels)
    ensures var s := Run(Init(wire, time), labels).s; Chain(s.sent, s.current)
  {
    InitInv(wire, time);
    RunInv(Init(wire, time), labels);
    InvChain(Run(Init(wire, time), labels));
  }

  lemma InvChain<E>(l: Link<E>)
    requires SenderInv(l)
    ensures Chain(l.s.sent, l.s.current)
  {
    forall i, j | 0 <= i <= j < |l.s.sent| ensures l.s.sent[i].actions <= l.s.sent[j].actions {
      assert l.hist[l.s.sent[i].num] <= l.hist[l.s.sent[j].num];
      PrefixCancel(l.sbase, l.s.sent[i].actions, l.s.sent[j].actions);
    }
    forall i | 0 <= i < |l.s.sent| ensures l.s.sent[i].actions <= l.s.current {
      PrefixCancel(l.sbase, l.s.sent[i].actions, l.s.current);
    }
  }

  // ---------------------------------------------------------------- events lost on the wire

  /** The state the receiver makes of this tick's instruction if it holds the reference. */
  ghost function Remade<E>(l: Link<E>, p: Poll, ack: nat): seq<E>
    requires l.s.sent != [] && Sends(l.s, p) && HasNum(l.r.states, Tick(l.s, p, ack, l.wire).1.value.oldNum)
  {
    var inst := Tick(l.s, p, ack, l.wire).1.value;
    l.r.states[IndexOf(l.r.states, inst.oldNum)].actions + inst.diff
  }

  lemma TickInstruction<E>(s: Sender<E>, p: Poll, ack: nat, wire: seq<E> -> seq<E>)
    requires s.sent != [] && Sends(s, p)
    ensures var inst := Tick(s, p, ack, wire).1.value;
      && inst.oldNum == s.sent[AssumedIndex(s.sent, 0, p.now, p.timeout)].num
      && inst.diff == Conveyed(wire, TickDiff(s, p))
  {
    TickCases(s, p, ack, wire);
  }

  /** Whatever the wire does to the events: the receiver remakes the whole stream exactly when it
      leaves this tick's events as they are. */
  lemma RemadeIff<E>(l: Link<E>, p: Poll, ack: nat)
    requires Inv(l) && Sends(l.s, p) && HasNum(l.r.states, Tick(l.s, p, ack, l.wire).1.value.oldNum)
    ensures l.rbase + Remade(l, p, ack) == Pushed(l)
       <==> TickDiff(l.s, p) == [] || l.wire(TickDiff(l.s, p)) == TickDiff(l.s, p)
  {
    var inst := Tick(l.s, p, ack, l.wire).1.value;
    TickInstruction(l.s, p, ack, l.wire);
    TickDiffCompletes(l, p);
    ExtendedIff(l.r.states, l.rbase, l.hist, inst.oldNum, inst.diff, TickDiff(l.s, p));
  }

  lemma ExtendedIff<E>(states: seq<Stamped<E>>, base: seq<E>, hist: map<nat, seq<E>>, num: nat, d: seq<E>, e: seq<E>)
    requires Recorded(states, base, hist) && HasNum(states, num)
    ensures num in hist
    ensures base + (states[IndexOf(states, num)].actions + d) == hist[num] + e <==> d == e
  {
    var i := IndexOf(states, num);
    assert states[i].num == num;
    Regroup(base, states[i].actions, d);
    SameEnd(hist[num], d, e);
  }

  lemma TickDiffCompletes<E>(l: Link<E>, p: Poll)
    requires SenderInv(l)
    ensures var k := AssumedIndex(l.s.sent, 0, p.now, p.timeout);
      l.s.sent[k].num in l.hist && l.hist[l.s.sent[k].num] + TickDiff(l.s, p) == Pushed(l)
  {
    RationalizeKeeps(l);
    DiffCompletes(Rationalized(l), AssumedIndex(l.s.sent, 0, p.now, p.timeout));
  }

  /** Over user streams: the peer has the whole stream after an exchange exactly when no keystroke
      follows a resize among the events sent, the sizes fit 32 bits, and the text regroups as typed. */
  lemma UserStreamRemadeIff(l: Link<UserEvent>, p: Poll, ack: nat, split: string -> seq<string>)
    requires Inv(l) && Sends(l.s, p) && HasNum(l.r.states, Tick(l.s, p, ack, l.wire).1.value.oldNum)
    requires Splits(split) && l.wire == Wire(split)
    ensures var diff := TickDiff(l.s, p);
      l.rbase + Remade(l, p, ack) == Pushed(l) <==> KeysFirst(diff) && SizesFit(diff) && Regroups(diff, split)
  {
    RemadeIff(l, p, ack);
    EventsSurviveIff(TickDiff(l.s, p), split);
    assert TickDiff(l.s, p) == [] ==> SizesFrom(TickDiff(l.s, p)) == 0;
  }
}
