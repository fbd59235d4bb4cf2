/** One direction of the protocol: a sender, its peer's receiver, the instructions and the
    acknowledgements in flight. Whatever was ever sent may be delivered any number of times,
    in any order, or never. */
module Links {
  import opened Prefixes
  import opened StateSync

  /** The first seven fields are what the two endpoints and the network hold; the rest is
      history: the prefixes each side has subtracted, the whole stream recorded for every number
      when it was first assigned, the numbers the receiver stored, the events the fetches selected,
      and those their messages gave. */
  datatype Link<!E(==)> = Link(
    s: Sender<E>, r: Receiver<E>, net: set<Instruction<E>>, acks: set<nat>, wire: seq<E> -> seq<E>,
    sbase: seq<E>, rbase: seq<E>, hist: map<nat, seq<E>>, accepted: set<nat>,
    lastNum: nat, selected: seq<E>, given: seq<E>, overflowed: bool)

  datatype Label<E> =
    | Push(e: E)
    | Wait
    | DoTick(p: Poll, ack: nat)
    | Deliver(inst: Instruction<E>, now: int)
    | SendAck
    | DeliverAck(num: nat)
    | FetchDiff
    | StartShutdown

  /** Everything the user ever pushed. */
  ghost function Pushed<E>(l: Link<E>): seq<E> {
    l.sbase + l.s.current
  }

  /** The receiver's newest number. */
  ghost function Newest<E>(l: Link<E>): nat
    requires l.r.states != []
  {
    Last(l.r.states).num
  }

  ghost function Init<E>(wire: seq<E> -> seq<E>, time: int): Link<E> {
    var first := Stamped(0, [], time);
    Link(Sender([], [first], false), Receiver([first], [], 0, 0), {}, {0}, wire,
         [], [], map[0 := []], {0}, 0, [], [], false)
  }

  /** Which steps may be taken: the user may not push after a shutdown began, only what was sent
      is delivered, and numbers have not run out. */
  ghost predicate Possible<E>(l: Link<E>, a: Label<E>) {
    l.s.sent != [] && l.r.states != [] &&
    match a
    case Push(_) => !l.s.shutdown
    case DoTick(p, _) => Sends(l.s, p) ==> l.s.shutdown || Last(l.s.sent).num + 1 < SHUTDOWN_NUM
    case Deliver(inst, _) => inst in l.net
    case DeliverAck(num) => num in l.acks
    case _ => true
  }

  /** A possible step in which the events a tick sends survive the wire. */
  ghost predicate Enabled<E>(l: Link<E>, a: Label<E>) {
    Possible(l, a) &&
    (a.DoTick? && Sends(l.s, a.p) && TickDiff(l.s, a.p) != [] ==>
       l.wire(TickDiff(l.s, a.p)) == TickDiff(l.s, a.p))
  }

  ghost function Next<E>(l: Link<E>, a: Label<E>): Link<E>
    requires l.s.sent != [] && l.r.states != []
  {
    match a
    case Push(e) => l.(s := l.s.(current := l.s.current + [e]))
    case Wait => Rationalized(l)
    case DoTick(p, ack) => NextTick(l, p, ack)
    case Deliver(inst, now) =>
      var (r, outcome) := Receive(l.r, inst, now);
      l.(r := r, accepted := if outcome.Stored? then l.accepted + {inst.newNum} else l.accepted)
    case SendAck => l.(acks := l.acks + {l.r.ackNum})
    case DeliverAck(num) => l.(s := AckThrough(l.s, num))
    case FetchDiff =>
      var (r, diff) := Fetch(l.r);
      l.(r := r, rbase := l.rbase + l.r.states[0].actions, lastNum := Newest(l),
         selected := l.selected + diff, given := l.given + Conveyed(l.wire, diff))
    case StartShutdown => l.(s := l.s.(shutdown := true))
  }

  ghost function Rationalized<E>(l: Link<E>): Link<E>
    requires l.s.sent != []
  {
    l.(s := Rationalize(l.s), sbase := l.sbase + l.s.sent[0].actions)
  }
  /** The link after the sender put `diff`, taken from its sent state `k`, on the wire. */
  ghost function Sent<E>(l: Link<E>, k: nat, diff: seq<E>, ack: nat, stamp: int): Link<E>
    requires k < |l.s.sent|
  {
    var (s', inst) := SendToReceiver(l.s, k, diff, ack, stamp, l.wire);
    l.(s := s', net := l.net + {inst},
       hist := if inst.newNum in l.hist then l.hist else l.hist[inst.newNum := Pushed(l)],
       overflowed := l.overflowed || |s'.sent| < |l.s.sent|)
  }

  ghost function NextTick<E>(l: Link<E>, p: Poll, ack: nat): (l': Link<E>)
    requires l.s.sent != []
    ensures var (s, out) := Tick(l.s, p, ack, l.wire);
      l'.s == s && l'.net == (match out case None => l.net case Some(inst) => l.net + {inst})
    ensures l'.r == l.r && l'.acks == l.acks && l'.overflowed == (l.overflowed || |l'.s.sent| < |l.s.sent|)
  {
    var l1 := Rationalized(l);
    if Sends(l.s, p)
    then Sent(l1, AssumedIndex(l.s.sent, 0, p.now, p.timeout), TickDiff(l.s, p), ack, p.stamp)
    else l1
  }

  // ---------------------------------------------------------------- the invariant

  ghost predicate Ascending<E>(states: seq<Stamped<E>>) {
    forall i, j :: 0 <= i < j < |states| ==> states[i].num <= states[j].num
  }

  ghost predicate Strict<E>(states: seq<Stamped<E>>) {
    forall i, j :: 0 <= i < j < |states| ==> states[i].num < states[j].num
  }

  /** Every stored state is, up to what was subtracted, the stream recorded for its number. */
  ghost predicate Recorded<E>(states: seq<Stamped<E>>, base: seq<E>, hist: map<nat, seq<E>>) {
    forall i :: 0 <= i < |states| ==>
      states[i].num in hist && hist[states[i].num] == base + states[i].actions
  }

  /** A later number never records less. */
  ghost predicate Grows<E>(hist: map<nat, seq<E>>) {
    forall m, n :: m in hist && n in hist && m <= n ==> hist[m] <= hist[n]
  }

  ghost predicate SenderInv<E>(l: Link<E>) {
    && l.s.sent != []
    && Ascending(l.s.sent)
    && Recorded(l.s.sent, l.sbase, l.hist)
    && Grows(l.hist)
    && (forall n :: n in l.hist ==> n <= Last(l.s.sent).num && l.hist[n] <= Pushed(l))
    && (!l.s.shutdown ==> Last(l.s.sent).num < SHUTDOWN_NUM)
    && (SHUTDOWN_NUM in l.hist ==> l.hist[SHUTDOWN_NUM] == Pushed(l))
    && Last(l.s.sent).num <= SHUTDOWN_NUM
  }

  /** An instruction carries exactly the events between the two streams it names. */
  ghost predicate Honest<E>(inst: Instruction<E>, hist: map<nat, seq<E>>) {
    && inst.oldNum in hist && inst.newNum in hist
    && hist[inst.newNum] == hist[inst.oldNum] + inst.diff
    && inst.throwawayNum <= inst.newNum
  }

  ghost predicate NetInv<E>(l: Link<E>)
    requires l.s.sent != []
  {
    forall inst :: inst in l.net ==> Honest(inst, l.hist) && inst.throwawayNum <= l.s.sent[0].num
  }

  ghost predicate ReceiverInv<E>(l: Link<E>) {
    && l.r.states != []
    && Strict(l.r.states)
    && Recorded(l.r.states, l.rbase, l.hist)
    && l.lastNum in l.hist && l.lastNum <= Newest(l)
    && l.hist[l.lastNum] == l.rbase + l.r.last == l.selected
  }

  ghost predicate AckInv<E>(l: Link<E>)
    requires l.r.states != []
  {
    && l.r.ackNum == Newest(l)
    && l.r.ackNum in l.accepted
    && (forall n :: n in l.acks ==> n in l.accepted && n <= l.r.ackNum)
    && (forall i :: 0 <= i < |l.r.states| ==> l.r.states[i].num in l.accepted)
    && (forall n :: n in l.accepted ==> n in l.hist && n <= l.r.ackNum)
  }

  /** While no sent state was dropped unacknowledged: the receiver accepted the sender's front and
      still holds every state it accepted from there on. */
  ghost predicate FrontInv<E>(l: Link<E>)
    requires l.s.sent != []
  {
    && l.s.sent[0].num in l.accepted
    && forall n :: n in l.accepted && n >= l.s.sent[0].num ==> HasNum(l.r.states, n)
  }

  ghost predicate Inv<E>(l: Link<E>) {
    && SenderInv(l)
    && NetInv(l)
    && ReceiverInv(l)
    && AckInv(l)
    && (!l.overflowed ==> FrontInv(l))
  }

  // ---------------------------------------------------------------- rebasing

  lemma SubtractRecorded<E>(states: seq<Stamped<E>>, base: seq<E>, known: seq<E>, hist: map<nat, seq<E>>)
    requires Recorded(states, base, hist)
    requires forall i :: 0 <= i < |states| ==> base + known <= hist[states[i].num]
    ensures Recorded(SubtractAll(states, known), base + known, hist)
  {
    var r := SubtractAll(states, known);
    forall i | 0 <= i < |r|
      ensures r[i].num in hist && hist[r[i].num] == base + known + r[i].actions
    {
      Rebase(base, known, states[i].actions);
    }
  }

  lemma RationalizeKeeps<E>(l: Link<E>)
    requires SenderInv(l)
    ensures SenderInv(Rationalized(l)) && Pushed(Rationalized(l)) == Pushed(l)
  {
    var known := l.s.sent[0].actions;
    assert l.hist[l.s.sent[0].num] == l.sbase + known;
    forall i | 0 <= i < |l.s.sent|
      ensures l.sbase + known <= l.hist[l.s.sent[i].num]
    {
      assert l.s.sent[0].num <= l.s.sent[i].num;
    }
    SubtractRecorded(l.s.sent, l.sbase, known, l.hist);
    Rebase(l.sbase, known, l.s.current);
  }


  // ---------------------------------------------------------------- every step keeps the invariant

  lemma PushKeeps<E>(l: Link<E>, e: E)
    requires Inv(l) && !l.s.shutdown
    ensures Inv(Next(l, Push(e)))
  {
    var l' := Next(l, Push(e));
    assert Pushed(l') == Pushed(l) + [e];
  }

  lemma WaitKeeps<E>(l: Link<E>)
    requires Inv(l)
    ensures Inv(Rationalized(l))
  {
    RationalizeKeeps(l);
  }

  /** Dropping sent states from the front, but not the last one. */
  lemma DropKeeps<E>(l: Link<E>, k: nat)
    requires SenderInv(l) && k < |l.s.sent|
    ensures SenderInv(Dropped(l, k)) && l.s.sent[0].num <= Dropped(l, k).s.sent[0].num
  {
    var sent := Dropped(l, k).s.sent;
    forall i, j | 0 <= i < j < |sent| ensures sent[i].num <= sent[j].num {
      assert sent[i] == l.s.sent[k + i] && sent[j] == l.s.sent[k + j];
    }
    assert Last(sent) == Last(l.s.sent);
    assert k > 0 ==> l.s.sent[0].num <= l.s.sent[k].num;
  }

  ghost function Dropped<E>(l: Link<E>, k: nat): Link<E>
    requires k <= |l.s.sent|
  {
    l.(s := l.s.(sent := l.s.sent[k..]))
  }

  /** Recording the whole stream under a number at or above the last one. */
  lemma AppendKeeps<E>(l: Link<E>, num: nat, stamp: int)
    requires SenderInv(l)
    requires Last(l.s.sent).num <= num <= SHUTDOWN_NUM
    requires num in l.hist ==> l.hist[num] == Pushed(l)
    requires !l.s.shutdown ==> num < SHUTDOWN_NUM
    ensures SenderInv(Appended(l, num, stamp)) && Appended(l, num, stamp).hist[num] == Pushed(l)
  {
    var l' := Appended(l, num, stamp);
    var sent := l'.s.sent;
    assert Last(sent).num == num;
    AppendAscends(l.s.sent, sent[|l.s.sent|]);
    AppendRecorded(l.s.sent, sent[|l.s.sent|], l.sbase, l.hist, l'.hist);
    AppendGrows(l.hist, num, Pushed(l));
  }

  lemma AppendRecorded<E>(states: seq<Stamped<E>>, x: Stamped<E>, base: seq<E>, hist: map<nat, seq<E>>, hist': map<nat, seq<E>>)
    requires Recorded(states, base, hist) && Extends(hist, hist')
    requires x.num in hist' && hist'[x.num] == base + x.actions
    ensures Recorded(states + [x], base, hist')
  {
    var r := states + [x];
    forall i | 0 <= i < |r| ensures r[i].num in hist' && hist'[r[i].num] == base + r[i].actions {
      assert i < |states| ==> r[i] == states[i] && states[i].num in hist;
    }
  }

  lemma AppendGrows<E>(hist: map<nat, seq<E>>, num: nat, top: seq<E>)
    requires Grows(hist) && (num in hist ==> hist[num] == top)
    requires forall n :: n in hist ==> hist[n] <= top && (n > num ==> hist[n] == top)
    ensures Grows(if num in hist then hist else hist[num := top])
  {
  }

  lemma AppendAscends<E>(states: seq<Stamped<E>>, x: Stamped<E>)
    requires Ascending(states) && (states != [] ==> Last(states).num <= x.num)
    ensures Ascending(states + [x])
  {
    var r := states + [x];
    forall i, j | 0 <= i < j < |r| ensures r[i].num <= r[j].num {
      assert i < |states| - 1 ==> states[i].num <= states[|states| - 1].num;
    }
  }

  ghost function Appended<E>(l: Link<E>, num: nat, stamp: int): Link<E> {
    var hist := if num in l.hist then l.hist else l.hist[num := Pushed(l)];
    l.(s := l.s.(sent := l.s.sent + [Stamped(num, l.s.current, stamp)]), hist := hist)
  }

  lemma AddSentKeeps<E>(l: Link<E>, num: nat, stamp: int)
    requires SenderInv(l)
    requires Last(l.s.sent).num <= num <= SHUTDOWN_NUM
    requires num in l.hist ==> l.hist[num] == Pushed(l)
    requires !l.s.shutdown ==> num < SHUTDOWN_NUM
    ensures var l' := Appended(l, num, stamp).(s := AddSent(l.s, num, stamp));
      && SenderInv(l') && l'.hist[num] == Pushed(l)
      && l.s.sent[0].num <= l'.s.sent[0].num <= num
      && (|l'.s.sent| < |l.s.sent| || l'.s.sent[0] == l.s.sent[0])
  {
    AppendKeeps(l, num, stamp);
    var l1 := Appended(l, num, stamp);
    if |l1.s.sent| > SENT_LIMIT {
      DropKeeps(l1, SENT_DROP);
      var sent := Dropped(l1, SENT_DROP).s.sent;
      assert sent[0].num in l1.hist && Last(sent).num == num;
    } else {
      assert l1.s.sent[0] == l.s.sent[0] && l.s.sent[0].num in l.hist;
    }
  }

  lemma RestampKeeps<E>(l: Link<E>, stamp: int)
    requires SenderInv(l)
    ensures SenderInv(Restamped(l, stamp))
  {
  }

  ghost function Restamped<E>(l: Link<E>, stamp: int): Link<E>
    requires l.s.sent != []
  {
    var back := |l.s.sent| - 1;
    l.(s := l.s.(sent := l.s.sent[back := l.s.sent[back].(timestamp := stamp)]))
  }

  /** The number `NextNum` picks is either new or already stands for the whole stream. */
  lemma NextNumFits<E>(l: Link<E>, diff: seq<E>)
    requires SenderInv(l) && (l.s.shutdown || Last(l.s.sent).num + 1 < SHUTDOWN_NUM)
    ensures Last(l.s.sent).num <= NextNum(l.s, diff) <= SHUTDOWN_NUM
    ensures NextNum(l.s, diff) in l.hist ==> l.hist[NextNum(l.s, diff)] == Pushed(l)
    ensures !l.s.shutdown ==> NextNum(l.s, diff) < SHUTDOWN_NUM
    ensures NextNum(l.s, diff) == Last(l.s.sent).num ==> NextNum(l.s, diff) in l.hist
  {
    assert Last(l.s.sent).num in l.hist;
  }

  /** The events between a sent state and the current one. */
  lemma DiffCompletes<E>(l: Link<E>, k: nat)
    requires SenderInv(l) && k < |l.s.sent|
    ensures var a := l.s.sent[k];
      a.num in l.hist && l.hist[a.num] + Minus(l.s.current, a.actions) == Pushed(l)
  {
    Rebase(l.sbase, l.s.sent[k].actions, l.s.current);
  }

  lemma SendKeepsSender<E>(l: Link<E>, k: nat, diff: seq<E>, ack: nat, stamp: int)
    requires SenderInv(l) && k < |l.s.sent| && (l.s.shutdown || Last(l.s.sent).num + 1 < SHUTDOWN_NUM)
    ensures var l' := Sent(l, k, diff, ack, stamp);
      && SenderInv(l') && l'.hist[NextNum(l.s, diff)] == Pushed(l)
      && l.s.sent[0].num <= l'.s.sent[0].num <= NextNum(l.s, diff)
      && (l'.overflowed || l'.s.sent[0].num == l.s.sent[0].num)
  {
    var num := NextNum(l.s, diff);
    NextNumFits(l, diff);
    if diff != [] && num == Last(l.s.sent).num {
      RestampKeeps(l, stamp);
      assert l.s.sent[0].num in l.hist;
    } else {
      AddSentKeeps(l, num, stamp);
    }
  }

  ghost predicate Extends<E>(h: map<nat, seq<E>>, h': map<nat, seq<E>>) {
    forall n :: n in h ==> n in h' && h'[n] == h[n]
  }

  /** The receiver's side only looks at numbers already recorded. */
  lemma ReceiverSide<E>(l: Link<E>, l': Link<E>)
    requires ReceiverInv(l) && AckInv(l) && Extends(l.hist, l'.hist)
    requires l'.r == l.r && l'.rbase == l.rbase && l'.lastNum == l.lastNum && l'.selected == l.selected
    requires l'.accepted == l.accepted && l'.acks == l.acks
    ensures ReceiverInv(l') && AckInv(l')
  {
  }

  lemma NetSide<E>(l: Link<E>, l': Link<E>)
    requires l.s.sent != [] && l'.s.sent != [] && NetInv(l) && Extends(l.hist, l'.hist)
    requires l.s.sent[0].num <= l'.s.sent[0].num
    requires forall inst :: inst in l'.net ==>
      inst in l.net || (Honest(inst, l'.hist) && inst.throwawayNum <= l'.s.sent[0].num)
    ensures NetInv(l')
  {
  }

  lemma SendIsHonest<E>(l: Link<E>, k: nat, ack: nat, stamp: int)
    requires SenderInv(l) && k < |l.s.sent| && (l.s.shutdown || Last(l.s.sent).num + 1 < SHUTDOWN_NUM)
    requires var diff := Minus(l.s.current, l.s.sent[k].actions); (diff == [] || l.wire(diff) == diff)
    ensures var diff := Minus(l.s.current, l.s.sent[k].actions);
      Honest(SendToReceiver(l.s, k, diff, ack, stamp, l.wire).1, Sent(l, k, diff, ack, stamp).hist)
  {
    var diff := Minus(l.s.current, l.s.sent[k].actions);
    SendKeepsSender(l, k, diff, ack, stamp);
    DiffCompletes(l, k);
  }

  /** A new instruction and a longer history, with everything at the receiver left alone. */
  lemma SenderStepKeeps<E>(l: Link<E>, l': Link<E>, inst: Instruction<E>)
    requires Inv(l) && SenderInv(l') && Extends(l.hist, l'.hist)
    requires Honest(inst, l'.hist) && inst.throwawayNum <= l'.s.sent[0].num
    requires l'.net == l.net + {inst} && l.s.sent[0].num <= l'.s.sent[0].num
    requires l'.r == l.r && l'.rbase == l.rbase && l'.lastNum == l.lastNum && l'.selected == l.selected
    requires l'.accepted == l.accepted && l'.acks == l.acks
    requires l'.overflowed || (!l.overflowed && l'.s.sent[0].num == l.s.sent[0].num)
    ensures Inv(l')
  {
    ReceiverSide(l, l');
    NetSide(l, l');
  }

  /** What sending changes, at the receiver nothing. */
  lemma SentChanges<E>(l: Link<E>, k: nat, diff: seq<E>, ack: nat, stamp: int)
    requires k < |l.s.sent|
    ensures var l' := Sent(l, k, diff, ack, stamp);
      var inst := SendToReceiver(l.s, k, diff, ack, stamp, l.wire).1;
      && Extends(l.hist, l'.hist) && l'.net == l.net + {inst}
      && inst.newNum == NextNum(l.s, diff) && l'.s.sent != [] && inst.throwawayNum == l'.s.sent[0].num
      && l'.r == l.r && l'.rbase == l.rbase && l'.lastNum == l.lastNum && l'.selected == l.selected
      && l'.accepted == l.accepted && l'.acks == l.acks
      && l'.overflowed == (l.overflowed || |l'.s.sent| < |l.s.sent|)
  {
  }

  lemma SendKeeps<E>(l: Link<E>, k: nat, ack: nat, stamp: int)
    requires Inv(l) && k < |l.s.sent| && (l.s.shutdown || Last(l.s.sent).num + 1 < SHUTDOWN_NUM)
    requires var diff := Minus(l.s.current, l.s.sent[k].actions); (diff == [] || l.wire(diff) == diff)
    ensures Inv(Sent(l, k, Minus(l.s.current, l.s.sent[k].actions), ack, stamp))
  {
    var diff := Minus(l.s.current, l.s.sent[k].actions);
    SendKeepsSender(l, k, diff, ack, stamp);
    SendIsHonest(l, k, ack, stamp);
    SentChanges(l, k, diff, ack, stamp);
    SenderStepKeeps(l, Sent(l, k, diff, ack, stamp), SendToReceiver(l.s, k, diff, ack, stamp, l.wire).1);
  }

  lemma TickKeeps<E>(l: Link<E>, p: Poll, ack: nat)
    requires Inv(l) && Enabled(l, DoTick(p, ack))
    ensures Inv(NextTick(l, p, ack))
  {
    WaitKeeps(l);
    if Sends(l.s, p) {
      var k := AssumedIndex(l.s.sent, 0, p.now, p.timeout);
      SendKeeps(Rationalized(l), k, ack, p.stamp);
    }
  }

  // ---------------------------------------------------------------- acknowledgements

  /** From an ascending list, keeping the numbers at and above `num` keeps a tail. */
  lemma KeepFromIsTail<E>(states: seq<Stamped<E>>, num: nat) returns (k: nat)
    requires Ascending(states)
    ensures k <= |states| && KeepFrom(states, num) == states[k..]
    ensures forall i :: 0 <= i < k ==> states[i].num < num
    ensures forall i :: k <= i < |states| ==> states[i].num >= num
  {
    k := 0;
    while k < |states| && states[k].num < num
      invariant k <= |states| && forall i :: 0 <= i < k ==> states[i].num < num
    {
      k := k + 1;
    }
    KeepFromSkips(states, num, k);
    KeepFromAll(states[k..], num);
  }

  lemma {:induction false} KeepFromSkips<E>(states: seq<Stamped<E>>, num: nat, k: nat)
    requires k <= |states| && forall i :: 0 <= i < k ==> states[i].num < num
    ensures KeepFrom(states, num) == KeepFrom(states[k..], num)
  {
    if k == 0 {
      assert states[0..] == states;
    } else {
      KeepFromSkips(states[1..], num, k - 1);
      assert states[1..][k - 1..] == states[k..];
    }
  }

  lemma {:induction false} KeepFromAll<E>(states: seq<Stamped<E>>, num: nat)
    requires forall i :: 0 <= i < |states| ==> states[i].num >= num
    ensures KeepFrom(states, num) == states
  {
    if states != [] {
      KeepFromAll(states[1..], num);
      assert states == [states[0]] + states[1..];
    }
  }

  /** An acknowledgement drops the states before the one it names, or nothing. */
  lemma AckDrops<E>(s: Sender<E>, num: nat) returns (k: nat)
    requires Ascending(s.sent) && HasNum(s.sent, num)
    ensures k < |s.sent| && s.sent[k].num == num
    ensures AckThrough(s, num) == s.(sent := s.sent[k..])
  {
    k := KeepFromIsTail(s.sent, num);
    var i :| 0 <= i < |s.sent| && s.sent[i].num == num;
    assert k < i ==> s.sent[k].num <= s.sent[i].num;
  }

  lemma DropAcked<E>(l: Link<E>, k: nat)
    requires Inv(l) && k < |l.s.sent| && l.s.sent[k].num in l.accepted
    ensures Inv(Dropped(l, k))
  {
    var l' := Dropped(l, k);
    DropKeeps(l, k);
    NetSide(l, l');
    ReceiverSide(l, l');
  }

  lemma AckKeeps<E>(l: Link<E>, num: nat)
    requires Inv(l) && num in l.acks
    ensures Inv(Next(l, DeliverAck(num)))
  {
    if HasNum(l.s.sent, num) {
      var k := AckDrops(l.s, num);
      DropAcked(l, k);
    }
  }

  // ---------------------------------------------------------------- receiving

  lemma FetchKeepsReceiver<E>(l: Link<E>)
    requires SenderInv(l) && ReceiverInv(l)
    ensures ReceiverInv(Next(l, FetchDiff))
    ensures Next(l, FetchDiff).selected == l.hist[Newest(l)]
  {
    FetchChanges(l);
    FetchSelects(l);
    RebasedReceiver(l, Next(l, FetchDiff));
  }

  lemma RebasedReceiver<E>(l: Link<E>, l': Link<E>)
    requires SenderInv(l) && ReceiverInv(l) && l'.hist == l.hist
    requires l'.r.states == SubtractAll(l.r.states, l.r.states[0].actions)
    requires l'.r.last == Last(l'.r.states).actions && l'.rbase == l.rbase + l.r.states[0].actions
    requires l'.lastNum == Newest(l) && l'.selected == l.hist[Newest(l)]
    ensures ReceiverInv(l')
  {
    OldestIsShared(l);
    SubtractRecorded(l.r.states, l.rbase, l.r.states[0].actions, l.hist);
    SameNums(l.r.states, l'.r.states);
    assert Newest(l') == Newest(l);
  }

  /** The oldest state's stream is a prefix of every other's. */
  lemma OldestIsShared<E>(l: Link<E>)
    requires SenderInv(l) && ReceiverInv(l)
    ensures forall i :: 0 <= i < |l.r.states| ==> l.rbase + l.r.states[0].actions <= l.hist[l.r.states[i].num]
  {
    assert l.hist[l.r.states[0].num] == l.rbase + l.r.states[0].actions;
    forall i | 0 <= i < |l.r.states| ensures l.rbase + l.r.states[0].actions <= l.hist[l.r.states[i].num] {
      assert l.r.states[0].num <= l.r.states[i].num;
    }
  }

  /** What is selected completes what was fetched before. */
  lemma FetchSelects<E>(l: Link<E>)
    requires SenderInv(l) && ReceiverInv(l)
    ensures Next(l, FetchDiff).selected == l.hist[Newest(l)]
  {
    assert l.hist[l.lastNum] <= l.hist[Newest(l)];
    Rebase(l.rbase, l.r.last, Last(l.r.states).actions);
  }

  lemma FetchKeeps<E>(l: Link<E>)
    requires Inv(l)
    ensures Inv(Next(l, FetchDiff))
  {
    FetchKeepsReceiver(l);
    FetchChanges(l);
    SameNums(l.r.states, Next(l, FetchDiff).r.states);
    AckSide(l, Next(l, FetchDiff));
  }

  /** The same numbers at the receiver, and nothing else that concerns acknowledgements. */
  lemma AckSide<E>(l: Link<E>, l': Link<E>)
    requires l.s.sent != [] && l'.s == l.s && l.r.states != [] && |l'.r.states| == |l.r.states| && AckInv(l)
    requires forall i :: 0 <= i < |l.r.states| ==> l'.r.states[i].num == l.r.states[i].num
    requires forall n :: HasNum(l.r.states, n) ==> HasNum(l'.r.states, n)
    requires l'.r.ackNum == l.r.ackNum && l'.accepted == l.accepted && l'.acks == l.acks && l'.hist == l.hist
    ensures AckInv(l') && (FrontInv(l) ==> FrontInv(l'))
  {
  }

  /** What a fetch changes, at the sender nothing. */
  lemma FetchChanges<E>(l: Link<E>)
    requires l.s.sent != [] && l.r.states != []
    ensures var l' := Next(l, FetchDiff);
      && l'.s == l.s && l'.net == l.net && l'.acks == l.acks && l'.hist == l.hist && l'.sbase == l.sbase
      && l'.accepted == l.accepted && l'.overflowed == l.overflowed
      && l'.r.states == SubtractAll(l.r.states, l.r.states[0].actions) && l'.r.ackNum == l.r.ackNum
      && l'.r.last == Last(l'.r.states).actions && l'.rbase == l.rbase + l.r.states[0].actions
      && l'.lastNum == Newest(l)
      && l'.selected == l.selected + Minus(Last(l.r.states).actions, l.r.last)
  {
  }

  lemma SameNums<E>(xs: seq<Stamped<E>>, ys: seq<Stamped<E>>)
    requires |xs| == |ys| && forall i :: 0 <= i < |xs| ==> xs[i].num == ys[i].num
    ensures Strict(xs) ==> Strict(ys)
    ensures forall n :: HasNum(xs, n) ==> HasNum(ys, n)
  {
    forall n | HasNum(xs, n) ensures HasNum(ys, n) {
      var i :| 0 <= i < |xs| && xs[i].num == n;
      assert ys[i].num == n;
    }
  }

  /** `r` holds the states of `states`, none below `num` missing, and perhaps one more. */
  ghost predicate Holds<E>(r: seq<Stamped<E>>, states: seq<Stamped<E>>, num: nat) {
    forall n :: n >= num && HasNum(states, n) ==> HasNum(r, n)
  }

  /** What discarding the states below `num` leaves of an ordered list. */
  lemma KeepFromStrict<E>(states: seq<Stamped<E>>, num: nat, base: seq<E>, hist: map<nat, seq<E>>)
    requires Strict(states) && Recorded(states, base, hist)
    ensures var r := KeepFrom(states, num);
      && Strict(r) && Recorded(r, base, hist) && Holds(r, states, num) && Holds(states, r, 0)
      && (r != [] ==> Last(r) == Last(states))
      && (r == [] && states != [] ==> Last(states).num < num)
  {
    var k := KeepFromIsTail(states, num);
    var r := states[k..];
    assert Strict(r) by {
      forall i, j | 0 <= i < j < |r| ensures r[i].num < r[j].num {
        assert r[i] == states[k + i] && r[j] == states[k + j];
      }
    }
    forall n | n >= num && HasNum(states, n) ensures HasNum(r, n) {
      var i :| 0 <= i < |states| && states[i].num == n;
      assert r[i - k].num == n;
    }
    forall n | HasNum(r, n) ensures HasNum(states, n) {
      var i :| 0 <= i < |r| && r[i].num == n;
      assert states[i + k].num == n;
    }
  }

  lemma InsertHolds<E>(states: seq<Stamped<E>>, x: Stamped<E>)
    ensures var r := Insert(states, x);
      && HasNum(r, x.num) && Holds(r, states, 0)
      && (forall j :: 0 <= j < |r| ==> r[j] == x || HasNum(states, r[j].num))
  {
    var i := InsertAt(states, x.num);
    var r := Insert(states, x);
    assert r[i] == x;
    forall n | HasNum(states, n) ensures HasNum(r, n) {
      var j :| 0 <= j < |states| && states[j].num == n;
      assert r[if j < i then j else j + 1].num == n;
    }
    forall j | 0 <= j < |r| ensures r[j] == x || HasNum(states, r[j].num) {
      if j != i {
        assert r[j] == states[if j < i then j else j - 1];
      }
    }
  }

  lemma StrictSlice<E>(states: seq<Stamped<E>>, i: nat, j: nat)
    requires Strict(states) && i <= j <= |states|
    ensures Strict(states[i..j])
  {
    var r := states[i..j];
    forall a, b | 0 <= a < b < |r| ensures r[a].num < r[b].num {
      assert r[a] == states[i + a] && r[b] == states[i + b];
    }
  }

  lemma StrictConcat<E>(a: seq<Stamped<E>>, b: seq<Stamped<E>>)
    requires Strict(a) && Strict(b) && (a != [] && b != [] ==> Last(a).num < b[0].num)
    ensures Strict(a + b)
  {
    var r := a + b;
    forall i, j | 0 <= i < j < |r| ensures r[i].num < r[j].num {
      if i < |a| <= j {
        assert i < |a| - 1 ==> a[i].num < Last(a).num;
        assert |a| < j ==> b[0].num < b[j - |a|].num;
      }
    }
  }

  /** A state with a new number finds its place. */
  lemma InsertStrict<E>(states: seq<Stamped<E>>, x: Stamped<E>)
    requires Strict(states) && !HasNum(states, x.num)
    ensures Strict(Insert(states, x))
  {
    var i := InsertAt(states, x.num);
    StrictSlice(states, 0, i);
    StrictSlice(states, i, |states|);
    SortedPlace(states, x, i, states[0..i], states[i..|states|]);
    assert states[..i] == states[0..i] && states[i..] == states[i..|states|];
  }

  lemma SortedPlace<E>(states: seq<Stamped<E>>, x: Stamped<E>, i: nat, a: seq<Stamped<E>>, b: seq<Stamped<E>>)
    requires Strict(a) && Strict(b) && i == |a| && a + b == states
    requires i > 0 ==> states[i - 1].num < x.num
    requires i < |states| ==> states[i].num > x.num
    ensures Strict(a + [x] + b)
  {
    assert a != [] ==> Last(a) == states[i - 1];
    assert b != [] ==> b[0] == states[i];
    StrictConcat(a, [x]);
    StrictConcat(a + [x], b);
  }

  /** Only a newest state becomes the newest. */
  lemma InsertNewest<E>(states: seq<Stamped<E>>, x: Stamped<E>)
    requires Strict(states)
    ensures var r := Insert(states, x);
      && r != []
      && Last(r).num == (if InsertAt(states, x.num) == |states| then x.num else Last(states).num)
      && x.num <= Last(r).num && (states != [] ==> Last(states).num <= Last(r).num)
  {
    var i := InsertAt(states, x.num);
    LastAround(states[..i], x, states[i..]);
    if i < |states| {
      assert Last(states[i..]) == Last(states) && states[i].num <= Last(states).num;
    } else if i > 0 {
      assert states[i - 1].num <= x.num;
    }
  }

  lemma LastAround<T>(a: seq<T>, x: T, b: seq<T>)
    ensures Last(a + [x] + b) == if b == [] then x else Last(b)
  {
  }

  lemma InsertRecorded<E>(states: seq<Stamped<E>>, x: Stamped<E>, base: seq<E>, hist: map<nat, seq<E>>)
    requires Recorded(states, base, hist) && x.num in hist && hist[x.num] == base + x.actions
    ensures Recorded(Insert(states, x), base, hist)
  {
  }

  /** The stream a delivered instruction rebuilds is the one its sender recorded. */
  lemma RebuildsRecorded<E>(l: Link<E>, inst: Instruction<E>)
    requires Inv(l) && inst in l.net && HasNum(l.r.states, inst.oldNum)
    ensures inst.newNum in l.hist
    ensures l.hist[inst.newNum]
         == l.rbase + (l.r.states[IndexOf(l.r.states, inst.oldNum)].actions + inst.diff)
  {
    assert Honest(inst, l.hist);
  }

  /** The receiver's states once those below `num` are gone and `x` is in its place. */
  ghost function Kept<E>(states: seq<Stamped<E>>, num: nat, x: Stamped<E>): seq<Stamped<E>> {
    Insert(KeepFrom(states, num), x)
  }

  lemma KeptStates<E>(states: seq<Stamped<E>>, num: nat, x: Stamped<E>, base: seq<E>, hist: map<nat, seq<E>>)
    requires states != [] && Strict(states) && Recorded(states, base, hist)
    requires !HasNum(states, x.num) && x.num in hist && hist[x.num] == base + x.actions && num <= x.num
    ensures var r := Kept(states, num, x);
      && r != [] && Strict(r) && Recorded(r, base, hist)
      && HasNum(r, x.num) && Holds(r, states, num)
      && Last(states).num <= Last(r).num && x.num <= Last(r).num
      && Last(r).num == (if InsertAt(KeepFrom(states, num), x.num) == |KeepFrom(states, num)|
                         then x.num else Last(states).num)
  {
    var kept := KeepFrom(states, num);
    KeepFromStrict(states, num, base, hist);
    assert !HasNum(kept, x.num);
    InsertStrict(kept, x);
    InsertNewest(kept, x);
    InsertRecorded(kept, x, base, hist);
    InsertHolds(kept, x);
  }

  lemma KeptNums<E>(states: seq<Stamped<E>>, num: nat, x: Stamped<E>, base: seq<E>, hist: map<nat, seq<E>>)
    requires Strict(states) && Recorded(states, base, hist)
    ensures forall n :: HasNum(Kept(states, num, x), n) ==> n == x.num || HasNum(states, n)
  {
    KeepFromStrict(states, num, base, hist);
    InsertHolds(KeepFrom(states, num), x);
  }

  /** A step that changes only the receiver: it holds what it held from `front` on, what it holds
      it accepted, and its newest number does not fall. */
  lemma ReceiverStepKeeps<E>(l: Link<E>, l': Link<E>)
    requires Inv(l) && l'.s == l.s && l'.net == l.net && l'.hist == l.hist && l'.sbase == l.sbase
    requires l'.acks == l.acks && l'.overflowed == l.overflowed
    requires l'.rbase == l.rbase && l'.lastNum == l.lastNum && l'.selected == l.selected && l'.r.last == l.r.last
    requires l'.r.states != [] && Strict(l'.r.states) && Recorded(l'.r.states, l.rbase, l.hist)
    requires l.r.ackNum <= l'.r.ackNum == Newest(l')
    requires forall n :: HasNum(l'.r.states, n) ==> n in l'.accepted
    requires forall n :: n in l'.accepted ==> n in l.accepted || (n in l.hist && HasNum(l'.r.states, n))
    requires forall n :: n in l'.accepted ==> n <= l'.r.ackNum
    requires l.accepted <= l'.accepted && Holds(l'.r.states, l.r.states, l.s.sent[0].num)
    ensures Inv(l')
  {
    forall i | 0 <= i < |l'.r.states| ensures l'.r.states[i].num in l'.accepted {
      assert HasNum(l'.r.states, l'.r.states[i].num);
    }
    assert HasNum(l'.r.states, Newest(l'));
    assert SenderInv(l');
  }

  lemma HeldIsAccepted<E>(l: Link<E>, n: nat)
    requires Inv(l) && HasNum(l.r.states, n)
    ensures n in l.accepted && n in l.hist
  {
  }

  lemma DiscardKeeps<E>(l: Link<E>, num: nat)
    requires Inv(l) && num <= l.s.sent[0].num && KeepFrom(l.r.states, num) != []
    ensures Inv(l.(r := l.r.(states := KeepFrom(l.r.states, num))))
  {
    KeepFromStrict(l.r.states, num, l.rbase, l.hist);
    forall n | HasNum(l.r.states, n) ensures n in l.accepted { HeldIsAccepted(l, n); }
    ReceiverStepKeeps(l, l.(r := l.r.(states := KeepFrom(l.r.states, num))));
  }

  lemma StoreKeeps<E>(l: Link<E>, num: nat, x: Stamped<E>, quench: int)
    requires Inv(l) && num <= l.s.sent[0].num && num <= x.num && !HasNum(l.r.states, x.num)
    requires x.num in l.hist && l.hist[x.num] == l.rbase + x.actions
    ensures var r := l.r.(states := KeepFrom(l.r.states, num), quench := quench);
      Inv(l.(r := Store(r, x), accepted := l.accepted + {x.num})) && l.r.ackNum <= Store(r, x).ackNum
  {
    var r := l.r.(states := KeepFrom(l.r.states, num), quench := quench);
    KeptStates(l.r.states, num, x, l.rbase, l.hist);
    KeptNums(l.r.states, num, x, l.rbase, l.hist);
    forall n | HasNum(l.r.states, n) ensures n in l.accepted { HeldIsAccepted(l, n); }
    ReceiverStepKeeps(l, l.(r := Store(r, x), accepted := l.accepted + {x.num}));
  }

  /** The state an instruction stands for at the receiver. */
  ghost function Rebuilt<E>(r: Receiver<E>, inst: Instruction<E>, now: int): Stamped<E>
    requires HasNum(r.states, inst.oldNum)
  {
    Stamped(inst.newNum, r.states[IndexOf(r.states, inst.oldNum)].actions + inst.diff, now)
  }

  lemma ReceiveStores<E>(r: Receiver<E>, inst: Instruction<E>, now: int)
    requires Receive(r, inst, now).1.Stored?
    ensures HasNum(r.states, inst.oldNum) && !HasNum(r.states, inst.newNum)
    ensures var r' := Receive(r, inst, now).0;
      r' == Store(r.(states := KeepFrom(r.states, inst.throwawayNum), quench := r'.quench), Rebuilt(r, inst, now))
  {
  }

  lemma ReceiveRefuses<E>(r: Receiver<E>, inst: Instruction<E>, now: int)
    requires !Receive(r, inst, now).1.Stored?
    ensures var kept := KeepFrom(r.states, inst.throwawayNum);
      Receive(r, inst, now).0 == r || (kept != [] && Receive(r, inst, now).0 == r.(states := kept))
  {
  }

  lemma StoringKeeps<E>(l: Link<E>, inst: Instruction<E>, now: int)
    requires Inv(l) && inst in l.net && Receive(l.r, inst, now).1.Stored?
    ensures var r := Receive(l.r, inst, now).0;
      Inv(l.(r := r, accepted := l.accepted + {inst.newNum})) && l.r.ackNum <= r.ackNum
  {
    ReceiveStores(l.r, inst, now);
    RebuildsRecorded(l, inst);
    assert Honest(inst, l.hist) && inst.throwawayNum <= l.s.sent[0].num;
    StoreKeeps(l, inst.throwawayNum, Rebuilt(l.r, inst, now), Receive(l.r, inst, now).0.quench);
  }

  lemma RefusingKeeps<E>(l: Link<E>, inst: Instruction<E>, now: int)
    requires Inv(l) && inst in l.net && !Receive(l.r, inst, now).1.Stored?
    ensures var r := Receive(l.r, inst, now).0; Inv(l.(r := r)) && r.ackNum == l.r.ackNum
  {
    ReceiveRefuses(l.r, inst, now);
    assert Honest(inst, l.hist) && inst.throwawayNum <= l.s.sent[0].num;
    if Receive(l.r, inst, now).0 == l.r {
      assert l.(r := l.r) == l;
    } else {
      DiscardKeeps(l, inst.throwawayNum);
    }
  }

  lemma DeliverKeeps<E>(l: Link<E>, inst: Instruction<E>, now: int)
    requires Inv(l) && inst in l.net
    ensures Inv(Next(l, Deliver(inst, now))) && l.r.ackNum <= Next(l, Deliver(inst, now)).r.ackNum
  {
    if Receive(l.r, inst, now).1.Stored? {
      StoringKeeps(l, inst, now);
    } else {
      RefusingKeeps(l, inst, now);
    }
  }
}
