/** The state-synchronization protocol on values: what one call of the sender or the receiver
    does to its fields. A state is a list of events; `Minus` is both what Subtract leaves and
    what DiffFrom selects. */
module StateSync {
  import opened Prefixes

  datatype Option<+T> = None | Some(value: T)

  // math.MaxUint64, the number that marks the shutdown state
  const SHUTDOWN_NUM: nat := 0xFFFF_FFFF_FFFF_FFFF
  const ACK_DELAY := 100
  const SENT_LIMIT := 32
  const SENT_DROP := 16
  const RECEIVED_LIMIT := 1024
  const QUENCH_INTERVAL := 15000

  /** A numbered state with the time it was last sent or received. */
  datatype Stamped<E> = Stamped(num: nat, actions: seq<E>, timestamp: int)

  datatype Sender<E> = Sender(current: seq<E>, sent: seq<Stamped<E>>, shutdown: bool)

  datatype Receiver<E> = Receiver(states: seq<Stamped<E>>, last: seq<E>, ackNum: nat, quench: int)

  /** `diff` holds the events the peer's ApplyString will rebuild from the diff string. */
  datatype Instruction<E> =
    Instruction(oldNum: nat, newNum: nat, ackNum: nat, throwawayNum: nat, diff: seq<E>)

  /** What a tick reads from the clock and the connection. `now` is the time at which the
      assumed state is chosen, `stamp` the time written into the state that is sent. */
  datatype Poll =
    Poll(now: int, stamp: int, timeout: int, hasPeer: bool, sendDue: bool, ackDue: bool)

  /** What became of an instruction. */
  datatype Reception = Duplicate | NoReference | QueueFull | Stored

  /** uint64 increment, wrapping around after the greatest number. */
  function Succ(n: nat): nat {
    if n < SHUTDOWN_NUM then n + 1 else 0
  }

  // ---------------------------------------------------------------- sender

  predicate Recent<E>(s: Stamped<E>, now: int, timeout: int) {
    now - s.timestamp < timeout + ACK_DELAY
  }

  /** The last of the run of recently sent states that starts at `k`. */
  function AssumedIndex<E>(sent: seq<Stamped<E>>, k: nat, now: int, timeout: int): (i: nat)
    requires k < |sent|
    ensures k <= i < |sent|
    ensures forall j :: k < j <= i ==> Recent(sent[j], now, timeout)
    ensures i + 1 < |sent| ==> !Recent(sent[i + 1], now, timeout)
    decreases |sent| - k
  {
    if k + 1 < |sent| && Recent(sent[k + 1], now, timeout)
    then AssumedIndex(sent, k + 1, now, timeout)
    else k
  }

  function SubtractAll<E(==)>(states: seq<Stamped<E>>, known: seq<E>): (r: seq<Stamped<E>>)
    ensures |r| == |states|
    ensures forall i :: 0 <= i < |r| ==>
      r[i] == states[i].(actions := Minus(states[i].actions, known))
  {
    seq(|states|, i requires 0 <= i < |states| =>
      states[i].(actions := Minus(states[i].actions, known)))
  }

  /** Cut the acknowledged events out of the current state and of every sent state. */
  function Rationalize<E(==)>(s: Sender<E>): Sender<E>
    requires s.sent != []
  {
    var known := s.sent[0].actions;
    s.(current := Minus(s.current, known), sent := SubtractAll(s.sent, known))
  }

  function AddSent<E>(s: Sender<E>, num: nat, stamp: int): (s': Sender<E>)
    ensures s'.sent != [] && s'.current == s.current && s'.shutdown == s.shutdown
  {
    var sent := s.sent + [Stamped(num, s.current, stamp)];
    s.(sent := if |sent| > SENT_LIMIT then sent[SENT_DROP..] else sent)
  }

  function Last<T>(xs: seq<T>): T
    requires xs != []
  {
    xs[|xs| - 1]
  }

  /** The number the next instruction carries: a resend keeps the number of the last state. */
  function NextNum<E(==)>(s: Sender<E>, diff: seq<E>): nat
    requires s.sent != []
  {
    if s.shutdown then SHUTDOWN_NUM
    else if diff != [] && s.current == Last(s.sent).actions then Last(s.sent).num
    else Succ(Last(s.sent).num)
  }

  /** A resend renews the last state's time; anything else is recorded as a new sent state. */
  function Record<E(==)>(s: Sender<E>, diff: seq<E>, stamp: int): (s': Sender<E>)
    requires s.sent != []
    ensures s'.sent != [] && s'.current == s.current && s'.shutdown == s.shutdown
  {
    var back := |s.sent| - 1;
    if diff != [] && NextNum(s, diff) == s.sent[back].num
    then s.(sent := s.sent[back := s.sent[back].(timestamp := stamp)])
    else AddSent(s, NextNum(s, diff), stamp)
  }

  /** What the message that encodes a diff gives whoever applies it. */
  function Conveyed<E(==)>(wire: seq<E> -> seq<E>, diff: seq<E>): seq<E> {
    if diff == [] then [] else wire(diff)
  }

  function SendToReceiver<E(==)>(s: Sender<E>, k: nat, diff: seq<E>, ack: nat, stamp: int,
                                 wire: seq<E> -> seq<E>): (Sender<E>, Instruction<E>)
    requires k < |s.sent|
  {
    var s' := Record(s, diff, stamp);
    (s', Instruction(s.sent[k].num, NextNum(s, diff), ack, s'.sent[0].num,
                     Conveyed(wire, diff)))
  }

  /** The state a tick diffs against, and the events it then has to send. */
  function TickDiff<E(==)>(s: Sender<E>, p: Poll): seq<E>
    requires s.sent != []
  {
    var s1 := Rationalize(s);
    Minus(s1.current, s1.sent[AssumedIndex(s.sent, 0, p.now, p.timeout)].actions)
  }

  /** Does this tick put an instruction on the wire? */
  predicate Sends<E(==)>(s: Sender<E>, p: Poll)
    requires s.sent != []
  {
    p.hasPeer && (p.ackDue || (p.sendDue && TickDiff(s, p) != []))
  }

  function Tick<E(==)>(s: Sender<E>, p: Poll, ack: nat, wire: seq<E> -> seq<E>)
    : (Sender<E>, Option<Instruction<E>>)
    requires s.sent != []
  {
    var s1 := Rationalize(s);
    if Sends(s, p) then
      var (s2, inst) :=
        SendToReceiver(s1, AssumedIndex(s.sent, 0, p.now, p.timeout), TickDiff(s, p), ack, p.stamp, wire);
      (s2, Some(inst))
    else (s1, None)
  }

  lemma TickCases<E>(s: Sender<E>, p: Poll, ack: nat, wire: seq<E> -> seq<E>)
    requires s.sent != []
    ensures !Sends(s, p) ==> Tick(s, p, ack, wire) == (Rationalize(s), None)
    ensures Sends(s, p) ==>
      var (s', inst) := SendToReceiver(Rationalize(s), AssumedIndex(s.sent, 0, p.now, p.timeout),
                                                 TickDiff(s, p), ack, p.stamp, wire);
      Tick(s, p, ack, wire) == (s', Some(inst))
  {
  }

  predicate HasNum<E>(states: seq<Stamped<E>>, num: nat) {
    exists i :: 0 <= i < |states| && states[i].num == num
  }

  /** The states numbered `num` and above, in order. */
  function KeepFrom<E>(states: seq<Stamped<E>>, num: nat): (r: seq<Stamped<E>>)
    ensures |r| <= |states|
  {
    if states == [] then []
    else (if states[0].num >= num then [states[0]] else []) + KeepFrom(states[1..], num)
  }

  function AckThrough<E>(s: Sender<E>, ack: nat): Sender<E> {
    if HasNum(s.sent, ack) then s.(sent := KeepFrom(s.sent, ack)) else s
  }

  // ---------------------------------------------------------------- receiver

  /** The first position whose number exceeds `num`. */
  function InsertAt<E>(states: seq<Stamped<E>>, num: nat): (i: nat)
    ensures i <= |states|
    ensures forall j :: 0 <= j < i ==> states[j].num <= num
    ensures i < |states| ==> states[i].num > num
  {
    if states == [] || states[0].num > num then 0 else 1 + InsertAt(states[1..], num)
  }

  /** The first position numbered `num`, or the length when there is none. */
  function IndexOf<E>(states: seq<Stamped<E>>, num: nat): (i: nat)
    ensures i <= |states|
    ensures i < |states| ==> states[i].num == num
    ensures forall j :: 0 <= j < i ==> states[j].num != num
    ensures i < |states| <==> HasNum(states, num)
  {
    if states == [] then 0
    else if states[0].num == num then assert HasNum(states, num); 0
    else
      var i := IndexOf(states[1..], num);
      assert i < |states| - 1 ==> states[1 + i].num == num;
      assert HasNum(states, num) ==> HasNum(states[1..], num) by {
        if HasNum(states, num) {
          var j :| 0 <= j < |states| && states[j].num == num;
          assert states[1..][j - 1].num == num;
        }
      }
      1 + i
  }

  function Insert<E>(states: seq<Stamped<E>>, x: Stamped<E>): seq<Stamped<E>> {
    var i := InsertAt(states, x.num);
    states[..i] + [x] + states[i..]
  }

  /** Store a new state in sorted place; only a new newest state is acknowledged. */
  function Store<E>(r: Receiver<E>, x: Stamped<E>): Receiver<E> {
    r.(states := Insert(r.states, x),
       ackNum := if InsertAt(r.states, x.num) == |r.states| then x.num else r.ackNum)
  }

  predicate Quenched<E>(r: Receiver<E>, now: int) {
    |r.states| > RECEIVED_LIMIT && now < r.quench
  }

  function Receive<E>(r: Receiver<E>, inst: Instruction<E>, now: int): (Receiver<E>, Reception) {
    if HasNum(r.states, inst.newNum) then (r, Duplicate)
    else if !HasNum(r.states, inst.oldNum) then (r, NoReference)
    else
      var reference := r.states[IndexOf(r.states, inst.oldNum)].actions;
      var r1 := r.(states := KeepFrom(r.states, inst.throwawayNum));
      if Quenched(r1, now) then (r1, QueueFull)
      else
        var r2 := if |r1.states| > RECEIVED_LIMIT then r1.(quench := now + QUENCH_INTERVAL) else r1;
        (Store(r2, Stamped(inst.newNum, reference + inst.diff, now)), Stored)
  }

  /** GetRemoteDiff: the events that are new since the last call. */
  function Fetch<E(==)>(r: Receiver<E>): (Receiver<E>, seq<E>)
    requires r.states != []
  {
    var selected := Minus(Last(r.states).actions, r.last);
    var states := SubtractAll(r.states, r.states[0].actions);
    (r.(states := states, last := Last(states).actions), selected)
  }
}
