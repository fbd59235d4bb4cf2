/** Two endpoints talking to each other. Endpoint A sends on link ab and receives on link ba; its
    instructions carry the acknowledgements of what it received. */
module Worlds {
  import opened Prefixes
  import opened StateSync
  import opened Links
  import opened Runs

  datatype World<!E(==), !F(==)> = World(ab: Link<E>, ba: Link<F>)

  /** What one endpoint does: the user types, the timers are recomputed, a tick, a payload of the
      peer arrives, the program asks for the remote diff, a shutdown begins. */
  datatype Local<E, F> =
    | Type(e: E)
    | WaitTime
    | TickAt(p: Poll)
    | Process(inst: Instruction<F>, now: int)
    | GetRemoteDiff
    | Quit

  datatype Turn<E, F> = AtA(a: Local<E, F>) | AtB(b: Local<F, E>)

  ghost function Swap<E, F>(w: World<E, F>): World<F, E> {
    World(w.ba, w.ab)
  }

  ghost predicate Ready<E, F>(w: World<E, F>) {
    && w.ab.s.sent != [] && w.ab.r.states != []
    && w.ba.s.sent != [] && w.ba.r.states != []
  }

  ghost predicate MayAtA<E, F>(w: World<E, F>, a: Local<E, F>) {
    Ready(w) &&
    match a
    case Type(e) => Enabled(w.ab, Push(e))
    case TickAt(p) => Enabled(w.ab, DoTick(p, w.ba.r.ackNum))
    case Process(inst, _) => inst in w.ba.net
    case _ => true
  }

  /** A step of endpoint A moves both links: its sender is on one, its receiver on the other. */
  ghost function NextAtA<E, F>(w: World<E, F>, a: Local<E, F>): World<E, F>
    requires Ready(w)
  {
    match a
    case Type(e) => w.(ab := Next(w.ab, Push(e)))
    case WaitTime => w.(ab := Next(w.ab, Wait))
    case TickAt(p) =>
      World(Next(w.ab, DoTick(p, w.ba.r.ackNum)), if Sends(w.ab.s, p) then Next(w.ba, SendAck) else w.ba)
    case Process(inst, now) => World(Next(w.ab, DeliverAck(inst.ackNum)), Next(w.ba, Deliver(inst, now)))
    case GetRemoteDiff => w.(ba := Next(w.ba, FetchDiff))
    case Quit => w.(ab := Next(w.ab, StartShutdown))
  }

  ghost predicate May<E, F>(w: World<E, F>, t: Turn<E, F>) {
    match t
    case AtA(a) => MayAtA(w, a)
    case AtB(b) => MayAtA(Swap(w), b)
  }

  ghost function After<E, F>(w: World<E, F>, t: Turn<E, F>): World<E, F>
    requires Ready(w)
  {
    match t
    case AtA(a) => NextAtA(w, a)
    case AtB(b) => Swap(NextAtA(Swap(w), b))
  }

  ghost predicate Carries<E>(net: set<Instruction<E>>, acks: set<nat>) {
    forall inst :: inst in net ==> inst.ackNum in acks
  }

  /** Each link keeps its invariant, and every ack an instruction carries is in flight on the
      opposite link. */
  ghost predicate WorldInv<E, F>(w: World<E, F>) {
    && Inv(w.ab) && Inv(w.ba)
    && Carries(w.ab.net, w.ba.acks) && Carries(w.ba.net, w.ab.acks)
  }

  /** A tick puts at most one instruction on the net, with the ack it was given. */
  lemma TickNet<E>(l: Link<E>, p: Poll, ack: nat, acks: set<nat>)
    requires l.s.sent != [] && Carries(l.net, acks)
    ensures !Sends(l.s, p) ==> Carries(NextTick(l, p, ack).net, acks)
    ensures Carries(NextTick(l, p, ack).net, acks + {ack})
  {
    TickCases(l.s, p, ack, l.wire);
    var net := NextTick(l, p, ack).net;
    match Tick(l.s, p, ack, l.wire).1
    case None => assert net == l.net;
    case Some(inst) => assert net == l.net + {inst};
  }

  lemma TickCarries<E, F>(w: World<E, F>, p: Poll)
    requires Ready(w) && Carries(w.ab.net, w.ba.acks)
    ensures var w' := NextAtA(w, TickAt(p)); Carries(w'.ab.net, w'.ba.acks)
  {
    TickNet(w.ab, p, w.ba.r.ackNum, w.ba.acks);
    SendAckAcks(w.ba);
  }

  lemma SendAckAcks<E>(l: Link<E>)
    requires l.s.sent != [] && l.r.states != []
    ensures Next(l, SendAck).acks == l.acks + {l.r.ackNum}
  {
  }

  lemma LocalKeeps<E, F>(w: World<E, F>, a: Local<E, F>)
    requires WorldInv(w) && MayAtA(w, a)
    ensures WorldInv(NextAtA(w, a))
  {
    match a
    case Type(e) => StepKeeps(w.ab, Push(e));
    case WaitTime => StepKeeps(w.ab, Wait);
    case TickAt(p) =>
      StepKeeps(w.ab, DoTick(p, w.ba.r.ackNum));
      StepKeeps(w.ba, SendAck);
      TickCarries(w, p);
    case Process(inst, now) =>
      StepKeeps(w.ab, DeliverAck(inst.ackNum));
      StepKeeps(w.ba, Deliver(inst, now));
    case GetRemoteDiff => StepKeeps(w.ba, FetchDiff);
    case Quit => StepKeeps(w.ab, StartShutdown);
  }

  ghost predicate Talk<E, F>(w: World<E, F>, turns: seq<Turn<E, F>>)
    decreases turns
  {
    turns == [] || (Ready(w) && May(w, turns[0]) && Talk(After(w, turns[0]), turns[1..]))
  }

  ghost function Told<E, F>(w: World<E, F>, turns: seq<Turn<E, F>>): World<E, F>
    requires Talk(w, turns)
    decreases turns
  {
    if turns == [] then w else Told(After(w, turns[0]), turns[1..])
  }

  lemma TurnKeeps<E, F>(w: World<E, F>, t: Turn<E, F>)
    requires WorldInv(w) && Ready(w) && May(w, t)
    ensures WorldInv(After(w, t))
  {
    match t
    case AtA(a) => LocalKeeps(w, a);
    case AtB(b) => LocalKeeps(Swap(w), b);
  }

  lemma {:induction false} TalkKeeps<E, F>(w: World<E, F>, turns: seq<Turn<E, F>>)
    requires WorldInv(w) && Talk(w, turns)
    ensures WorldInv(Told(w, turns))
    decreases turns
  {
    if turns != [] {
      TurnKeeps(w, turns[0]);
      TalkKeeps(After(w, turns[0]), turns[1..]);
    }
  }

  // ---------------------------------------------------------------- the links of a conversation

  /** A step of endpoint A, as a step of the link it sends on. */
  ghost function AsSender<E, F>(w: World<E, F>, a: Local<E, F>): seq<Label<E>>
    requires Ready(w)
  {
    match a
    case Type(e) => [Push(e)]
    case WaitTime => [Wait]
    case TickAt(p) => [DoTick(p, w.ba.r.ackNum)]
    case Process(inst, _) => [DeliverAck(inst.ackNum)]
    case GetRemoteDiff => []
    case Quit => [StartShutdown]
  }

  /** A step of endpoint B, as a step of the link it receives on. */
  ghost function AsReceiver<E, F>(w: World<E, F>, b: Local<F, E>): seq<Label<E>>
    requires Ready(w)
  {
    match b
    case TickAt(p) => if Sends(w.ba.s, p) then [SendAck] else []
    case Process(inst, now) => [Deliver(inst, now)]
    case GetRemoteDiff => [FetchDiff]
    case _ => []
  }

  ghost function OnAB<E, F>(w: World<E, F>, t: Turn<E, F>): (labels: seq<Label<E>>)
    requires Ready(w)
    ensures |labels| <= 1
  {
    match t
    case AtA(a) => AsSender(w, a)
    case AtB(b) => AsReceiver(w, b)
  }

  /** `labels` takes `l` to `l'`, if there is one. */
  ghost predicate Takes<E>(l: Link<E>, labels: seq<Label<E>>, l': Link<E>) {
    if labels == [] then l' == l else Enabled(l, labels[0]) && l' == Next(l, labels[0])
  }

  lemma SenderTakes<E, F>(w: World<E, F>, a: Local<E, F>)
    requires WorldInv(w) && MayAtA(w, a)
    ensures Takes(w.ab, AsSender(w, a), NextAtA(w, a).ab)
  {
  }

  lemma ReceiverTakes<E, F>(w: World<E, F>, b: Local<F, E>)
    requires MayAtA(Swap(w), b)
    ensures Takes(w.ab, AsReceiver(w, b), NextAtA(Swap(w), b).ba)
  {
  }

  /** The link from A to B takes each turn as one of its steps, or stands still. */
  lemma TurnIsStep<E, F>(w: World<E, F>, t: Turn<E, F>)
    requires WorldInv(w) && Ready(w) && May(w, t)
    ensures Takes(w.ab, OnAB(w, t), After(w, t).ab)
  {
    match t
    case AtA(a) => SenderTakes(w, a);
    case AtB(b) => ReceiverTakes(w, b);
  }

  /** What a conversation is for the link from A to B. */
  ghost function LabelsAB<E, F>(w: World<E, F>, turns: seq<Turn<E, F>>): seq<Label<E>>
    requires Talk(w, turns)
    decreases turns
  {
    if turns == [] then [] else OnAB(w, turns[0]) + LabelsAB(After(w, turns[0]), turns[1..])
  }

  /** The events typed at endpoint A. */
  ghost function TypedAtA<E, F>(turns: seq<Turn<E, F>>): seq<E> {
    if turns == [] then []
    else (if turns[0].AtA? && turns[0].a.Type? then [turns[0].a.e] else []) + TypedAtA(turns[1..])
  }

  lemma StepFirst<E>(l: Link<E>, labels: seq<Label<E>>, l': Link<E>, rest: seq<Label<E>>)
    requires |labels| <= 1 && Takes(l, labels, l') && Legal(l', rest)
    ensures Legal(l, labels + rest) && Run(l, labels + rest) == Run(l', rest)
    ensures Pushes(labels + rest) == Pushes(labels) + Pushes(rest)
  {
    if labels == [] {
      assert labels + rest == rest;
    } else {
      assert (labels + rest)[1..] == rest && Pushes(labels[1..]) == [];
    }
  }

  /** Seen from the link from A to B, every conversation is a run of that link alone, which pushes
      what is typed at A. */
  lemma {:induction false} TalkIsRun<E, F>(w: World<E, F>, turns: seq<Turn<E, F>>)
    requires WorldInv(w) && Talk(w, turns)
    ensures Legal(w.ab, LabelsAB(w, turns)) && Run(w.ab, LabelsAB(w, turns)) == Told(w, turns).ab
    ensures Pushes(LabelsAB(w, turns)) == TypedAtA(turns)
    decreases turns
  {
    if turns != [] {
      var w1 := After(w, turns[0]);
      TurnIsStep(w, turns[0]);
      TurnKeeps(w, turns[0]);
      TalkIsRun(w1, turns[1..]);
      StepFirst(w.ab, OnAB(w, turns[0]), w1.ab, LabelsAB(w1, turns[1..]));
      assert Pushes(OnAB(w, turns[0])) == if turns[0].AtA? && turns[0].a.Type? then [turns[0].a.e] else [];
    }
  }

  // the other direction is the same with the sides swapped

  ghost function Flip<E, F>(t: Turn<E, F>): Turn<F, E> {
    match t
    case AtA(a) => AtB(a)
    case AtB(b) => AtA(b)
  }

  ghost function Mirror<E, F>(turns: seq<Turn<E, F>>): seq<Turn<F, E>> {
    if turns == [] then [] else [Flip(turns[0])] + Mirror(turns[1..])
  }

  /** The events typed at endpoint B. */
  ghost function TypedAtB<E, F>(turns: seq<Turn<E, F>>): seq<F> {
    TypedAtA(Mirror(turns))
  }

  lemma {:induction false} MirrorTalks<E, F>(w: World<E, F>, turns: seq<Turn<E, F>>)
    requires Talk(w, turns)
    ensures Talk(Swap(w), Mirror(turns)) && Told(Swap(w), Mirror(turns)) == Swap(Told(w, turns))
    decreases turns
  {
    if turns != [] {
      MirrorTalks(After(w, turns[0]), turns[1..]);
      assert Mirror(turns)[1..] == Mirror(turns[1..]);
      assert After(Swap(w), Flip(turns[0])) == Swap(After(w, turns[0]));
    }
  }

  /** In every conversation what each side selects is a prefix of what was typed at the other;
      without overflow each side still holds the state the other one diffs against, and has
      accepted it. */
  lemma BothWays<E, F>(there: seq<E> -> seq<E>, back: seq<F> -> seq<F>, time: int, turns: seq<Turn<E, F>>)
    requires Talk(World(Init(there, time), Init(back, time)), turns)
    ensures var w := Told(World(Init(there, time), Init(back, time)), turns);
      && w.ab.selected <= TypedAtA(turns) && w.ba.selected <= TypedAtB(turns)
      && w.ab.s.sent != [] && w.ba.s.sent != []
      && (!w.ab.overflowed ==> HasNum(w.ab.r.states, w.ab.s.sent[0].num)
                               && w.ab.s.sent[0].num in w.ab.accepted)
      && (!w.ba.overflowed ==> HasNum(w.ba.r.states, w.ba.s.sent[0].num)
                               && w.ba.s.sent[0].num in w.ba.accepted)
  {
    TalkReaches(there, back, time, turns);
    MirrorTalks(World(Init(there, time), Init(back, time)), turns);
    TalkReaches(back, there, time, Mirror(turns));
  }

  /** What holds at the end of every conversation. */
  lemma TalkReaches<E, F>(there: seq<E> -> seq<E>, back: seq<F> -> seq<F>, time: int, turns: seq<Turn<E, F>>)
    requires Talk(World(Init(there, time), Init(back, time)), turns)
    ensures var w := Told(World(Init(there, time), Init(back, time)), turns);
      WorldInv(w) && Pushed(w.ab) == TypedAtA(turns)
  {
    InitInv(there, time);
    InitInv(back, time);
    var w := World(Init(there, time), Init(back, time));
    TalkKeeps(w, turns);
    TalkIsRun(w, turns);
    RunPushes(w.ab, LabelsAB(w, turns));
    assert Pushed(w.ab) == [];
  }

  /** A tick at A, the processing of what it sent at B, and a fetch there. */
  ghost function HandOver<E, F>(w: World<E, F>, p: Poll, now: int): World<E, F>
    requires Ready(w)
  {
    var w1 := After(w, AtA(TickAt(p)));
    var w2 := Arrival(w1, Tick(w.ab.s, p, w.ba.r.ackNum, w.ab.wire).1, now);
    if Ready(w2) then After(w2, AtB(GetRemoteDiff)) else w2
  }

  /** What A's tick sent, if anything, is processed at B. */
  ghost function Arrival<E, F>(w: World<E, F>, sent: Option<Instruction<E>>, now: int): World<E, F> {
    if sent.Some? && Ready(w) then After(w, AtB(Process(sent.value, now))) else w
  }

  lemma ArrivalDelivers<E, F>(w: World<E, F>, sent: Option<Instruction<E>>, now: int)
    requires WorldInv(w) && (sent.Some? ==> sent.value in w.ab.net)
    ensures WorldInv(Arrival(w, sent, now))
    ensures Arrival(w, sent, now).ab == if sent.Some? then Next(w.ab, Deliver(sent.value, now)) else w.ab
  {
    if sent.Some? {
      TurnKeeps(w, AtB(Process(sent.value, now)));
    }
  }

  lemma ExchangeIs<E>(l: Link<E>, p: Poll, ack: nat, now: int)
    requires Inv(l) && Enabled(l, DoTick(p, ack))
    ensures var l1, sent := Next(l, DoTick(p, ack)), Tick(l.s, p, ack, l.wire).1;
      && (sent.Some? ==> sent.value in l1.net)
      && Exchange(l, p, ack, now) == if sent.Some? then Next(l1, Deliver(sent.value, now)) else l1
  {
    StepKeeps(l, DoTick(p, ack));
  }

  lemma TickMoves<E, F>(w: World<E, F>, p: Poll)
    requires WorldInv(w) && MayAtA(w, TickAt(p))
    ensures var w1 := After(w, AtA(TickAt(p)));
      WorldInv(w1) && w1.ab == Next(w.ab, DoTick(p, w.ba.r.ackNum))
  {
    TurnKeeps(w, AtA(TickAt(p)));
  }

  lemma FetchMoves<E, F>(w: World<E, F>)
    requires WorldInv(w)
    ensures Ready(w) && After(w, AtB(GetRemoteDiff)).ab == Next(w.ab, FetchDiff)
  {
  }

  lemma HandOverIsExchange<E, F>(w: World<E, F>, p: Poll, now: int)
    requires WorldInv(w) && MayAtA(w, TickAt(p))
    ensures var l := Exchange(w.ab, p, w.ba.r.ackNum, now);
      l.s.sent != [] && l.r.states != [] && HandOver(w, p, now).ab == Next(l, FetchDiff)
  {
    var sent := Tick(w.ab.s, p, w.ba.r.ackNum, w.ab.wire).1;
    TickMoves(w, p);
    ExchangeIs(w.ab, p, w.ba.r.ackNum, now);
    ArrivalDelivers(After(w, AtA(TickAt(p))), sent, now);
    FetchMoves(Arrival(After(w, AtA(TickAt(p))), sent, now));
  }

  /** Never stuck in a conversation: from every world reached without overflow in which A's
      unacknowledged states have timed out, one more tick at A, its processing at B and a fetch
      there complete what was typed at A. The other direction is the same with the sides swapped. */
  lemma TalkNeverStuck<E, F>(there: seq<E> -> seq<E>, back: seq<F> -> seq<F>, time: int,
                             turns: seq<Turn<E, F>>, p: Poll, now: int)
    requires Talk(World(Init(there, time), Init(back, time)), turns)
    requires var w := Told(World(Init(there, time), Init(back, time)), turns);
      && !w.ab.overflowed && MayAtA(w, TickAt(p)) && TimedOut(w.ab.s, p)
      && p.hasPeer && (p.sendDue || p.ackDue) && |w.ab.r.states| <= RECEIVED_LIMIT
    ensures var w := Told(World(Init(there, time), Init(back, time)), turns);
      HandOver(w, p, now).ab.selected == TypedAtA(turns)
  {
    var w := Told(World(Init(there, time), Init(back, time)), turns);
    TalkReaches(there, back, time, turns);
    HandOverIsExchange(w, p, now);
    ExchangeCatchesUp(w.ab, p, w.ba.r.ackNum, now);
    ExchangePushesNothing(w.ab, p, w.ba.r.ackNum, now);
    UpToDateFetch(Exchange(w.ab, p, w.ba.r.ackNum, now));
  }
}
