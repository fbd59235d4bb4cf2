/** What the program on the far side is given. A fetch selects events, but what it returns is their
    message, which gives back less when a keystroke follows a resize among them. */
module Handovers {
  import opened Prefixes
  import opened StateSync
  import opened Links
  import opened Runs
  import opened UserStreams
  import opened UserDiffs
  import opened TransportSenders
  import opened Worlds
  import opened AsWritten

  // ---------------------------------------------------------------- one fetch

  /** The message keeps every rune and resize. */
  predicate Lossless(diff: seq<UserEvent>) {
    KeysFirst(diff) && SizesFit(diff)
  }

  lemma ConveyedIs(diff: seq<UserEvent>, split: string -> seq<string>)
    requires Splits(split)
    ensures Conveyed(Wire(split), diff) == Carried(diff, split)
  {
    if diff == [] {
      EventsSurviveIff(diff, split);
    }
  }

  lemma GivesIff(given: seq<UserEvent>, diff: seq<UserEvent>, split: string -> seq<string>)
    requires Splits(split)
    ensures var all := given + Conveyed(Wire(split), diff);
      && (Items(all) == Items(given) + Items(diff) <==> Lossless(diff))
      && (all == given + diff <==> Lossless(diff) && Regroups(diff, split))
  {
    ConveyedIs(diff, split);
    ItemsConcat(given, Carried(diff, split));
    SameEnd(Items(given), Items(Carried(diff, split)), Items(diff));
    SameEnd(given, Carried(diff, split), diff);
    RunesSurviveIff(diff, split);
    EventsSurviveIff(diff, split);
  }

  /** A fetch gives everything it selects exactly when no keystroke follows a resize in the selection
      and the sizes fit 32 bits; the very same events if, besides, the text regroups as typed. */
  lemma FetchGivesIff(l: Link<UserEvent>, split: string -> seq<string>)
    requires l.s.sent != [] && l.r.states != [] && Splits(split) && l.wire == Wire(split)
    ensures var diff := Fetch(l.r).1;
      var given := Next(l, FetchDiff).given;
      && (Items(given) == Items(l.given) + Items(diff) <==> Lossless(diff))
      && (given == l.given + diff <==> Lossless(diff) && Regroups(diff, split))
  {
    FetchGives(l);
    GivesIff(l.given, Fetch(l.r).1, split);
  }

  lemma FetchGives<E>(l: Link<E>)
    requires l.s.sent != [] && l.r.states != []
    ensures Next(l, FetchDiff).given == l.given + Conveyed(l.wire, Fetch(l.r).1)
  {
  }

  // ---------------------------------------------------------------- fetching at once

  /** Everything the receiver's newest state holds was selected. */
  ghost predicate Level<E>(l: Link<E>) {
    l.r.states != [] && Newest(l) in l.hist && l.selected == l.hist[Newest(l)]
  }

  /** Every diff in flight keeps its runes and resizes. */
  ghost predicate LosslessNet(l: Link<UserEvent>) {
    forall inst :: inst in l.net ==> Lossless(inst.diff)
  }

  /** Nothing selected so far was lost. */
  ghost predicate AllGiven(l: Link<UserEvent>) {
    Items(l.given) == Items(l.selected)
  }

  lemma TickLosslessNet(l: Link<UserEvent>, p: Poll, ack: nat, split: string -> seq<string>)
    requires l.s.sent != [] && Splits(split) && l.wire == Wire(split) && LosslessNet(l)
    requires Enabled(l, DoTick(p, ack))
    ensures LosslessNet(NextTick(l, p, ack)) && NextTick(l, p, ack).wire == l.wire
  {
    TickCases(l.s, p, ack, l.wire);
    match Tick(l.s, p, ack, l.wire).1
    case None => assert NextTick(l, p, ack).net == l.net;
    case Some(inst) =>
      TickDiffConveyed(l.s, p, ack, l.wire);
      EventsSurviveIff(TickDiff(l.s, p), split);
      assert Lossless(inst.diff);
      assert NextTick(l, p, ack).net == l.net + {inst};
  }

  lemma TickDiffConveyed<E>(s: Sender<E>, p: Poll, ack: nat, wire: seq<E> -> seq<E>)
    requires s.sent != [] && Sends(s, p)
    ensures Tick(s, p, ack, wire).1.Some? && Tick(s, p, ack, wire).1.value.diff == Conveyed(wire, TickDiff(s, p))
  {
    TickCases(s, p, ack, wire);
  }

  /** What a fetch would select now. */
  ghost function Selection<E>(l: Link<E>): seq<E>
    requires l.r.states != []
  {
    Fetch(l.r).1
  }

  lemma SelectionCompletes<E>(l: Link<E>)
    requires SenderInv(l) && ReceiverInv(l)
    ensures l.selected + Selection(l) == l.hist[Newest(l)]
  {
    FetchKeepsReceiver(l);
  }

  /** `e` is how `d` ends. */
  predicate EndsWith<E(==)>(d: seq<E>, e: seq<E>) {
    |e| <= |d| && e == d[|d| - |e|..]
  }

  /** After a delivery that brought a newer state, a fetch selects the end of its diff. */
  lemma SelectsEnd<E>(l: Link<E>, l': Link<E>, inst: Instruction<E>)
    requires Inv(l) && Inv(l') && Level(l) && l'.hist == l.hist && l'.selected == l.selected
    requires inst in l.net && HasNum(l.r.states, inst.oldNum) && Newest(l') == inst.newNum
    ensures EndsWith(inst.diff, Selection(l'))
  {
    SelectionCompletes(l');
    assert Honest(inst, l.hist);
    OldIsCovered(l, inst.oldNum);
    EndOf(l.hist[inst.oldNum], l.selected, Selection(l'), inst.diff);
  }

  lemma SelectsNothing<E>(l: Link<E>)
    requires Inv(l) && Level(l)
    ensures Selection(l) == []
  {
    SelectionCompletes(l);
  }

  lemma DeliverySelects<E>(l: Link<E>, inst: Instruction<E>, now: int)
    requires Inv(l) && inst in l.net && Level(l)
    ensures var l' := Next(l, Deliver(inst, now));
      Inv(l') && (if Newest(l') == Newest(l) then Level(l') else EndsWith(inst.diff, Selection(l')))
  {
    var l' := Next(l, Deliver(inst, now));
    DeliverKeeps(l, inst, now);
    if Newest(l') != Newest(l) {
      NewestIsStored(l, inst, now);
      SelectsEnd(l, l', inst);
    }
  }

  /** Only a stored instruction changes the newest number, to its own. */
  lemma NewestIsStored<E>(l: Link<E>, inst: Instruction<E>, now: int)
    requires Inv(l) && inst in l.net
    requires Next(l, Deliver(inst, now)).r.states != [] && Newest(Next(l, Deliver(inst, now))) != Newest(l)
    ensures Newest(Next(l, Deliver(inst, now))) == inst.newNum && HasNum(l.r.states, inst.oldNum)
  {
    ReceivedNewest(l.r, inst, now, l.rbase, l.hist);
  }

  lemma ReceivedNewest<E>(r: Receiver<E>, inst: Instruction<E>, now: int, base: seq<E>, hist: map<nat, seq<E>>)
    requires r.states != [] && Strict(r.states) && Recorded(r.states, base, hist)
    ensures var states := Receive(r, inst, now).0.states;
      states == [] || Last(states).num == Last(r.states).num
      || (Last(states).num == inst.newNum && HasNum(r.states, inst.oldNum))
  {
    if !HasNum(r.states, inst.newNum) && HasNum(r.states, inst.oldNum) {
      var kept := KeepFrom(r.states, inst.throwawayNum);
      KeepFromStrict(r.states, inst.throwawayNum, base, hist);
      var x := Stamped(inst.newNum, r.states[IndexOf(r.states, inst.oldNum)].actions + inst.diff, now);
      InsertNewest(kept, x);
    }
  }

  lemma OldIsCovered<E>(l: Link<E>, num: nat)
    requires Inv(l) && Level(l) && HasNum(l.r.states, num)
    ensures num in l.hist && l.hist[num] <= l.selected
  {
    HeldIsAccepted(l, num);
    assert num <= Newest(l);
  }

  lemma EndOf<E>(old_: seq<E>, selected: seq<E>, diff: seq<E>, carried: seq<E>)
    requires old_ <= selected && selected + diff == old_ + carried
    ensures EndsWith(carried, diff)
  {
    assert diff == (selected + diff)[|selected|..];
    assert carried[|selected| - |old_|..] == (old_ + carried)[|selected|..];
  }

  // ---------------------------------------------------------------- runs that fetch at once

  lemma LosslessEnd(d: seq<UserEvent>, e: seq<UserEvent>)
    requires Lossless(d) && EndsWith(d, e)
    ensures Lossless(e)
  {
    var k := |d| - |e|;
    forall i | 0 <= i < |e| ensures e[i] == d[k + i] {
    }
  }

  /** What can be said of a link whose program fetches at once: nothing was lost so far and a fetch
      would lose nothing. `waiting` is true between the arrival of a newer state and the fetch. */
  ghost predicate Prompt(l: Link<UserEvent>, split: string -> seq<string>, waiting: bool) {
    && Inv(l) && l.wire == Wire(split)
    && LosslessNet(l) && AllGiven(l) && Lossless(Selection(l))
    && (!waiting ==> Level(l))
  }

  ghost predicate Brings<E>(l: Link<E>, a: Label<E>)
    requires Enabled(l, a)
  {
    a.Deliver? && Next(l, a).r.states != [] && Newest(Next(l, a)) != Newest(l)
  }

  ghost predicate StillWaiting<E>(l: Link<E>, a: Label<E>, waiting: bool)
    requires Enabled(l, a)
  {
    !a.FetchDiff? && (waiting || Brings(l, a))
  }

  lemma SameNewest<E>(l: Link<E>)
    requires l.s.sent != [] && l.r.states != []
    ensures var l' := Next(l, FetchDiff);
      l'.r.states != [] && Newest(l') == Newest(l) && l'.hist == l.hist && l'.net == l.net && l'.wire == l.wire
      && l'.selected == l.selected + Selection(l)
  {
  }

  lemma PromptFetch(l: Link<UserEvent>, split: string -> seq<string>, waiting: bool)
    requires Splits(split) && Prompt(l, split, waiting)
    ensures Prompt(Next(l, FetchDiff), split, false)
  {
    var l' := Next(l, FetchDiff);
    FetchGivesIff(l, split);
    FetchKeeps(l);
    FetchKeepsReceiver(l);
    SameNewest(l);
    ItemsConcat(l.selected, Selection(l));
    SelectsNothing(l');
  }

  lemma DeliverLeaves<E>(l: Link<E>, inst: Instruction<E>, now: int)
    requires l.s.sent != [] && l.r.states != []
    ensures var l' := Next(l, Deliver(inst, now));
      l'.net == l.net && l'.wire == l.wire && l'.selected == l.selected && l'.given == l.given && l'.hist == l.hist
  {
  }

  lemma PromptDeliver(l: Link<UserEvent>, split: string -> seq<string>, inst: Instruction<UserEvent>, now: int)
    requires Prompt(l, split, false) && inst in l.net
    ensures Prompt(Next(l, Deliver(inst, now)), split, StillWaiting(l, Deliver(inst, now), false))
  {
    DeliverySelects(l, inst, now);
    DeliverLeaves(l, inst, now);
    PromptArrival(l, Next(l, Deliver(inst, now)), inst, split);
  }

  lemma PromptArrival(l: Link<UserEvent>, l': Link<UserEvent>, inst: Instruction<UserEvent>, split: string -> seq<string>)
    requires Prompt(l, split, false) && Inv(l') && inst in l.net
    requires l'.net == l.net && l'.wire == l.wire && l'.selected == l.selected && l'.given == l.given
    requires if Newest(l') == Newest(l) then Level(l') else EndsWith(inst.diff, Selection(l'))
    ensures Prompt(l', split, Newest(l') != Newest(l))
  {
    if Newest(l') == Newest(l) {
      SelectsNothing(l');
    } else {
      LosslessEnd(inst.diff, Selection(l'));
    }
  }

  lemma PromptTick(l: Link<UserEvent>, split: string -> seq<string>, p: Poll, ack: nat, waiting: bool)
    requires Splits(split) && Prompt(l, split, waiting) && Enabled(l, DoTick(p, ack))
    ensures Prompt(NextTick(l, p, ack), split, waiting)
  {
    StepKeeps(l, DoTick(p, ack));
    TickLosslessNet(l, p, ack, split);
    TickSelectsNothing(l, p, ack);
  }

  lemma TickSelectsNothing<E>(l: Link<E>, p: Poll, ack: nat)
    requires Inv(l)
    ensures var l' := NextTick(l, p, ack);
      (Level(l) ==> Level(l')) && l'.r == l.r && l'.selected == l.selected && l'.given == l.given
  {
    TickAdvances(l, p, ack);
  }

  /** A step that leaves the receiver and its history alone. */
  lemma PromptElsewhere(l: Link<UserEvent>, l': Link<UserEvent>, split: string -> seq<string>, waiting: bool)
    requires Prompt(l, split, waiting) && Inv(l')
    requires l'.r == l.r && l'.net == l.net && l'.wire == l.wire && l'.hist == l.hist
    requires l'.selected == l.selected && l'.given == l.given
    ensures Prompt(l', split, waiting)
  {
  }

  lemma StepElsewhere<E>(l: Link<E>, a: Label<E>)
    requires l.s.sent != [] && l.r.states != [] && !a.DoTick? && !a.Deliver? && !a.FetchDiff?
    ensures var l' := Next(l, a);
      && l'.r == l.r && l'.net == l.net && l'.wire == l.wire && l'.hist == l.hist
      && l'.selected == l.selected && l'.given == l.given
  {
  }

  lemma PromptStep(l: Link<UserEvent>, split: string -> seq<string>, a: Label<UserEvent>, waiting: bool)
    requires Splits(split) && Prompt(l, split, waiting) && Enabled(l, a) && (a.Deliver? ==> !waiting)
    ensures Prompt(Next(l, a), split, StillWaiting(l, a, waiting))
  {
    match a
    case DoTick(p, ack) => PromptTick(l, split, p, ack, waiting);
    case Deliver(inst, now) => PromptDeliver(l, split, inst, now);
    case FetchDiff => PromptFetch(l, split, waiting);
    case _ =>
      StepKeeps(l, a);
      StepElsewhere(l, a);
      PromptElsewhere(l, Next(l, a), split, waiting);
  }

  /** A run in which the program fetches whenever a newer state has arrived, before anything else is
      delivered. */
  ghost predicate PromptRun<E>(l: Link<E>, labels: seq<Label<E>>, waiting: bool)
    decreases labels
  {
    labels == [] ||
    (&& Enabled(l, labels[0])
     && (labels[0].Deliver? ==> !waiting)
     && PromptRun(Next(l, labels[0]), labels[1..], StillWaiting(l, labels[0], waiting)))
  }

  ghost predicate WaitingAfter<E>(l: Link<E>, labels: seq<Label<E>>, waiting: bool)
    requires PromptRun(l, labels, waiting)
    decreases labels
  {
    if labels == [] then waiting
    else WaitingAfter(Next(l, labels[0]), labels[1..], StillWaiting(l, labels[0], waiting))
  }

  lemma {:induction false} PromptLosesNothing(l: Link<UserEvent>, labels: seq<Label<UserEvent>>, waiting: bool,
                                              split: string -> seq<string>)
    requires Splits(split) && Prompt(l, split, waiting) && PromptRun(l, labels, waiting)
    ensures Legal(l, labels) && Prompt(Run(l, labels), split, WaitingAfter(l, labels, waiting))
    decreases |labels|
  {
    if labels != [] {
      PromptStep(l, split, labels[0], waiting);
      PromptLosesNothing(Next(l, labels[0]), labels[1..], StillWaiting(l, labels[0], waiting), split);
    }
  }

  lemma InitIsPrompt(split: string -> seq<string>, time: int)
    ensures Prompt(Init(Wire(split), time), split, false)
  {
    InitInv(Wire(split), time);
    SelectsNothing(Init(Wire(split), time));
  }

  /** Exactly-once for what the program is given: in every run with loss, duplication and reordering
      whose ticks' events survive the wire, and in which the program fetches whenever a newer state
      has arrived, the runes and resizes it was given are a prefix of those pushed. */
  lemma GivenExactlyOnce(split: string -> seq<string>, time: int, labels: seq<Label<UserEvent>>)
    requires Splits(split) && PromptRun(Init(Wire(split), time), labels, false)
    ensures Legal(Init(Wire(split), time), labels)
    ensures var l := Run(Init(Wire(split), time), labels);
      Items(l.given) == Items(l.selected) <= Items(Pushes(labels))
  {
    InitIsPrompt(split, time);
    PromptLosesNothing(Init(Wire(split), time), labels, false, split);
    ExactlyOnce(Wire(split), time, labels);
    ItemsOfPrefix(Run(Init(Wire(split), time), labels).selected, Pushes(labels));
  }

  /** So it is of the code as written while every delivery is clean. */
  lemma GivenWhenClean(split: string -> seq<string>, time: int, labels: seq<Label<UserEvent>>)
    requires Splits(split) && PromptRun(Init(Wire(split), time), labels, false)
    requires CleanRun(Init(Wire(split), time), labels)
    ensures var l := RunAsWritten(Init(Wire(split), time), labels);
      Items(l.given) == Items(l.selected) <= Items(Pushes(labels))
  {
    CleanRunIsRun(Init(Wire(split), time), labels);
    GivenExactlyOnce(split, time, labels);
  }

  /** Never stuck, for what the program is given: from every such run without overflow in which
      everything that arrived was fetched, one more tick, its delivery and a fetch complete what was
      pushed. */
  lemma GivenNeverStuck(split: string -> seq<string>, time: int, labels: seq<Label<UserEvent>>,
                        p: Poll, ack: nat, now: int)
    requires Splits(split) && PromptRun(Init(Wire(split), time), labels, false)
    requires !WaitingAfter(Init(Wire(split), time), labels, false)
    requires Legal(Init(Wire(split), time), labels) ==>
      var l := Run(Init(Wire(split), time), labels);
      && !l.overflowed && Enabled(l, DoTick(p, ack)) && TimedOut(l.s, p)
      && p.hasPeer && (p.sendDue || p.ackDue) && |l.r.states| <= RECEIVED_LIMIT
    ensures Legal(Init(Wire(split), time), labels)
    ensures var l := Exchange(Run(Init(Wire(split), time), labels), p, ack, now);
      l.s.sent != [] && l.r.states != [] && Items(Next(l, FetchDiff).given) == Items(Pushes(labels))
  {
    InitIsPrompt(split, time);
    PromptLosesNothing(Init(Wire(split), time), labels, false, split);
    NeverStuck(Wire(split), time, labels, p, ack, now);
    PromptExchange(Run(Init(Wire(split), time), labels), p, ack, now, split);
  }

  lemma PromptExchange(l: Link<UserEvent>, p: Poll, ack: nat, now: int, split: string -> seq<string>)
    requires Splits(split) && Prompt(l, split, false) && Enabled(l, DoTick(p, ack))
    ensures var l' := Exchange(l, p, ack, now);
      l'.s.sent != [] && l'.r.states != [] && Prompt(Next(l', FetchDiff), split, false)
  {
    var l1 := Next(l, DoTick(p, ack));
    PromptTick(l, split, p, ack, false);
    match Tick(l.s, p, ack, l.wire).1
    case None => PromptFetch(l1, split, false);
    case Some(inst) =>
      PromptDeliver(l1, split, inst, now);
      PromptFetch(Next(l1, Deliver(inst, now)), split, StillWaiting(l1, Deliver(inst, now), false));
  }

  /** And between two endpoints that acknowledge each other: the runes and resizes the program at B
      was given are a prefix of those typed at A, if it fetches whenever a newer state has arrived. */
  lemma GivenInTalk<F>(split: string -> seq<string>, back: seq<F> -> seq<F>, time: int,
                       turns: seq<Turn<UserEvent, F>>)
    requires Splits(split) && Talk(World(Init(Wire(split), time), Init(back, time)), turns)
    requires PromptRun(Init(Wire(split), time), LabelsAB(World(Init(Wire(split), time), Init(back, time)), turns), false)
    ensures Items(Told(World(Init(Wire(split), time), Init(back, time)), turns).ab.given) <= Items(TypedAtA(turns))
  {
    InitInv(Wire(split), time);
    InitInv(back, time);
    var w := World(Init(Wire(split), time), Init(back, time));
    TalkIsRun(w, turns);
    GivenExactlyOnce(split, time, LabelsAB(w, turns));
  }
}
