/** From instructions to datagrams and back. */
module Datagrams {
  import opened StateSync
  import opened Fragments
  import opened Fragmenters
  import opened Assemblies
  import opened Reassembly

  /** The fragments call `k` makes. */
  function MadeBy<I(==)>(n: Numbering<I>, calls: seq<(I, int)>, k: nat, encode: I -> seq<byte>): seq<Fragment>
    requires k < |calls| && calls[k].1 > HEADER_LEN
  {
    Cut(encode(calls[k].0), Ids(n, calls)[k], calls[k].1 - HEADER_LEN, 0)
  }

  /** Calls the code can serve: an MTU above the header, and room for the numbers in 15 bits. */
  ghost predicate Served<I>(n: Numbering<I>, calls: seq<(I, int)>, encode: I -> seq<byte>) {
    && n.nextId + |calls| < 0x1_0000_0000_0000_0000
    && forall k :: 0 <= k < |calls| ==>
      calls[k].1 > HEADER_LEN && |MadeBy(n, calls, k, encode)| <= FINAL_BIT
  }

  /** `d` is a datagram of one of the calls. */
  ghost predicate OnWire<I>(d: seq<byte>, n: Numbering<I>, calls: seq<(I, int)>, encode: I -> seq<byte>)
    requires Served(n, calls, encode)
  {
    exists k, i :: 0 <= k < |calls| && 0 <= i < |MadeBy(n, calls, k, encode)|
                   && d == Serialize(MadeBy(n, calls, k, encode)[i])
  }

  /** A call that used the id. */
  ghost function CallOf<I>(n: Numbering<I>, calls: seq<(I, int)>, id: uint64): (k: nat)
    requires id in Ids(n, calls)
    ensures k < |calls| && Ids(n, calls)[k] == id
  {
    var k :| 0 <= k < |calls| && Ids(n, calls)[k] == id;
    k
  }

  /** What was put on the network under each id. */
  ghost function SentBy<I>(n: Numbering<I>, calls: seq<(I, int)>, encode: I -> seq<byte>)
    : map<uint64, seq<Fragment>>
    requires Served(n, calls, encode)
  {
    map id | id in Ids(n, calls) :: MadeBy(n, calls, CallOf(n, calls, id), encode)
  }

  lemma MadeIsWhole<I>(n: Numbering<I>, calls: seq<(I, int)>, k: nat, encode: I -> seq<byte>)
    requires Served(n, calls, encode) && k < |calls|
    ensures Whole(MadeBy(n, calls, k, encode), Ids(n, calls)[k])
    ensures Contents(MadeBy(n, calls, k, encode)) == encode(calls[k].0)
  {
    CutParts(encode(calls[k].0), Ids(n, calls)[k], calls[k].1 - HEADER_LEN, 0);
  }

  /** Calls that share an id made the same fragments. */
  lemma SameIdSameFragments<I>(n: Numbering<I>, calls: seq<(I, int)>, i: nat, j: nat, encode: I -> seq<byte>)
    requires Served(n, calls, encode) && i < |calls| && j < |calls| && Ids(n, calls)[i] == Ids(n, calls)[j]
    ensures MadeBy(n, calls, i, encode) == MadeBy(n, calls, j, encode)
  {
    if i <= j {
      SameIdIff(n, calls, i, j);
    } else {
      SameIdIff(n, calls, j, i);
    }
  }

  lemma NetworkOf<I>(n: Numbering<I>, calls: seq<(I, int)>, encode: I -> seq<byte>)
    requires Served(n, calls, encode)
    ensures var sent := SentBy(n, calls, encode);
      Network(sent) && forall id :: id in sent ==> Contents(sent[id]) == encode(calls[CallOf(n, calls, id)].0)
  {
    var sent := SentBy(n, calls, encode);
    forall id | id in sent ensures Whole(sent[id], id) && Contents(sent[id]) == encode(calls[CallOf(n, calls, id)].0) {
      MadeIsWhole(n, calls, CallOf(n, calls, id), encode);
    }
  }

  /** A datagram of a call parses to a fragment on the network. */
  lemma ParsesToSent<I>(d: seq<byte>, n: Numbering<I>, calls: seq<(I, int)>, encode: I -> seq<byte>)
    requires Served(n, calls, encode) && OnWire(d, n, calls, encode)
    ensures Parse(d).Some? && FromNetwork(Parse(d).value, SentBy(n, calls, encode))
  {
    var k, i :| 0 <= k < |calls| && 0 <= i < |MadeBy(n, calls, k, encode)|
                && d == Serialize(MadeBy(n, calls, k, encode)[i]);
    var f, id := MadeBy(n, calls, k, encode)[i], Ids(n, calls)[k];
    MadeIsWhole(n, calls, k, encode);
    ParseSerialize(f);
    SameIdSameFragments(n, calls, k, CallOf(n, calls, id), encode);
  }

  function Parsed(datagrams: seq<seq<byte>>): (fs: seq<Fragment>)
    requires forall i :: 0 <= i < |datagrams| ==> Parse(datagrams[i]).Some?
    ensures |fs| == |datagrams|
    ensures forall i :: 0 <= i < |fs| ==> fs[i] == Parse(datagrams[i]).value
  {
    seq(|datagrams|, i requires 0 <= i < |datagrams| => Parse(datagrams[i]).value)
  }

  /** Whatever datagrams of the calls arrive, in whatever order and however often: every
      instruction the peer takes out is one that was handed to the fragmenter. */
  lemma EveryInstructionWasSent<I>(blank: I, calls: seq<(I, int)>, encode: I -> seq<byte>,
                                   decode: seq<byte> -> Option<I>, datagrams: seq<seq<byte>>)
    requires forall x: I :: decode(encode(x)) == Some(x)
    requires Served(Numbering(blank, 0, MAX_INT), calls, encode)
    requires forall i :: 0 <= i < |datagrams| ==> OnWire(datagrams[i], Numbering(blank, 0, MAX_INT), calls, encode)
    ensures forall i :: 0 <= i < |datagrams| ==> Parse(datagrams[i]).Some?
    ensures forall o :: o in Feed(Assembly([], NO_ID, 0, UNKNOWN), Parsed(datagrams)) ==>
      exists k :: 0 <= k < |calls| && Ids(Numbering(blank, 0, MAX_INT), calls)[k] == o.0
                  && decode(o.1) == Some(calls[k].0)
  {
    var n := Numbering(blank, 0, MAX_INT);
    var sent := SentBy(n, calls, encode);
    forall i | 0 <= i < |datagrams|
      ensures Parse(datagrams[i]).Some? && FromNetwork(Parse(datagrams[i]).value, sent)
    {
      ParsesToSent(datagrams[i], n, calls, encode);
    }
    NetworkOf(n, calls, encode);
    Reassembly.InitInv(sent);
    OnlyWholePayloads(Assembly([], NO_ID, 0, UNKNOWN), Parsed(datagrams), sent);
  }

  lemma {:induction false} OutputsBear(a: Assembly, fs: seq<Fragment>, id: uint64)
    requires a.arrived == |a.fragments| && forall i :: 0 <= i < |fs| ==> fs[i].id == id
    ensures forall o :: o in Feed(a, fs) ==> o.0 == id
    decreases |fs|
  {
    if fs != [] {
      var a1 := Added(a, fs[0]);
      OutputsBear(if Complete(a1) then Taken(a1) else a1, fs[1..], id);
    }
  }

  lemma AllFragmentsTakenOut(a: Assembly, fs: seq<Fragment>, sent: map<uint64, seq<Fragment>>, id: uint64)
    requires Network(sent) && Inv(a, sent) && id in sent && (a.currentId != id || a.fragments == [])
    requires forall i :: 0 <= i < |fs| ==> fs[i] in sent[id]
    requires forall j :: 0 <= j < |sent[id]| ==> sent[id][j] in fs
    ensures var out := Feed(a, fs); out != [] && out[0] == (id, Contents(sent[id]))
  {
    FreshComesOutIff(a, fs, sent, id);
    OnlyWholePayloads(a, fs, sent);
    OutputsBear(a, fs, id);
    assert Feed(a, fs)[0] in Feed(a, fs);
  }

  lemma SentUnder<I>(n: Numbering<I>, calls: seq<(I, int)>, k: nat, encode: I -> seq<byte>)
    requires Served(n, calls, encode) && k < |calls|
    ensures var sent, id := SentBy(n, calls, encode), Ids(n, calls)[k];
      id in sent && sent[id] == MadeBy(n, calls, k, encode)
  {
    var id := Ids(n, calls)[k];
    SameIdSameFragments(n, calls, k, CallOf(n, calls, id), encode);
  }

  /** The datagrams of `made` as they arrive: some may come several times, or late. */
  function Shuffled(made: seq<Fragment>, order: seq<nat>): (datagrams: seq<seq<byte>>)
    requires forall i :: 0 <= i < |order| ==> order[i] < |made|
    ensures |datagrams| == |order| && forall i :: 0 <= i < |order| ==> datagrams[i] == Serialize(made[order[i]])
  {
    seq(|order|, i requires 0 <= i < |order| => Serialize(made[order[i]]))
  }

  lemma ParsedShuffled(made: seq<Fragment>, order: seq<nat>, id: uint64)
    requires Whole(made, id) && forall i :: 0 <= i < |order| ==> order[i] < |made|
    ensures forall i :: 0 <= i < |order| ==> Parse(Shuffled(made, order)[i]) == Some(made[order[i]])
    ensures forall j :: 0 <= j < |made| && j in order ==> made[j] in Parsed(Shuffled(made, order))
  {
    forall i | 0 <= i < |order| ensures Parse(Shuffled(made, order)[i]) == Some(made[order[i]]) {
      ParseSerialize(made[order[i]]);
    }
    var fs := Parsed(Shuffled(made, order));
    forall j | 0 <= j < |made| && j in order ensures made[j] in fs {
      var i :| 0 <= i < |order| && order[i] == j;
      assert fs[i] == made[j];
    }
  }

  /** Every datagram of a call, in any order and with repetitions: its instruction is taken out. */
  lemma AllArrivedIsTakenOut<I>(n: Numbering<I>, calls: seq<(I, int)>, k: nat, encode: I -> seq<byte>,
                                decode: seq<byte> -> Option<I>, a: Assembly, order: seq<nat>)
    requires Served(n, calls, encode) && k < |calls| && decode(encode(calls[k].0)) == Some(calls[k].0)
    requires Inv(a, SentBy(n, calls, encode)) && (a.currentId != Ids(n, calls)[k] || a.fragments == [])
    requires forall i :: 0 <= i < |order| ==> order[i] < |MadeBy(n, calls, k, encode)|
    requires forall j :: 0 <= j < |MadeBy(n, calls, k, encode)| ==> j in order
    ensures var datagrams := Shuffled(MadeBy(n, calls, k, encode), order);
      && (forall i :: 0 <= i < |datagrams| ==> Parse(datagrams[i]).Some?)
      && var out := Feed(a, Parsed(datagrams));
         out != [] && decode(out[0].1) == Some(calls[k].0)
  {
    var made, id := MadeBy(n, calls, k, encode), Ids(n, calls)[k];
    NetworkOf(n, calls, encode);
    MadeIsWhole(n, calls, k, encode);
    SentUnder(n, calls, k, encode);
    ParsedShuffled(made, order, id);
    var fs := Parsed(Shuffled(made, order));
    AllFragmentsTakenOut(a, fs, SentBy(n, calls, encode), id);
  }
}
