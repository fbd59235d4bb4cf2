/** Cutting instructions into fragments. `encode` stands for marshalling and compressing. */
module Fragmenters {
  import opened Prefixes
  import opened StateSync
  import opened Fragments

  const MAX_INT := 0x7FFF_FFFF_FFFF_FFFF

  /** What the fragmenter remembers of the last call. */
  datatype Numbering<I> = Numbering(last: I, nextId: uint64, lastMTU: int)

  /** A new id unless the call repeats the last one. */
  function Numbered<I(==)>(n: Numbering<I>, inst: I, mtu: int): Numbering<I> {
    var m := mtu - HEADER_LEN;
    Numbering(inst, if inst != n.last || n.lastMTU != m then Succ(n.nextId) else n.nextId, m)
  }

  /** The ids successive calls give out. */
  function Ids<I(==)>(n: Numbering<I>, calls: seq<(I, int)>): (ids: seq<uint64>)
    ensures |ids| == |calls|
    decreases |calls|
  {
    if calls == [] then []
    else
      var n' := Numbered(n, calls[0].0, calls[0].1);
      [n'.nextId] + Ids(n', calls[1..])
  }

  /** Against what came before the calls: an id is still the old one if nothing changed yet. */
  lemma {:induction false} IdsGrow<I>(n: Numbering<I>, calls: seq<(I, int)>, j: nat)
    requires j < |calls| && n.nextId + |calls| < 0x1_0000_0000_0000_0000
    ensures n.nextId <= Ids(n, calls)[j] <= n.nextId + j + 1
    ensures Ids(n, calls)[j] == n.nextId <==>
      forall k :: 0 <= k <= j ==> calls[k] == (n.last, n.lastMTU + HEADER_LEN)
    decreases |calls|
  {
    var n' := Numbered(n, calls[0].0, calls[0].1);
    if j > 0 {
      IdsGrow(n', calls[1..], j - 1);
      assert forall k :: 0 < k <= j ==> calls[k] == calls[1..][k - 1];
    }
  }

  /** Two calls share an id exactly when they, and all calls between them, agree in instruction
      and MTU (before the ids wrap around). */
  lemma {:induction false} SameIdIff<I>(n: Numbering<I>, calls: seq<(I, int)>, i: nat, j: nat)
    requires i <= j < |calls| && n.nextId + |calls| < 0x1_0000_0000_0000_0000
    ensures Ids(n, calls)[i] == Ids(n, calls)[j] <==> forall k :: i <= k <= j ==> calls[k] == calls[i]
    decreases |calls|
  {
    var n' := Numbered(n, calls[0].0, calls[0].1);
    assert forall k :: 0 < k <= j ==> calls[k] == calls[1..][k - 1];
    if i > 0 {
      SameIdIff(n', calls[1..], i - 1, j - 1);
    } else if j > 0 {
      IdsGrow(n', calls[1..], j - 1);
      assert calls[0] == (n'.last, n'.lastMTU + HEADER_LEN);
    }
  }

  /** One turn of the loop: the next fragment joins those made, and the rest is cut after it. */
  lemma CutOnce(payload: seq<byte>, pos: nat, id: uint64, size: int, num: uint16, made: seq<Fragment>)
    requires pos <= |payload| && size > 0
    ensures |payload[pos..]| > size ==>
      made + Cut(payload[pos..], id, size, num) ==
      made + [Fragment(payload[pos..pos + size], id, num, false, true)]
      + Cut(payload[pos + size..], id, size, (num + 1) % 0x1_0000)
    ensures |payload[pos..]| <= size ==>
      made + Cut(payload[pos..], id, size, num) == made + [Fragment(payload[pos..], id, num, true, true)]
  {
    if |payload[pos..]| > size {
      assert payload[pos..][..size] == payload[pos..pos + size] && payload[pos..][size..] == payload[pos + size..];
      Regroup(made, [Fragment(payload[pos..pos + size], id, num, false, true)],
              Cut(payload[pos + size..], id, size, (num + 1) % 0x1_0000));
    }
  }

  class Fragmenter<I(==)> {
    var lastInstruction: I
    var nextInstructionId: uint64
    var lastMTU: int

    ghost function View(): Numbering<I>
      reads this
    {
      Numbering(lastInstruction, nextInstructionId, lastMTU)
    }

    constructor (blank: I)
      ensures View() == Numbering(blank, 0, MAX_INT)
      ensures forall inst, mtu :: mtu <= MAX_INT ==> Numbered(View(), inst, mtu).nextId == 1
    {
      nextInstructionId := 0;
      lastMTU := MAX_INT;
      lastInstruction := blank;
    }

    method MakeFragments(inst: I, mtu: int, encode: I -> seq<byte>) returns (ret: seq<Fragment>)
      requires mtu > HEADER_LEN
      modifies this
      ensures View() == Numbered(old(View()), inst, mtu)
      ensures ret == Cut(encode(inst), nextInstructionId, mtu - HEADER_LEN, 0)
    {
      var size := mtu - 10;
      if inst != lastInstruction || lastMTU != size {
        nextInstructionId := Succ(nextInstructionId);
      }
      lastInstruction := inst;
      lastMTU := size;

      ret := CutPayload(encode(inst), nextInstructionId, size);
    }
  }

  /** The loop over the payload. */
  method CutPayload(payload: seq<byte>, id: uint64, size: int) returns (ret: seq<Fragment>)
    requires size > 0
    ensures ret == Cut(payload, id, size, 0)
  {
    var fragmentNum: uint16 := 0;
    var pos := 0;
    var more := true;
    ret := [];
    assert payload[0..] == payload;
    while more
      invariant 0 <= pos <= |payload|
      invariant (if more then ret + Cut(payload[pos..], id, size, fragmentNum) else ret) == Cut(payload, id, size, 0)
      decreases more, |payload| - pos
    {
      CutOnce(payload, pos, id, size, fragmentNum, ret);
      var thisFragment := payload[pos..];
      if |payload[pos..]| > size {
        thisFragment := payload[pos..pos + size];
        pos := pos + size;
      } else {
        more := false;
      }
      ret := ret + [Fragment(thisFragment, id, fragmentNum, !more, true)];
      fragmentNum := (fragmentNum + 1) % 0x1_0000;
    }
  }
}
