/** Datagrams: a fragment and its bytes. */
module Fragments {
  import opened Prefixes
  import opened StateSync

  type byte = x: int | 0 <= x < 0x100
  type uint16 = x: int | 0 <= x < 0x1_0000
  type uint64 = x: int | 0 <= x < 0x1_0000_0000_0000_0000

  datatype Fragment =
    Fragment(contents: seq<byte>, id: uint64, fragmentNum: uint16, final: bool, initialized: bool)

  // 8 bytes of id, then the number and the final flag in 2
  const HEADER_LEN := 10
  const FINAL_BIT := 0x8000

  // ---------------------------------------------------------------- numbers, big-endian

  function Power256(k: nat): (p: int)
    ensures p > 0
  {
    if k == 0 then 1 else 0x100 * Power256(k - 1)
  }

  /** The low `k` bytes of `n`, the most significant first. */
  function BigEndian(n: nat, k: nat): (bytes: seq<byte>)
    ensures |bytes| == k
  {
    if k == 0 then [] else BigEndian(n / 0x100, k - 1) + [n % 0x100]
  }

  function FromBigEndian(bytes: seq<byte>): nat {
    if bytes == [] then 0
    else 0x100 * FromBigEndian(bytes[..|bytes| - 1]) + bytes[|bytes| - 1]
  }

  lemma {:induction false} ReadBack(n: nat, k: nat)
    requires n < Power256(k)
    ensures FromBigEndian(BigEndian(n, k)) == n
  {
    if k > 0 {
      ReadBack(n / 0x100, k - 1);
      assert BigEndian(n, k)[..k - 1] == BigEndian(n / 0x100, k - 1);
    }
  }

  lemma {:induction false} WriteBack(bytes: seq<byte>)
    ensures FromBigEndian(bytes) < Power256(|bytes|)
    ensures BigEndian(FromBigEndian(bytes), |bytes|) == bytes
  {
    if bytes != [] {
      var k := |bytes| - 1;
      WriteBack(bytes[..k]);
      assert bytes == bytes[..k] + [bytes[k]];
    }
  }

  lemma PowersOf256()
    ensures Power256(2) == 0x1_0000 && Power256(8) == 0x1_0000_0000_0000_0000
  {
    assert Power256(2) == 0x100 * Power256(1);
    assert Power256(4) == 0x100 * (0x100 * Power256(2));
    assert Power256(6) == 0x100 * (0x100 * Power256(4));
  }

  // ---------------------------------------------------------------- a fragment on the wire

  /** The number with the final flag in its top bit. */
  function Combo(f: Fragment): uint16 {
    if f.final && f.fragmentNum < FINAL_BIT then f.fragmentNum + FINAL_BIT else f.fragmentNum
  }

  function Serialize(f: Fragment): seq<byte> {
    if !f.initialized then []
    else BigEndian(f.id, 8) + BigEndian(Combo(f), 2) + f.contents
  }

  function Parse(x: seq<byte>): Option<Fragment> {
    if |x| < HEADER_LEN then None
    else
      PowersOf256(); WriteBack(x[..8]); WriteBack(x[8..10]);
      var combo := FromBigEndian(x[8..10]);
      Some(Fragment(x[10..], FromBigEndian(x[..8]), combo % FINAL_BIT, combo >= FINAL_BIT, true))
  }

  /** A fragment survives the wire exactly if it was built by a constructor and its number leaves
      the top bit free; a greater number comes back as another one. */
  lemma ParseSerialize(f: Fragment)
    ensures Parse(Serialize(f)) == Some(f) <==> f.initialized && f.fragmentNum < FINAL_BIT
  {
    if f.initialized {
      PowersOf256();
      var x := Serialize(f);
      assert x[..8] == BigEndian(f.id, 8) && x[8..10] == BigEndian(Combo(f), 2) && x[10..] == f.contents;
      ReadBack(f.id, 8);
      ReadBack(Combo(f), 2);
    }
  }

  /** On the wire: the id in eight bytes, the number in two with the final flag on top, the contents. */
  lemma WireFormat(f: Fragment)
    requires f.initialized && f.fragmentNum < FINAL_BIT
    ensures var x := Serialize(f);
      && |x| == 10 + |f.contents| && FromBigEndian(x[..8]) == f.id && x[10..] == f.contents
      && FromBigEndian(x[8..10]) == f.fragmentNum + (if f.final then 0x8000 else 0)
  {
    var x := Serialize(f);
    PowersOf256();
    assert x[..8] == BigEndian(f.id, 8) && x[8..10] == BigEndian(Combo(f), 2) && x[10..] == f.contents;
    ReadBack(f.id, 8);
    ReadBack(Combo(f), 2);
  }

  lemma Glued(x: seq<byte>)
    requires |x| >= HEADER_LEN
    ensures x[..8] + x[8..10] + x[10..] == x
  {
  }

  lemma ComboParsed(x: seq<byte>)
    requires |x| >= HEADER_LEN
    ensures var f := Parse(x).value;
      f.initialized && BigEndian(f.id, 8) == x[..8] && BigEndian(Combo(f), 2) == x[8..10] && f.contents == x[10..]
  {
    PowersOf256();
    WriteBack(x[..8]);
    WriteBack(x[8..10]);
    ComboBack(Parse(x).value, FromBigEndian(x[8..10]));
  }

  lemma ComboBack(f: Fragment, combo: uint16)
    requires f.fragmentNum == combo % FINAL_BIT && (f.final <==> combo >= FINAL_BIT)
    ensures Combo(f) == combo
  {
  }

  /** Every datagram of at least a header is a fragment's, and of that one only. */
  lemma SerializeParse(x: seq<byte>)
    ensures Parse(x).None? <==> |x| < HEADER_LEN
    ensures Parse(x).Some? ==> Serialize(Parse(x).value) == x && Parse(x).value.fragmentNum < FINAL_BIT
  {
    if |x| >= HEADER_LEN {
      ComboParsed(x);
      Glued(x);
    }
  }

  // ---------------------------------------------------------------- cutting

  function Contents(fs: seq<Fragment>): seq<byte> {
    if fs == [] then [] else fs[0].contents + Contents(fs[1..])
  }

  lemma {:induction false} ContentsAppend(a: seq<Fragment>, b: seq<Fragment>)
    ensures Contents(a + b) == Contents(a) + Contents(b)
  {
    if a == [] {
      assert a + b == b;
    } else {
      ContentsAppend(a[1..], b);
      assert (a + b)[1..] == a[1..] + b;
      Regroup(a[0].contents, Contents(a[1..]), Contents(b));
    }
  }

  /** The fragments of `payload`, numbered from `num` on in 16 bits. */
  function Cut(payload: seq<byte>, id: uint64, size: int, num: uint16): (fs: seq<Fragment>)
    requires size > 0
    ensures fs != []
    decreases |payload|
  {
    if |payload| > size
    then [Fragment(payload[..size], id, num, false, true)]
         + Cut(payload[size..], id, size, (num + 1) % 0x1_0000)
    else [Fragment(payload, id, num, true, true)]
  }

  /** The fragment at place `i` of `n`: numbered in turn, full but for the last, which alone is final. */
  predicate Piece(f: Fragment, i: nat, n: nat, id: uint64, size: int, num: uint16) {
    && f.id == id && f.initialized && f.fragmentNum == (num + i) % 0x1_0000
    && (f.final <==> i == n - 1)
    && |f.contents| <= size && (!f.final ==> |f.contents| == size)
  }

  lemma NextPiece(f: Fragment, i: nat, n: nat, id: uint64, size: int, num: uint16)
    requires Piece(f, i, n, id, size, (num + 1) % 0x1_0000)
    ensures Piece(f, i + 1, n + 1, id, size, num)
  {
  }

  /** Together the fragments hold the payload, in order. */
  lemma {:induction false} CutParts(payload: seq<byte>, id: uint64, size: int, num: uint16)
    requires size > 0
    ensures var fs := Cut(payload, id, size, num);
      && Contents(fs) == payload
      && forall i :: 0 <= i < |fs| ==> Piece(fs[i], i, |fs|, id, size, num)
    decreases |payload|
  {
    if |payload| > size {
      CutParts(payload[size..], id, size, (num + 1) % 0x1_0000);
      var fs, rest := Cut(payload, id, size, num), Cut(payload[size..], id, size, (num + 1) % 0x1_0000);
      assert fs[1..] == rest;
      forall i | 0 < i < |fs| ensures Piece(fs[i], i, |fs|, id, size, num) {
        NextPiece(rest[i - 1], i - 1, |rest|, id, size, num);
      }
    }
  }

  /** No more fragments than the payload needs; an empty payload still takes one. */
  lemma {:induction false} CutCount(payload: seq<byte>, id: uint64, size: int, num: uint16)
    requires size > 0 && payload != []
    ensures var n := |Cut(payload, id, size, num)|; (n - 1) * size < |payload| <= n * size
    decreases |payload|
  {
    if |payload| > size {
      CutCount(payload[size..], id, size, (num + 1) % 0x1_0000);
    }
  }
}
