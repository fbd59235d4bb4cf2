/** Prefixes of event lists: what is left of a list when a prefix of it is subtracted. */
module Prefixes {

  /** How many leading elements two lists share. */
  function CommonPrefix<E(==)>(a: seq<E>, b: seq<E>): (n: nat)
    ensures n <= |a| && n <= |b|
    ensures a[..n] == b[..n]
    ensures n < |a| && n < |b| ==> a[n] != b[n]
  {
    if a == [] || b == [] || a[0] != b[0] then 0
    else
      var n := 1 + CommonPrefix(a[1..], b[1..]);
      assert a[..n] == [a[0]] + a[1..][..n - 1] && b[..n] == [b[0]] + b[1..][..n - 1];
      n
  }

  /** What remains of `a` once the leading elements it shares with `b` are popped. */
  function Minus<E(==)>(a: seq<E>, b: seq<E>): (r: seq<E>)
    ensures b <= a ==> b + r == a
  {
    if a == [] || b == [] || a[0] != b[0] then a
    else
      assert b <= a ==> b[1..] <= a[1..] && b == [b[0]] + b[1..] && a == [a[0]] + a[1..];
      Minus(a[1..], b[1..])
  }

  lemma MinusIs<E>(a: seq<E>, b: seq<E>)
    ensures Minus(a, b) == a[CommonPrefix(a, b)..]
  {
    if a != [] && b != [] && a[0] == b[0] {
      MinusIs(a[1..], b[1..]);
    }
  }

  lemma CommonPrefixOfPrefix<E>(a: seq<E>, b: seq<E>)
    requires b <= a
    ensures CommonPrefix(a, b) == |b|
  {
  }

  /** The number of shared leading elements is pinned down by where the lists part. */
  lemma CommonPrefixUnique<E>(a: seq<E>, b: seq<E>, n: nat)
    requires n <= |a| && n <= |b| && a[..n] == b[..n]
    requires n < |a| && n < |b| ==> a[n] != b[n]
    ensures CommonPrefix(a, b) == n
  {
  }

  lemma PrefixCancel<E>(base: seq<E>, a: seq<E>, b: seq<E>)
    ensures base + a <= base + b <==> a <= b
  {
    if base + a <= base + b {
      assert a == (base + a)[|base|..] && b == (base + b)[|base|..];
    }
  }

  /** Moving a common prefix into the base does not change the whole list. */
  lemma Rebase<E>(base: seq<E>, known: seq<E>, a: seq<E>)
    requires base + known <= base + a
    ensures known <= a && Minus(a, known) == a[|known|..]
    ensures base + known + Minus(a, known) == base + a
  {
    PrefixCancel(base, known, a);
    MinusPrefix(a, known);
    Regroup(base, known, a[|known|..]);
  }

  lemma MinusPrefix<E>(a: seq<E>, known: seq<E>)
    requires known <= a
    ensures Minus(a, known) == a[|known|..] && known + a[|known|..] == a
  {
    CommonPrefixOfPrefix(a, known);
    MinusIs(a, known);
  }

  lemma Regroup<E>(a: seq<E>, b: seq<E>, c: seq<E>)
    ensures a + (b + c) == a + b + c
  {
  }

  lemma SameStart<E>(a: seq<E>, b: seq<E>, d: seq<E>)
    ensures a + d == b + d <==> a == b
  {
    if a + d == b + d {
      assert a == (a + d)[..|a|] && b == (b + d)[..|b|];
    }
  }

  lemma SameEnd<E>(a: seq<E>, d: seq<E>, e: seq<E>)
    ensures a + d == a + e <==> d == e
  {
    if a + d == a + e {
      assert d == (a + d)[|a|..] && e == (a + e)[|a|..];
    }
  }
}
