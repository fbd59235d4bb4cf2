/** Fragments of many instructions, delivered in any order, any number of times, or never. */
module Reassembly {
  import opened StateSync
  import opened Fragments
  import opened Fragmenters
  import opened Assemblies

  /** All fragments of one instruction, fewer than would spill into the final bit. */
  predicate Whole(fs: seq<Fragment>, id: uint64) {
    && 0 < |fs| <= FINAL_BIT
    && forall i :: 0 <= i < |fs| ==>
      fs[i].id == id && fs[i].fragmentNum == i && (fs[i].final <==> i == |fs| - 1) && fs[i].initialized
  }

  /** What was put on the network: for each id the fragments of its instruction. */
  predicate Network(sent: map<uint64, seq<Fragment>>) {
    forall id :: id in sent ==> Whole(sent[id], id)
  }

  predicate FromNetwork(f: Fragment, sent: map<uint64, seq<Fragment>>) {
    f.id in sent && f in sent[f.id]
  }

  /** The total, once the final fragment is there. */
  function Total(fs: seq<Fragment>, id: uint64, sent: map<uint64, seq<Fragment>>): int {
    if id in sent && Has(fs, |sent[id]| - 1) then |sent[id]| else UNKNOWN
  }

  /** The fragments held are of one instruction, each once, in order; the total is known exactly
      if the final one is among them. */
  ghost predicate Inv(a: Assembly, sent: map<uint64, seq<Fragment>>) {
    && a.arrived == |a.fragments|
    && Rising(a.fragments)
    && (forall f :: f in a.fragments ==> f.id == a.currentId && FromNetwork(f, sent))
    && a.total == Total(a.fragments, a.currentId, sent)
  }

  lemma InitInv(sent: map<uint64, seq<Fragment>>)
    ensures Inv(Assembly([], NO_ID, 0, UNKNOWN), sent)
  {
  }

  lemma TakenInv(a: Assembly, sent: map<uint64, seq<Fragment>>)
    ensures Inv(Taken(a), sent)
  {
  }

  /** The fragments after one was added, in order. */
  lemma AddedFragments(a: Assembly, f: Fragment, num: int)
    requires Rising(a.fragments)
    ensures var r := Added(a, f).fragments;
      && Rising(r)
      && (forall x :: x in r ==> x == f || (a.currentId == f.id && x in a.fragments))
      && (Has(r, num) <==> (num == f.fragmentNum || (a.currentId == f.id && Has(a.fragments, num))))
  {
    if a.currentId != f.id {
      assert [f][0] == f;
    } else if !Has(a.fragments, f.fragmentNum) {
      SortRising(a.fragments);
      PlacedRising(a.fragments, f);
      assert (a.fragments + [f])[..|a.fragments|] == a.fragments;
      assert SortStable(a.fragments + [f]) == Placed(a.fragments, f);
      PlacedHas(a.fragments, f, num);
    }
  }

  /** Adding a fragment keeps the invariant and makes its number one of those held. */
  lemma AddedKeeps(a: Assembly, f: Fragment, sent: map<uint64, seq<Fragment>>, num: int)
    requires Network(sent) && Inv(a, sent) && FromNetwork(f, sent)
    ensures var a' := Added(a, f);
      && Inv(a', sent) && a'.currentId == f.id
      && (Has(a'.fragments, num) <==> (num == f.fragmentNum || (a.currentId == f.id && Has(a.fragments, num))))
  {
    AddedFragments(a, f, num);
    AddedFragments(a, f, |sent[f.id]| - 1);
    assert f.final <==> f.fragmentNum == |sent[f.id]| - 1;
  }

  // ---------------------------------------------------------------- when all are there

  /** Fragments in rising order of number, all below `n`, are at most `n`, and at least their place. */
  lemma {:induction false} RisingPlaces(fs: seq<Fragment>, n: int, i: nat)
    requires Rising(fs) && i < |fs| && fs[|fs| - 1].fragmentNum < n
    ensures i <= fs[i].fragmentNum <= n - (|fs| - i)
    decreases |fs|
  {
    if |fs| > 1 {
      if i < |fs| - 1 {
        RisingPlaces(fs[..|fs| - 1], fs[|fs| - 1].fragmentNum, i);
      } else {
        RisingPlaces(fs[..|fs| - 1], fs[|fs| - 1].fragmentNum, i - 1);
      }
    }
  }

  /** All numbers below `n` are there exactly when there are `n` fragments. */
  lemma {:induction false} AllThereIff(fs: seq<Fragment>, n: nat)
    requires Rising(fs) && forall i :: 0 <= i < |fs| ==> fs[i].fragmentNum < n
    ensures |fs| <= n
    ensures |fs| == n <==> forall num :: 0 <= num < n ==> Has(fs, num)
    decreases n
  {
    if fs != [] {
      RisingPlaces(fs, n, 0);
    }
    if |fs| == n {
      forall num | 0 <= num < n ensures Has(fs, num) {
        RisingPlaces(fs, n, num);
      }
    } else if forall num :: 0 <= num < n ==> Has(fs, num) {
      assert Has(fs, n - 1);
      var front := fs[..|fs| - 1];
      forall num | 0 <= num < n - 1 ensures Has(front, num) {
        assert Has(fs, num);
        var i :| 0 <= i < |fs| && fs[i].fragmentNum == num;
        assert front[i] == fs[i];
      }
      AllThereIff(front, n - 1);
    }
  }

  /** The assembly is complete exactly when every fragment is held; then what is held is the
      instruction's fragments in order. */
  lemma CompleteIff(a: Assembly, sent: map<uint64, seq<Fragment>>)
    requires Network(sent) && Inv(a, sent) && a.fragments != []
    ensures a.currentId in sent && (Complete(a) <==> a.fragments == sent[a.currentId])
    ensures Complete(a) <==> forall num :: 0 <= num < |sent[a.currentId]| ==> Has(a.fragments, num)
  {
    var fs := a.fragments;
    assert FromNetwork(fs[0], sent);
    var all := sent[a.currentId];
    var n := |all|;
    forall i | 0 <= i < |fs| ensures fs[i].fragmentNum < n && fs[i] == all[fs[i].fragmentNum] {
      assert FromNetwork(fs[i], sent);
    }
    AllThereIff(fs, n);
    if |fs| == n {
      forall i | 0 <= i < n ensures fs[i] == all[i] {
        RisingPlaces(fs, n, i);
      }
    }
  }

  // ---------------------------------------------------------------- runs

  type Output = (uint64, seq<byte>)

  /** Feed fragments one by one and take out every instruction that becomes complete. */
  function Feed(a: Assembly, fs: seq<Fragment>): seq<Output>
    requires a.arrived == |a.fragments|
    decreases |fs|
  {
    if fs == [] then []
    else
      var a1 := Added(a, fs[0]);
      if Complete(a1)
      then [(a1.currentId, Contents(a1.fragments[..a1.total]))] + Feed(Taken(a1), fs[1..])
      else Feed(a1, fs[1..])
  }

  /** Whatever is taken out under an id is that id's payload, whole. */
  lemma {:induction false} OnlyWholePayloads(a: Assembly, fs: seq<Fragment>, sent: map<uint64, seq<Fragment>>)
    requires Network(sent) && Inv(a, sent) && forall i :: 0 <= i < |fs| ==> FromNetwork(fs[i], sent)
    ensures forall o :: o in Feed(a, fs) ==> o.0 in sent && o.1 == Contents(sent[o.0])
    decreases |fs|
  {
    if fs != [] {
      var a1 := Added(a, fs[0]);
      AddedKeeps(a, fs[0], sent, fs[0].fragmentNum);
      CompleteIff(a1, sent);
      if Complete(a1) {
        TakenInv(a1, sent);
        assert a1.fragments[..a1.total] == a1.fragments;
        OnlyWholePayloads(Taken(a1), fs[1..], sent);
      } else {
        OnlyWholePayloads(a1, fs[1..], sent);
      }
    }
  }

  lemma HasFirst(fs: seq<Fragment>, num: int)
    requires fs != []
    ensures Has(fs, num) <==> fs[0].fragmentNum == num || Has(fs[1..], num)
  {
    if Has(fs[1..], num) {
      var i :| 0 <= i < |fs| - 1 && fs[1..][i].fragmentNum == num;
      assert fs[i + 1].fragmentNum == num;
    }
    if Has(fs, num) && fs[0].fragmentNum != num {
      var i :| 0 <= i < |fs| && fs[i].fragmentNum == num;
      assert fs[1..][i - 1].fragmentNum == num;
    }
  }

  /** Of the fragments of `id`, all those not held yet are in `fs`. */
  ghost predicate Covers(a: Assembly, fs: seq<Fragment>, id: uint64, n: nat) {
    forall num :: 0 <= num < n ==> Has(fs, num) || (a.currentId == id && Has(a.fragments, num))
  }

  lemma CoversStep(a: Assembly, fs: seq<Fragment>, sent: map<uint64, seq<Fragment>>, id: uint64)
    requires Network(sent) && Inv(a, sent) && fs != [] && FromNetwork(fs[0], sent) && fs[0].id == id
    ensures Covers(a, fs, id, |sent[id]|) <==> Covers(Added(a, fs[0]), fs[1..], id, |sent[id]|)
  {
    var a1 := Added(a, fs[0]);
    forall num ensures a1.currentId == id &&
      (Has(fs, num) || (a.currentId == id && Has(a.fragments, num)) <==> Has(fs[1..], num) || Has(a1.fragments, num))
    {
      AddedKeeps(a, fs[0], sent, num);
      HasFirst(fs, num);
    }
  }

  /** Fed fragments of one id alone, an instruction comes out exactly if those that were missing
      have all arrived: so the first time is when the last missing one arrives. */
  lemma {:induction false} ComesOutIff(a: Assembly, fs: seq<Fragment>, sent: map<uint64, seq<Fragment>>, id: uint64)
    requires Network(sent) && Inv(a, sent) && id in sent
    requires forall i :: 0 <= i < |fs| ==> FromNetwork(fs[i], sent) && fs[i].id == id
    requires a.currentId == id && a.fragments != [] ==> !Complete(a)
    ensures Feed(a, fs) != [] <==> Covers(a, fs, id, |sent[id]|)
    decreases |fs|
  {
    if fs == [] {
      if a.currentId == id && a.fragments != [] {
        CompleteIff(a, sent);
      } else {
        assert !Covers(a, fs, id, |sent[id]|) by {
          assert !(Has(fs, 0) || (a.currentId == id && Has(a.fragments, 0)));
        }
      }
    } else {
      var a1 := Added(a, fs[0]);
      AddedKeeps(a, fs[0], sent, fs[0].fragmentNum);
      CoversStep(a, fs, sent, id);
      CompleteIff(a1, sent);
      if !Complete(a1) {
        ComesOutIff(a1, fs[1..], sent, id);
      }
    }
  }

  /** Started afresh: exactly when every fragment is among those fed. */
  lemma FreshComesOutIff(a: Assembly, fs: seq<Fragment>, sent: map<uint64, seq<Fragment>>, id: uint64)
    requires Network(sent) && Inv(a, sent) && id in sent && (a.currentId != id || a.fragments == [])
    requires forall i :: 0 <= i < |fs| ==> FromNetwork(fs[i], sent) && fs[i].id == id
    ensures Feed(a, fs) != [] <==> forall i :: 0 <= i < |sent[id]| ==> sent[id][i] in fs
  {
    ComesOutIff(a, fs, sent, id);
    var all := sent[id];
    forall num | 0 <= num < |all|
      ensures Has(fs, num) || (a.currentId == id && Has(a.fragments, num)) <==> all[num] in fs
    {
      if Has(fs, num) {
        var i :| 0 <= i < |fs| && fs[i].fragmentNum == num;
        assert FromNetwork(fs[i], sent);
      }
      if all[num] in fs {
        var i :| 0 <= i < |fs| && fs[i] == all[num];
        assert fs[i].fragmentNum == num;
      }
    }
  }
}
