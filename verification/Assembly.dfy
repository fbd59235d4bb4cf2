/** Putting fragments together again. `decode` stands for uncompressing and unmarshalling. */
module Assemblies {
  import opened StateSync
  import opened Fragments

  datatype Assembly = Assembly(fragments: seq<Fragment>, currentId: uint64, arrived: int, total: int)

  const NO_ID: uint64 := 0xFFFF_FFFF_FFFF_FFFF
  const UNKNOWN := -1

  predicate Has(fs: seq<Fragment>, num: int) {
    exists i :: 0 <= i < |fs| && fs[i].fragmentNum == num
  }

  // ---------------------------------------------------------------- sorting by number

  function Placed(fs: seq<Fragment>, f: Fragment): (r: seq<Fragment>)
    ensures |r| == |fs| + 1
  {
    if fs == [] || fs[|fs| - 1].fragmentNum <= f.fragmentNum then fs + [f]
    else Placed(fs[..|fs| - 1], f) + [fs[|fs| - 1]]
  }

  /** sort.SliceStable on the fragment numbers. */
  function SortStable(fs: seq<Fragment>): (r: seq<Fragment>)
    ensures |r| == |fs|
  {
    if fs == [] then [] else Placed(SortStable(fs[..|fs| - 1]), fs[|fs| - 1])
  }

  predicate Rising(fs: seq<Fragment>) {
    forall i, j :: 0 <= i < j < |fs| ==> fs[i].fragmentNum < fs[j].fragmentNum
  }

  lemma {:induction false} SortRising(fs: seq<Fragment>)
    requires Rising(fs)
    ensures SortStable(fs) == fs
  {
    if fs != [] {
      SortRising(fs[..|fs| - 1]);
    }
  }

  lemma {:induction false} PlacedRising(fs: seq<Fragment>, f: Fragment)
    requires Rising(fs) && !Has(fs, f.fragmentNum)
    ensures var r := Placed(fs, f);
      && Rising(r)
      && (forall x :: x in r <==> x in fs || x == f)
  {
    if fs != [] && fs[|fs| - 1].fragmentNum > f.fragmentNum {
      var front, last := fs[..|fs| - 1], fs[|fs| - 1];
      forall i | 0 <= i < |front| ensures front[i].fragmentNum != f.fragmentNum {
        assert front[i] == fs[i];
      }
      PlacedRising(front, f);
      var p := Placed(front, f);
      forall i | 0 <= i < |p| ensures p[i].fragmentNum < last.fragmentNum {
        assert p[i] in p;
      }
      assert fs == front + [last];
    } else {
      forall i | 0 <= i < |fs| ensures fs[i].fragmentNum < f.fragmentNum {
        assert fs[i].fragmentNum != f.fragmentNum;
      }
    }
  }

  lemma {:induction false} PlacedHas(fs: seq<Fragment>, f: Fragment, num: int)
    ensures Has(Placed(fs, f), num) <==> Has(fs, num) || num == f.fragmentNum
  {
    var r, n := Placed(fs, f), |fs|;
    if fs != [] && fs[n - 1].fragmentNum > f.fragmentNum {
      var p := Placed(fs[..n - 1], f);
      PlacedHas(fs[..n - 1], f, num);
      HasSnoc(fs[..n - 1], fs[n - 1], num);
      HasSnoc(p, fs[n - 1], num);
      assert fs == fs[..n - 1] + [fs[n - 1]];
    } else {
      HasSnoc(fs, f, num);
    }
  }

  lemma HasSnoc(fs: seq<Fragment>, f: Fragment, num: int)
    ensures Has(fs + [f], num) <==> Has(fs, num) || num == f.fragmentNum
  {
    var r := fs + [f];
    assert r[|fs|] == f;
    if Has(fs, num) {
      var i :| 0 <= i < |fs| && fs[i].fragmentNum == num;
      assert r[i].fragmentNum == num;
    }
  }

  // ---------------------------------------------------------------- one step

  function Added(a: Assembly, frag: Fragment): (a': Assembly)
    ensures a.arrived == |a.fragments| ==> a'.arrived == |a'.fragments|
  {
    var a1 :=
      if a.currentId != frag.id then Assembly([frag], frag.id, 1, UNKNOWN)
      else if Has(a.fragments, frag.fragmentNum) then a
      else a.(fragments := SortStable(a.fragments + [frag]), arrived := a.arrived + 1);
    if frag.final then a1.(total := frag.fragmentNum + 1) else a1
  }

  predicate Complete(a: Assembly) {
    a.arrived == a.total
  }

  /** After a complete instruction was taken out. The id stays. */
  function Taken(a: Assembly): Assembly {
    Assembly([], a.currentId, 0, UNKNOWN)
  }

  class FragmentAssembly {
    var fragments: seq<Fragment>
    var currentId: uint64
    var fragmentsArrived: int
    var fragmentsTotal: int

    ghost function View(): Assembly
      reads this
    {
      Assembly(fragments, currentId, fragmentsArrived, fragmentsTotal)
    }

    constructor ()
      ensures View() == Assembly([], NO_ID, 0, UNKNOWN)
    {
      currentId := NO_ID;
      fragmentsArrived := 0;
      fragmentsTotal := -1;
      fragments := [];
    }

    method HasFragment(frag: Fragment) returns (ret: bool, idx: int)
      ensures ret <==> Has(fragments, frag.fragmentNum)
      ensures if ret then 0 <= idx < |fragments| && fragments[idx].fragmentNum == frag.fragmentNum else idx == -1
    {
      for i := 0 to |fragments|
        invariant forall j :: 0 <= j < i ==> fragments[j].fragmentNum != frag.fragmentNum
      {
        if fragments[i].fragmentNum == frag.fragmentNum {
          return true, i;
        }
      }
      return false, -1;
    }

    method AddFragment(frag: Fragment) returns (complete: bool)
      modifies this
      ensures View() == Added(old(View()), frag) && (complete <==> Complete(View()))
    {
      if currentId != frag.id {
        fragments := [];
        fragments := fragments + [frag];
        fragmentsArrived := 1;
        fragmentsTotal := -1;
        currentId := frag.id;
      } else {
        var hasThis, _ := HasFragment(frag);
        if !hasThis {
          fragments := fragments + [frag];
          fragmentsArrived := fragmentsArrived + 1;
          fragments := SortStable(fragments);
        }
      }
      if frag.final {
        fragmentsTotal := frag.fragmentNum + 1;
      }
      return fragmentsArrived == fragmentsTotal;
    }

    /** What does not decode stays where it is. */
    method GetAssembly<I>(decode: seq<byte> -> Option<I>) returns (ret: Option<I>)
      requires 0 <= fragmentsTotal <= |fragments|
      modifies this
      ensures ret == decode(Contents(old(fragments)[..old(fragmentsTotal)]))
      ensures View() == if ret.Some? then Taken(old(View())) else old(View())
    {
      var encoded := [];
      for i := 0 to fragmentsTotal
        invariant View() == old(View()) && encoded == Contents(fragments[..i])
      {
        ContentsAppend(fragments[..i], [fragments[i]]);
        assert fragments[..i + 1] == fragments[..i] + [fragments[i]];
        encoded := encoded + fragments[i].contents;
      }
      ret := decode(encoded);
      if ret.None? {
        return;
      }
      fragments := [];
      fragmentsArrived := 0;
      fragmentsTotal := -1;
    }
  }
}
