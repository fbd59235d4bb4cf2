/** What a diff of the user's stream carries, and exactly when that is everything. */
module UserDiffs {
  import opened Prefixes
  import opened UserStreams

  predicate AllKeys(s: seq<UserEvent>) {
    forall i :: 0 <= i < |s| ==> s[i].UserByte?
  }

  predicate AllSizes(s: seq<UserEvent>) {
    forall i :: 0 <= i < |s| ==> s[i].Resize?
  }

  /** Where the resizes at the end of the list begin. */
  function SizesFrom(s: seq<UserEvent>): (j: nat)
    ensures j <= |s| && AllSizes(s[j..]) && (j > 0 ==> s[j - 1].UserByte?)
  {
    if s == [] || s[|s| - 1].UserByte? then |s|
    else
      var j := SizesFrom(s[..|s| - 1]);
      assert s[j..] == s[..|s| - 1][j..] + [s[|s| - 1]];
      j
  }

  /** Where the keystrokes at the end of the list begin. */
  function KeysFrom(s: seq<UserEvent>): (i: nat)
    ensures i <= |s| && AllKeys(s[i..]) && (i > 0 ==> s[i - 1].Resize?)
  {
    if s == [] || s[|s| - 1].Resize? then |s|
    else
      var i := KeysFrom(s[..|s| - 1]);
      assert s[i..] == s[..|s| - 1][i..] + [s[|s| - 1]];
      i
  }

  /** The text of a run of keystrokes. */
  function Keys(s: seq<UserEvent>): string
    requires AllKeys(s)
  {
    if s == [] then [] else Keys(s[..|s| - 1]) + s[|s| - 1].chs
  }

  function Sizes(s: seq<UserEvent>): (r: UserMessage)
    requires AllSizes(s)
    ensures |r| == |s|
  {
    seq(|s|, i requires 0 <= i < |s| => ResizeMessage(Int32(s[i].width), Int32(s[i].height)))
  }

  /** Where the last run of keystrokes begins. */
  function RunFrom(s: seq<UserEvent>): (i: nat)
    ensures i <= SizesFrom(s) && AllKeys(s[i..SizesFrom(s)])
    ensures i > 0 ==> s[i - 1].Resize?
    ensures SizesFrom(s) > 0 ==> i < SizesFrom(s)
  {
    var j := SizesFrom(s);
    assert s[..j][KeysFrom(s[..j])..] == s[KeysFrom(s[..j])..j];
    KeysFrom(s[..j])
  }

  /** The last run of keystrokes and the resizes after it; just the resizes when there is no keystroke. */
  function LastRun(s: seq<UserEvent>): UserMessage {
    var j := SizesFrom(s);
    (if j == 0 then [] else [Keystroke(Keys(s[RunFrom(s)..j]))]) + Sizes(s[j..])
  }

  lemma LastRunResize(s: seq<UserEvent>, e: UserEvent)
    requires e.Resize?
    ensures LastRun(s + [e]) == LastRun(s) + [ResizeMessage(Int32(e.width), Int32(e.height))]
  {
    var t := s + [e];
    var j := SizesFrom(s);
    assert t[..|s|] == s && t[..j] == s[..j];
    assert SizesFrom(t) == j && RunFrom(t) == RunFrom(s);
    assert t[RunFrom(s)..j] == s[RunFrom(s)..j];
    assert t[j..] == s[j..] + [e];
  }

  lemma LastRunKey(s: seq<UserEvent>, e: UserEvent)
    requires e.UserByte?
    ensures !EndsInKeystroke(LastRun(s)) ==> LastRun(s + [e]) == [Keystroke(e.chs)]
    ensures EndsInKeystroke(LastRun(s)) ==>
      && |LastRun(s)| == 1 && LastRun(s + [e]) == [Keystroke(LastRun(s)[0].keys + e.chs)]
  {
    var t := s + [e];
    assert t[..|s|] == s && t[..|t|] == t && t[|t|..] == [];
    if s == [] || s[|s| - 1].Resize? {
      assert KeysFrom(t) == KeysFrom(s) == |s|;
      assert t[|s|..|t|] == [e] && [e][..0] == [] && Keys([e]) == e.chs;
    } else {
      assert s[..|s|] == s && s[|s|..] == [];
      var run := t[RunFrom(t)..|t|];
      assert run[..|run| - 1] == s[RunFrom(s)..|s|];
    }
  }

  /** The message holds the last run of keystrokes and the resizes after it; all the resizes when
      there is no keystroke. Everything before that run is gone. */
  lemma {:induction false} DiffCarries(s: seq<UserEvent>)
    ensures Message(s) == LastRun(s)
  {
    if s != [] {
      var init, e := s[..|s| - 1], s[|s| - 1];
      assert s == init + [e];
      DiffCarries(init);
      if e.Resize? {
        LastRunResize(init, e);
      } else {
        LastRunKey(init, e);
      }
    }
  }

  // ---------------------------------------------------------------- runes and resizes

  datatype Item = Key(c: char) | Size(width: int, height: int)

  function KeyItems(keys: string): (r: seq<Item>)
    ensures |r| == |keys|
    ensures forall i :: 0 <= i < |r| ==> r[i] == Key(keys[i])
  {
    seq(|keys|, i requires 0 <= i < |keys| => Key(keys[i]))
  }

  function ItemsOf(e: UserEvent): seq<Item> {
    match e
    case UserByte(chs) => KeyItems(chs)
    case Resize(w, h) => [Size(w, h)]
  }

  /** The runes and resizes of a stream in order, however the runes are grouped. */
  function Items(s: seq<UserEvent>): seq<Item> {
    if s == [] then [] else Items(s[..|s| - 1]) + ItemsOf(s[|s| - 1])
  }

  function Concat(pieces: seq<string>): string {
    if pieces == [] then [] else Concat(pieces[..|pieces| - 1]) + pieces[|pieces| - 1]
  }

  /** The grapheme splitter cuts text into pieces that join to it again. */
  ghost predicate Splits(split: string -> seq<string>) {
    forall x :: Concat(split(x)) == x
  }

  lemma KeyItemsConcat(a: string, b: string)
    ensures KeyItems(a + b) == KeyItems(a) + KeyItems(b)
  {
  }

  lemma ItemsSnoc(s: seq<UserEvent>, e: UserEvent)
    ensures Items(s + [e]) == Items(s) + ItemsOf(e)
  {
    assert (s + [e])[..|s|] == s;
  }

  lemma {:induction false} ItemsConcat(a: seq<UserEvent>, b: seq<UserEvent>)
    ensures Items(a + b) == Items(a) + Items(b)
    decreases |b|
  {
    if b == [] {
      assert a + b == a;
    } else {
      ItemsConcat(a, b[..|b| - 1]);
      ItemsOneMore(a, b, b[..|b| - 1], b[|b| - 1]);
    }
  }

  lemma ItemsOneMore(a: seq<UserEvent>, b: seq<UserEvent>, init: seq<UserEvent>, e: UserEvent)
    requires b == init + [e] && Items(a + init) == Items(a) + Items(init)
    ensures Items(a + b) == Items(a) + Items(b)
  {
    ItemsPushed(a, init, e);
  }

  lemma ItemsPushed(a: seq<UserEvent>, b: seq<UserEvent>, e: UserEvent)
    requires Items(a + b) == Items(a) + Items(b)
    ensures Items(a + (b + [e])) == Items(a) + Items(b + [e])
  {
    ItemsSnoc(a + b, e);
    ItemsSnoc(b, e);
    Regroup(a, b, [e]);
    Regroup(Items(a), Items(b), ItemsOf(e));
  }

  lemma ItemsOfPrefix(a: seq<UserEvent>, b: seq<UserEvent>)
    requires a <= b
    ensures Items(a) <= Items(b)
  {
    ItemsConcat(a, b[|a|..]);
    assert a + b[|a|..] == b;
  }

  lemma {:induction false} ItemsOfPieces(pieces: seq<string>)
    ensures Items(KeyEvents(pieces)) == KeyItems(Concat(pieces))
  {
    if pieces != [] {
      var init := pieces[..|pieces| - 1];
      ItemsOfPieces(init);
      assert KeyEvents(pieces)[..|pieces| - 1] == KeyEvents(init);
      KeyItemsConcat(Concat(init), pieces[|pieces| - 1]);
    }
  }

  lemma {:induction false} ItemsOfKeys(s: seq<UserEvent>)
    requires AllKeys(s)
    ensures Items(s) == KeyItems(Keys(s))
  {
    if s != [] {
      ItemsOfKeys(s[..|s| - 1]);
      KeyItemsConcat(Keys(s[..|s| - 1]), s[|s| - 1].chs);
    }
  }

  /** The resizes as the peer reads them: 32 bits each way. */
  function Narrowed(s: seq<UserEvent>): (r: seq<UserEvent>)
    requires AllSizes(s)
    ensures |r| == |s|
    ensures forall i :: 0 <= i < |r| ==> r[i] == Resize(Int32(s[i].width), Int32(s[i].height))
  {
    seq(|s|, i requires 0 <= i < |s| => Resize(Int32(s[i].width), Int32(s[i].height)))
  }

  lemma {:induction false} RebuildSizes(s: seq<UserEvent>, split: string -> seq<string>)
    requires AllSizes(s)
    ensures Rebuild(Sizes(s), split) == Narrowed(s)
  {
    if s != [] {
      RebuildSizes(s[1..], split);
      assert Sizes(s)[1..] == Sizes(s[1..]);
    }
  }

  /** The peer's events: the last run cut into graphemes, then the resizes after it. */
  lemma CarriedIs(s: seq<UserEvent>, split: string -> seq<string>)
    ensures var j := SizesFrom(s);
      Carried(s, split)
        == (if j == 0 then [] else KeyEvents(split(Keys(s[RunFrom(s)..j])))) + Narrowed(s[j..])
  {
    var j := SizesFrom(s);
    DiffCarries(s);
    RebuildSizes(s[j..], split);
    if j > 0 {
      assert LastRun(s)[1..] == Sizes(s[j..]);
    } else {
      assert LastRun(s) == Sizes(s[j..]);
    }
  }

  // ---------------------------------------------------------------- exactly when nothing is lost

  /** No keystroke follows a resize. */
  predicate KeysFirst(s: seq<UserEvent>) {
    forall i, j :: 0 <= i < j < |s| && s[j].UserByte? ==> s[i].UserByte?
  }

  predicate SizesFit(s: seq<UserEvent>) {
    forall i :: 0 <= i < |s| && s[i].Resize? ==> FitsInt32(s[i].width) && FitsInt32(s[i].height)
  }

  function CountSizes(items: seq<Item>): nat {
    if items == [] then 0
    else CountSizes(items[..|items| - 1]) + (if items[|items| - 1].Size? then 1 else 0)
  }

  lemma {:induction false} CountConcat(a: seq<Item>, b: seq<Item>)
    ensures CountSizes(a + b) == CountSizes(a) + CountSizes(b)
    decreases |b|
  {
    if b == [] {
      assert a + b == a;
    } else {
      CountConcat(a, b[..|b| - 1]);
      assert (a + b)[..|a + b| - 1] == a + b[..|b| - 1];
    }
  }

  lemma {:induction false} ItemsOfSizes(s: seq<UserEvent>)
    requires AllSizes(s)
    ensures |Items(s)| == |s| && CountSizes(Items(s)) == |s|
    ensures forall i :: 0 <= i < |s| ==> Items(s)[i] == Size(s[i].width, s[i].height)
  {
    if s != [] {
      var init, e := s[..|s| - 1], s[|s| - 1];
      ItemsOfSizes(init);
      ItemsSnoc(init, e);
      assert s == init + [e];
      assert ItemsOf(e) == [Size(e.width, e.height)];
    }
  }

  lemma KeysFirstIff(s: seq<UserEvent>)
    ensures KeysFirst(s) <==> RunFrom(s) == 0
  {
    var j, i := SizesFrom(s), RunFrom(s);
    if i == 0 {
      forall k | 0 <= k < |s| ensures k < j <==> s[k].UserByte? {
        if k < j { assert s[k] == s[0..j][k]; } else { assert s[k] == s[j..][k - j]; }
      }
    } else {
      assert s[i] == s[i..j][0];
    }
  }

  lemma ItemsSplit(a: seq<UserEvent>, b: seq<UserEvent>, c: seq<UserEvent>)
    requires AllKeys(b)
    ensures Items(a + b + c) == Items(a) + KeyItems(Keys(b)) + Items(c)
  {
    ItemsConcat(a, b);
    ItemsConcat(a + b, c);
    ItemsOfKeys(b);
  }

  lemma CarriedItems(s: seq<UserEvent>, split: string -> seq<string>)
    requires Splits(split)
    ensures var j, i := SizesFrom(s), RunFrom(s);
      Items(Carried(s, split)) == KeyItems(Keys(s[i..j])) + Items(Narrowed(s[j..]))
  {
    var j, i := SizesFrom(s), RunFrom(s);
    var keys := Keys(s[i..j]);
    CarriedIs(s, split);
    if j > 0 {
      ItemsConcat(KeyEvents(split(keys)), Narrowed(s[j..]));
      ItemsOfPieces(split(keys));
    } else {
      assert Carried(s, split) == Narrowed(s[j..]);
    }
  }

  lemma Int32Fits(x: int)
    ensures FitsInt32(x) <==> Int32(x) == x
  {
  }

  lemma NarrowedSame(s: seq<UserEvent>)
    requires AllSizes(s)
    ensures SizesFit(s) <==> Narrowed(s) == s
  {
    forall i | 0 <= i < |s|
      ensures Narrowed(s)[i] == s[i] <==> FitsInt32(s[i].width) && FitsInt32(s[i].height)
    {
      Int32Fits(s[i].width);
      Int32Fits(s[i].height);
    }
  }

  lemma NarrowedIff(s: seq<UserEvent>)
    requires AllSizes(s)
    ensures Items(Narrowed(s)) == Items(s) <==> SizesFit(s)
  {
    var t := Narrowed(s);
    ItemsOfSizes(s);
    ItemsOfSizes(t);
    NarrowedSame(s);
    if Items(t) == Items(s) {
      forall i | 0 <= i < |s| ensures t[i] == s[i] {
        assert Items(s)[i] == Items(t)[i];
      }
    }
  }

  lemma ItemsBeforeRun(s: seq<UserEvent>)
    requires RunFrom(s) > 0
    ensures CountSizes(Items(s[..RunFrom(s)])) > 0
  {
    var before := s[..RunFrom(s)];
    var last := before[|before| - 1];
    CountConcat(Items(before[..|before| - 1]), ItemsOf(last));
    assert CountSizes([Size(last.width, last.height)]) == 1;
  }

  /** Resizes before the last run of keystrokes do not arrive. */
  lemma ResizesAreLost(s: seq<UserEvent>, split: string -> seq<string>)
    requires Splits(split) && RunFrom(s) > 0
    ensures CountSizes(Items(Carried(s, split))) < CountSizes(Items(s))
  {
    var j, i := SizesFrom(s), RunFrom(s);
    var a, b, c := s[..i], s[i..j], s[j..];
    var keys := KeyItems(Keys(b));
    assert s == a + b + c;
    ItemsSplit(a, b, c);
    CarriedItems(s, split);
    ItemsBeforeRun(s);
    CountConcat(Items(a) + keys, Items(c));
    CountConcat(Items(a), keys);
    CountConcat(keys, Items(Narrowed(c)));
    ItemsOfSizes(c);
    ItemsOfSizes(Narrowed(c));
  }

  lemma WholeItems(s: seq<UserEvent>)
    requires RunFrom(s) == 0
    ensures var j := SizesFrom(s); Items(s) == KeyItems(Keys(s[0..j])) + Items(s[j..])
  {
    var j := SizesFrom(s);
    assert AllKeys(s[RunFrom(s)..j]);
    ItemsAfterKeys(s, s[0..j], s[j..]);
  }

  lemma ItemsAfterKeys(s: seq<UserEvent>, keys: seq<UserEvent>, rest: seq<UserEvent>)
    requires s == keys + rest && AllKeys(keys)
    ensures Items(s) == KeyItems(Keys(keys)) + Items(rest)
  {
    ItemsConcat(keys, rest);
    ItemsOfKeys(keys);
  }

  lemma NothingBeforeRun(s: seq<UserEvent>, split: string -> seq<string>)
    requires Splits(split) && RunFrom(s) == 0
    ensures Items(Carried(s, split)) == Items(s) <==> SizesFit(s)
  {
    var j := SizesFrom(s);
    WholeItems(s);
    CarriedItems(s, split);
    NarrowedIff(s[j..]);
    FitsInTail(s);
    SameEnd(KeyItems(Keys(s[0..j])), Items(s[j..]), Items(Narrowed(s[j..])));
  }

  /** The peer gets the same runes and resizes in the same order exactly when no keystroke follows
      a resize in what is sent, and the sizes fit 32 bits. */
  lemma RunesSurviveIff(s: seq<UserEvent>, split: string -> seq<string>)
    requires Splits(split)
    ensures Items(Carried(s, split)) == Items(s) <==> KeysFirst(s) && SizesFit(s)
  {
    KeysFirstIff(s);
    if RunFrom(s) > 0 {
      ResizesAreLost(s, split);
    } else {
      NothingBeforeRun(s, split);
    }
  }

  lemma FitsInTail(s: seq<UserEvent>)
    requires RunFrom(s) == 0
    ensures SizesFit(s) <==> SizesFit(s[SizesFrom(s)..])
  {
    var j := SizesFrom(s);
    forall k | 0 <= k < j ensures s[k].UserByte? {
      assert s[k] == s[0..j][k];
    }
    if SizesFit(s[j..]) {
      forall k | 0 <= k < |s| && s[k].Resize? ensures FitsInt32(s[k].width) && FitsInt32(s[k].height) {
        assert s[k] == s[j..][k - j];
      }
    }
  }

  /** With nothing lost, the events differ at most in how the text is grouped. */
  lemma GroupingIff(s: seq<UserEvent>, split: string -> seq<string>)
    requires RunFrom(s) == 0 && SizesFit(s)
    ensures Carried(s, split) == s <==> Regroups(s, split)
  {
    var j := SizesFrom(s);
    CarriedIs(s, split);
    FitsInTail(s);
    NarrowedSame(s[j..]);
    assert s == s[..j] + s[j..];
    if j > 0 {
      assert s[0..j] == s[..j];
      SameStart(KeyEvents(split(Keys(s[0..j]))), s[..j], s[j..]);
    } else {
      assert [] + s[j..] == s;
    }
  }

  /** The splitter cuts the joined text of the last run back into the pieces the user typed. */
  predicate Regroups(s: seq<UserEvent>, split: string -> seq<string>) {
    var j := SizesFrom(s);
    j > 0 ==> KeyEvents(split(Keys(s[RunFrom(s)..j]))) == s[RunFrom(s)..j]
  }

  /** The peer gets the very same events exactly when, besides, the text regroups as it was typed. */
  lemma EventsSurviveIff(s: seq<UserEvent>, split: string -> seq<string>)
    requires Splits(split)
    ensures Carried(s, split) == s <==> KeysFirst(s) && SizesFit(s) && Regroups(s, split)
  {
    RunesSurviveIff(s, split);
    KeysFirstIff(s);
    if KeysFirst(s) && SizesFit(s) {
      GroupingIff(s, split);
    }
  }
}
