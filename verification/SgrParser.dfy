/** The part of the parser that reads a control sequence with numeric parameters. Of the control
    sequences only SGR is known here; any other final byte ends the sequence without effect. */
module SgrParser {
  import opened Renditions
  import opened SgrPrinter

  datatype InputState = Normal | Escape | Csi

  const MAX_ESC_OPS := 16

  datatype Parsing = Parsing(inputState: InputState, inputOps: seq<int>, inputSep: seq<char>, nInputOps: int)

  predicate Sized(p: Parsing) {
    && |p.inputOps| == |p.inputSep| == MAX_ESC_OPS
    && 0 <= p.nInputOps <= MAX_ESC_OPS
    && (!p.inputState.Normal? ==> p.nInputOps > 0)
  }

  function SetNormal(p: Parsing): Parsing
    requires Sized(p)
  {
    if p.inputState.Normal? then p
    else p.(inputState := Normal, nInputOps := 0, inputOps := p.inputOps[0 := 0])
  }

  predicate IsDigit(ch: char) {
    '0' <= ch <= '9'
  }

  predicate IsSeparator(ch: char) {
    ch == ';' || ch == ':'
  }

  /** collectNumericParameters, for a character it takes. A number that reaches the limit, or one
      parameter too many, ends the sequence. */
  function Collect(p: Parsing, ch: char): (p': Parsing)
    requires Sized(p) && p.inputState.Csi? && (IsDigit(ch) || IsSeparator(ch))
    ensures Sized(p')
  {
    var last := p.nInputOps - 1;
    if IsDigit(ch) then
      var num := p.inputOps[last] * 10 + (ch as int - '0' as int);
      var p1 := p.(inputOps := p.inputOps[last := num]);
      if num >= NUMBER_LIMIT then SetNormal(p1) else p1
    else if p.nInputOps < MAX_ESC_OPS then
      p.(inputSep := p.inputSep[last := ch], inputOps := p.inputOps[p.nInputOps := 0], nInputOps := p.nInputOps + 1)
    else SetNormal(p)
  }

  /** The parameters, a lone 0 standing for none. */
  function Args(p: Parsing): seq<int>
    requires Sized(p)
  {
    if p.nInputOps == 1 && p.inputOps[0] == 0 then [0] else p.inputOps[..p.nInputOps]
  }

  /** The last separator, and a lone one, are left over from earlier input. */
  function Seps(p: Parsing): seq<char>
    requires Sized(p)
  {
    if p.nInputOps == 1 && p.inputSep[0] == '\0' then [] else p.inputSep[..p.nInputOps]
  }

  datatype Machine = Machine(p: Parsing, rend: Rendition)

  function Input(m: Machine, ch: char): (m': Machine)
    requires Sized(m.p)
    ensures Sized(m'.p)
  {
    match m.p.inputState
    case Normal =>
      if ch == ESC then m.(p := m.p.(inputState := Escape, inputOps := m.p.inputOps[0 := 0], nInputOps := 1)) else m
    case Escape =>
      if ch == '[' then m.(p := m.p.(inputState := Csi)) else m.(p := SetNormal(m.p))
    case Csi =>
      if IsDigit(ch) || IsSeparator(ch) then m.(p := Collect(m.p, ch))
      else if ch == 'm' then Machine(SetNormal(m.p), Sgr(m.rend, Args(m.p), Seps(m.p)))
      else m.(p := SetNormal(m.p))
  }

  function Feed(m: Machine, s: string): (m': Machine)
    requires Sized(m.p)
    ensures Sized(m'.p)
    decreases |s|
  {
    if s == [] then m else Feed(Input(m, s[0]), s[1..])
  }

  lemma {:induction false} FeedAppend(m: Machine, a: string, b: string)
    requires Sized(m.p)
    ensures Feed(m, a + b) == Feed(Feed(m, a), b)
    decreases |a|
  {
    if a == [] {
      assert a + b == b;
    } else {
      FeedAppend(Input(m, a[0]), a[1..], b);
      assert (a + b)[1..] == a[1..] + b;
    }
  }

  lemma FeedOne(m: Machine, ch: char)
    requires Sized(m.p)
    ensures Feed(m, [ch]) == Input(m, ch)
  {
    assert Feed(m, [ch]) == Feed(Input(m, ch), []);
  }

  // ---------------------------------------------------------------- numbers

  lemma {:induction false} DigitsParsed(m: Machine, n: nat)
    requires Sized(m.p) && m.p.inputState.Csi? && m.p.inputOps[m.p.nInputOps - 1] == 0 && n < NUMBER_LIMIT
    ensures Feed(m, Digits(n)) == m.(p := m.p.(inputOps := m.p.inputOps[m.p.nInputOps - 1 := n]))
  {
    if n < 10 {
      FeedOne(m, ('0' as int + n) as char);
    } else {
      var ch := ('0' as int + n % 10) as char;
      DigitsParsed(m, n / 10);
      FeedAppend(m, Digits(n / 10), [ch]);
      FeedOne(Feed(m, Digits(n / 10)), ch);
    }
  }

  predicate Legible(ts: seq<Token>) {
    forall i :: 0 <= i < |ts| ==> IsSeparator(ts[i].sep) && ts[i].num < NUMBER_LIMIT && (ts[i].empty ==> ts[i].num == 0)
  }

  /** One more parameter. */
  function Read(p: Parsing, t: Token): Parsing
    requires Sized(p) && p.inputState.Csi? && p.nInputOps < MAX_ESC_OPS
  {
    p.(inputSep := p.inputSep[p.nInputOps - 1 := t.sep], inputOps := p.inputOps[p.nInputOps := t.num],
       nInputOps := p.nInputOps + 1)
  }

  lemma TokenParsed(m: Machine, t: Token)
    requires Sized(m.p) && m.p.inputState.Csi? && m.p.nInputOps < MAX_ESC_OPS && Legible([t])
    ensures Feed(m, Text(t)) == m.(p := Read(m.p, t))
  {
    assert Legible([t]) && [t][0] == t;
    var digits := if t.empty then [] else Digits(t.num);
    FeedAppend(m, [t.sep], digits);
    FeedOne(m, t.sep);
    if !t.empty {
      DigitsParsed(Input(m, t.sep), t.num);
    }
  }

  function ReadAll(p: Parsing, ts: seq<Token>): (p': Parsing)
    requires Sized(p) && p.inputState.Csi? && p.nInputOps + |ts| <= MAX_ESC_OPS
    ensures Sized(p') && p'.inputState.Csi? && p'.nInputOps == p.nInputOps + |ts|
    decreases |ts|
  {
    if ts == [] then p else ReadAll(Read(p, ts[0]), ts[1..])
  }

  lemma {:induction false} TokensParsed(m: Machine, ts: seq<Token>)
    requires Sized(m.p) && m.p.inputState.Csi? && Legible(ts) && m.p.nInputOps + |ts| <= MAX_ESC_OPS
    ensures Feed(m, Texts(ts)) == m.(p := ReadAll(m.p, ts))
    decreases |ts|
  {
    if ts != [] {
      assert Legible([ts[0]]) && Legible(ts[1..]);
      FeedAppend(m, Text(ts[0]), Texts(ts[1..]));
      TokenParsed(m, ts[0]);
      TokensParsed(m.(p := Read(m.p, ts[0])), ts[1..]);
    }
  }

  /** What is read joins what was read before, and the separators stand in front. */
  lemma {:induction false} ReadAllAppends(p: Parsing, ts: seq<Token>)
    requires Sized(p) && p.inputState.Csi? && p.nInputOps + |ts| <= MAX_ESC_OPS
    ensures var p', n := ReadAll(p, ts), p.nInputOps;
      && p'.inputOps[..n + |ts|] == p.inputOps[..n] + Nums(ts)
      && (forall i :: 0 <= i < n - 1 ==> p'.inputSep[i] == p.inputSep[i])
      && (forall i :: 0 <= i < |ts| ==> p'.inputSep[n - 1 + i] == ts[i].sep)
    decreases |ts|
  {
    if ts != [] {
      var p1 := Read(p, ts[0]);
      ReadAllAppends(p1, ts[1..]);
      Joined(p.inputOps[..p.nInputOps], ts);
      assert p1.inputOps[..p.nInputOps + 1] == p.inputOps[..p.nInputOps] + [ts[0].num];
    }
  }

  lemma Joined(ops: seq<int>, ts: seq<Token>)
    requires ts != []
    ensures ops + [ts[0].num] + Nums(ts[1..]) == ops + Nums(ts)
  {
    assert Nums(ts) == [ts[0].num] + Nums(ts[1..]);
  }

  // ---------------------------------------------------------------- too many parameters

  lemma {:induction false} NormalIgnores(m: Machine, s: string)
    requires Sized(m.p) && m.p.inputState.Normal? && ESC !in s
    ensures Feed(m, s) == m
    decreases |s|
  {
    if s != [] {
      NormalIgnores(m, s[1..]);
    }
  }

  lemma {:induction false} DigitsAreDigits(n: nat)
    ensures forall ch :: ch in Digits(n) ==> IsDigit(ch)
  {
    if n >= 10 {
      DigitsAreDigits(n / 10);
    }
  }

  lemma {:induction false} NoEscape(ts: seq<Token>)
    requires Legible(ts)
    ensures ESC !in Texts(ts)
  {
    if ts != [] {
      assert Legible(ts[1..]);
      NoEscape(ts[1..]);
      DigitsAreDigits(ts[0].num);
    }
  }

  /** The separator before a seventeenth parameter ends the sequence; the rest is plain text. */
  lemma {:induction false} TooMany(m: Machine, ts: seq<Token>)
    requires Sized(m.p) && m.p.inputState.Csi? && Legible(ts) && m.p.nInputOps + |ts| > MAX_ESC_OPS
    ensures var m' := Feed(m, Texts(ts)); m'.rend == m.rend && m'.p.inputState.Normal?
    decreases |ts|
  {
    assert Legible([ts[0]]) && Legible(ts[1..]);
    FeedAppend(m, Text(ts[0]), Texts(ts[1..]));
    if m.p.nInputOps < MAX_ESC_OPS {
      TokenParsed(m, ts[0]);
      TooMany(m.(p := Read(m.p, ts[0])), ts[1..]);
    } else {
      NoEscape(ts);
      var rest := Texts(ts)[1..];
      assert Texts(ts) == [ts[0].sep] + rest;
      FeedAppend(m, [ts[0].sep], rest);
      FeedOne(m, ts[0].sep);
      NormalIgnores(Input(m, ts[0].sep), rest);
    }
  }

  // ---------------------------------------------------------------- the round trip

  /** The first character after the introducer. */
  function Opened(m: Machine): Machine
    requires Sized(m.p)
  {
    m.(p := m.p.(inputState := Csi, inputOps := m.p.inputOps[0 := 0], nInputOps := 1))
  }

  lemma SgrOpens(m: Machine, rend: Rendition)
    requires Sized(m.p) && m.p.inputState.Normal? && Readable(rend)
    ensures Feed(m, SGR(rend)) == Feed(Feed(Opened(m), Texts(AllTokens(Parts(rend)))), "m")
  {
    var texts := Texts(AllTokens(Parts(rend)));
    var intro := [ESC, '[', '0'];
    assert SGR(rend) == intro + (texts + "m");
    FeedAppend(m, intro, texts + "m");
    FeedAppend(Opened(m), texts, "m");
    assert intro[1..] == ['[', '0'] && intro[1..][1..] == ['0'];
    FeedOne(Input(Input(m, ESC), '['), '0');
    assert Input(Input(Input(m, ESC), '['), '0').p.inputOps == Opened(m).p.inputOps;
  }

  lemma PartLegible(p: Part)
    requires Printed(p)
    ensures Legible(Tokens(p))
  {
  }

  lemma {:induction false} PartsLegible(ps: seq<Part>)
    requires AllPrinted(ps)
    ensures Legible(AllTokens(ps))
  {
    if ps != [] {
      PartLegible(ps[0]);
      PartsLegible(ps[1..]);
    }
  }

  /** How many parameters SGR prints. */
  function ParamCount(rend: Rendition): nat
    requires Readable(rend)
  {
    1 + |AllTokens(Parts(rend))|
  }

  lemma LoneZero(rend: Rendition, seps: seq<char>)
    requires |seps| <= 1
    ensures Sgr(rend, [0], seps) == PLAIN
  {
    assert SgrStep(rend, [0], seps) == (PLAIN, 1);
    assert Sgr(rend, [0], seps) == Sgr(PLAIN, [], Drop(seps, 1));
  }

  lemma ReadBack(p: Parsing, ts: seq<Token>)
    requires Sized(p) && p.inputState.Csi? && p.nInputOps == 1 && p.inputOps[0] == 0 && 1 + |ts| <= MAX_ESC_OPS
    ensures var p', all := ReadAll(p, ts), [Token('[', 0, false)] + ts;
      && Args(p') == Nums(all)
      && (ts != [] ==> Seps(p') == Following(all, p'.inputSep[|ts|]))
  {
    ReadAllAppends(p, ts);
    var p', all := ReadAll(p, ts), [Token('[', 0, false)] + ts;
    assert p'.inputOps[..1 + |ts|] == Nums(all);
    var seps, following := p'.inputSep[..1 + |ts|], Following(all, p'.inputSep[|ts|]);
    forall i | 0 <= i < |seps| ensures seps[i] == following[i] {
      if i < |ts| { assert all[i + 1] == ts[i]; }
    }
  }

  lemma SgrOnRead(rend: Rendition, p: Parsing, ts: seq<Token>)
    requires Sized(p) && p.inputState.Csi? && p.nInputOps == 1 && p.inputOps[0] == 0 && 1 + |ts| <= MAX_ESC_OPS
    ensures var p', all := ReadAll(p, ts), [Token('[', 0, false)] + ts;
      Sgr(rend, Args(p'), Seps(p')) == Sgr(rend, Nums(all), Following(all, p'.inputSep[|ts|]))
  {
    var p', all := ReadAll(p, ts), [Token('[', 0, false)] + ts;
    ReadBack(p, ts);
    if ts == [] {
      assert Nums(all) == [0];
      LoneZero(rend, Seps(p'));
      LoneZero(rend, Following(all, p'.inputSep[0]));
    }
  }

  lemma FinalByte(m: Machine)
    requires Sized(m.p) && m.p.inputState.Csi?
    ensures Feed(m, "m") == Machine(SetNormal(m.p), Sgr(m.rend, Args(m.p), Seps(m.p)))
  {
    FeedOne(m, 'm');
  }

  /** Feeding what SGR prints to the parser: with at most 16 parameters it becomes what the
      rendition looks like reread, whatever it was; with more, nothing changes. */
  lemma SgrFed(m: Machine, rend: Rendition)
    requires Sized(m.p) && m.p.inputState.Normal? && Readable(rend)
    ensures var m' := Feed(m, SGR(rend));
      m'.p.inputState.Normal? && m'.rend == if ParamCount(rend) <= MAX_ESC_OPS then Reread(rend) else m.rend
  {
    var ts := AllTokens(Parts(rend));
    var m1 := Opened(m);
    SgrOpens(m, rend);
    PartsPrinted(rend);
    PartsLegible(Parts(rend));
    if ParamCount(rend) <= MAX_ESC_OPS {
      TokensParsed(m1, ts);
      FinalByte(m1.(p := ReadAll(m1.p, ts)));
      SgrOnRead(m1.rend, m1.p, ts);
      SgrOfParts(m1.rend, rend, ReadAll(m1.p, ts).inputSep[|ts|]);
    } else {
      TooMany(m1, ts);
      NormalIgnores(Feed(m1, Texts(ts)), "m");
    }
  }

  /** The renditions that survive: underlined exactly if there is an underline style, no underline
      colour when not underlined, no link, and at most 16 parameters. */
  predicate Survives(rend: Rendition)
    requires Readable(rend)
  {
    && (rend.on.underline <==> rend.ulStyle != ULS_NONE)
    && (!rend.on.underline ==> rend.ulColor == ColorDefault)
    && rend.linkIndex == 0
    && ParamCount(rend) <= MAX_ESC_OPS
  }

  /** The SGR round trip: the printed rendition is read back from every prior one, exactly for these. */
  lemma SgrRoundTripIff(p: Parsing, rend: Rendition)
    requires Sized(p) && p.inputState.Normal? && Readable(rend)
    ensures (forall prior :: Feed(Machine(p, prior), SGR(rend)).rend == rend) <==> Survives(rend)
  {
    forall prior
      ensures Feed(Machine(p, prior), SGR(rend)).rend == if ParamCount(rend) <= MAX_ESC_OPS then Reread(rend) else prior
    {
      SgrFed(Machine(p, prior), rend);
    }
    var other := rend.(on := rend.on.(bold := !rend.on.bold));
    assert Feed(Machine(p, other), SGR(rend)).rend == if ParamCount(rend) <= MAX_ESC_OPS then Reread(rend) else other;
  }

  // ---------------------------------------------------------------- what renditions can be

  predicate Small(p: Parsing) {
    forall i :: 0 <= i < |p.inputOps| && i < p.nInputOps ==> 0 <= p.inputOps[i] < NUMBER_LIMIT
  }

  predicate SmallNumbers(ps: seq<int>) {
    forall i :: 0 <= i < |ps| ==> 0 <= ps[i] < NUMBER_LIMIT
  }

  lemma ResetKeepsReadable(rend: Rendition)
    ensures Readable(Reset(rend))
  {
  }

  lemma TurnKeepsReadable(rend: Rendition, n: int)
    requires Readable(rend)
    ensures Readable(TurnOn(rend, n)) && Readable(TurnOff(rend, n))
  {
  }

  lemma PaletteKeepsReadable(rend: Rendition, n: int)
    requires Readable(rend)
    ensures Readable(SetPalette(rend, n))
  {
  }

  lemma BuildKeepsReadable(rend: Rendition, n: int)
    requires Readable(rend)
    ensures Readable(BuildRendition(rend, n))
  {
    ResetKeepsReadable(rend);
    TurnKeepsReadable(rend, n);
    PaletteKeepsReadable(rend, n);
  }

  lemma ColorKeepsReadable(rend: Rendition, target: Target, ps: seq<int>)
    requires Readable(rend) && SmallNumbers(ps) && ps != []
    ensures Readable(ColorStep(rend, target, ps).0)
  {
    var r := ColorStep(rend, target, ps).0;
    if r != rend {
      var c := if ps[1] == 5 then Palette(ps[2])
               else if target.Underline? then NewRGBColor(ps[3], ps[4], ps[5]) else NewRGBColor(ps[2], ps[3], ps[4]);
      assert ReadableColor(c);
      assert r == SetColor(rend, target, c);
    }
  }

  lemma StepKeepsReadable(rend: Rendition, ps: seq<int>, seps: seq<char>)
    requires Readable(rend) && SmallNumbers(ps) && ps != [] && |seps| <= |ps|
    ensures Readable(SgrStep(rend, ps, seps).0)
  {
    BuildKeepsReadable(rend, ps[0]);
    ColorKeepsReadable(rend, Foreground, ps);
    ColorKeepsReadable(rend, Background, ps);
    ColorKeepsReadable(rend, Underline, ps);
  }

  lemma {:induction false} SgrKeepsReadable(rend: Rendition, ps: seq<int>, seps: seq<char>)
    requires Readable(rend) && SmallNumbers(ps) && |seps| <= |ps|
    ensures Readable(Sgr(rend, ps, seps))
    decreases |ps|
  {
    if ps != [] {
      var (rend', n) := SgrStep(rend, ps, seps);
      StepKeepsReadable(rend, ps, seps);
      SgrKeepsReadable(rend', ps[n..], Drop(seps, n));
    }
  }

  /** Whatever is fed to the parser, the rendition stays one that can be printed. */
  lemma {:induction false} FeedKeepsReadable(m: Machine, s: string)
    requires Sized(m.p) && Small(m.p) && Readable(m.rend)
    ensures Small(Feed(m, s).p) && Readable(Feed(m, s).rend)
    decreases |s|
  {
    if s != [] {
      if m.p.inputState.Csi? && s[0] == 'm' {
        SgrKeepsReadable(m.rend, Args(m.p), Seps(m.p));
      }
      FeedKeepsReadable(Input(m, s[0]), s[1..]);
    }
  }
}
