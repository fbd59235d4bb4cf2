/** What each SGR parameter means, apart from how the handler finds out. */
module SgrCodes {
  import opened Renditions
  import opened SgrPrinter
  import opened SgrParser

  /** The attributes after parameter `n`. Normal intensity leaves faint text faint, and one parameter
      ends both kinds of blinking. */
  function Switched(on: Attributes, n: int): Attributes {
    match n
    case 1 => on.(bold := true)
    case 2 => on.(faint := true)
    case 3 => on.(italic := true)
    case 4 => on.(underline := true)
    case 5 => on.(blink := true)
    case 6 => on.(rapidBlink := true)
    case 7 => on.(inverse := true)
    case 8 => on.(invisible := true)
    case 22 => on.(bold := false)
    case 23 => on.(italic := false)
    case 24 => on.(underline := false)
    case 25 => on.(blink := false, rapidBlink := false)
    case 27 => on.(inverse := false)
    case 28 => on.(invisible := false)
    case _ => on
  }

  /** The colour after parameter `n`: eight from `low` on, the default after those and one more, and
      eight bright ones from `bright` on. */
  function Coloured(c: Color, n: int, low: int, bright: int): Color {
    if low <= n < low + 8 then Palette(n - low)
    else if n == low + 9 then ColorDefault
    else if bright <= n < bright + 8 then Palette(n - bright + 8)
    else c
  }

  function Meaning(rend: Rendition, n: int): Rendition {
    if n == 0 then PLAIN
    else
      Rendition(Coloured(rend.fgColor, n, 30, 90), Coloured(rend.bgColor, n, 40, 100),
                if n == 59 then ColorDefault else rend.ulColor,
                if n == 4 then ULS_SINGLE else rend.ulStyle, rend.linkIndex, Switched(rend.on, n))
  }

  predicate IsCode(n: int) {
    || 0 <= n <= 8 || 22 <= n <= 25 || n == 27 || n == 28 || n == 59
    || 30 <= n <= 37 || n == 39 || 40 <= n <= 47 || n == 49 || 90 <= n <= 97 || 100 <= n <= 107
  }

  lemma StepMeans(rend: Rendition, ps: seq<int>, seps: seq<char>)
    requires ps != [] && |seps| <= |ps|
    requires ps[0] != 38 && ps[0] != 48 && ps[0] != 58
    requires !(ps[0] == 4 && |seps| >= 2 && seps[0] == ':')
    ensures SgrStep(rend, ps, seps) == (Meaning(rend, ps[0]), 1)
  {
  }

  /** One parameter, whatever separator is left over, does exactly what it means; a number that is no
      attribute changes nothing. */
  lemma OneParameter(rend: Rendition, n: int, seps: seq<char>)
    requires |seps| <= 1
    ensures Sgr(rend, [n], seps) == Meaning(rend, n)
    ensures !IsCode(n) ==> Sgr(rend, [n], seps) == rend
  {
    if n == 38 || n == 48 || n == 58 {
      assert SgrStep(rend, [n], seps) == (rend, 1);
    } else {
      StepMeans(rend, [n], seps);
    }
    assert Sgr(rend, [n], seps) == Sgr(SgrStep(rend, [n], seps).0, [], Drop(seps, 1));
  }

  /** Several parameters that stand for themselves act in turn. */
  lemma InTurn(rend: Rendition, ps: seq<int>, seps: seq<char>)
    requires ps != [] && |seps| <= |ps|
    requires ps[0] != 38 && ps[0] != 48 && ps[0] != 58
    requires !(ps[0] == 4 && |seps| >= 2 && seps[0] == ':')
    ensures Sgr(rend, ps, seps) == Sgr(Meaning(rend, ps[0]), ps[1..], Drop(seps, 1))
  {
    StepMeans(rend, ps, seps);
  }

  predicate Off(on: Attributes, n: int) {
    match n
    case 1 => !on.bold
    case 3 => !on.italic
    case 4 => !on.underline
    case 5 => !on.blink && !on.rapidBlink
    case 6 => !on.blink && !on.rapidBlink
    case 7 => !on.inverse
    case 8 => !on.invisible
    case _ => false
  }

  /** The parameter that ends what parameter `n` began. */
  function Ending(n: int): int {
    if n == 1 then 22 else if n == 5 || n == 6 then 25 else n + 20
  }

  /** 22 to 28 undo 1 to 8: of an attribute that was off before everything is as it was, but for the
      style that 4 leaves behind. Faint text stays faint. */
  lemma OffUndoesOn(rend: Rendition, n: int, seps: seq<char>)
    requires |seps| <= 1 && Off(rend.on, n)
    ensures Sgr(Sgr(rend, [n], seps), [Ending(n)], seps) == if n == 4 then rend.(ulStyle := ULS_SINGLE) else rend
  {
    TwoParameters(rend, n, Ending(n), seps);
  }

  lemma FaintStays(rend: Rendition, seps: seq<char>)
    requires |seps| <= 1
    ensures Sgr(Sgr(rend, [2], seps), [22], seps).on.faint
  {
    TwoParameters(rend, 2, 22, seps);
  }

  lemma TwoParameters(rend: Rendition, a: int, b: int, seps: seq<char>)
    requires |seps| <= 1
    ensures Sgr(Sgr(rend, [a], seps), [b], seps) == Meaning(Meaning(rend, a), b)
  {
    OneParameter(rend, a, seps);
    OneParameter(Meaning(rend, a), b, seps);
  }

  /** 4:n underlines in a style, and 4:0 not at all. */
  lemma StyleSet(rend: Rendition, n: int, seps: seq<char>)
    requires ULS_NONE <= n <= ULS_DASHED && |seps| == 2 && seps[0] == ':'
    ensures Sgr(rend, [4, n], seps) == rend.(ulStyle := n, on := rend.on.(underline := n != ULS_NONE))
  {
    var step := SgrStep(rend, [4, n], seps).0;
    assert SgrStep(rend, [4, n], seps) == (step, 2) && [4, n][2..] == [];
    assert Sgr(rend, [4, n], seps) == Sgr(step, [], Drop(seps, 2));
  }

  /** A colour without all its parameters, or of an unknown kind, and an unknown underline style: the
      rest of the sequence is passed over. */
  lemma CutShort(rend: Rendition, ps: seq<int>, seps: seq<char>)
    requires |ps| >= 2 && |seps| <= |ps|
    requires
      || ((ps[0] == 38 || ps[0] == 48) && (if ps[1] == 5 then |ps| < 3 else ps[1] == 2 ==> |ps| < 5))
      || (ps[0] == 58 && (if ps[1] == 5 then |ps| < 3 else ps[1] == 2 ==> |ps| < 6))
      || (ps[0] == 4 && |seps| >= 2 && seps[0] == ':' && !(0 <= ps[1] <= 5))
    ensures Sgr(rend, ps, seps) == rend
  {
    assert SgrStep(rend, ps, seps) == (rend, |ps|);
    assert Sgr(rend, ps, seps) == Sgr(rend, [], Drop(seps, |ps|));
  }

  // ---------------------------------------------------------------- through the parser

  lemma Introduced(m: Machine, s: string)
    requires Sized(m.p) && m.p.inputState.Normal?
    ensures Feed(m, [ESC, '['] + s) == Feed(Opened(m), s)
  {
    FeedAppend(m, [ESC, '['], s);
    assert [ESC, '['][1..] == ['['];
    FeedOne(Input(m, ESC), '[');
  }

  /** A control sequence with one number, from any state of the buffers. */
  lemma FedParameter(m: Machine, n: nat)
    requires Sized(m.p) && m.p.inputState.Normal? && n < NUMBER_LIMIT
    ensures var m' := Feed(m, [ESC, '['] + (Digits(n) + "m"));
      m'.p.inputState.Normal? && m'.rend == Meaning(m.rend, n)
  {
    var m1 := Opened(m);
    Introduced(m, Digits(n) + "m");
    FeedAppend(m1, Digits(n), "m");
    DigitsParsed(m1, n);
    var m2 := Feed(m1, Digits(n));
    FinalByte(m2);
    assert Args(m2.p) == [n];
    OneParameter(m.rend, n, Seps(m2.p));
  }

  /** One without any number is a reset. */
  lemma FedNothing(m: Machine)
    requires Sized(m.p) && m.p.inputState.Normal?
    ensures Feed(m, [ESC, '['] + "m").rend == PLAIN
  {
    Introduced(m, "m");
    FinalByte(Opened(m));
    assert Args(Opened(m).p) == [0];
    OneParameter(m.rend, 0, Seps(Opened(m).p));
  }

  /** Text is no sequence; and any other escape or control sequence ends without effect, so that text
      may follow. */
  lemma FedOther(m: Machine, ch: char)
    requires Sized(m.p) && ch != ESC && !IsDigit(ch) && !IsSeparator(ch)
    requires m.p.inputState.Escape? ==> ch != '['
    requires m.p.inputState.Csi? ==> ch != 'm'
    ensures var m' := Feed(m, [ch]);
      m'.p.inputState.Normal? && m'.rend == m.rend && (m.p.inputState.Normal? ==> m' == m)
  {
    FeedOne(m, ch);
  }

  // ---------------------------------------------------------------- how much is printed

  function One(on: bool): nat {
    if on then 1 else 0
  }

  /** The parameters for a colour: one for the first sixteen, which an underline has none of. */
  function ColorSize(c: Color, underline: bool): nat {
    match c
    case ColorDefault => 0
    case Palette(i) => if i < 16 && !underline then 1 else 3
    case Rgb(_, _, _) => if underline then 6 else 5
  }

  function UnderlineSize(rend: Rendition): nat {
    if !rend.on.underline then 0
    else (if rend.ulStyle == ULS_NONE then 0 else if rend.ulStyle == ULS_SINGLE then 1 else 2) + ColorSize(rend.ulColor, true)
  }

  lemma OneToken(ps: seq<Part>, p: Part)
    ensures |AllTokens([p] + ps)| == |Tokens(p)| + |AllTokens(ps)|
  {
    assert ([p] + ps)[1..] == ps;
  }

  lemma {:induction false} TokensOfBoth(ps: seq<Part>, qs: seq<Part>)
    ensures |AllTokens(ps + qs)| == |AllTokens(ps)| + |AllTokens(qs)|
  {
    if ps == [] {
      assert ps + qs == qs;
    } else {
      assert ps + qs == [ps[0]] + (ps[1..] + qs);
      TokensOfBoth(ps[1..], qs);
      OneToken(ps[1..] + qs, ps[0]);
    }
  }

  lemma FlagSize(on: bool, n: nat)
    ensures |AllTokens(Flag(on, n))| == One(on)
  {
    if on { OneToken([], Attr(n)); }
  }

  lemma ColorPartSize(target: Target, c: Color, low: nat, bright: nat)
    requires ReadableColor(c)
    ensures |AllTokens(ColorPart(target, c, low, bright))| == ColorSize(c, target.Underline?)
  {
    var ps := ColorPart(target, c, low, bright);
    if ps != [] { OneToken([], ps[0]); }
  }

  lemma UnderlinePartsSize(rend: Rendition)
    requires Readable(rend)
    ensures |AllTokens(UnderlineParts(rend))| == UnderlineSize(rend)
  {
    var style := if rend.ulStyle == ULS_NONE then [] else if rend.ulStyle == ULS_SINGLE then [Attr(4)] else [Style(rend.ulStyle)];
    if style != [] { OneToken([], style[0]); }
    TokensOfBoth(style, ColorPart(Underline, rend.ulColor, 0, 0));
    ColorPartSize(Underline, rend.ulColor, 0, 0);
  }

  lemma LettersSize(rend: Rendition)
    requires Readable(rend)
    ensures |AllTokens(Letters(rend))| == One(rend.on.bold) + One(rend.on.faint) + One(rend.on.italic) + UnderlineSize(rend)
  {
    var a, b, c := Flag(rend.on.bold, 1), Flag(rend.on.faint, 2), Flag(rend.on.italic, 3);
    TokensOfBoth(a + b + c, UnderlineParts(rend));
    TokensOfBoth(a + b, c);
    TokensOfBoth(a, b);
    FlagSize(rend.on.bold, 1);
    FlagSize(rend.on.faint, 2);
    FlagSize(rend.on.italic, 3);
    UnderlinePartsSize(rend);
  }

  lemma SignsSize(rend: Rendition)
    ensures |AllTokens(Signs(rend))|
         == One(rend.on.blink) + One(rend.on.rapidBlink) + One(rend.on.inverse) + One(rend.on.invisible)
  {
    var a, b, c, d := Flag(rend.on.blink, 5), Flag(rend.on.rapidBlink, 6), Flag(rend.on.inverse, 7), Flag(rend.on.invisible, 8);
    TokensOfBoth(a + b + c, d);
    TokensOfBoth(a + b, c);
    TokensOfBoth(a, b);
    FlagSize(rend.on.blink, 5);
    FlagSize(rend.on.rapidBlink, 6);
    FlagSize(rend.on.inverse, 7);
    FlagSize(rend.on.invisible, 8);
  }

  /** How many parameters SGR prints, of which a parser takes sixteen: one for each attribute, up to
      two for the underline, up to five for a colour and six for that of the underline. */
  lemma ParamCountIs(rend: Rendition)
    requires Readable(rend)
    ensures var on := rend.on;
      ParamCount(rend) == 1 + One(on.bold) + One(on.faint) + One(on.italic) + UnderlineSize(rend)
                            + One(on.blink) + One(on.rapidBlink) + One(on.inverse) + One(on.invisible)
                            + ColorSize(rend.fgColor, false) + ColorSize(rend.bgColor, false)
  {
    var fg, bg := ColorPart(Foreground, rend.fgColor, 30, 90), ColorPart(Background, rend.bgColor, 40, 100);
    TokensOfBoth(Letters(rend) + Signs(rend), Colors(rend));
    TokensOfBoth(Letters(rend), Signs(rend));
    TokensOfBoth(fg, bg);
    LettersSize(rend);
    SignsSize(rend);
    ColorPartSize(Foreground, rend.fgColor, 30, 90);
    ColorPartSize(Background, rend.bgColor, 40, 100);
  }
}
