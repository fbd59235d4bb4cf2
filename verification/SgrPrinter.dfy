/** Rendering a rendition as an SGR control sequence, and the parser that reads it back. */
module SgrPrinter {
  import opened Renditions

  const ESC: char := '\U{1B}'

  /** Decimal digits, as printed by %d. */
  function Digits(n: nat): (s: string)
    ensures s != []
  {
    if n < 10 then [('0' as int + n) as char] else Digits(n / 10) + [('0' as int + n % 10) as char]
  }

  /** A separator and the parameter after it; an empty parameter prints no digits. */
  datatype Token = Token(sep: char, num: nat, empty: bool)

  function Text(t: Token): string {
    [t.sep] + if t.empty then [] else Digits(t.num)
  }

  function Texts(ts: seq<Token>): string {
    if ts == [] then [] else Text(ts[0]) + Texts(ts[1..])
  }

  function Sub(n: nat): Token {
    Token(':', n, false)
  }

  /** One group of parameters after the leading 0. */
  datatype Part =
    | Attr(n: nat)
    | Style(n: nat)
    | Index(target: Target, i: nat)
    | TrueColor(target: Target, r: nat, g: nat, b: nat)

  function Code(target: Target): nat {
    match target
    case Foreground => 38
    case Background => 48
    case Underline => 58
  }

  function Tokens(p: Part): seq<Token> {
    match p
    case Attr(n) => [Token(';', n, false)]
    case Style(n) => [Token(';', 4, false), Sub(n)]
    case Index(t, i) => [Token(';', Code(t), false), Sub(5), Sub(i)]
    case TrueColor(t, r, g, b) =>
      [Token(';', Code(t), false), Sub(2)]
      + (if t.Underline? then [Token(':', 0, true)] else [])
      + [Sub(r), Sub(g), Sub(b)]
  }

  function AllTokens(ps: seq<Part>): seq<Token> {
    if ps == [] then [] else Tokens(ps[0]) + AllTokens(ps[1..])
  }

  /** What the renditions of cells hold: palette indices that were read as parameters, components
      of a byte, the six underline styles. */
  predicate ReadableColor(c: Color) {
    match c
    case ColorDefault => true
    case Palette(i) => 0 <= i < NUMBER_LIMIT
    case Rgb(r, g, b) => 0 <= r < 0x100 && 0 <= g < 0x100 && 0 <= b < 0x100
  }

  predicate Readable(rend: Rendition) {
    && ReadableColor(rend.fgColor) && ReadableColor(rend.bgColor) && ReadableColor(rend.ulColor)
    && ULS_NONE <= rend.ulStyle <= ULS_DASHED
  }

  function Flag(on: bool, n: nat): seq<Part> {
    if on then [Attr(n)] else []
  }

  /** `low` and `bright` are the parameters of the first eight colours and of the next eight. */
  function ColorPart(target: Target, c: Color, low: nat, bright: nat): seq<Part>
    requires ReadableColor(c)
  {
    match c
    case ColorDefault => []
    case Rgb(r, g, b) => [TrueColor(target, r, g, b)]
    case Palette(i) =>
      if target.Underline? then [Index(target, i)]
      else if i < 8 then [Attr(i + low)]
      else if i < 16 then [Attr(i - 8 + bright)]
      else [Index(target, i)]
  }

  function UnderlineParts(rend: Rendition): seq<Part>
    requires Readable(rend)
  {
    if !rend.on.underline then []
    else
      (if rend.ulStyle == ULS_NONE then []
       else if rend.ulStyle == ULS_SINGLE then [Attr(4)]
       else [Style(rend.ulStyle)])
      + ColorPart(Underline, rend.ulColor, 0, 0)
  }

  /** Bold to underlined, then blinking to invisible, then the colours. */
  function Letters(rend: Rendition): seq<Part>
    requires Readable(rend)
  {
    Flag(rend.on.bold, 1) + Flag(rend.on.faint, 2) + Flag(rend.on.italic, 3) + UnderlineParts(rend)
  }

  function Signs(rend: Rendition): seq<Part> {
    Flag(rend.on.blink, 5) + Flag(rend.on.rapidBlink, 6) + Flag(rend.on.inverse, 7) + Flag(rend.on.invisible, 8)
  }

  function Parts(rend: Rendition): seq<Part>
    requires Readable(rend)
  {
    Letters(rend) + Signs(rend) + Colors(rend)
  }

  function Colors(rend: Rendition): seq<Part>
    requires Readable(rend)
  {
    ColorPart(Foreground, rend.fgColor, 30, 90) + ColorPart(Background, rend.bgColor, 40, 100)
  }

  /** Renditions.SGR */
  function SGR(rend: Rendition): string
    requires Readable(rend)
  {
    [ESC, '[', '0'] + Texts(AllTokens(Parts(rend))) + "m"
  }

  // ---------------------------------------------------------------- what the parameters do

  function Nums(ts: seq<Token>): (r: seq<int>)
    ensures |r| == |ts| && forall i :: 0 <= i < |r| ==> r[i] == ts[i].num
  {
    seq(|ts|, i requires 0 <= i < |ts| => ts[i].num)
  }

  /** The separators that follow the tokens' parameters; the last is left from earlier input. */
  function Following(ts: seq<Token>, stale: char): (r: seq<char>)
    ensures |r| == |ts|
    ensures forall i :: 0 <= i < |r| ==> r[i] == if i + 1 < |ts| then ts[i + 1].sep else stale
  {
    seq(|ts|, i requires 0 <= i < |ts| => if i + 1 < |ts| then ts[i + 1].sep else stale)
  }

  function Effect(rend: Rendition, p: Part): Rendition {
    match p
    case Attr(n) => BuildRendition(rend, n)
    case Style(n) => rend.(on := rend.on.(underline := true), ulStyle := n)
    case Index(t, i) => SetColor(rend, t, Palette(i))
    case TrueColor(t, r, g, b) => SetColor(rend, t, NewRGBColor(r, g, b))
  }

  function Effects(rend: Rendition, ps: seq<Part>): Rendition
    decreases |ps|
  {
    if ps == [] then rend else Effects(Effect(rend, ps[0]), ps[1..])
  }

  // a parameter must stay below this to be read
  const NUMBER_LIMIT := 65535

  predicate Printed(p: Part) {
    match p
    case Attr(n) => n != 38 && n != 48 && n != 58 && n != 59 && n < NUMBER_LIMIT
    case Style(n) => 1 <= n <= 5
    case Index(_, i) => i < NUMBER_LIMIT
    case TrueColor(_, r, g, b) => r < 0x100 && g < 0x100 && b < 0x100
  }

  lemma ColorPartStep(rend: Rendition, p: Part, rest: seq<Token>)
    requires p.Index? || p.TrueColor?
    ensures var ts := Tokens(p) + rest;
      ts[0].num == Code(p.target) && ColorStep(rend, p.target, Nums(ts)) == (Effect(rend, p), |Tokens(p)|)
  {
  }

  /** The handler takes exactly the parameters of the part at the head. */
  lemma PartStep(rend: Rendition, p: Part, rest: seq<Token>, stale: char)
    requires Printed(p) && (rest != [] ==> rest[0].sep == ';')
    ensures var ts := Tokens(p) + rest;
      SgrStep(rend, Nums(ts), Following(ts, stale)) == (Effect(rend, p), |Tokens(p)|)
  {
    if p.Index? || p.TrueColor? {
      ColorPartStep(rend, p, rest);
    }
  }

  lemma FirstIsSemicolon(ps: seq<Part>)
    ensures AllTokens(ps) != [] ==> AllTokens(ps)[0].sep == ';'
  {
  }

  lemma SgrAfter(rend: Rendition, ts: seq<Token>, stale: char, rend': Rendition, n: nat)
    requires 0 < n <= |ts| && SgrStep(rend, Nums(ts), Following(ts, stale)) == (rend', n)
    ensures Sgr(rend, Nums(ts), Following(ts, stale)) == Sgr(rend', Nums(ts[n..]), Following(ts[n..], stale))
  {
    assert Nums(ts)[n..] == Nums(ts[n..]);
    assert Drop(Following(ts, stale), n) == Following(ts[n..], stale);
  }

  lemma {:induction false} SgrEffects(rend: Rendition, ps: seq<Part>, stale: char)
    requires AllPrinted(ps)
    ensures Sgr(rend, Nums(AllTokens(ps)), Following(AllTokens(ps), stale)) == Effects(rend, ps)
    decreases |ps|
  {
    if ps != [] {
      var ts, rest, n := AllTokens(ps), AllTokens(ps[1..]), |Tokens(ps[0])|;
      FirstIsSemicolon(ps[1..]);
      PartStep(rend, ps[0], rest, stale);
      SgrAfter(rend, ts, stale, Effect(rend, ps[0]), n);
      assert ts[n..] == rest;
      SgrEffects(Effect(rend, ps[0]), ps[1..], stale);
    }
  }

  // ---------------------------------------------------------------- printing and applying

  lemma {:induction false} EffectsAppend(rend: Rendition, a: seq<Part>, b: seq<Part>)
    ensures Effects(rend, a + b) == Effects(Effects(rend, a), b)
    decreases |a|
  {
    if a == [] {
      assert a + b == b;
    } else {
      EffectsAppend(Effect(rend, a[0]), a[1..], b);
      assert (a + b)[1..] == a[1..] + b;
    }
  }

  /** What a rendition looks like once it was printed and applied: the underline is on exactly if
      it has a style, and is coloured only if it is on; the link is gone. */
  function Reread(rend: Rendition): Rendition {
    rend.(linkIndex := 0,
          on := rend.on.(underline := rend.on.underline && rend.ulStyle != ULS_NONE),
          ulStyle := if rend.on.underline then rend.ulStyle else ULS_NONE,
          ulColor := if rend.on.underline then rend.ulColor else ColorDefault)
  }

  lemma FlagEffect(rend: Rendition, on: bool, n: nat)
    ensures Effects(rend, Flag(on, n)) == if on then BuildRendition(rend, n) else rend
  {
    if on {
      assert Effects(rend, [Attr(n)]) == Effects(Effect(rend, Attr(n)), []);
    }
  }

  lemma ColorEffect(rend: Rendition, target: Target, c: Color, low: nat, bright: nat)
    requires ReadableColor(c)
    requires target.Foreground? ==> low == 30 && bright == 90
    requires target.Background? ==> low == 40 && bright == 100
    ensures Effects(rend, ColorPart(target, c, low, bright)) == if c.ColorDefault? then rend else SetColor(rend, target, c)
  {
    var ps := ColorPart(target, c, low, bright);
    if ps != [] {
      assert ps[1..] == [];
      assert Effects(rend, ps) == Effect(rend, ps[0]);
    }
  }

  lemma UnderlineEffect(rend: Rendition, from: Rendition)
    requires Readable(rend)
    ensures Effects(from, UnderlineParts(rend)) ==
      if !rend.on.underline then from
      else
        var styled := if rend.ulStyle == ULS_NONE then from else from.(on := from.on.(underline := true), ulStyle := rend.ulStyle);
        if rend.ulColor.ColorDefault? then styled else styled.(ulColor := rend.ulColor)
  {
    if rend.on.underline {
      var style := if rend.ulStyle == ULS_NONE then [] else if rend.ulStyle == ULS_SINGLE then [Attr(4)] else [Style(rend.ulStyle)];
      EffectsAppend(from, style, ColorPart(Underline, rend.ulColor, 0, 0));
      if style != [] {
        assert style[1..] == [];
        assert Effects(from, style) == Effect(from, style[0]);
      }
      ColorEffect(Effects(from, style), Underline, rend.ulColor, 0, 0);
    }
  }

  lemma LettersEffect(rend: Rendition)
    requires Readable(rend)
    ensures Effects(PLAIN, Letters(rend)) == PLAIN.(
      on := NONE_ON.(bold := rend.on.bold, faint := rend.on.faint, italic := rend.on.italic,
                     underline := Reread(rend).on.underline),
      ulStyle := Reread(rend).ulStyle, ulColor := Reread(rend).ulColor)
  {
    var a, b, c := Flag(rend.on.bold, 1), Flag(rend.on.faint, 2), Flag(rend.on.italic, 3);
    EffectsAppend(PLAIN, a + b + c, UnderlineParts(rend));
    EffectsAppend(PLAIN, a + b, c);
    EffectsAppend(PLAIN, a, b);
    FlagEffect(PLAIN, rend.on.bold, 1);
    FlagEffect(Effects(PLAIN, a), rend.on.faint, 2);
    FlagEffect(Effects(PLAIN, a + b), rend.on.italic, 3);
    UnderlineEffect(rend, Effects(PLAIN, a + b + c));
  }

  lemma SignsEffect(from: Rendition, rend: Rendition)
    requires !from.on.blink && !from.on.rapidBlink && !from.on.inverse && !from.on.invisible
    ensures Effects(from, Signs(rend)) ==
      from.(on := from.on.(blink := rend.on.blink, rapidBlink := rend.on.rapidBlink, inverse := rend.on.inverse,
                           invisible := rend.on.invisible))
  {
    var a, b, c, d := Flag(rend.on.blink, 5), Flag(rend.on.rapidBlink, 6), Flag(rend.on.inverse, 7), Flag(rend.on.invisible, 8);
    EffectsAppend(from, a + b + c, d);
    EffectsAppend(from, a + b, c);
    EffectsAppend(from, a, b);
    FlagEffect(from, rend.on.blink, 5);
    FlagEffect(Effects(from, a), rend.on.rapidBlink, 6);
    FlagEffect(Effects(from, a + b), rend.on.inverse, 7);
    FlagEffect(Effects(from, a + b + c), rend.on.invisible, 8);
  }

  lemma UncoloredEffect(rend: Rendition)
    requires Readable(rend)
    ensures Effects(PLAIN, Letters(rend) + Signs(rend)) == Reread(rend).(fgColor := ColorDefault, bgColor := ColorDefault)
  {
    EffectsAppend(PLAIN, Letters(rend), Signs(rend));
    LettersEffect(rend);
    SignsEffect(Effects(PLAIN, Letters(rend)), rend);
  }

  lemma ColorsEffect(from: Rendition, rend: Rendition)
    requires Readable(rend) && from.fgColor == from.bgColor == ColorDefault
    ensures Effects(from, Colors(rend)) == from.(fgColor := rend.fgColor, bgColor := rend.bgColor)
  {
    var fg := ColorPart(Foreground, rend.fgColor, 30, 90);
    EffectsAppend(from, fg, ColorPart(Background, rend.bgColor, 40, 100));
    ColorEffect(from, Foreground, rend.fgColor, 30, 90);
    ColorEffect(Effects(from, fg), Background, rend.bgColor, 40, 100);
  }

  lemma PartsEffect(rend: Rendition)
    requires Readable(rend)
    ensures Effects(PLAIN, Parts(rend)) == Reread(rend)
  {
    var a := Letters(rend) + Signs(rend);
    EffectsAppend(PLAIN, a, Colors(rend));
    UncoloredEffect(rend);
    ColorsEffect(Effects(PLAIN, a), rend);
  }

  predicate AllPrinted(ps: seq<Part>) {
    forall i :: 0 <= i < |ps| ==> Printed(ps[i])
  }

  lemma PrintedAppend(a: seq<Part>, b: seq<Part>)
    requires AllPrinted(a) && AllPrinted(b)
    ensures AllPrinted(a + b)
  {
  }

  lemma PartsPrinted(rend: Rendition)
    requires Readable(rend)
    ensures AllPrinted(Parts(rend))
  {
    UnderlinePrinted(rend);
    var a, b, c := Flag(rend.on.bold, 1), Flag(rend.on.faint, 2), Flag(rend.on.italic, 3);
    PrintedAppend(a, b);
    PrintedAppend(a + b, c);
    PrintedAppend(a + b + c, UnderlineParts(rend));
    SignsPrinted(rend);
    PrintedAppend(Letters(rend), Signs(rend));
    var fg, bg := ColorPart(Foreground, rend.fgColor, 30, 90), ColorPart(Background, rend.bgColor, 40, 100);
    PrintedAppend(fg, bg);
    PrintedAppend(Letters(rend) + Signs(rend), Colors(rend));
  }

  lemma UnderlinePrinted(rend: Rendition)
    requires Readable(rend)
    ensures AllPrinted(UnderlineParts(rend))
  {
  }

  lemma SignsPrinted(rend: Rendition)
    ensures AllPrinted(Signs(rend))
  {
  }

  lemma SgrFromZero(prior: Rendition, ps: seq<Part>, stale: char)
    requires AllPrinted(ps)
    ensures var ts := [Token('[', 0, false)] + AllTokens(ps);
      Sgr(prior, Nums(ts), Following(ts, stale)) == Effects(PLAIN, ps)
  {
    var rest := AllTokens(ps);
    var ts := [Token('[', 0, false)] + rest;
    assert SgrStep(prior, Nums(ts), Following(ts, stale)) == (PLAIN, 1);
    SgrAfter(prior, ts, stale, PLAIN, 1);
    assert ts[1..] == rest;
    SgrEffects(PLAIN, ps, stale);
  }

  /** Applied to any rendition, the parameters printed for `rend`, the leading 0 among them, give
      what `rend` looks like reread. */
  lemma SgrOfParts(prior: Rendition, rend: Rendition, stale: char)
    requires Readable(rend)
    ensures var ts := [Token('[', 0, false)] + AllTokens(Parts(rend));
      Sgr(prior, Nums(ts), Following(ts, stale)) == Reread(rend)
  {
    PartsPrinted(rend);
    SgrFromZero(prior, Parts(rend), stale);
    PartsEffect(rend);
  }
}
