/** Character attributes and colours, and the SGR parameters that set them. */
module Renditions {

  /** The values a colour takes: the zero value, a palette index, or three components. */
  datatype Color = ColorDefault | Palette(index: int) | Rgb(r: int, g: int, b: int)

  // underline styles
  const ULS_NONE := 0
  const ULS_SINGLE := 1
  const ULS_DASHED := 5

  datatype Attributes = Attributes(
    bold: bool, faint: bool, italic: bool, underline: bool, blink: bool, rapidBlink: bool,
    inverse: bool, invisible: bool)

  datatype Rendition = Rendition(
    fgColor: Color, bgColor: Color, ulColor: Color, ulStyle: int, linkIndex: int, on: Attributes)

  const NONE_ON := Attributes(false, false, false, false, false, false, false, false)
  const PLAIN := Rendition(ColorDefault, ColorDefault, ColorDefault, ULS_NONE, 0, NONE_ON)

  /** Components are cut to a byte. */
  function NewRGBColor(r: int, g: int, b: int): Color {
    Rgb(r % 0x100, g % 0x100, b % 0x100)
  }

  function ClearAttributes(rend: Rendition): Rendition {
    rend.(on := NONE_ON, linkIndex := 0)
  }

  function Reset(rend: Rendition): Rendition {
    ClearAttributes(rend).(fgColor := ColorDefault, bgColor := ColorDefault, ulColor := ColorDefault, ulStyle := ULS_NONE)
  }

  function TurnOn(rend: Rendition, attribute: int): Rendition {
    if attribute == 1 then rend.(on := rend.on.(bold := true))
    else if attribute == 2 then rend.(on := rend.on.(faint := true))
    else if attribute == 3 then rend.(on := rend.on.(italic := true))
    else if attribute == 4 then rend.(on := rend.on.(underline := true), ulStyle := ULS_SINGLE)
    else if attribute == 5 then rend.(on := rend.on.(blink := true))
    else if attribute == 6 then rend.(on := rend.on.(rapidBlink := true))
    else if attribute == 7 then rend.(on := rend.on.(inverse := true))
    else if attribute == 8 then rend.(on := rend.on.(invisible := true))
    else rend
  }

  function TurnOff(rend: Rendition, attribute: int): Rendition {
    if attribute == 22 then rend.(on := rend.on.(bold := false))
    else if attribute == 23 then rend.(on := rend.on.(italic := false))
    else if attribute == 24 then rend.(on := rend.on.(underline := false))
    else if attribute == 25 then rend.(on := rend.on.(blink := false, rapidBlink := false))
    else if attribute == 27 then rend.(on := rend.on.(inverse := false))
    else if attribute == 28 then rend.(on := rend.on.(invisible := false))
    else rend
  }

  function SetPalette(rend: Rendition, attribute: int): Rendition {
    if 30 <= attribute <= 37 then rend.(fgColor := Palette(attribute - 30))
    else if attribute == 39 then rend.(fgColor := ColorDefault)
    else if 40 <= attribute <= 47 then rend.(bgColor := Palette(attribute - 40))
    else if attribute == 49 then rend.(bgColor := ColorDefault)
    else if 90 <= attribute <= 97 then rend.(fgColor := Palette(attribute - 82))
    else if 100 <= attribute <= 107 then rend.(bgColor := Palette(attribute - 92))
    else rend
  }

  /** An attribute that takes no further parameters; what is not one changes nothing. */
  function BuildRendition(rend: Rendition, attribute: int): Rendition {
    if attribute == 0 then Reset(rend)
    else if attribute < 22 then TurnOn(rend, attribute)
    else if attribute < 30 then TurnOff(rend, attribute)
    else SetPalette(rend, attribute)
  }

  // ---------------------------------------------------------------- hdl_csi_sgr

  datatype Target = Foreground | Background | Underline

  function SetColor(rend: Rendition, target: Target, c: Color): Rendition {
    match target
    case Foreground => rend.(fgColor := c)
    case Background => rend.(bgColor := c)
    case Underline => rend.(ulColor := c)
  }

  /** 38, 48 or 58 at the head of the parameters: what it sets, and how many it takes up. An
      underline colour has one more parameter before its components. */
  function ColorStep(rend: Rendition, target: Target, ps: seq<int>): (step: (Rendition, nat))
    requires ps != []
    ensures 1 <= step.1 <= |ps|
  {
    var skip := if target.Underline? then 1 else 0;
    if |ps| == 1 then (rend, 1)
    else if ps[1] == 5 then
      if |ps| < 3 then (rend, |ps|) else (SetColor(rend, target, Palette(ps[2])), 3)
    else if ps[1] == 2 then
      if |ps| < 5 + skip then (rend, |ps|)
      else (SetColor(rend, target, NewRGBColor(ps[2 + skip], ps[3 + skip], ps[4 + skip])), 5 + skip)
    else (rend, |ps|)
  }

  /** What the parameters at the head do, and how many they are. A separator follows its parameter. */
  function SgrStep(rend: Rendition, ps: seq<int>, seps: seq<char>): (step: (Rendition, nat))
    requires ps != [] && |seps| <= |ps|
    ensures 1 <= step.1 <= |ps|
  {
    if ps[0] == 38 then ColorStep(rend, Foreground, ps)
    else if ps[0] == 48 then ColorStep(rend, Background, ps)
    else if ps[0] == 4 then
      if |seps| >= 2 && seps[0] == ':' then
        if ps[1] == 0 then (rend.(on := rend.on.(underline := false), ulStyle := 0), 2)
        else if 1 <= ps[1] <= 5 then (rend.(on := rend.on.(underline := true), ulStyle := ps[1]), 2)
        else (rend, |ps|)
      else (rend.(on := rend.on.(underline := true), ulStyle := ULS_SINGLE), 1)
    else if ps[0] == 58 then ColorStep(rend, Underline, ps)
    else if ps[0] == 59 then (rend.(ulColor := ColorDefault), 1)
    else (BuildRendition(rend, ps[0]), 1)
  }

  function Drop<T>(xs: seq<T>, n: nat): seq<T> {
    if n <= |xs| then xs[n..] else []
  }

  /** The rendition after all parameters. */
  function Sgr(rend: Rendition, ps: seq<int>, seps: seq<char>): Rendition
    requires |seps| <= |ps|
    decreases |ps|
  {
    if ps == [] then rend
    else
      var (rend', n) := SgrStep(rend, ps, seps);
      Sgr(rend', ps[n..], Drop(seps, n))
  }
}
