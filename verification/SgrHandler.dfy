/** The parser's buffers, updated in place, and the loop over the parameters of an SGR sequence. */
module SgrHandler {
  import opened Renditions
  import opened SgrPrinter
  import opened SgrParser

  /** hdl_csi_sgr, 38, 48 and 58: set the colour and say how far to move on. */
  method SetColorAt(rend: Rendition, target: Target, params: seq<int>, at: nat) returns (rend': Rendition, k: nat)
    requires at < |params|
    ensures (rend', k - at + 1) == ColorStep(rend, target, params[at..]) && at <= k < |params|
  {
    rend', k := rend, at;
    var skip := if target.Underline? then 1 else 0;
    if k >= |params| - 1 {
      return;
    }
    if params[k + 1] == 5 {
      if k + 1 >= |params| - 1 {
        k := k + (|params| - 1 - k);
        return;
      }
      rend' := SetColor(rend, target, Palette(params[k + 2]));
      k := k + 2;
    } else if params[k + 1] == 2 {
      if k + 1 >= |params| - 3 - skip {
        k := k + (|params| - 1 - k);
        return;
      }
      rend' := SetColor(rend, target,
                        NewRGBColor(params[k + 2 + skip], params[k + 3 + skip], params[k + 4 + skip]));
      k := k + 4 + skip;
    } else {
      k := k + (|params| - 1 - k);
    }
  }

  /** The switch on the parameter at `at`: the last one it takes is at `k`. */
  method SgrAt(prior: Rendition, params: seq<int>, seps: seq<char>, at: nat) returns (rend: Rendition, k: nat)
    requires |seps| <= |params| && at < |params|
    ensures (rend, k - at + 1) == SgrStep(prior, params[at..], Drop(seps, at)) && at <= k < |params|
  {
    rend, k := prior, at;
    if params[k] == 38 {
      rend, k := SetColorAt(rend, Foreground, params, k);
    } else if params[k] == 48 {
      rend, k := SetColorAt(rend, Background, params, k);
    } else if params[k] == 4 {
      if k + 1 <= |seps| - 1 && seps[k] == ':' {
        if params[k + 1] == 0 {
          rend := rend.(on := rend.on.(underline := false), ulStyle := params[k + 1]);
          k := k + 1;
        } else if 1 <= params[k + 1] <= 5 {
          rend := rend.(on := rend.on.(underline := true), ulStyle := params[k + 1]);
          k := k + 1;
        } else {
          k := k + (|params| - 1 - k);
        }
      } else {
        rend := rend.(on := rend.on.(underline := true), ulStyle := ULS_SINGLE);
      }
    } else if params[k] == 58 {
      rend, k := SetColorAt(rend, Underline, params, k);
    } else if params[k] == 59 {
      rend := rend.(ulColor := ColorDefault);
    } else {
      rend := BuildRendition(rend, params[k]);
    }
  }

  method HdlCsiSgr(prior: Rendition, params: seq<int>, seps: seq<char>) returns (rend: Rendition)
    requires |seps| <= |params|
    ensures rend == Sgr(prior, params, seps)
  {
    rend := prior;
    var k := 0;
    while k < |params|
      invariant 0 <= k <= |params|
      invariant Sgr(rend, params[k..], Drop(seps, k)) == Sgr(prior, params, seps)
    {
      ghost var at := k;
      rend, k := SgrAt(rend, params, seps, k);
      k := k + 1;
      assert params[at..][k - at..] == params[k..] && Drop(Drop(seps, at), k - at) == Drop(seps, k);
    }
  }

  class Parser {
    const inputOps: array<int>
    const inputSep: array<char>
    var inputState: InputState
    var nInputOps: int

    ghost function View(): Parsing
      reads this, inputOps, inputSep
    {
      Parsing(inputState, inputOps[..], inputSep[..], nInputOps)
    }

    constructor ()
      ensures Sized(View()) && Small(View()) && View().inputState.Normal? && fresh(inputOps) && fresh(inputSep)
    {
      inputState := Normal;
      inputOps := new int[MAX_ESC_OPS](_ => 0);
      inputSep := new char[MAX_ESC_OPS](_ => '\0');
      nInputOps := 0;
    }

    method SetState(newState: InputState)
      requires Sized(View())
      modifies this`inputState, this`nInputOps, inputOps
      ensures View() == if newState.Normal? then SetNormal(old(View())) else old(View()).(inputState := newState)
    {
      if newState == inputState {
        return;
      }
      if newState.Normal? {
        nInputOps := 0;
        inputOps[0] := 0;
      }
      inputState := newState;
    }

    /** ESC, in the normal state. */
    method Begin()
      requires Sized(View()) && inputState.Normal?
      modifies this, inputOps
      ensures View() == Input(Machine(old(View()), PLAIN), ESC).p
    {
      SetState(Escape);
      inputOps[0] := 0;
      nInputOps := 1;
    }

    method CollectNumericParameters(ch: char) returns (isNumeric: bool)
      requires Sized(View()) && inputState.Csi?
      modifies this, inputOps, inputSep
      ensures isNumeric <==> IsDigit(ch) || IsSeparator(ch)
      ensures View() == if isNumeric then Collect(old(View()), ch) else old(View())
    {
      isNumeric := false;
      if '0' <= ch && ch <= '9' {
        isNumeric := true;
        inputOps[nInputOps - 1] := inputOps[nInputOps - 1] * 10;
        inputOps[nInputOps - 1] := inputOps[nInputOps - 1] + (ch as int - '0' as int);
        if inputOps[nInputOps - 1] >= 65535 {
          SetState(Normal);
        }
      } else if ch == ';' || ch == ':' {
        isNumeric := true;
        if nInputOps < MAX_ESC_OPS {
          inputSep[nInputOps - 1] := ch;
          inputOps[nInputOps] := 0;
          nInputOps := nInputOps + 1;
        } else {
          SetState(Normal);
        }
      }
    }

    /** nil, where there are none, becomes a single 0 in the caller. */
    method CopyArgs() returns (args: seq<int>)
      requires Sized(View())
      ensures args == (if nInputOps == 1 && inputOps[0] == 0 then [] else inputOps[..nInputOps])
    {
      if nInputOps == 1 && inputOps[0] == 0 {
        return [];
      }
      return inputOps[..nInputOps];
    }

    method CopySeps() returns (args: seq<char>)
      requires Sized(View())
      ensures args == SgrParser.Seps(View())
    {
      if nInputOps == 1 && inputSep[0] == '\0' {
        return [];
      }
      return inputSep[..nInputOps];
    }

    /** The final byte of SGR: the handler gets copies, and the parser is ready for the next sequence. */
    method HandleSgr(prior: Rendition) returns (rend: Rendition)
      requires Sized(View()) && inputState.Csi?
      modifies this`inputState, this`nInputOps, inputOps
      ensures Machine(View(), rend) == Input(Machine(old(View()), prior), 'm')
    {
      var params := CopyArgs();
      if params == [] {
        params := [0];
      }
      var seps := CopySeps();
      rend := HdlCsiSgr(prior, params, seps);
      SetState(Normal);
    }
  }
}
