/** The user's event stream: keystrokes and window resizes, and the diff message that carries the
    new ones to the server. */
module UserStreams {
  import opened Prefixes

  datatype UserEvent = UserByte(chs: string) | Resize(width: int, height: int)

  /** One instruction of a user message. */
  datatype UserInstruction = Keystroke(keys: string) | ResizeMessage(width: int, height: int)

  type UserMessage = seq<UserInstruction>

  /** Conversion to a 32-bit signed integer. */
  function Int32(x: int): int {
    (x + 0x8000_0000) % 0x1_0000_0000 - 0x8000_0000
  }

  predicate FitsInt32(x: int) {
    -0x8000_0000 <= x < 0x8000_0000
  }

  predicate EndsInKeystroke(um: UserMessage) {
    um != [] && um[|um| - 1].Keystroke?
  }

  /** A keystroke joins the keystroke before it; any other keystroke starts a new message. */
  function AddEvent(um: UserMessage, ue: UserEvent): UserMessage {
    match ue
    case UserByte(chs) =>
      if EndsInKeystroke(um)
      then um[|um| - 1 := Keystroke(um[|um| - 1].keys + chs)]
      else [Keystroke(chs)]
    case Resize(w, h) => um + [ResizeMessage(Int32(w), Int32(h))]
  }

  /** The message a diff of these events is encoded as. */
  function Message(events: seq<UserEvent>): UserMessage {
    if events == [] then []
    else AddEvent(Message(events[..|events| - 1]), events[|events| - 1])
  }

  function KeyEvents(pieces: seq<string>): (r: seq<UserEvent>)
    ensures |r| == |pieces|
    ensures forall i :: 0 <= i < |r| ==> r[i] == UserByte(pieces[i])
  {
    seq(|pieces|, i requires 0 <= i < |pieces| => UserByte(pieces[i]))
  }

  /** The events ApplyString appends: every keystroke is cut into graphemes by `split`. */
  function Rebuild(um: UserMessage, split: string -> seq<string>): seq<UserEvent> {
    if um == [] then []
    else
      (match um[0]
       case Keystroke(keys) => KeyEvents(split(keys))
       case ResizeMessage(w, h) => [Resize(w, h)])
      + Rebuild(um[1..], split)
  }

  /** What a list of events becomes on its way through a diff. */
  function Carried(events: seq<UserEvent>, split: string -> seq<string>): seq<UserEvent> {
    Rebuild(Message(events), split)
  }

  class UserStream {
    var actions: seq<UserEvent>

    constructor ()
      ensures actions == []
    {
      actions := [];
    }

    method PushBack(x: string)
      modifies this
      ensures actions == old(actions) + [UserByte(x)]
    {
      actions := actions + [UserByte(x)];
    }

    method PushBackResize(width: int, height: int)
      modifies this
      ensures actions == old(actions) + [Resize(width, height)]
    {
      actions := actions + [Resize(width, height)];
    }

    method Equal(x: UserStream) returns (same: bool)
      ensures same <==> actions == x.actions
    {
      if this == x || (|actions| == 0 && |x.actions| == 0) {
        return true;
      }
      return actions == x.actions;
    }

    /** Pop the leading actions shared with `prefix`, which may be this very stream. */
    method Subtract(prefix: UserStream)
      modifies this
      ensures actions == Minus(old(actions), old(prefix.actions))
    {
      MinusIs(actions, prefix.actions);
      var same := Equal(prefix);
      if same {
        CommonPrefixUnique(actions, actions, |actions|);
        actions := [];
        return;
      }
      var i := 0;
      while i < |prefix.actions|
        invariant 0 <= i <= |prefix.actions| && this != prefix
        invariant i <= |old(actions)| && actions == old(actions)[i..]
        invariant old(actions)[..i] == prefix.actions[..i]
      {
        if |actions| > 0 && actions[0] == prefix.actions[i] {
          actions := actions[1..];
        } else {
          CommonPrefixUnique(old(actions), prefix.actions, i);
          return;
        }
        i := i + 1;
      }
      CommonPrefixUnique(old(actions), prefix.actions, i);
    }

    method DiffFrom(existing: UserStream) returns (um: UserMessage)
      ensures um == Message(Minus(actions, existing.actions))
    {
      var pos := CommonWith(existing);
      MinusIs(actions, existing.actions);
      um := MessageFrom(pos);
    }

    // its two loops: over the common prefix, and over the rest

    method CommonWith(existing: UserStream) returns (pos: nat)
      ensures pos == CommonPrefix(actions, existing.actions)
    {
      pos := 0;
      for i := 0 to |existing.actions|
        invariant pos == i <= |actions|
        invariant actions[..pos] == existing.actions[..pos]
      {
        if |actions[pos..]| > 0 && actions[pos] == existing.actions[i] {
          pos := pos + 1;
        } else {
          break;
        }
      }
      CommonPrefixUnique(actions, existing.actions, pos);
    }

    method MessageFrom(pos: nat) returns (um: UserMessage)
      requires pos <= |actions|
      ensures um == Message(actions[pos..])
    {
      um := [];
      for j := pos to |actions|
        invariant um == Message(actions[pos..j])
      {
        var ue := actions[j];
        assert actions[pos..j + 1][..j - pos] == actions[pos..j];
        match ue {
          case UserByte(chs) =>
            var idx := |um| - 1;
            if |um| > 0 && um[idx].Keystroke? {
              um := um[idx := Keystroke(um[idx].keys + chs)];
            } else {
              um := [];
              um := um + [Keystroke(chs)];
            }
          case Resize(w, h) =>
            um := um + [ResizeMessage(Int32(w), Int32(h))];
        }
      }
      assert actions[pos..|actions|] == actions[pos..];
    }

    /** Each grapheme becomes an event of its own. */
    method AppendKeys(pieces: seq<string>)
      modifies this
      ensures actions == old(actions) + KeyEvents(pieces)
    {
      ghost var was := actions;
      for k := 0 to |pieces|
        invariant actions == was + KeyEvents(pieces)[..k]
      {
        actions := actions + [UserByte(pieces[k])];
      }
    }

    method ApplyString(input: UserMessage, split: string -> seq<string>)
      modifies this
      ensures actions == old(actions) + Rebuild(input, split)
    {
      for i := 0 to |input|
        invariant actions + Rebuild(input[i..], split) == old(actions) + Rebuild(input, split)
      {
        assert input[i..][0] == input[i] && input[i..][1..] == input[i + 1..];
        match input[i] {
          case Keystroke(keys) =>
            var pieces := split(keys);
            AppendKeys(pieces);
          case ResizeMessage(w, h) =>
            actions := actions + [Resize(w, h)];
        }
      }
    }

    method Clone() returns (clone: UserStream)
      ensures fresh(clone) && clone.actions == actions
    {
      clone := new UserStream();
      clone.actions := actions;
    }
  }
}
