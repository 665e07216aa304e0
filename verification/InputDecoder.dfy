/** The incremental terminal-input decoder of crates/tea-agent/src/terminal.rs.

    `Next` is one call of `next_event` on a value; `Decoder` is the object. */
module InputDecoder {
  import opened Wrappers
  import opened Utf8

  datatype KeyCode =
    | Esc | Enter | Tab | Backspace | Char(codePoint: int)
    | Up | Down | Right | Left | Home | End | Delete | PageUp | PageDown

  datatype Modifier = Plain | Alt | Control | Shift

  datatype Event = Key(code: KeyCode, modifier: Modifier) | Paste(text: seq<byte>)

  const ESC: byte := 0x1b

  const PASTE_START: seq<byte> := [ESC, '[' as int, '2' as int, '0' as int, '0' as int, '~' as int]
  const PASTE_END: seq<byte> := [ESC, '[' as int, '2' as int, '0' as int, '1' as int, '~' as int]

  /** The recognised escape sequences, the bracketed-paste introducer first. */
  const CANDIDATES: seq<seq<byte>> := [
    PASTE_START,
    [ESC, '[' as int, 'A' as int], [ESC, '[' as int, 'B' as int], [ESC, '[' as int, 'C' as int],
    [ESC, '[' as int, 'D' as int], [ESC, '[' as int, 'H' as int], [ESC, '[' as int, 'F' as int],
    [ESC, '[' as int, '1' as int, '~' as int], [ESC, '[' as int, '4' as int, '~' as int],
    [ESC, '[' as int, '3' as int, '~' as int], [ESC, '[' as int, '5' as int, '~' as int],
    [ESC, '[' as int, '6' as int, '~' as int], [ESC, '[' as int, 'Z' as int],
    [ESC, 'O' as int, 'A' as int], [ESC, 'O' as int, 'B' as int], [ESC, 'O' as int, 'C' as int],
    [ESC, 'O' as int, 'D' as int]]

  const COUNT: nat := 17

  /** The key for each candidate after the first. */
  function KeyFor(i: nat): Event {
    match i
    case 1 => Key(Up, Plain)
    case 2 => Key(Down, Plain)
    case 3 => Key(Right, Plain)
    case 4 => Key(Left, Plain)
    case 5 => Key(Home, Plain)
    case 6 => Key(End, Plain)
    case 7 => Key(Home, Plain)
    case 8 => Key(End, Plain)
    case 9 => Key(Delete, Plain)
    case 10 => Key(PageUp, Plain)
    case 11 => Key(PageDown, Plain)
    case 12 => Key(Tab, Shift)
    case 13 => Key(Up, Plain)
    case 14 => Key(Down, Plain)
    case 15 => Key(Right, Plain)
    case _ => Key(Left, Plain)
  }

  // ----- The decoder --------------------------------------------------------------------------

  /** `deadline` is in milliseconds. */
  datatype State = State(bytes: seq<byte>, paste: bool, deadline: Option<int>)

  datatype Result = Result(event: Option<Event>, next: State)

  /** The first candidate, from index `i`, that `bytes` starts with. */
  function MatchFrom(bytes: seq<byte>, i: nat): (m: Option<nat>)
    requires i <= COUNT
    ensures m.Some? ==> i <= m.value < COUNT && CANDIDATES[m.value] <= bytes
    ensures m.None? ==> forall k :: i <= k < COUNT ==> !(CANDIDATES[k] <= bytes)
    decreases COUNT - i
  {
    if i == COUNT then None
    else if CANDIDATES[i] <= bytes then Some(i)
    else MatchFrom(bytes, i + 1)
  }

  /** `escape_sequence_prefix`; true of the empty buffer. */
  predicate IsPartial(bytes: seq<byte>) {
    exists k :: 0 <= k < COUNT && bytes < CANDIDATES[k]
  }

  /** The first position, from `i`, where the buffer holds the paste terminator. */
  function FindEnd(bytes: seq<byte>, i: nat): (p: Option<nat>)
    requires i <= |bytes|
    ensures p.Some? ==> i <= p.value <= |bytes| && PASTE_END <= bytes[p.value..]
    decreases |bytes| - i
  {
    if PASTE_END <= bytes[i..] then Some(i)
    else if i == |bytes| then None
    else FindEnd(bytes, i + 1)
  }

  /** The deadline in force once one is wanted: the one already set, else 30 ms from now. */
  function Deadline(d: State, now: int): int {
    if d.deadline.Some? then d.deadline.value else now + 30
  }

  function PasteStep(d: State): Result {
    match FindEnd(d.bytes, 0)
    case Some(end) =>
      Result(Some(Paste(d.bytes[..end])), d.(bytes := d.bytes[end + |PASTE_END|..], paste := false))
    case None => Result(None, d)
  }

  /** What `next_event` does once `escape_sequence` has returned nothing. */
  function Unrecognised(d: State, now: int): Result {
    if IsPartial(d.bytes) && now < Deadline(d, now)
    then Result(None, d.(deadline := Some(Deadline(d, now))))
    else
      var e := if IsPartial(d.bytes) then d.(deadline := Some(Deadline(d, now))) else d;
      if |d.bytes| >= 2 && d.bytes[1] >= 0x20 && d.bytes[1] != '[' as int && d.bytes[1] != 'O' as int
      then Result(Some(Key(Char(d.bytes[1]), Alt)), e.(bytes := d.bytes[2..]))
      else Result(Some(Key(Esc, Plain)),
                  e.(bytes := if d.bytes == [] then [] else d.bytes[1..], deadline := None))
  }

  function EscapeStep(d: State, now: int): Result
    requires d.bytes != []
  {
    if |d.bytes| == 1 then
      if now < Deadline(d, now) then Result(None, d.(deadline := Some(Deadline(d, now))))
      else Result(Some(Key(Esc, Plain)), d.(bytes := [], deadline := None))
    else
      match MatchFrom(d.bytes, 0)
      case None => Unrecognised(d, now)
      case Some(i) =>
        var rest := d.bytes[|CANDIDATES[i]|..];
        if i > 0 then Result(Some(KeyFor(i)), d.(bytes := rest, deadline := None))
        else
          var r := PasteStep(d.(bytes := rest, paste := true));
          if r.event.Some? then r.(next := r.next.(deadline := None))
          else Unrecognised(r.next, now)
  }

  function PlainStep(d: State): Result
    requires d.bytes != []
  {
    var b, e := d.bytes[0], d.(bytes := d.bytes[1..], deadline := None);
    if b == 0x0D || b == 0x0A then Result(Some(Key(Enter, Plain)), e)
    else if b == 0x09 then Result(Some(Key(Tab, Plain)), e)
    else if b == 0x7F || b == 0x08 then Result(Some(Key(Backspace, Plain)), e)
    else if b <= 0x1A then
      Result(Some(Key(Char(if b == 0 then '@' as int else b + 'a' as int - 1), Control)), e)
    else if b < 0x80 then Result(Some(Key(Char(b), Plain)), e)
    else match First(d.bytes)
         case Scalar(n) =>
           Result(Some(Key(Char(CodePoint(d.bytes)), Plain)), e.(bytes := d.bytes[n..]))
         case Truncated => Result(None, d.(deadline := None))
         case Malformed => Result(Some(Key(Char(0xFFFD), Plain)), e)
  }

  function Next(d: State, now: int): Result {
    if d.paste then PasteStep(d)
    else if d.bytes == [] then Result(None, d)
    else if d.bytes[0] == ESC then EscapeStep(d, now)
    else PlainStep(d)
  }

  /** Whatever it returns, a call only removes bytes from the front of the buffer. */
  lemma NextDropsFront(d: State, now: int) returns (n: nat)
    ensures n <= |d.bytes| && Next(d, now).next.bytes == d.bytes[n..]
  {
    if d.paste {
      n := PasteDropsFront(d);
    } else if d.bytes != [] && d.bytes[0] == ESC {
      n := EscapeDropsFront(d, now);
    } else {
      n := |d.bytes| - |Next(d, now).next.bytes|;
    }
  }

  lemma PasteDropsFront(d: State) returns (n: nat)
    ensures n <= |d.bytes| && PasteStep(d).next.bytes == d.bytes[n..]
  {
    n := |d.bytes| - |PasteStep(d).next.bytes|;
  }

  lemma UnrecognisedDropsFront(d: State, now: int) returns (n: nat)
    ensures n <= |d.bytes| && Unrecognised(d, now).next.bytes == d.bytes[n..]
  {
    n := |d.bytes| - |Unrecognised(d, now).next.bytes|;
  }

  lemma EscapeDropsFront(d: State, now: int) returns (n: nat)
    requires d.bytes != []
    ensures n <= |d.bytes| && EscapeStep(d, now).next.bytes == d.bytes[n..]
  {
    if |d.bytes| == 1 {
      n := if EscapeStep(d, now).event.Some? then 1 else 0;
    } else {
      match MatchFrom(d.bytes, 0)
      case None =>
        n := UnrecognisedDropsFront(d, now);
      case Some(i) =>
        if i == 0 {
          n := IntroducerDropsFront(d, now);
        } else {
          n := |CANDIDATES[i]|;
        }
    }
  }

  lemma IntroducerDropsFront(d: State, now: int) returns (n: nat)
    requires |d.bytes| > 1 && MatchFrom(d.bytes, 0) == Some(0)
    ensures n <= |d.bytes| && EscapeStep(d, now).next.bytes == d.bytes[n..]
  {
    var k := |PASTE_START|;
    var p := d.(bytes := d.bytes[k..], paste := true);
    if PasteStep(p).event.Some? {
      n := PasteDropsFront(p);
    } else {
      n := UnrecognisedDropsFront(p, now);
    }
    DropTwice(d.bytes, k);
    n := k + n;
  }

  lemma DropTwice(b: seq<byte>, k: nat)
    requires k <= |b|
    ensures forall m :: 0 <= m <= |b| - k ==> b[k..][m..] == b[k + m..]
  {
  }

  /** The object itself: a byte queue, a paste flag and an escape deadline. */
  class Decoder {
    var bytes: seq<byte>
    var paste: bool
    var escapeDeadline: Option<int>

    function View(): State
      reads this
    {
      State(bytes, paste, escapeDeadline)
    }

    constructor ()
      ensures View() == State([], false, None)
    {
      bytes, paste, escapeDeadline := [], false, None;
    }

    method Push(more: seq<byte>)
      modifies this
      ensures View() == old(View()).(bytes := old(bytes) + more)
    {
      bytes := bytes + more;
    }

    method Take(count: nat) returns (taken: seq<byte>)
      requires count <= |bytes|
      modifies this
      ensures taken + bytes == old(bytes)
      ensures View() == old(View()).(bytes := old(bytes)[count..])
    {
      taken := bytes[..count];
      bytes := bytes[count..];
    }

    method NextEvent(now: int) returns (event: Option<Event>)
      modifies this
      ensures Result(event, View()) == Next(old(View()), now)
    {
      if paste {
        event := NextPaste();
        return;
      }
      if bytes == [] {
        return None;
      }
      var first := bytes[0];
      if first == ESC {
        if |bytes| == 1 {
          var deadline := if escapeDeadline.Some? then escapeDeadline.value else now + 30;
          escapeDeadline := Some(deadline);
          if now < deadline {
            return None;
          }
          bytes, escapeDeadline := bytes[1..], None;
          return Some(Key(Esc, Plain));
        }
        event := EscapeSequence();
        if event.Some? {
          escapeDeadline := None;
          return;
        }
        if IsPartial(bytes) {
          var deadline := if escapeDeadline.Some? then escapeDeadline.value else now + 30;
          escapeDeadline := Some(deadline);
          if now < deadline {
            return None;
          }
        }
        if |bytes| >= 2 && bytes[1] >= 0x20 && bytes[1] != '[' as int && bytes[1] != 'O' as int {
          var byte := bytes[1];
          bytes := bytes[2..];
          return Some(Key(Char(byte), Alt));
        }
        if bytes != [] {
          bytes := bytes[1..];
        }
        escapeDeadline := None;
        return Some(Key(Esc, Plain));
      }
      event := NextPlain();
    }

    method NextPaste() returns (event: Option<Event>)
      modifies this
      ensures Result(event, View()) == PasteStep(old(View()))
    {
      var end := FindEnd(bytes, 0);
      if end.None? {
        return None;
      }
      var text := Take(end.value);
      var _ := Take(|PASTE_END|);
      paste := false;
      event := Some(Paste(text));
    }

    /** On a paste introducer the decoder enters paste mode and looks for the terminator at once;
        finding none it returns nothing, with the mode already changed. */
    method EscapeSequence() returns (event: Option<Event>)
      requires !paste
      modifies this
      ensures match MatchFrom(old(bytes), 0)
              case None => event == None && View() == old(View())
              case Some(i) =>
                var d := old(View()).(bytes := old(bytes)[|CANDIDATES[i]|..]);
                if i > 0 then event == Some(KeyFor(i)) && View() == d
                else Result(event, View()) == PasteStep(d.(paste := true))
    {
      var m := MatchFrom(bytes, 0);
      match m {
        case None => event := None;
        case Some(i) =>
          var _ := Take(|CANDIDATES[i]|);
          if i == 0 {
            paste := true;
            event := NextPaste();
          } else {
            event := Some(KeyFor(i));
          }
      }
    }

    method NextPlain() returns (event: Option<Event>)
      requires bytes != []
      modifies this
      ensures Result(event, View()) == PlainStep(old(View()))
    {
      var first := bytes[0];
      escapeDeadline := None;
      if first == 0x0D || first == 0x0A {
        bytes, event := bytes[1..], Some(Key(Enter, Plain));
      } else if first == 0x09 {
        bytes, event := bytes[1..], Some(Key(Tab, Plain));
      } else if first == 0x7F || first == 0x08 {
        bytes, event := bytes[1..], Some(Key(Backspace, Plain));
      } else if first <= 0x1A {
        bytes := bytes[1..];
        event := Some(Key(Char(if first == 0 then '@' as int else first + 'a' as int - 1), Control));
      } else if first < 0x80 {
        bytes, event := bytes[1..], Some(Key(Char(first), Plain));
      } else {
        match First(bytes) {
          case Scalar(n) => event := Some(Key(Char(CodePoint(bytes)), Plain)); bytes := bytes[n..];
          case Truncated => event := None;
          case Malformed => event := Some(Key(Char(0xFFFD), Plain)); bytes := bytes[1..];
        }
      }
    }
  }
}
