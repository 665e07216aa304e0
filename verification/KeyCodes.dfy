/** What terminal input means: the byte sequences of each key, text and paste, and that they decode
    back. crates/tea-agent/src/terminal.rs; UTF-8 as in section 3 of RFC 3629.

    The spellings are written down here from the terminal's side, without the decoder's tables. */
module KeyCodes {
  import opened Wrappers
  import opened Utf8
  import opened InputDecoder
  import opened Chunking

  // ----- UTF-8 --------------------------------------------------------------------------------

  predicate IsScalar(c: int) {
    0 <= c < 0xD800 || 0xE000 <= c <= 0x10FFFF
  }

  /** The table of section 3 of RFC 3629. */
  function EncodeScalar(c: int): (b: seq<byte>)
    requires IsScalar(c)
    ensures 1 <= |b| <= 4
  {
    if c < 0x80 then [c]
    else if c < 0x800 then [0xC0 + c / 0x40, 0x80 + c % 0x40]
    else if c < 0x10000 then [0xE0 + c / 0x1000, 0x80 + c / 0x40 % 0x40, 0x80 + c % 0x40]
    else [0xF0 + c / 0x40000, 0x80 + c / 0x1000 % 0x40, 0x80 + c / 0x40 % 0x40, 0x80 + c % 0x40]
  }

  lemma EncodedFront(c: int)
    requires IsScalar(c)
    ensures First(EncodeScalar(c)) == Scalar(|EncodeScalar(c)|)
  {
  }

  lemma EncodedValue(c: int)
    requires IsScalar(c)
    ensures First(EncodeScalar(c)).Scalar? && CodePoint(EncodeScalar(c)) == c
  {
    EncodedFront(c);
    Sextets(c);
  }

  lemma Sextets(c: int)
    requires c >= 0
    ensures c == c / 0x40 * 0x40 + c % 0x40
    ensures c / 0x40 == c / 0x1000 * 0x40 + c / 0x40 % 0x40
    ensures c / 0x1000 == c / 0x40000 * 0x40 + c / 0x1000 % 0x40
  {
    assert c / 0x40 / 0x40 == c / 0x1000;
    assert c / 0x1000 / 0x40 == c / 0x40000;
  }

  /** Encoding and decoding one scalar. */
  lemma ScalarRoundTrip(c: int, rest: seq<byte>)
    requires IsScalar(c)
    ensures var b := EncodeScalar(c) + rest;
            First(b) == Scalar(|EncodeScalar(c)|) && CodePoint(b) == c && b[|EncodeScalar(c)|..] == rest
  {
    EncodedFront(c);
    EncodedValue(c);
    FirstIsStable(EncodeScalar(c), rest);
  }

  /** Nothing else decodes: a scalar at the front is the encoding of its value. */
  lemma ScalarIsEncoded(s: seq<byte>)
    requires s != [] && First(s).Scalar?
    ensures IsScalar(CodePoint(s)) && EncodeScalar(CodePoint(s)) == s[..First(s).len]
  {
    var n := First(s).len;
    if n == 1 {
    } else if n == 2 {
      TwoBytes(s[0] - 0xC0, s[1] - 0x80);
    } else if n == 3 {
      ThreeBytes(s[0] - 0xE0, s[1] - 0x80, s[2] - 0x80);
    } else {
      FourBytes(s[0] - 0xF0, s[1] - 0x80, s[2] - 0x80, s[3] - 0x80);
    }
  }

  lemma TwoBytes(a: int, x: int)
    requires 2 <= a < 0x20 && 0 <= x < 0x40
    ensures var c := a * 0x40 + x; 0x80 <= c < 0x800 && c / 0x40 == a && c % 0x40 == x
  {
  }

  lemma ThreeBytes(a: int, x: int, y: int)
    requires 0 <= a < 0x10 && 0 <= x < 0x40 && 0 <= y < 0x40
    requires (a == 0 ==> x >= 0x20) && (a == 0xD ==> x < 0x20)
    ensures var c := a * 0x1000 + x * 0x40 + y;
            0x800 <= c < 0x10000 && IsScalar(c) && c / 0x1000 == a && c / 0x40 % 0x40 == x && c % 0x40 == y
  {
    var c := a * 0x1000 + x * 0x40 + y;
    assert c / 0x40 == a * 0x40 + x;
  }

  lemma FourBytes(a: int, x: int, y: int, z: int)
    requires 0 <= a < 5 && 0 <= x < 0x40 && 0 <= y < 0x40 && 0 <= z < 0x40
    requires (a == 0 ==> x >= 0x10) && (a == 4 ==> x < 0x10)
    ensures var c := a * 0x40000 + x * 0x1000 + y * 0x40 + z;
            0x10000 <= c <= 0x10FFFF && c / 0x40000 == a && c / 0x1000 % 0x40 == x && c / 0x40 % 0x40 == y &&
            c % 0x40 == z
  {
    var c := a * 0x40000 + x * 0x1000 + y * 0x40 + z;
    assert c / 0x40 == a * 0x1000 + x * 0x40 + y;
    assert c / 0x1000 == a * 0x40 + x;
  }

  // ----- Spellings ----------------------------------------------------------------------------

  function Csi(final: char): seq<byte>
    requires final < 128 as char
  {
    [0x1B, 0x5B, final as int]
  }

  function Tilde(digit: char): seq<byte>
    requires digit < 128 as char
  {
    [0x1B, 0x5B, digit as int, 0x7E]
  }

  function Ss3(final: char): seq<byte>
    requires final < 128 as char
  {
    [0x1B, 0x4F, final as int]
  }

  /** Cursor and editing keys. */
  predicate SpellsNamed(b: seq<byte>, e: Event) {
    || (e == Key(Up, Plain) && (b == Csi('A') || b == Ss3('A')))
    || (e == Key(Down, Plain) && (b == Csi('B') || b == Ss3('B')))
    || (e == Key(Right, Plain) && (b == Csi('C') || b == Ss3('C')))
    || (e == Key(Left, Plain) && (b == Csi('D') || b == Ss3('D')))
    || (e == Key(Home, Plain) && (b == Csi('H') || b == Tilde('1')))
    || (e == Key(End, Plain) && (b == Csi('F') || b == Tilde('4')))
    || (e == Key(Delete, Plain) && b == Tilde('3'))
    || (e == Key(PageUp, Plain) && b == Tilde('5'))
    || (e == Key(PageDown, Plain) && b == Tilde('6'))
    || (e == Key(Tab, Shift) && b == Csi('Z'))
  }

  /** Single control bytes: Enter is CR or LF, Backspace DEL or BS, and Control with a letter is the
      letter's position in the alphabet. */
  predicate SpellsControl(b: seq<byte>, e: Event) {
    || (e == Key(Enter, Plain) && (b == [13] || b == [10]))
    || (e == Key(Tab, Plain) && b == [9])
    || (e == Key(Backspace, Plain) && (b == [127] || b == [8]))
    || (e == Key(Char('@' as int), Control) && b == [0])
    || (exists k :: 1 <= k <= 26 && k != 8 && k != 9 && k != 10 && k != 13 &&
                    b == [k] && e == Key(Char('a' as int + (k - 1)), Control))
  }

  /** Escape before a printable byte, other than the two that start sequences. */
  predicate SpellsAlt(b: seq<byte>, e: Event) {
    |b| == 2 && b[0] == 0x1B && b[1] >= 0x20 && b[1] != 0x5B && b[1] != 0x4F && e == Key(Char(b[1]), Alt)
  }

  /** A character, in UTF-8. */
  predicate SpellsText(b: seq<byte>, e: Event) {
    e.Key? && e.modifier == Plain && e.code.Char? &&
    var c := e.code.codePoint;
    IsScalar(c) && c > 0x1B && c != 0x7F && b == EncodeScalar(c)
  }

  predicate Spells(b: seq<byte>, e: Event) {
    SpellsNamed(b, e) || SpellsControl(b, e) || SpellsAlt(b, e) || SpellsText(b, e)
  }

  /** Text that does not itself contain the terminator, between introducer and terminator. */
  predicate SpellsPaste(b: seq<byte>, e: Event) {
    e.Paste? && b == [0x1B, 0x5B, 0x32, 0x30, 0x30, 0x7E] + e.text + [0x1B, 0x5B, 0x32, 0x30, 0x31, 0x7E] &&
    forall k :: 0 <= k <= |e.text| ==> !([0x1B, 0x5B, 0x32, 0x30, 0x31, 0x7E] <= e.text[k..])
  }

  // ----- Spellings decode ---------------------------------------------------------------------

  lemma NamedCandidate(b: seq<byte>, e: Event) returns (i: nat)
    requires SpellsNamed(b, e)
    ensures 0 < i < COUNT && CANDIDATES[i] == b && KeyFor(i) == e
  {
    i := IndexOf(b[1], b[2]);
  }

  lemma CandidateDecodes(i: nat, rest: seq<byte>, deadline: Option<int>, now: int)
    requires 0 < i < COUNT
    ensures Next(State(CANDIDATES[i] + rest, false, deadline), now) == Result(Some(KeyFor(i)), State(rest, false, None))
  {
    CandidateShape(i);
    MatchIsUnique(CANDIDATES[i] + rest, i);
    SplitAt(CANDIDATES[i], rest, |CANDIDATES[i]|);
  }

  lemma ControlDecodes(b: seq<byte>, e: Event, rest: seq<byte>, deadline: Option<int>, now: int)
    requires SpellsControl(b, e)
    ensures Next(State(b + rest, false, deadline), now) == Result(Some(e), State(rest, false, None))
  {
    SplitAt(b, rest, 1);
  }

  lemma AltMatchesNothing(b: seq<byte>, rest: seq<byte>)
    requires |b| == 2 && b[1] != 0x5B && b[1] != 0x4F
    ensures MatchFrom(b + rest, 0).None? && !IsPartial(b + rest)
  {
    forall k | 0 <= k < COUNT
      ensures !(CANDIDATES[k] <= b + rest) && !(b + rest < CANDIDATES[k])
    {
      CandidateShape(k);
    }
  }

  lemma AltDecodes(b: seq<byte>, e: Event, rest: seq<byte>, deadline: Option<int>, now: int)
    requires SpellsAlt(b, e)
    ensures Next(State(b + rest, false, deadline), now) == Result(Some(e), State(rest, false, deadline))
  {
    AltMatchesNothing(b, rest);
    SplitAt(b, rest, 2);
  }

  lemma TextDecodes(b: seq<byte>, e: Event, rest: seq<byte>, deadline: Option<int>, now: int)
    requires SpellsText(b, e)
    ensures Next(State(b + rest, false, deadline), now) == Result(Some(e), State(rest, false, None))
  {
    ScalarRoundTrip(e.code.codePoint, rest);
    SplitAt(b, rest, 1);
  }

  /** Every spelling of a key decodes to that key, whatever follows it and whatever the timer says,
      and leaves what follows. */
  lemma KeyDecodes(b: seq<byte>, e: Event, rest: seq<byte>, deadline: Option<int>, now: int)
    requires Spells(b, e)
    ensures var r := Next(State(b + rest, false, deadline), now);
            r.event == Some(e) && r.next.bytes == rest && !r.next.paste
  {
    if SpellsNamed(b, e) {
      var i := NamedCandidate(b, e);
      CandidateDecodes(i, rest, deadline, now);
    } else if SpellsControl(b, e) {
      ControlDecodes(b, e, rest, deadline, now);
    } else if SpellsAlt(b, e) {
      AltDecodes(b, e, rest, deadline, now);
    } else {
      TextDecodes(b, e, rest, deadline, now);
    }
  }

  // ----- Pastes -------------------------------------------------------------------------------

  lemma PasteEnds(text: seq<byte>, rest: seq<byte>, k: nat)
    requires k < |text| && !(PASTE_END <= text[k..])
    ensures !EndsAt(text + PASTE_END + rest, k)
  {
    var tail := (text + PASTE_END + rest)[k..];
    if k + 6 <= |text| {
      assert tail[..6] == text[k..][..6];
    } else {
      assert tail[|text| - k] == PASTE_END[0];
    }
  }

  lemma PasteIsFound(text: seq<byte>, rest: seq<byte>)
    requires forall k :: 0 <= k <= |text| ==> !(PASTE_END <= text[k..])
    ensures FindEnd(text + PASTE_END + rest, 0) == Some(|text|)
  {
    var all := text + PASTE_END + rest;
    assert all[|text|..] == PASTE_END + rest;
    forall k | 0 <= k < |text|
      ensures !EndsAt(all, k)
    {
      PasteEnds(text, rest, k);
    }
    FirstIsFindEnd(all, 0, |text|);
  }

  lemma PasteParts(text: seq<byte>, rest: seq<byte>)
    ensures (PASTE_START + text + PASTE_END + rest)[6..] == text + PASTE_END + rest
    ensures (text + PASTE_END + rest)[..|text|] == text && (text + PASTE_END + rest)[|text| + 6..] == rest
  {
    assert PASTE_START + text + PASTE_END + rest == PASTE_START + (text + PASTE_END + rest);
  }

  /** A paste is delivered as it was sent. */
  lemma PasteDecodes(b: seq<byte>, e: Event, rest: seq<byte>)
    requires SpellsPaste(b, e)
    ensures Step(Mode(b + rest, false)) == Outcome(Some(e), Mode(rest, false))
  {
    var m := Mode(b + rest, false);
    assert m.bytes == PASTE_START + e.text + PASTE_END + rest;
    assert PASTE_START <= m.bytes;
    PasteParts(e.text, rest);
    PasteIsFound(e.text, rest);
    StepOnPaste(m);
  }

  // ----- Whole streams ------------------------------------------------------------------------

  /** `bs` spells the events, one after another. */
  predicate SpellsAll(bs: seq<seq<byte>>, es: seq<Event>) {
    |bs| == |es| && forall i :: 0 <= i < |bs| ==> Spells(bs[i], es[i]) || SpellsPaste(bs[i], es[i])
  }

  lemma OneDecodes(b: seq<byte>, e: Event, rest: seq<byte>)
    requires Spells(b, e) || SpellsPaste(b, e)
    ensures Step(Mode(b + rest, false)) == Outcome(Some(e), Mode(rest, false))
  {
    if Spells(b, e) {
      KeyDecodes(b, e, rest, None, 0);
    } else {
      PasteDecodes(b, e, rest);
    }
  }

  /** Whatever is typed and pasted is decoded as it was meant, and nothing is left over. */
  lemma {:induction false} StreamDecodes(bs: seq<seq<byte>>, es: seq<Event>)
    requires SpellsAll(bs, es)
    ensures Drain(Mode(Flatten(bs), false)) == Drained(es, Mode([], false))
    decreases |bs|
  {
    if bs == [] {
      assert Step(Mode([], false)) == Outcome(None, Mode([], false));
    } else {
      OneDecodes(bs[0], es[0], Flatten(bs[1..]));
      StreamDecodes(bs[1..], es[1..]);
      DrainUnfolds(Mode(Flatten(bs), false), es[0], Mode(Flatten(bs[1..]), false));
      assert es == [es[0]] + es[1..];
    }
  }

  // ----- Everything else ----------------------------------------------------------------------

  /** The bytes could still become a character. */
  ghost predicate StartsScalar(s: seq<byte>) {
    exists c :: IsScalar(c) && s < EncodeScalar(c)
  }

  ghost predicate HasScalar(s: seq<byte>) {
    exists c :: IsScalar(c) && EncodeScalar(c) <= s
  }

  lemma ScalarInFront(s: seq<byte>)
    requires s != []
    ensures HasScalar(s) <==> First(s).Scalar?
  {
    if First(s).Scalar? {
      ScalarIsEncoded(s);
      assert EncodeScalar(CodePoint(s)) <= s;
    }
    if c :| IsScalar(c) && EncodeScalar(c) <= s {
      var n := |EncodeScalar(c)|;
      assert s == EncodeScalar(c) + s[n..];
      ScalarRoundTrip(c, s[n..]);
    }
  }

  /** Some completion of a truncated front. */
  function Completed(s: seq<byte>): seq<byte>
    requires s != []
  {
    var second := if s[0] == 0xE0 then 0xA0 else if s[0] == 0xF0 then 0x90 else 0x80;
    if |s| == 1 then [s[0], second, 0x80, 0x80]
    else if |s| == 2 then s + [0x80, 0x80]
    else s + [0x80]
  }

  lemma TruncatedStarts(s: seq<byte>)
    requires s != [] && First(s).Truncated?
    ensures StartsScalar(s)
  {
    var t := Completed(s);
    assert First(t).Scalar? && First(t).len > |s| && s <= t;
    ScalarIsEncoded(t);
    assert s < EncodeScalar(CodePoint(t));
  }

  lemma StartsIsTruncated(s: seq<byte>, c: int)
    requires s != [] && IsScalar(c) && s < EncodeScalar(c)
    ensures First(s).Truncated?
  {
    var e := EncodeScalar(c);
    assert e == s + e[|s|..];
    EncodedFront(c);
    if !First(s).Truncated? {
      FirstIsStable(s, e[|s|..]);
    }
  }

  /** A byte above ASCII: its character if it is all there, nothing while it may still come, and
      otherwise the replacement character for that byte alone. */
  lemma HighBytesExactly(s: seq<byte>, deadline: Option<int>, now: int)
    requires s != [] && s[0] >= 0x80
    ensures var r := Next(State(s, false, deadline), now);
            if HasScalar(s) then r.event.Some? && SpellsText(s[..|s| - |r.next.bytes|], r.event.value)
            else if StartsScalar(s) then r.event == None && r.next.bytes == s
            else r.event == Some(Key(Char(0xFFFD), Plain)) && r.next.bytes == s[1..]
  {
    ScalarInFront(s);
    if First(s).Scalar? {
      ScalarIsEncoded(s);
      assert |s| - |s[First(s).len..]| == First(s).len;
    } else if First(s).Truncated? {
      TruncatedStarts(s);
    } else {
      if c :| IsScalar(c) && s < EncodeScalar(c) {
        StartsIsTruncated(s, c);
      }
    }
  }

  /** An escape before a control byte is the Escape key, at once. */
  lemma EscapeBeforeControl(b: byte, rest: seq<byte>, deadline: Option<int>, now: int)
    requires b < 0x20
    ensures Next(State([ESC, b] + rest, false, deadline), now) ==
            Result(Some(Key(Esc, Plain)), State([b] + rest, false, None))
  {
    AltMatchesNothing([ESC, b], rest);
    assert ([ESC, b] + rest)[1..] == [b] + rest;
  }
}
