/** When the chunking of terminal input does not matter: crates/tea-agent/src/terminal.rs.

    All calls happen at one instant, so an escape deadline never passes between chunks. */
module Chunking {
  import opened Wrappers
  import opened Utf8
  import opened InputDecoder

  /** A decoder without its timer. */
  datatype Mode = Mode(bytes: seq<byte>, paste: bool) {
    function Plus(more: seq<byte>): Mode {
      Mode(bytes + more, paste)
    }
  }

  datatype Outcome = Outcome(event: Option<Event>, next: Mode)

  function Step(s: Mode): Outcome {
    var r := Next(State(s.bytes, s.paste, None), 0);
    Outcome(r.event, Mode(r.next.bytes, r.next.paste))
  }

  /** The timer is not pending, or it is pending and has not expired. */
  predicate Unexpired(d: State, now: int) {
    d.deadline.None? || now < d.deadline.value
  }

  /** Two results that agree on everything but the timer, which is unexpired in the first. */
  predicate Agree(r: Result, now: int, q: Result) {
    && r.event == q.event && r.next.bytes == q.next.bytes && r.next.paste == q.next.paste
    && Unexpired(r.next, now)
  }

  lemma UnrecognisedAtOneInstant(d: State, now: int)
    requires Unexpired(d, now)
    ensures Agree(Unrecognised(d, now), now, Unrecognised(State(d.bytes, d.paste, None), 0))
  {
  }

  lemma EscapeAtOneInstant(d: State, now: int)
    requires Unexpired(d, now) && d.bytes != []
    ensures Agree(EscapeStep(d, now), now, EscapeStep(State(d.bytes, d.paste, None), 0))
  {
    if |d.bytes| > 1 {
      match MatchFrom(d.bytes, 0)
      case None => UnrecognisedAtOneInstant(d, now);
      case Some(i) => UnrecognisedAtOneInstant(d.(bytes := d.bytes[|CANDIDATES[i]|..], paste := true), now);
    }
  }

  /** At one instant the timed decoder behaves as `Step`, and its timer stays unexpired. */
  lemma AtOneInstant(d: State, now: int)
    requires Unexpired(d, now)
    ensures var r := Next(d, now);
            && Outcome(r.event, Mode(r.next.bytes, r.next.paste)) == Step(Mode(d.bytes, d.paste))
            && Unexpired(r.next, now)
  {
    if !d.paste && d.bytes != [] && d.bytes[0] == ESC {
      EscapeAtOneInstant(d, now);
    }
  }

  // ----- The candidate table is prefix-free ---------------------------------------------------

  /** The second and third byte of a candidate determine it. */
  function IndexOf(b: byte, c: byte): nat {
    if b == 'O' as int then
      (if c == 'A' as int then 13 else if c == 'B' as int then 14 else if c == 'C' as int then 15
       else 16)
    else
      (if c == '2' as int then 0 else if c == 'A' as int then 1 else if c == 'B' as int then 2
       else if c == 'C' as int then 3 else if c == 'D' as int then 4 else if c == 'H' as int then 5
       else if c == 'F' as int then 6 else if c == '1' as int then 7 else if c == '4' as int then 8
       else if c == '3' as int then 9 else if c == '5' as int then 10
       else if c == '6' as int then 11 else 12)
  }

  lemma CandidateShape(i: nat)
    requires i < COUNT
    ensures |CANDIDATES[i]| >= 3 && CANDIDATES[i][0] == ESC
    ensures CANDIDATES[i][1] == '[' as int || CANDIDATES[i][1] == 'O' as int
    ensures IndexOf(CANDIDATES[i][1], CANDIDATES[i][2]) == i
  {
  }

  lemma MatchIsUnique(b: seq<byte>, i: nat)
    requires i < COUNT && CANDIDATES[i] <= b
    ensures MatchFrom(b, 0) == Some(i)
  {
    var m := MatchFrom(b, 0);
    CandidateShape(i);
    CandidateShape(m.value);
  }

  /** Bytes that neither start with a candidate nor start one keep that property. */
  lemma NoMatchIsStable(b: seq<byte>, c: seq<byte>)
    requires MatchFrom(b, 0).None? && !IsPartial(b)
    ensures MatchFrom(b + c, 0).None? && !IsPartial(b + c)
  {
    forall k | 0 <= k < COUNT
      ensures !(CANDIDATES[k] <= b + c) && !(b + c < CANDIDATES[k])
    {
      assert !(CANDIDATES[k] <= b) && !(b < CANDIDATES[k]);
      if CANDIDATES[k] <= b + c || b + c < CANDIDATES[k] {
        Comparable(CANDIDATES[k], b, c);
      }
    }
  }

  lemma Comparable(k: seq<byte>, b: seq<byte>, c: seq<byte>)
    requires k <= b + c || b + c < k
    ensures k <= b || b < k
  {
    if |k| <= |b| {
      assert (b + c)[..|k|] == b[..|k|];
    } else {
      assert (b + c)[..|b|] == b;
    }
  }

  lemma {:induction false} FindEndIsStable(b: seq<byte>, c: seq<byte>, i: nat)
    requires i <= |b| && FindEnd(b, i).Some?
    ensures FindEnd(b + c, i) == FindEnd(b, i)
    decreases |b| - i
  {
    assert (b + c)[i..] == b[i..] + c;
    if !(PASTE_END <= b[i..]) {
      FindEndIsStable(b, c, i + 1);
      NoEarlierEnd(b, c, i);
    }
  }

  /** With a terminator further on in `b`, the window at `i` lies inside `b`. */
  lemma NoEarlierEnd(b: seq<byte>, c: seq<byte>, i: nat)
    requires i < |b| && !(PASTE_END <= b[i..]) && FindEnd(b, i + 1).Some?
    ensures !(PASTE_END <= (b + c)[i..])
  {
    var p := FindEnd(b, i + 1).value;
    assert |b[p..]| >= |PASTE_END|;
    assert (b + c)[i..][..|PASTE_END|] == b[i..][..|PASTE_END|];
  }

  predicate EndsAt(b: seq<byte>, k: nat) {
    k <= |b| && PASTE_END <= b[k..]
  }

  lemma {:induction false} FindEndIsFirst(b: seq<byte>, i: nat)
    requires i <= |b| && FindEnd(b, i).Some?
    ensures EndsAt(b, FindEnd(b, i).value)
    ensures forall k :: i <= k < FindEnd(b, i).value ==> !EndsAt(b, k)
    decreases |b| - i
  {
    if EndsAt(b, i) {
    } else {
      FindEndIsFirst(b, i + 1);
    }
  }

  lemma {:induction false} FirstIsFindEnd(b: seq<byte>, i: nat, p: nat)
    requires i <= p <= |b| && EndsAt(b, p) && forall k :: i <= k < p ==> !EndsAt(b, k)
    ensures FindEnd(b, i) == Some(p)
    decreases p - i
  {
    if i == p {
    } else {
      assert !EndsAt(b, i);
      FirstIsFindEnd(b, i + 1, p);
    }
  }

  // ----- One step and later bytes -------------------------------------------------------------

  lemma SplitAt(b: seq<byte>, c: seq<byte>, n: nat)
    requires n <= |b|
    ensures (b + c)[..n] == b[..n] && (b + c)[n..] == b[n..] + c
  {
  }

  /** A paste introducer whose terminator has not arrived, behind which the decoder finds bytes it
      takes for keys: `escape_sequence` has switched to paste mode and returned nothing, and the
      caller goes on as if no sequence had been recognised. */
  predicate TornPaste(s: Mode) {
    && !s.paste && PASTE_START <= s.bytes
    && FindEnd(s.bytes[|PASTE_START|..], 0).None?
    && !IsPartial(s.bytes[|PASTE_START|..])
  }

  lemma StepOnPaste(s: Mode)
    requires !s.paste && PASTE_START <= s.bytes
    ensures var rest := s.bytes[|PASTE_START|..];
            match FindEnd(rest, 0)
            case Some(end) =>
              Step(s) == Outcome(Some(Paste(rest[..end])), Mode(rest[end + |PASTE_END|..], false))
            case None =>
              && (!TornPaste(s) ==> Step(s) == Outcome(None, Mode(rest, true)))
              && (TornPaste(s) ==> Step(s).event.Some? && Step(s).event.value.Key?
                                   && Step(s).next.paste && |Step(s).next.bytes| < |rest|)
  {
    CandidateShape(0);
    MatchIsUnique(s.bytes, 0);
  }

  lemma StepOnKey(s: Mode, i: nat)
    requires !s.paste && 0 < i < COUNT && CANDIDATES[i] <= s.bytes
    ensures Step(s) == Outcome(Some(KeyFor(i)), Mode(s.bytes[|CANDIDATES[i]|..], false))
  {
    CandidateShape(i);
    MatchIsUnique(s.bytes, i);
  }

  predicate IsAltByte(b: byte) {
    b >= 0x20 && b != '[' as int && b != 'O' as int
  }

  lemma StepOnOther(s: Mode)
    requires !s.paste && |s.bytes| >= 2 && s.bytes[0] == ESC && MatchFrom(s.bytes, 0).None?
    ensures if IsPartial(s.bytes) then Step(s) == Outcome(None, s)
            else if IsAltByte(s.bytes[1])
            then Step(s) == Outcome(Some(Key(Char(s.bytes[1]), Alt)), Mode(s.bytes[2..], false))
            else Step(s) == Outcome(Some(Key(Esc, Plain)), Mode(s.bytes[1..], false))
  {
  }

  lemma StepOnPasteMode(s: Mode)
    requires s.paste
    ensures match FindEnd(s.bytes, 0)
            case Some(end) =>
              Step(s) == Outcome(Some(Paste(s.bytes[..end])), Mode(s.bytes[end + |PASTE_END|..], false))
            case None => Step(s) == Outcome(None, s)
  {
  }

  lemma StepOnPlain(s: Mode, c: seq<byte>)
    requires !s.paste && s.bytes != [] && s.bytes[0] != ESC
    ensures Step(s).event.None? ==> Step(s).next == s
    ensures Step(s).event.Some? ==>
              Step(s.Plus(c)) == Outcome(Step(s).event, Step(s).next.Plus(c))
              && |Step(s).next.bytes| < |s.bytes|
  {
    SplitAt(s.bytes, c, 1);
    if s.bytes[0] >= 0x80 && !First(s.bytes).Truncated? {
      FirstIsStable(s.bytes, c);
      if First(s.bytes).Scalar? {
        var n := First(s.bytes).len;
        SplitAt(s.bytes, c, n);
      }
    }
  }

  /** Every event shortens the buffer. */
  lemma EventsConsume(s: Mode)
    ensures Step(s).event.Some? ==> |Step(s).next.bytes| < |s.bytes|
  {
    if s.paste {
      StepOnPasteMode(s);
    } else if s.bytes == [] || (|s.bytes| == 1 && s.bytes[0] == ESC) {
    } else if s.bytes[0] != ESC {
      StepOnPlain(s, []);
    } else {
      match MatchFrom(s.bytes, 0)
      case None => StepOnOther(s);
      case Some(i) => if i == 0 { StepOnPaste(s); } else { StepOnKey(s, i); }
    }
  }

  /** An event, once decided, does not depend on the bytes that follow, unless it came from a torn
      paste. */
  lemma EventsAreStable(s: Mode, c: seq<byte>)
    requires !TornPaste(s) && Step(s).event.Some?
    ensures Step(s.Plus(c)) == Outcome(Step(s).event, Step(s).next.Plus(c))
    ensures !TornPaste(s.Plus(c))
  {
    if s.paste {
      PasteModeIsStable(s, c);
    } else if s.bytes[0] != ESC {
      StepOnPlain(s, c);
    } else {
      match MatchFrom(s.bytes, 0)
      case None =>
        StepOnOther(s);
        OtherIsStable(s, c);
      case Some(i) =>
        if i == 0 {
          PasteIsStable(s, c);
        } else {
          KeyIsStable(s, c, i);
        }
    }
  }

  lemma PasteModeIsStable(s: Mode, c: seq<byte>)
    requires s.paste && Step(s).event.Some?
    ensures Step(s.Plus(c)) == Outcome(Step(s).event, Step(s).next.Plus(c))
  {
    StepOnPasteMode(s);
    StepOnPasteMode(s.Plus(c));
    var end := FindEnd(s.bytes, 0).value;
    FindEndIsStable(s.bytes, c, 0);
    SplitAt(s.bytes, c, end);
    SplitAt(s.bytes, c, end + |PASTE_END|);
  }

  lemma PasteIsStable(s: Mode, c: seq<byte>)
    requires !s.paste && PASTE_START <= s.bytes && !TornPaste(s) && Step(s).event.Some?
    ensures Step(s.Plus(c)) == Outcome(Step(s).event, Step(s).next.Plus(c))
    ensures !TornPaste(s.Plus(c))
  {
    var rest := s.bytes[|PASTE_START|..];
    StepOnPaste(s);
    StepOnPaste(s.Plus(c));
    var end := FindEnd(rest, 0).value;
    SplitAt(s.bytes, c, |PASTE_START|);
    FindEndIsStable(rest, c, 0);
    SplitAt(rest, c, end);
    SplitAt(rest, c, end + |PASTE_END|);
  }

  lemma KeyIsStable(s: Mode, c: seq<byte>, i: nat)
    requires !s.paste && 0 < i < COUNT && CANDIDATES[i] <= s.bytes
    ensures Step(s.Plus(c)) == Outcome(Step(s).event, Step(s).next.Plus(c))
    ensures !TornPaste(s.Plus(c))
  {
    StepOnKey(s, i);
    StepOnKey(s.Plus(c), i);
    OnlyOneMatches(s.bytes + c, i, 0);
    SplitAt(s.bytes, c, |CANDIDATES[i]|);
  }

  lemma OnlyOneMatches(b: seq<byte>, i: nat, k: nat)
    requires i < COUNT && k < COUNT && CANDIDATES[i] <= b && i != k
    ensures !(CANDIDATES[k] <= b)
  {
    MatchIsUnique(b, i);
    CandidateShape(i);
    CandidateShape(k);
  }

  lemma OtherIsStable(s: Mode, c: seq<byte>)
    requires !s.paste && |s.bytes| >= 2 && s.bytes[0] == ESC
    requires MatchFrom(s.bytes, 0).None? && !IsPartial(s.bytes)
    ensures Step(s.Plus(c)) == Outcome(Step(s).event, Step(s).next.Plus(c))
    ensures !TornPaste(s.Plus(c))
  {
    StepOnOther(s);
    NoMatchIsStable(s.bytes, c);
    StepOnOther(s.Plus(c));
    assert !(CANDIDATES[0] <= s.bytes + c);
    SplitAt(s.bytes, c, 2);
    SplitAt(s.bytes, c, 1);
  }

  // ----- Draining and feeding -----------------------------------------------------------------

  datatype Drained = Drained(events: seq<Event>, residue: Mode)

  function Drain(s: Mode): Drained
    decreases |s.bytes|
  {
    EventsConsume(s);
    var r := Step(s);
    if r.event.None? then Drained([], r.next)
    else
      var rest := Drain(r.next);
      Drained([r.event.value] + rest.events, rest.residue)
  }

  /** Draining never meets a torn paste. */
  predicate Clean(s: Mode)
    decreases |s.bytes|
  {
    EventsConsume(s);
    !TornPaste(s) && (Step(s).event.Some? ==> Clean(Step(s).next))
  }

  /** Feeding chunk by chunk, draining after each. */
  function Feed(s: Mode, chunks: seq<seq<byte>>): Drained
    decreases |chunks|
  {
    if chunks == [] then Drained([], s)
    else
      var d := Drain(s.Plus(chunks[0]));
      var rest := Feed(d.residue, chunks[1..]);
      Drained(d.events + rest.events, rest.residue)
  }

  predicate FeedIsClean(s: Mode, chunks: seq<seq<byte>>)
    decreases |chunks|
  {
    chunks == []
    || (Clean(s.Plus(chunks[0])) && FeedIsClean(Drain(s.Plus(chunks[0])).residue, chunks[1..]))
  }

  function Flatten(chunks: seq<seq<byte>>): seq<byte> {
    if chunks == [] then [] else chunks[0] + Flatten(chunks[1..])
  }

  predicate Quiet(s: Mode) {
    Step(s) == Outcome(None, s)
  }

  /** A step without an event leaves the decoder quiet. */
  lemma PauseIsQuiet(s: Mode)
    requires !TornPaste(s) && Step(s).event.None?
    ensures Step(s).next == s
            || (!s.paste && PASTE_START <= s.bytes
                && Step(s).next == Mode(s.bytes[|PASTE_START|..], true))
    ensures Quiet(Step(s).next)
  {
    if s.paste {
      StepOnPasteMode(s);
    } else if s.bytes == [] || (|s.bytes| == 1 && s.bytes[0] == ESC) {
    } else if s.bytes[0] != ESC {
      StepOnPlain(s, []);
    } else {
      match MatchFrom(s.bytes, 0)
      case None => StepOnOther(s);
      case Some(i) =>
        if i == 0 {
          StepOnPaste(s);
          StepOnPasteMode(Mode(s.bytes[|PASTE_START|..], true));
        } else {
          StepOnKey(s, i);
        }
    }
  }

  lemma {:induction false} ResidueIsQuiet(s: Mode)
    requires Clean(s)
    ensures Quiet(Drain(s).residue)
    decreases |s.bytes|
  {
    EventsConsume(s);
    if Step(s).event.None? {
      PauseIsQuiet(s);
    } else {
      ResidueIsQuiet(Step(s).next);
    }
  }

  /** Pausing in the middle of the stream does not change what follows. */
  lemma PauseIsHarmless(s: Mode, c: seq<byte>)
    requires Step(s).event.None? && Clean(s) && Clean(s.Plus(c))
    ensures Clean(Step(s).next.Plus(c)) && Drain(Step(s).next.Plus(c)) == Drain(s.Plus(c))
  {
    PauseIsQuiet(s);
    if Step(s).next != s {
      PausedPaste(s, c);
    }
  }

  lemma PausedPaste(s: Mode, c: seq<byte>)
    requires !s.paste && PASTE_START <= s.bytes && Clean(s.Plus(c))
    ensures var p := Mode(s.bytes[|PASTE_START|..], true).Plus(c);
            Clean(p) && Drain(p) == Drain(s.Plus(c))
  {
    SplitAt(s.bytes, c, |PASTE_START|);
    PasteModeIsWhole(s.Plus(c));
  }

  lemma PasteModeIsWhole(w: Mode)
    requires !w.paste && PASTE_START <= w.bytes && Clean(w)
    ensures var p := Mode(w.bytes[|PASTE_START|..], true); Clean(p) && Drain(p) == Drain(w)
  {
    var p := Mode(w.bytes[|PASTE_START|..], true);
    StepOnPaste(w);
    StepOnPasteMode(p);
    if FindEnd(p.bytes, 0).Some? {
      assert Step(p) == Step(w);
    }
  }

  /** What draining `c` after `d` gives. */
  function Then(d: Drained, c: seq<byte>): Drained {
    var e := Drain(d.residue.Plus(c));
    Drained(d.events + e.events, e.residue)
  }

  /** Draining a prefix first and the rest afterwards is draining the whole. */
  lemma {:induction false} DrainSplits(s: Mode, c: seq<byte>)
    requires Clean(s) && Clean(s.Plus(c))
    ensures Clean(Drain(s).residue.Plus(c)) && Drain(s.Plus(c)) == Then(Drain(s), c)
    decreases |s.bytes|
  {
    EventsConsume(s);
    if Step(s).event.None? {
      DrainSplitsAtPause(s, c);
    } else {
      EventsAreStable(s, c);
      var event, next := Step(s).event.value, Step(s).next;
      DrainUnfolds(s, event, next);
      DrainUnfolds(s.Plus(c), event, next.Plus(c));
      DrainSplits(next, c);
      DrainSplitsAtEvent(s, c, event, next);
    }
  }

  lemma DrainSplitsAtPause(s: Mode, c: seq<byte>)
    requires Step(s).event.None? && Clean(s) && Clean(s.Plus(c))
    ensures Clean(Drain(s).residue.Plus(c)) && Drain(s.Plus(c)) == Then(Drain(s), c)
  {
    PauseIsHarmless(s, c);
    var next := Step(s).next;
    assert Drain(s) == Drained([], next);
    assert [] + Drain(next.Plus(c)).events == Drain(next.Plus(c)).events;
  }

  lemma DrainSplitsAtEvent(s: Mode, c: seq<byte>, event: Event, next: Mode)
    requires Drain(s) == Drained([event] + Drain(next).events, Drain(next).residue)
    requires Drain(s.Plus(c)) ==
             Drained([event] + Drain(next.Plus(c)).events, Drain(next.Plus(c)).residue)
    requires Drain(next.Plus(c)) == Then(Drain(next), c)
    ensures Drain(s.Plus(c)) == Then(Drain(s), c)
  {
    Reassociate([event], Drain(next).events, Drain(Drain(next).residue.Plus(c)).events);
  }

  lemma DrainUnfolds(s: Mode, event: Event, next: Mode)
    requires Step(s) == Outcome(Some(event), next)
    ensures Drain(s) == Drained([event] + Drain(next).events, Drain(next).residue)
    ensures Clean(s) ==> Clean(next)
  {
  }

  /** Chunks that never tear a paste give the events and the residue of the whole stream. */
  lemma {:induction false} CleanFeedIsWhole(s: Mode, chunks: seq<seq<byte>>)
    requires Quiet(s) && Clean(s.Plus(Flatten(chunks))) && FeedIsClean(s, chunks)
    ensures Feed(s, chunks) == Drain(s.Plus(Flatten(chunks)))
    decreases |chunks|
  {
    if chunks == [] {
      assert s.Plus([]) == s;
    } else {
      var t, rest := s.Plus(chunks[0]), Flatten(chunks[1..]);
      FlattenSplits(s, chunks);
      DrainSplits(t, rest);
      ResidueIsQuiet(t);
      CleanFeedIsWhole(Drain(t).residue, chunks[1..]);
    }
  }

  // ----- Torn pastes change the events --------------------------------------------------------

  /** If a prefix tears a paste that the whole stream does not, then at the tear the prefix gives a
      key where the whole stream gives the paste. */
  lemma {:induction false} TearIsVisible(s: Mode, c: seq<byte>) returns (k: nat)
    requires !Clean(s) && Clean(s.Plus(c))
    ensures k < |Drain(s).events| && k < |Drain(s.Plus(c)).events|
    ensures Drain(s).events[k].Key? && Drain(s.Plus(c)).events[k].Paste?
    decreases |s.bytes|
  {
    EventsConsume(s);
    if TornPaste(s) {
      TearAtFront(s, c);
      k := 0;
    } else {
      EventsAreStable(s, c);
      var event, next := Step(s).event.value, Step(s).next;
      DrainUnfolds(s, event, next);
      DrainUnfolds(s.Plus(c), event, next.Plus(c));
      var j := TearIsVisible(next, c);
      k := j + 1;
    }
  }

  lemma TearAtFront(s: Mode, c: seq<byte>)
    requires TornPaste(s) && !TornPaste(s.Plus(c))
    ensures |Drain(s).events| > 0 && Drain(s).events[0].Key?
    ensures |Drain(s.Plus(c)).events| > 0 && Drain(s.Plus(c)).events[0].Paste?
  {
    TornStep(s, c);
    DrainUnfolds(s, Step(s).event.value, Step(s).next);
    DrainUnfolds(s.Plus(c), Step(s.Plus(c)).event.value, Step(s.Plus(c)).next);
  }

  lemma TornStep(s: Mode, c: seq<byte>)
    requires TornPaste(s) && !TornPaste(s.Plus(c))
    ensures Step(s).event.Some? && Step(s).event.value.Key?
    ensures Step(s.Plus(c)).event.Some? && Step(s.Plus(c)).event.value.Paste?
  {
    var rest := s.bytes[|PASTE_START|..];
    StepOnPaste(s);
    StepOnPaste(s.Plus(c));
    SplitAt(s.bytes, c, |PASTE_START|);
    if IsPartial(rest + c) {
      PartialIsPrefixClosed(rest, c);
    }
  }

  lemma PartialIsPrefixClosed(b: seq<byte>, c: seq<byte>)
    requires IsPartial(b + c)
    ensures IsPartial(b)
  {
    var k :| 0 <= k < COUNT && b + c < CANDIDATES[k];
    assert b == (b + c)[..|b|];
    assert b < CANDIDATES[k];
  }

  lemma {:induction false} TornFeedDiffers(s: Mode, chunks: seq<seq<byte>>)
    requires Quiet(s) && Clean(s.Plus(Flatten(chunks))) && !FeedIsClean(s, chunks)
    ensures Feed(s, chunks).events != Drain(s.Plus(Flatten(chunks))).events
    decreases |chunks|
  {
    var t, rest := s.Plus(chunks[0]), Flatten(chunks[1..]);
    FlattenSplits(s, chunks);
    var d := Drain(t);
    var tail := Feed(d.residue, chunks[1..]);
    if Clean(t) {
      DrainSplits(t, rest);
      ResidueIsQuiet(t);
      TornFeedDiffers(d.residue, chunks[1..]);
      DifferentTails(d.events, tail.events, Drain(d.residue.Plus(rest)).events);
    } else {
      var k := TearIsVisible(t, rest);
      DifferentAt(d.events, tail.events, Drain(t.Plus(rest)).events, k);
    }
  }

  lemma FlattenSplits(s: Mode, chunks: seq<seq<byte>>)
    requires chunks != []
    ensures s.Plus(Flatten(chunks)) == s.Plus(chunks[0]).Plus(Flatten(chunks[1..]))
  {
  }

  lemma DifferentTails(a: seq<Event>, x: seq<Event>, y: seq<Event>)
    requires x != y
    ensures a + x != a + y
  {
    assert (a + x)[|a|..] == x && (a + y)[|a|..] == y;
  }

  lemma DifferentAt(a: seq<Event>, x: seq<Event>, y: seq<Event>, k: nat)
    requires k < |a| && k < |y| && a[k].Key? && y[k].Paste?
    ensures a + x != y
  {
    assert (a + x)[k] == a[k];
  }

  // ----- Main results -------------------------------------------------------------------------

  const START: Mode := Mode([], false)

  /** For every stream whose pastes are all closed and every way of cutting it into chunks, feeding
      the chunks gives the events and residue of the whole stream if and only if no chunk boundary
      tears a paste. */
  lemma ChunkingMattersOnlyInPastes(chunks: seq<seq<byte>>)
    requires Clean(START.Plus(Flatten(chunks)))
    ensures Feed(START, chunks) == Drain(START.Plus(Flatten(chunks))) <==> FeedIsClean(START, chunks)
  {
    assert Quiet(START);
    if FeedIsClean(START, chunks) {
      CleanFeedIsWhole(START, chunks);
    } else {
      TornFeedDiffers(START, chunks);
    }
  }

  // ----- Streams without pastes ---------------------------------------------------------------

  predicate NoPaste(b: seq<byte>) {
    forall i :: 0 <= i <= |b| ==> !(PASTE_START <= b[i..])
  }

  lemma NoPasteStep(s: Mode) returns (n: nat)
    requires !s.paste && NoPaste(s.bytes)
    ensures !TornPaste(s) && !Step(s).next.paste
    ensures n <= |s.bytes| && Step(s).next.bytes == s.bytes[n..]
  {
    n := NextDropsFront(State(s.bytes, s.paste, None), 0);
    assert s.bytes[0..] == s.bytes;
    if |s.bytes| > 1 && s.bytes[0] == ESC {
      var m := MatchFrom(s.bytes, 0);
      if m.Some? {
        StepOnKey(s, m.value);
      } else {
        StepOnOther(s);
      }
    }
  }

  /** Removing bytes from the front, or from the back, introduces no paste. */
  lemma NoPasteInside(b: seq<byte>, c: seq<byte>, n: nat)
    requires n <= |b| && NoPaste(b + c)
    ensures NoPaste(b) && NoPaste(b[n..] + c)
  {
    forall i | 0 <= i <= |b|
      ensures !(PASTE_START <= b[i..])
    {
      SplitAt(b, c, i);
      FrontExtends(PASTE_START, b[i..], c);
    }
    forall i | 0 <= i <= |b[n..] + c|
      ensures !(PASTE_START <= (b[n..] + c)[i..])
    {
      SplitAt(b, c, n);
      assert (b + c)[n..][i..] == (b + c)[n + i..];
    }
  }

  lemma FrontExtends(k: seq<byte>, b: seq<byte>, c: seq<byte>)
    ensures k <= b ==> k <= b + c
  {
  }

  lemma {:induction false} NoPasteIsClean(s: Mode, c: seq<byte>) returns (n: nat)
    requires !s.paste && NoPaste(s.bytes + c)
    ensures Clean(s) && !Drain(s).residue.paste
    ensures n <= |s.bytes| && Drain(s).residue.bytes == s.bytes[n..]
    decreases |s.bytes|
  {
    NoPasteInside(s.bytes, c, 0);
    n := NoPasteStep(s);
    EventsConsume(s);
    if Step(s).event.Some? {
      NoPasteInside(s.bytes, c, n);
      var m := NoPasteIsClean(Step(s).next, c);
      DropTwice(s.bytes, n);
      n := n + m;
    }
  }

  lemma {:induction false} NoPasteFeedIsClean(s: Mode, chunks: seq<seq<byte>>)
    requires !s.paste && NoPaste(s.bytes + Flatten(chunks))
    ensures FeedIsClean(s, chunks)
    decreases |chunks|
  {
    if chunks == [] {
    } else {
      var t, rest := s.Plus(chunks[0]), Flatten(chunks[1..]);
      FlattenSplits(s, chunks);
      var n := NoPasteIsClean(t, rest);
      NoPasteInside(t.bytes, rest, n);
      NoPasteFeedIsClean(Drain(t).residue, chunks[1..]);
    }
  }

  /** A stream without the paste introducer decodes the same however it is cut. */
  lemma ChunkingIsHarmlessWithoutPastes(chunks: seq<seq<byte>>)
    requires NoPaste(Flatten(chunks))
    ensures Feed(START, chunks) == Drain(START.Plus(Flatten(chunks)))
  {
    var whole := Flatten(chunks);
    assert [] + whole == whole && whole + [] == whole;
    var _ := NoPasteIsClean(START.Plus(whole), []);
    NoPasteFeedIsClean(START, chunks);
    ChunkingMattersOnlyInPastes(chunks);
  }

  // ----- The object ---------------------------------------------------------------------------

  function ModeOf(d: State): Mode {
    Mode(d.bytes, d.paste)
  }

  /** Calling the decoder at one instant until it has no event gives what `Drain` says. */
  method DrainDecoder(d: Decoder, now: int) returns (events: seq<Event>)
    requires Unexpired(d.View(), now)
    modifies d
    ensures Unexpired(d.View(), now)
    ensures Drained(events, ModeOf(d.View())) == Drain(old(ModeOf(d.View())))
  {
    events := [];
    ghost var from := ModeOf(d.View());
    while true
      invariant Unexpired(d.View(), now)
      invariant Drain(from).events == events + Drain(ModeOf(d.View())).events
      invariant Drain(from).residue == Drain(ModeOf(d.View())).residue
      decreases |d.bytes|
    {
      ghost var s := ModeOf(d.View());
      AtOneInstant(d.View(), now);
      EventsConsume(s);
      var event := d.NextEvent(now);
      if event.None? {
        return;
      }
      DrainUnfolds(s, event.value, ModeOf(d.View()));
      Reassociate(events, [event.value], Drain(ModeOf(d.View())).events);
      events := events + [event.value];
    }
  }

  /** Pushing chunk after chunk and draining after each gives what `Feed` says. */
  method FeedDecoder(d: Decoder, chunks: seq<seq<byte>>, now: int) returns (events: seq<Event>)
    requires Unexpired(d.View(), now)
    modifies d
    ensures Drained(events, ModeOf(d.View())) == Feed(old(ModeOf(d.View())), chunks)
  {
    events := [];
    ghost var from := ModeOf(d.View());
    for i := 0 to |chunks|
      invariant Unexpired(d.View(), now)
      invariant Feed(from, chunks).events == events + Feed(ModeOf(d.View()), chunks[i..]).events
      invariant Feed(from, chunks).residue == Feed(ModeOf(d.View()), chunks[i..]).residue
    {
      ghost var s := ModeOf(d.View());
      d.Push(chunks[i]);
      var more := DrainDecoder(d, now);
      FeedUnfolds(s, chunks, i);
      Reassociate(events, more, Feed(ModeOf(d.View()), chunks[i + 1..]).events);
      events := events + more;
    }
  }

  lemma Reassociate(a: seq<Event>, b: seq<Event>, c: seq<Event>)
    ensures a + (b + c) == (a + b) + c
  {
  }

  lemma FeedUnfolds(s: Mode, chunks: seq<seq<byte>>, i: nat)
    requires i < |chunks|
    ensures var d := Drain(s.Plus(chunks[i]));
            Feed(s, chunks[i..]) == Drained(d.events + Feed(d.residue, chunks[i + 1..]).events,
                                            Feed(d.residue, chunks[i + 1..]).residue)
  {
    assert chunks[i..][1..] == chunks[i + 1..];
  }

  // ----- A torn paste -------------------------------------------------------------------------

  /** A paste cut after its first three bytes: the introducer is honoured, two bytes of the text
      become an Alt key, and only the rest is pasted. */
  lemma TornPasteExample()
    ensures var head := PASTE_START + ['a' as int, 'b' as int, 'c' as int];
            Step(Mode(head, false)) ==
              Outcome(Some(Key(Char('b' as int), Alt)), Mode(['c' as int], true))
  {
    var rest: seq<byte> := ['a' as int, 'b' as int, 'c' as int];
    var s := Mode(PASTE_START + rest, false);
    assert s.bytes[|PASTE_START|..] == rest;
    CandidateShape(0);
    MatchIsUnique(s.bytes, 0);
    assert FindEnd(rest, 0).None?;
    forall k | 0 <= k < COUNT
      ensures !(rest < CANDIDATES[k])
    {
      CandidateShape(k);
    }
    assert rest[2..] == ['c' as int];
  }
}
