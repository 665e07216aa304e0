/** Chunking of any terminal input, unfinished pastes included: crates/tea-agent/src/terminal.rs.

    A stream that ends inside a paste is torn however it is fed; what then matters is whether the
    chunks tear it in the same way as the whole. */
module ChunkingExactly {
  import opened Wrappers
  import opened Utf8
  import opened InputDecoder
  import opened Chunking

  // ----- One step and the rest of the stream --------------------------------------------------

  /** The bytes behind a paste introducer. */
  function Behind(m: Mode): seq<byte>
    requires PASTE_START <= m.bytes
  {
    m.bytes[6..]
  }

  /** The paste is never closed, and the byte that decides between Escape and an Alt key is there. */
  predicate TearsAlike(m: Mode, c: seq<byte>)
    requires PASTE_START <= m.bytes
  {
    var all := Behind(m) + c;
    FindEnd(all, 0).None? && (|all| >= 2 && IsAltByte(all[1]) ==> |Behind(m)| >= 2)
  }

  /** The step does what it would do with the rest of the stream already there: it does not tear a
      paste differently, and does not wait inside a paste that the whole stream tears. */
  predicate StepGood(m: Mode, c: seq<byte>) {
    if TornPaste(m) then TearsAlike(m, c)
    else Step(m).event.None? && !m.paste && PASTE_START <= m.bytes ==> !TornPaste(m.Plus(c))
  }

  lemma PlusBehind(m: Mode, c: seq<byte>)
    requires PASTE_START <= m.bytes
    ensures PASTE_START <= m.Plus(c).bytes && Behind(m.Plus(c)) == Behind(m) + c
  {
    SplitAt(m.bytes, c, 6);
  }

  lemma {:induction false} NoEndInFront(b: seq<byte>, c: seq<byte>)
    requires FindEnd(b + c, 0).None?
    ensures FindEnd(b, 0).None?
  {
    if FindEnd(b, 0).Some? {
      FindEndIsStable(b, c, 0);
    }
  }

  lemma {:induction false} EndIsFound(b: seq<byte>, i: nat, k: nat)
    requires i <= k <= |b| && PASTE_END <= b[k..]
    ensures FindEnd(b, i).Some?
    decreases k - i
  {
    if i == k || PASTE_END <= b[i..] {
    } else {
      EndIsFound(b, i + 1, k);
    }
  }

  lemma NoEndBehind(b: seq<byte>, n: nat)
    requires n <= |b| && FindEnd(b, 0).None?
    ensures FindEnd(b[n..], 0).None?
  {
    if FindEnd(b[n..], 0).Some? {
      var p := FindEnd(b[n..], 0).value;
      assert b[n..][p..] == b[n + p..];
      EndIsFound(b, 0, n + p);
    }
  }

  /** What tearing an unclosed paste gives. */
  function TornBytes(rest: seq<byte>): nat {
    if |rest| >= 2 && IsAltByte(rest[1]) then 2 else 1
  }

  function TornKey(rest: seq<byte>): Event {
    if |rest| >= 2 && IsAltByte(rest[1]) then Key(Char(rest[1]), Alt) else Key(Esc, Plain)
  }

  lemma TornStepIs(m: Mode)
    requires TornPaste(m)
    ensures var rest := Behind(m);
            rest != [] && Step(m) == Outcome(Some(TornKey(rest)), Mode(rest[TornBytes(rest)..], true))
  {
    StepOnPaste(m);
    CandidateShape(0);
    MatchIsUnique(m.bytes, 0);
    NotPartialIsNotEmpty(Behind(m));
  }

  lemma NotPartialIsNotEmpty(b: seq<byte>)
    ensures b == [] ==> IsPartial(b)
  {
    CandidateShape(0);
    assert b == [] ==> b < CANDIDATES[0];
  }

  /** Inside a paste that never ends nothing is decoded. */
  lemma Silent(b: seq<byte>)
    requires FindEnd(b, 0).None?
    ensures Drain(Mode(b, true)) == Drained([], Mode(b, true))
  {
    StepOnPasteMode(Mode(b, true));
  }

  lemma TornWhole(m: Mode, c: seq<byte>)
    requires TornPaste(m) && FindEnd(Behind(m) + c, 0).None?
    ensures TornPaste(m.Plus(c))
  {
    PlusBehind(m, c);
    if IsPartial(Behind(m) + c) {
      PartialIsPrefixClosed(Behind(m), c);
    }
  }

  /** Torn alike: the same key, and the same bytes left in the paste. */
  lemma TornAlike(m: Mode, c: seq<byte>)
    requires TornPaste(m) && TearsAlike(m, c)
    ensures Step(m.Plus(c)) == Outcome(Step(m).event, Step(m).next.Plus(c))
  {
    TornWhole(m, c);
    TornStepIs(m);
    TornStepIs(m.Plus(c));
    PlusBehind(m, c);
    SplitAt(Behind(m), c, TornBytes(Behind(m)));
  }

  lemma PausedIntroducer(m: Mode, c: seq<byte>)
    requires !m.paste && PASTE_START <= m.bytes && !TornPaste(m.Plus(c))
    ensures Drain(Mode(Behind(m), true).Plus(c)) == Drain(m.Plus(c))
  {
    PlusBehind(m, c);
    var w, p := m.Plus(c), Mode(Behind(m) + c, true);
    StepOnPaste(w);
    StepOnPasteMode(p);
    if FindEnd(p.bytes, 0).Some? {
      assert Step(p) == Step(w);
    }
  }

  lemma NoEventIsNotTorn(m: Mode)
    ensures TornPaste(m) ==> Step(m).event.Some?
  {
    if TornPaste(m) {
      TornStepIs(m);
    }
  }

  /** A good step with an event decides the event of the whole; one without leaves its drain alone. */
  lemma GoodStep(m: Mode, c: seq<byte>)
    requires StepGood(m, c)
    ensures var r := Step(m);
            if r.event.Some? then Step(m.Plus(c)) == Outcome(r.event, r.next.Plus(c))
            else Drain(r.next.Plus(c)) == Drain(m.Plus(c))
  {
    NoEventIsNotTorn(m);
    if TornPaste(m) {
      TornAlike(m, c);
    } else if Step(m).event.Some? {
      EventsAreStable(m, c);
    } else {
      PauseIsQuiet(m);
      if Step(m).next != m {
        PausedIntroducer(m, c);
      }
    }
  }

  /** How a step that is not good shows: the whole stream gives another event first, or one where the
      step waits inside a paste that never ends. */
  predicate Shows(m: Mode, c: seq<byte>) {
    var all := Drain(m.Plus(c)).events;
    && all != []
    && if Step(m).event.Some? then Step(m).event.value != all[0]
       else !m.paste && PASTE_START <= m.bytes && Step(m).next == Mode(Behind(m), true) &&
            FindEnd(Behind(m) + c, 0).None?
  }

  lemma FirstOfDrain(m: Mode)
    requires Step(m).event.Some?
    ensures Drain(m).events != [] && Drain(m).events[0] == Step(m).event.value
  {
    DrainUnfolds(m, Step(m).event.value, Step(m).next);
  }

  lemma BadTear(m: Mode, c: seq<byte>)
    requires TornPaste(m) && !TearsAlike(m, c)
    ensures Shows(m, c)
  {
    PlusBehind(m, c);
    TornStepIs(m);
    if FindEnd(Behind(m) + c, 0).Some? {
      StepOnPaste(m.Plus(c));
    } else {
      TornWhole(m, c);
      TornStepIs(m.Plus(c));
    }
    FirstOfDrain(m.Plus(c));
  }

  lemma BadPause(m: Mode, c: seq<byte>)
    requires Step(m).event.None? && !m.paste && PASTE_START <= m.bytes && TornPaste(m.Plus(c))
    ensures Shows(m, c)
  {
    NoEventIsNotTorn(m);
    StepOnPaste(m);
    PlusBehind(m, c);
    TornStepIs(m.Plus(c));
    FirstOfDrain(m.Plus(c));
  }

  lemma BadStepShows(m: Mode, c: seq<byte>)
    requires !StepGood(m, c)
    ensures Shows(m, c)
  {
    if TornPaste(m) {
      BadTear(m, c);
    } else {
      BadPause(m, c);
    }
  }

  // ----- Draining a prefix --------------------------------------------------------------------

  /** Every step of draining `m` is good, with `c` to follow. */
  predicate Good(m: Mode, c: seq<byte>)
    decreases |m.bytes|
  {
    EventsConsume(m);
    StepGood(m, c) && (Step(m).event.Some? ==> Good(Step(m).next, c))
  }

  lemma {:induction false} GoodSplits(m: Mode, c: seq<byte>)
    requires Good(m, c)
    ensures Drain(m.Plus(c)) == Then(Drain(m), c)
    decreases |m.bytes|
  {
    EventsConsume(m);
    GoodStep(m, c);
    if Step(m).event.Some? {
      var event, next := Step(m).event.value, Step(m).next;
      DrainUnfolds(m, event, next);
      DrainUnfolds(m.Plus(c), event, next.Plus(c));
      GoodSplits(next, c);
      DrainSplitsAtEvent(m, c, event, next);
    } else {
      var next := Step(m).next;
      assert [] + Drain(next.Plus(c)).events == Drain(next.Plus(c)).events;
    }
  }

  /** Where draining first goes wrong: another event at `k`, or silence from `k` on. */
  ghost predicate WrongAt(m: Mode, c: seq<byte>, k: nat) {
    var some, all := Drain(m), Drain(m.Plus(c)).events;
    && k < |all|
    && if k < |some.events| then some.events[k] != all[k]
       else k == |some.events| && some.residue.paste && FindEnd(some.residue.bytes + c, 0).None?
  }

  lemma WrongHere(m: Mode, c: seq<byte>)
    requires Shows(m, c)
    ensures WrongAt(m, c, 0)
  {
    if Step(m).event.Some? {
      FirstOfDrain(m);
    }
  }

  lemma WrongLater(m: Mode, c: seq<byte>, k: nat)
    requires Step(m).event.Some? && StepGood(m, c) && WrongAt(Step(m).next, c, k)
    ensures WrongAt(m, c, k + 1)
  {
    var event, next := Step(m).event.value, Step(m).next;
    GoodStep(m, c);
    DrainUnfolds(m, event, next);
    DrainUnfolds(m.Plus(c), event, next.Plus(c));
    PushFront(event, Drain(next).events, k);
    PushFront(event, Drain(next.Plus(c)).events, k);
  }

  lemma PushFront(event: Event, es: seq<Event>, k: nat)
    ensures |[event] + es| == 1 + |es|
    ensures k < |es| ==> ([event] + es)[k + 1] == es[k]
  {
  }

  lemma {:induction false} BadShows(m: Mode, c: seq<byte>) returns (k: nat)
    requires !Good(m, c)
    ensures WrongAt(m, c, k)
    decreases |m.bytes|
  {
    EventsConsume(m);
    if !StepGood(m, c) {
      BadStepShows(m, c);
      WrongHere(m, c);
      k := 0;
    } else {
      var j := BadShows(Step(m).next, c);
      WrongLater(m, c, j);
      k := j + 1;
    }
  }

  // ----- Feeding ------------------------------------------------------------------------------

  predicate FeedIsGood(s: Mode, chunks: seq<seq<byte>>)
    decreases |chunks|
  {
    chunks == []
    || (Good(s.Plus(chunks[0]), Flatten(chunks[1..])) && FeedIsGood(Drain(s.Plus(chunks[0])).residue, chunks[1..]))
  }

  lemma {:induction false} ResidueWaits(m: Mode)
    ensures Quiet(Drain(m).residue)
    decreases |m.bytes|
  {
    EventsConsume(m);
    NoEventIsNotTorn(m);
    if Step(m).event.None? {
      PauseIsQuiet(m);
    } else {
      ResidueWaits(Step(m).next);
    }
  }

  lemma {:induction false} FeedIsSilent(s: Mode, chunks: seq<seq<byte>>)
    requires s.paste && FindEnd(s.bytes + Flatten(chunks), 0).None?
    ensures Feed(s, chunks).events == []
    decreases |chunks|
  {
    if chunks == [] {
    } else {
      var b, rest := s.bytes + chunks[0], Flatten(chunks[1..]);
      assert s.bytes + Flatten(chunks) == b + rest;
      NoEndInFront(b, rest);
      Silent(b);
      FeedIsSilent(Mode(b, true), chunks[1..]);
    }
  }

  lemma FeedGoesWrong(s: Mode, chunks: seq<seq<byte>>, k: nat)
    requires chunks != [] && WrongAt(s.Plus(chunks[0]), Flatten(chunks[1..]), k)
    ensures Feed(s, chunks).events != Drain(s.Plus(Flatten(chunks))).events
  {
    var t, rest := s.Plus(chunks[0]), Flatten(chunks[1..]);
    FlattenSplits(s, chunks);
    var d := Drain(t);
    var tail := Feed(d.residue, chunks[1..]);
    if k < |d.events| {
      assert (d.events + tail.events)[k] == d.events[k];
    } else {
      FeedIsSilent(d.residue, chunks[1..]);
    }
  }

  lemma ThenIsInjective(d: Drained, x: Drained, y: Drained)
    ensures Drained(d.events + x.events, x.residue) == Drained(d.events + y.events, y.residue) <==> x == y
  {
    assert (d.events + x.events)[|d.events|..] == x.events && (d.events + y.events)[|d.events|..] == y.events;
  }

  lemma {:induction false} FeedExactly(s: Mode, chunks: seq<seq<byte>>)
    requires Quiet(s)
    ensures Feed(s, chunks) == Drain(s.Plus(Flatten(chunks))) <==> FeedIsGood(s, chunks)
    decreases |chunks|
  {
    if chunks == [] {
      assert s.Plus([]) == s;
    } else {
      var t, rest := s.Plus(chunks[0]), Flatten(chunks[1..]);
      FlattenSplits(s, chunks);
      if Good(t, rest) {
        GoodSplits(t, rest);
        ResidueWaits(t);
        FeedExactly(Drain(t).residue, chunks[1..]);
        ThenIsInjective(Drain(t), Feed(Drain(t).residue, chunks[1..]), Drain(Drain(t).residue.Plus(rest)));
      } else {
        var k := BadShows(t, rest);
        FeedGoesWrong(s, chunks, k);
      }
    }
  }

  /** For every stream and every way of cutting it: feeding the chunks gives the events and residue of
      the whole if and only if no chunk tears a paste differently from the whole, or waits inside a
      paste that the whole tears. */
  lemma ChunkingExactly(chunks: seq<seq<byte>>)
    ensures Feed(START, chunks) == Drain(START.Plus(Flatten(chunks))) <==> FeedIsGood(START, chunks)
  {
    assert Quiet(START);
    FeedExactly(START, chunks);
  }
}
