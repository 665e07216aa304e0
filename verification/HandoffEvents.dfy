/** What a chain of handoffs does to decoded events: crates/tea-agent/src/detach.rs with the decoder
    of crates/tea-agent/src/terminal.rs.

    Handoffs conserve bytes, but every runtime starts its decoder outside a paste. All calls of the
    decoders happen at one instant. */
module HandoffEvents {
  import opened Wrappers
  import opened Utf8
  import opened Handoff
  import D = InputDecoder
  import C = Chunking

  // ----- One session --------------------------------------------------------------------------

  function ModeOf(s: Session): C.Mode {
    C.Mode(s.decoder.bytes, s.decoder.paste)
  }

  /** The input that has reached the decoder. */
  function Pulled(s: Session): seq<byte> {
    s.gone + s.decoder.bytes
  }

  predicate IsDecode(s: Session, e: Event) {
    e.Decode? && s.unconsumed.None?
  }

  /** The event that a step decodes. */
  function Emits(s: Session, e: Event): seq<D.Event> {
    if IsDecode(s, e) && D.Next(s.decoder, e.now).event.Some? then [D.Next(s.decoder, e.now).event.value] else []
  }

  function Emitted(replay: seq<byte>, events: seq<Event>): seq<D.Event> {
    if events == [] then []
    else Emitted(replay, events[..|events| - 1]) + Emits(Run(Begin(replay), events[..|events| - 1]), events[|events| - 1])
  }

  predicate AtInstant(events: seq<Event>, now: int) {
    forall i :: 0 <= i < |events| && events[i].Decode? ==> events[i].now == now
  }

  /** The decoder is asked while the front of its buffer is a paste it would tear. */
  predicate Tears(s: Session, e: Event) {
    IsDecode(s, e) && C.TornPaste(ModeOf(s))
  }

  predicate NoTear(replay: seq<byte>, events: seq<Event>) {
    events == [] ||
    (NoTear(replay, events[..|events| - 1]) &&
     !Tears(Run(Begin(replay), events[..|events| - 1]), events[|events| - 1]))
  }

  lemma DecodeIs(s: Session, now: int)
    requires s.unconsumed.None? && C.Unexpired(s.decoder, now)
    ensures var t, r := Step(s, Decode(now)), C.Step(ModeOf(s));
            && C.Unexpired(t.decoder, now) && ModeOf(t) == r.next && Pulled(t) == Pulled(s)
            && Emits(s, Decode(now)) == (if r.event.Some? then [r.event.value] else [])
  {
    C.AtOneInstant(s.decoder, now);
    var n := D.NextDropsFront(s.decoder, now);
    assert s.decoder.bytes == s.decoder.bytes[..n] + s.decoder.bytes[n..];
  }

  /** The input that a step hands to the decoder. */
  function Fetched(s: Session, e: Event): seq<byte> {
    if e.Pull? && s.unconsumed.None? then s.link.input else []
  }

  lemma OtherIs(s: Session, e: Event)
    requires !IsDecode(s, e)
    ensures var t := Step(s, e);
            && t.decoder.deadline == s.decoder.deadline && Emits(s, e) == []
            && ModeOf(t) == ModeOf(s).Plus(Fetched(s, e)) && Pulled(t) == Pulled(s) + Fetched(s, e)
  {
    if e.Pull? && s.unconsumed.None? {
    } else {
      assert Step(s, e).decoder == s.decoder && Step(s, e).gone == s.gone;
      assert s.decoder.bytes + [] == s.decoder.bytes && Pulled(s) + [] == Pulled(s);
    }
  }

  lemma {:induction false} TimerIsUnexpired(replay: seq<byte>, events: seq<Event>, now: int)
    requires AtInstant(events, now)
    ensures C.Unexpired(Run(Begin(replay), events).decoder, now)
  {
    if events == [] {
    } else {
      var s, e := Run(Begin(replay), events[..|events| - 1]), events[|events| - 1];
      TimerIsUnexpired(replay, events[..|events| - 1], now);
      if IsDecode(s, e) {
        DecodeIs(s, now);
      } else {
        OtherIs(s, e);
      }
    }
  }

  // ----- A session that tears nothing ---------------------------------------------------------

  function After(events: seq<D.Event>, d: C.Drained): C.Drained {
    C.Drained(events + d.events, d.residue)
  }

  /** The events so far, followed by what the decoder would make of `c`, are what a fresh decoder
      makes of everything. */
  ghost predicate Continues(m: C.Mode, pulled: seq<byte>, emitted: seq<D.Event>, c: seq<byte>) {
    && C.Clean(m.Plus(c))
    && C.Drain(C.START.Plus(pulled + c)) == After(emitted, C.Drain(m.Plus(c)))
  }

  function EventOf(m: C.Mode): seq<D.Event> {
    if C.Step(m).event.Some? then [C.Step(m).event.value] else []
  }

  lemma DecodeContinues(m: C.Mode, pulled: seq<byte>, emitted: seq<D.Event>, c: seq<byte>)
    requires !C.TornPaste(m) && Continues(m, pulled, emitted, c)
    ensures Continues(C.Step(m).next, pulled, emitted + EventOf(m), c)
  {
    var r := C.Step(m);
    if r.event.Some? {
      C.EventsAreStable(m, c);
      C.DrainUnfolds(m.Plus(c), r.event.value, r.next.Plus(c));
      assert emitted + ([r.event.value] + C.Drain(r.next.Plus(c)).events) ==
             emitted + [r.event.value] + C.Drain(r.next.Plus(c)).events;
    } else {
      C.PauseIsHarmless(m, c);
      assert emitted + [] == emitted;
    }
  }

  lemma FetchContinues(m: C.Mode, pulled: seq<byte>, emitted: seq<D.Event>, x: seq<byte>, c: seq<byte>)
    requires Continues(m, pulled, emitted, x + c)
    ensures Continues(m.Plus(x), pulled + x, emitted, c)
  {
    Regroup(pulled, x, c);
    PlusTwice(m, x, c);
  }

  lemma PlusTwice(m: C.Mode, x: seq<byte>, c: seq<byte>)
    ensures m.Plus(x).Plus(c) == m.Plus(x + c)
  {
  }

  lemma StepContinues(s: Session, e: Event, now: int, emitted: seq<D.Event>, c: seq<byte>)
    requires C.Unexpired(s.decoder, now) && (e.Decode? ==> e.now == now) && !Tears(s, e)
    requires Continues(ModeOf(s), Pulled(s), emitted, Fetched(s, e) + c)
    ensures Continues(ModeOf(Step(s, e)), Pulled(Step(s, e)), emitted + Emits(s, e), c)
  {
    if IsDecode(s, e) {
      DecodeIs(s, now);
      assert Fetched(s, e) + c == c;
      DecodeContinues(ModeOf(s), Pulled(s), emitted, c);
    } else {
      OtherIs(s, e);
      FetchContinues(ModeOf(s), Pulled(s), emitted, Fetched(s, e), c);
      assert emitted + [] == emitted;
    }
  }

  lemma PulledGrows(s: Session, e: Event, now: int)
    requires C.Unexpired(s.decoder, now) && (e.Decode? ==> e.now == now)
    ensures Pulled(Step(s, e)) == Pulled(s) + Fetched(s, e)
  {
    if IsDecode(s, e) {
      DecodeIs(s, now);
      assert Pulled(s) + [] == Pulled(s);
    } else {
      OtherIs(s, e);
    }
  }

  lemma StartContinues(replay: seq<byte>, c: seq<byte>)
    requires C.Clean(C.START.Plus([] + c))
    ensures Continues(ModeOf(Begin(replay)), Pulled(Begin(replay)), [], c)
  {
    var d := C.Drain(C.START.Plus(c));
    assert [] + c == c && Pulled(Begin(replay)) == [] && [] + d.events == d.events;
  }

  lemma {:induction false} SessionContinues(replay: seq<byte>, events: seq<Event>, now: int, c: seq<byte>)
    requires AtInstant(events, now) && NoTear(replay, events)
    requires C.Clean(C.START.Plus(Pulled(Run(Begin(replay), events)) + c))
    ensures var s := Run(Begin(replay), events); Continues(ModeOf(s), Pulled(s), Emitted(replay, events), c)
  {
    if events == [] {
      StartContinues(replay, c);
    } else {
      var init, e := events[..|events| - 1], events[|events| - 1];
      var s := Run(Begin(replay), init);
      TimerIsUnexpired(replay, init, now);
      CleanBefore(s, e, now, c);
      SessionContinues(replay, init, now, Fetched(s, e) + c);
      StepContinues(s, e, now, Emitted(replay, init), c);
    }
  }

  lemma CleanBefore(s: Session, e: Event, now: int, c: seq<byte>)
    requires C.Unexpired(s.decoder, now) && (e.Decode? ==> e.now == now)
    requires C.Clean(C.START.Plus(Pulled(Step(s, e)) + c))
    ensures C.Clean(C.START.Plus(Pulled(s) + (Fetched(s, e) + c)))
  {
    PulledGrows(s, e, now);
    Regroup(Pulled(s), Fetched(s, e), c);
  }

  // ----- A session that tears a paste ---------------------------------------------------------

  lemma TornDecode(m: C.Mode, c: seq<byte>)
    requires C.TornPaste(m) && C.Clean(m.Plus(c))
    ensures |EventOf(m)| == 1 && EventOf(m)[0].Key?
    ensures C.Drain(m.Plus(c)).events != [] && C.Drain(m.Plus(c)).events[0].Paste?
  {
    C.TornStep(m, c);
    C.TearAtFront(m, c);
  }

  lemma TornEvents(m: C.Mode, pulled: seq<byte>, emitted: seq<D.Event>, c: seq<byte>)
    requires C.TornPaste(m) && Continues(m, pulled, emitted, c)
    ensures var all := C.Drain(C.START.Plus(pulled + c)).events;
            && |EventOf(m)| == 1 && EventOf(m)[0].Key?
            && |emitted| < |all| && all[|emitted|].Paste?
  {
    TornDecode(m, c);
    var tail := C.Drain(m.Plus(c)).events;
    assert (emitted + tail)[|emitted|] == tail[0];
  }

  /** Where a session tears a paste it emits a key instead of the paste. */
  lemma {:induction false} TearIsSeen(replay: seq<byte>, events: seq<Event>, now: int, c: seq<byte>) returns (k: nat)
    requires AtInstant(events, now) && !NoTear(replay, events)
    requires C.Clean(C.START.Plus(Pulled(Run(Begin(replay), events)) + c))
    ensures k < |Emitted(replay, events)| && Emitted(replay, events)[k].Key?
    ensures var all := C.Drain(C.START.Plus(Pulled(Run(Begin(replay), events)) + c)).events;
            k < |all| && all[k].Paste?
    decreases |events|
  {
    var init, e := events[..|events| - 1], events[|events| - 1];
    var s := Run(Begin(replay), init);
    TimerIsUnexpired(replay, init, now);
    CleanBefore(s, e, now, c);
    PulledGrows(s, e, now);
    Regroup(Pulled(s), Fetched(s, e), c);
    if !NoTear(replay, init) {
      k := TearIsSeen(replay, init, now, Fetched(s, e) + c);
    } else {
      k := |Emitted(replay, init)|;
      SessionContinues(replay, init, now, Fetched(s, e) + c);
      TornEvents(ModeOf(s), Pulled(s), Emitted(replay, init), Fetched(s, e) + c);
      DecodeIs(s, now);
    }
  }

  // ----- Starting outside a paste -------------------------------------------------------------

  lemma NoEndInIntroducer(b: seq<byte>, k: nat)
    requires D.PASTE_START <= b && k < 6
    ensures !C.EndsAt(b, k)
  {
    assert b[k] == D.PASTE_START[k];
    assert |b[k..]| > 4 ==> b[k..][4] == b[k + 4] && b[k..][0] == b[k];
  }

  lemma EndsBehind(b: seq<byte>, k: nat)
    requires 6 <= k <= |b|
    ensures C.EndsAt(b, k) == C.EndsAt(b[6..], k - 6)
  {
    assert b[6..][k - 6..] == b[k..];
  }

  /** An introducer moves the terminator by its own length. */
  lemma AfterIntroducer(b: seq<byte>)
    requires D.PASTE_START <= b && D.FindEnd(b[6..], 0).Some?
    ensures D.FindEnd(b, 0) == Some(D.FindEnd(b[6..], 0).value + 6)
  {
    var p := D.FindEnd(b[6..], 0).value + 6;
    C.FindEndIsFirst(b[6..], 0);
    EndsBehind(b, p);
    forall k | 0 <= k < p
      ensures !C.EndsAt(b, k)
    {
      if k < 6 {
        NoEndInIntroducer(b, k);
      } else {
        EndsBehind(b, k);
      }
    }
    C.FirstIsFindEnd(b, 0, p);
  }

  /** What a step from outside a paste can do about pastes. */
  lemma StepOutside(m: C.Mode)
    requires !m.paste
    ensures var r := C.Step(m);
            && (r.event.Some? && r.event.value.Paste? ==>
                  && D.PASTE_START <= m.bytes && D.FindEnd(m.bytes[6..], 0).Some?
                  && |r.event.value.text| == D.FindEnd(m.bytes[6..], 0).value)
            && (r.event.None? ==> r.next == m || (D.PASTE_START <= m.bytes && r.next == C.Mode(m.bytes[6..], true)))
  {
    if m.bytes == [] || (|m.bytes| == 1 && m.bytes[0] == D.ESC) {
    } else if m.bytes[0] != D.ESC {
      C.StepOnPlain(m, []);
    } else {
      match D.MatchFrom(m.bytes, 0)
      case None => C.StepOnOther(m);
      case Some(i) => if i == 0 { C.StepOnPaste(m); } else { C.StepOnKey(m, i); }
    }
  }

  /** What starting outside a paste cannot give: the whole of `b` up to its terminator as one paste,
      or all of `b` left inside a paste. */
  ghost predicate Limited(b: seq<byte>, d: C.Drained) {
    && (d.events != [] && d.events[0].Paste? ==>
          D.FindEnd(b, 0).Some? && |d.events[0].text| < D.FindEnd(b, 0).value)
    && (d.events == [] && d.residue.paste ==> |d.residue.bytes| < |b|)
  }

  lemma DrainIsLimited(b: seq<byte>)
    ensures Limited(b, C.Drain(C.START.Plus(b)))
  {
    var m := C.START.Plus(b);
    assert m.bytes == b;
    StepOutside(m);
    var r := C.Step(m);
    if r.event.Some? {
      C.DrainUnfolds(m, r.event.value, r.next);
      if r.event.value.Paste? {
        AfterIntroducer(b);
      }
    }
  }

  lemma LimitedBehindIntroducer(b: seq<byte>, d: C.Drained)
    requires Limited(b, d)
    ensures Limited(D.PASTE_START + b, d)
  {
    var all := D.PASTE_START + b;
    assert all[6..] == b;
    if D.FindEnd(b, 0).Some? {
      AfterIntroducer(all);
    }
  }

  lemma LimitedInFront(b: seq<byte>, c: seq<byte>, d: C.Drained)
    requires Limited(b, d) && d.events != []
    ensures Limited(b + c, d)
  {
    if D.FindEnd(b, 0).Some? {
      C.FindEndIsStable(b, c, 0);
    }
  }

  /** Inside a paste, that is what happens. */
  lemma InsideIsNotLimited(b: seq<byte>)
    ensures !Limited(b, C.Drain(C.Mode(b, true)))
  {
    var m := C.Mode(b, true);
    C.StepOnPasteMode(m);
    if D.FindEnd(b, 0).Some? {
      C.DrainUnfolds(m, C.Step(m).event.value, C.Step(m).next);
    }
  }

  /** A session that has emitted nothing has consumed nothing, or one introducer. */
  ghost predicate SoFar(gone: seq<byte>, m: C.Mode, emitted: seq<D.Event>) {
    if emitted == [] then (gone == [] && !m.paste) || (gone == D.PASTE_START && m.paste)
    else Limited(gone + m.bytes, C.Drained(emitted, m))
  }

  lemma FirstDecode(gone: seq<byte>, m: C.Mode, gone': seq<byte>)
    requires SoFar(gone, m, []) && gone' + C.Step(m).next.bytes == gone + m.bytes
    ensures SoFar(gone', C.Step(m).next, EventOf(m))
  {
    var r := C.Step(m);
    if m.paste {
      C.StepOnPasteMode(m);
      assert (D.PASTE_START + m.bytes)[6..] == m.bytes;
      if r.event.Some? {
        AfterIntroducer(D.PASTE_START + m.bytes);
      } else {
        SameTail(gone', gone, m.bytes);
      }
    } else {
      StepOutside(m);
      assert gone + m.bytes == m.bytes;
      if r.event.Some? {
        if r.event.value.Paste? {
          AfterIntroducer(m.bytes);
        }
      } else if r.next == m {
        SameTail(gone', gone, m.bytes);
      } else {
        assert m.bytes == D.PASTE_START + m.bytes[6..];
        SameTail(gone', D.PASTE_START, m.bytes[6..]);
      }
    }
  }

  lemma SameTail(a: seq<byte>, b: seq<byte>, c: seq<byte>)
    requires a + c == b + c
    ensures a == b
  {
    assert |a| == |b|;
    assert a == (a + c)[..|a|] && b == (b + c)[..|b|];
  }

  lemma LaterDecode(gone: seq<byte>, m: C.Mode, emitted: seq<D.Event>, gone': seq<byte>, m': C.Mode, more: seq<D.Event>)
    requires SoFar(gone, m, emitted) && emitted != [] && gone' + m'.bytes == gone + m.bytes
    ensures SoFar(gone', m', emitted + more)
  {
    assert (emitted + more)[0] == emitted[0];
  }

  lemma FetchSoFar(gone: seq<byte>, m: C.Mode, emitted: seq<D.Event>, x: seq<byte>)
    requires SoFar(gone, m, emitted)
    ensures SoFar(gone, m.Plus(x), emitted)
  {
    if emitted != [] {
      Regroup(gone, m.bytes, x);
      LimitedInFront(gone + m.bytes, x, C.Drained(emitted, m));
    }
  }

  lemma StepSoFar(s: Session, e: Event, now: int, emitted: seq<D.Event>)
    requires C.Unexpired(s.decoder, now) && (e.Decode? ==> e.now == now) && SoFar(s.gone, ModeOf(s), emitted)
    ensures SoFar(Step(s, e).gone, ModeOf(Step(s, e)), emitted + Emits(s, e))
  {
    var t := Step(s, e);
    if IsDecode(s, e) {
      DecodeIs(s, now);
      if emitted == [] {
        FirstDecode(s.gone, ModeOf(s), t.gone);
        assert [] + EventOf(ModeOf(s)) == EventOf(ModeOf(s));
      } else {
        LaterDecode(s.gone, ModeOf(s), emitted, t.gone, ModeOf(t), Emits(s, e));
      }
    } else {
      OtherIs(s, e);
      assert t.gone == s.gone && emitted + [] == emitted;
      FetchSoFar(s.gone, ModeOf(s), emitted, Fetched(s, e));
    }
  }

  lemma {:induction false} SessionSoFar(replay: seq<byte>, events: seq<Event>, now: int)
    requires AtInstant(events, now)
    ensures var s := Run(Begin(replay), events); SoFar(s.gone, ModeOf(s), Emitted(replay, events))
  {
    if events == [] {
    } else {
      var init, e := events[..|events| - 1], events[|events| - 1];
      TimerIsUnexpired(replay, init, now);
      SessionSoFar(replay, init, now);
      StepSoFar(Run(Begin(replay), init), e, now, Emitted(replay, init));
    }
  }

  // ----- Chains -------------------------------------------------------------------------------

  predicate ChainAtInstant(chain: seq<seq<Event>>, now: int) {
    forall i :: 0 <= i < |chain| ==> AtInstant(chain[i], now)
  }

  /** Everything the runtimes decoded, in order. */
  ghost function AllEmitted(replay: seq<byte>, chain: seq<seq<Event>>): seq<D.Event>
    requires Hands(replay, chain)
    decreases |chain|
  {
    if chain == [] then []
    else Emitted(replay, chain[0]) + AllEmitted(Handed(Run(Begin(replay), chain[0])), chain[1..])
  }

  /** No session tore a paste, and none handed off inside one. */
  ghost predicate IsFaithful(replay: seq<byte>, chain: seq<seq<Event>>)
    requires Hands(replay, chain)
    decreases |chain|
  {
    chain == []
    || (var s := Run(Begin(replay), chain[0]);
        NoTear(replay, chain[0]) && !s.decoder.paste && IsFaithful(Handed(s), chain[1..]))
  }

  /** What the chain decoded, followed by what a further runtime makes of the last replay. */
  ghost function Decoded(replay: seq<byte>, chain: seq<seq<Event>>): C.Drained
    requires Hands(replay, chain)
  {
    After(AllEmitted(replay, chain), C.Drain(C.START.Plus(LastReplay(replay, chain))))
  }

  lemma DecodedUnfolds(replay: seq<byte>, chain: seq<seq<Event>>)
    requires Hands(replay, chain) && chain != []
    ensures Decoded(replay, chain) ==
            After(Emitted(replay, chain[0]), Decoded(Handed(Run(Begin(replay), chain[0])), chain[1..]))
  {
    var later := Handed(Run(Begin(replay), chain[0]));
    var d := C.Drain(C.START.Plus(LastReplay(later, chain[1..])));
    assert Emitted(replay, chain[0]) + AllEmitted(later, chain[1..]) + d.events ==
           Emitted(replay, chain[0]) + (AllEmitted(later, chain[1..]) + d.events);
  }

  /** Input sent that has not reached the decoder. */
  function Waiting(s: Session): seq<byte> {
    s.link.input + Join(s.wire)
  }

  /** What a session leaves, and what the rest of the stream is to it. */
  lemma Remainder(replay: seq<byte>, events: seq<Event>, later: seq<byte>) returns (x: seq<byte>)
    requires var s := Run(Begin(replay), events); s.reported.Some? && Backlog(s) <= WINDOW
    ensures var s := Run(Begin(replay), events);
            && x == Waiting(s) && Handed(s) == s.decoder.bytes + x
            && replay + (Typed(events) + later) == Pulled(s) + (x + later)
            && replay + (Typed(events) + later) == s.gone + (Handed(s) + later)
  {
    var s := Run(Begin(replay), events);
    RunKeepsInv(replay, events);
    HandoffConservesInput(replay, events);
    LogIsReplayThenTyped(replay, events);
    x := Waiting(s);
    RemainderParts(s, x);
    Regroup(replay, Typed(events), later);
    Regroup(Pulled(s), x, later);
    Regroup(s.gone, Handed(s), later);
  }

  lemma RemainderParts(s: Session, x: seq<byte>)
    requires Inv(s) && s.reported.Some? && s.gone + Handed(s) == s.log && x == s.link.input + Join(s.wire)
    ensures Handed(s) == s.decoder.bytes + x && s.log == Pulled(s) + x
  {
    Regroup(Pulled(s), s.link.input, Join(s.wire));
    Regroup(s.gone, s.decoder.bytes, x);
    SameFront(s.gone, Handed(s), s.decoder.bytes + x);
  }

  lemma SameFront(a: seq<byte>, b: seq<byte>, c: seq<byte>)
    requires a + b == a + c
    ensures b == c
  {
    assert b == (a + b)[|a|..] && c == (a + c)[|a|..];
  }

  /** A chain, whatever it tears, starts outside a paste. */
  lemma {:induction false} ChainIsLimited(replay: seq<byte>, chain: seq<seq<Event>>, now: int)
    requires Hands(replay, chain) && ChainAtInstant(chain, now)
    ensures Limited(replay + AllTyped(chain), Decoded(replay, chain))
    decreases |chain|
  {
    if chain == [] {
      assert replay + [] == replay;
      DrainIsLimited(replay);
      var d := C.Drain(C.START.Plus(replay));
      assert [] + d.events == d.events;
    } else {
      var s, later := Run(Begin(replay), chain[0]), AllTyped(chain[1..]);
      var x := Remainder(replay, chain[0], later);
      DecodedUnfolds(replay, chain);
      SessionSoFar(replay, chain[0], now);
      ChainIsLimited(Handed(s), chain[1..], now);
      FirstSession(s, Emitted(replay, chain[0]), Decoded(Handed(s), chain[1..]), Handed(s) + later, x + later);
    }
  }

  lemma FirstSession(s: Session, emitted: seq<D.Event>, d: C.Drained, b: seq<byte>, c: seq<byte>)
    requires SoFar(s.gone, ModeOf(s), emitted) && Limited(b, d) && s.gone + b == Pulled(s) + c
    ensures Limited(s.gone + b, After(emitted, d))
  {
    if emitted == [] {
      assert emitted + d.events == d.events;
      if s.gone == [] {
        assert s.gone + b == b;
      } else {
        LimitedBehindIntroducer(b, d);
      }
    } else {
      LimitedInFront(Pulled(s), c, C.Drained(emitted, ModeOf(s)));
      assert (emitted + d.events)[0] == emitted[0];
    }
  }

  // ----- The theorem --------------------------------------------------------------------------

  lemma AfterIsInjective(e: seq<D.Event>, a: C.Drained, b: C.Drained)
    ensures After(e, a) == After(e, b) <==> a == b
  {
    assert (e + a.events)[|e|..] == a.events && (e + b.events)[|e|..] == b.events;
  }

  lemma DifferAt(emitted: seq<D.Event>, d: C.Drained, all: C.Drained, k: nat)
    requires k < |emitted| && emitted[k].Key? && k < |all.events| && all.events[k].Paste?
    ensures After(emitted, d) != all
  {
    assert (emitted + d.events)[k] == emitted[k];
  }

  /** Over any chain of handoffs within the window, of a stream whose pastes are all closed: the
      events are those of the whole stream, decoded at once, if and only if no session tears a paste
      and none hands off inside one. */
  lemma {:induction false} ChainKeepsEvents(replay: seq<byte>, chain: seq<seq<Event>>, now: int)
    requires Hands(replay, chain) && ChainAtInstant(chain, now)
    requires C.Clean(C.START.Plus(replay + AllTyped(chain)))
    ensures Decoded(replay, chain) == C.Drain(C.START.Plus(replay + AllTyped(chain))) <==> IsFaithful(replay, chain)
    decreases |chain|, 1
  {
    if chain == [] {
      assert replay + [] == replay;
      var d := C.Drain(C.START.Plus(replay));
      assert [] + d.events == d.events;
    } else {
      var s, later := Run(Begin(replay), chain[0]), AllTyped(chain[1..]);
      var x := Remainder(replay, chain[0], later);
      DecodedUnfolds(replay, chain);
      if NoTear(replay, chain[0]) {
        SessionContinues(replay, chain[0], now, x + later);
        Regroup(s.decoder.bytes, x, later);
        assert ModeOf(s).Plus(x + later) == C.Mode(Handed(s) + later, s.decoder.paste);
        UntornSession(replay, chain, now, s, later);
      } else {
        var k := TearIsSeen(replay, chain[0], now, x + later);
        DifferAt(Emitted(replay, chain[0]), Decoded(Handed(s), chain[1..]),
                 C.Drain(C.START.Plus(replay + AllTyped(chain))), k);
      }
    }
  }

  lemma {:induction false} UntornSession(replay: seq<byte>, chain: seq<seq<Event>>, now: int, s: Session, later: seq<byte>)
    requires Hands(replay, chain) && ChainAtInstant(chain, now) && chain != [] && NoTear(replay, chain[0])
    requires s == Run(Begin(replay), chain[0]) && later == AllTyped(chain[1..])
    requires var m := C.Mode(Handed(s) + later, s.decoder.paste);
             && C.Clean(m)
             && C.Drain(C.START.Plus(replay + AllTyped(chain))) == After(Emitted(replay, chain[0]), C.Drain(m))
    ensures Decoded(replay, chain) == C.Drain(C.START.Plus(replay + AllTyped(chain))) <==> IsFaithful(replay, chain)
    decreases |chain|, 0
  {
    DecodedUnfolds(replay, chain);
    AfterIsInjective(Emitted(replay, chain[0]), Decoded(Handed(s), chain[1..]),
                     C.Drain(C.Mode(Handed(s) + later, s.decoder.paste)));
    if s.decoder.paste {
      ChainIsLimited(Handed(s), chain[1..], now);
      InsideIsNotLimited(Handed(s) + later);
    } else {
      assert C.START.Plus(Handed(s) + later) == C.Mode(Handed(s) + later, false);
      ChainKeepsEvents(Handed(s), chain[1..], now);
    }
  }

  // ----- It happens ---------------------------------------------------------------------------

  lemma RunPush(s: Session, events: seq<Event>, e: Event)
    ensures Run(s, events + [e]) == Step(Run(s, events), e)
  {
    assert (events + [e])[..|events|] == events;
  }

  lemma IntroducerAlone()
    ensures C.Step(C.Mode(D.PASTE_START, false)) == C.Outcome(None, C.Mode([], true))
  {
    var m := C.Mode(D.PASTE_START, false);
    assert m.bytes[6..] == [];
    C.StepOnPaste(m);
    assert [] < D.CANDIDATES[1];
  }

  lemma IntroducerIsDecoded(s: Session)
    requires s.unconsumed.None? && s.decoder == D.State(D.PASTE_START, false, None) && s.gone == []
    ensures var t := Step(s, Decode(0));
            && t.unconsumed.None? && t.reported == s.reported && t.log == s.log
            && t.decoder.paste && t.gone == D.PASTE_START
  {
    IntroducerAlone();
    DecodeIs(s, 0);
    assert Pulled(s) == D.PASTE_START;
    assert Step(s, Decode(0)).gone + [] == Step(s, Decode(0)).gone;
  }

  /** A runtime that closes between the two ends of a paste hands off inside it: everything it was
      sent is consumed, and its successor starts outside a paste. */
  lemma PasteIsHandedOff() returns (events: seq<Event>)
    ensures var s := Run(Begin([]), events);
            && AtInstant(events, 0) && s.reported.Some? && Backlog(s) == 0 && Handed(s) == [] && s.decoder.paste
  {
    var start := [Type(D.PASTE_START), Deliver, Pull];
    TypedAndPulled();
    var s3 := Run(Begin([]), start);
    IntroducerIsDecoded(s3);
    RunPush(Begin([]), start, Decode(0));
    ClosesAfter(start + [Decode(0)]);
    events := start + [Decode(0)] + [Measure] + [CloseLink];
  }

  lemma TypedAndPulled()
    ensures var s := Run(Begin([]), [Type(D.PASTE_START), Deliver, Pull]);
            && s.unconsumed.None? && s.reported.None? && s.decoder == D.State(D.PASTE_START, false, None)
            && s.gone == [] && s.log == D.PASTE_START
  {
    var a, b, c := Type(D.PASTE_START), Deliver, Pull;
    assert [] + [a] == [a] && [a] + [b] == [a, b] && [a, b] + [c] == [a, b, c];
    RunPush(Begin([]), [], a);
    RunPush(Begin([]), [a], b);
    RunPush(Begin([]), [a, b], c);
    assert [] + D.PASTE_START == D.PASTE_START;
  }

  /** Everything sent has been consumed when the runtime closes. */
  lemma ClosesAfter(events: seq<Event>)
    requires var s := Run(Begin([]), events);
             s.unconsumed.None? && s.reported.None? && s.gone == s.log && s.decoder.paste
    ensures var s := Run(Begin([]), events + [Measure] + [CloseLink]);
            s.reported.Some? && Backlog(s) == 0 && Handed(s) == [] && s.decoder.paste
  {
    RunPush(Begin([]), events, Measure);
    RunPush(Begin([]), events + [Measure], CloseLink);
    RunKeepsInv([], events + [Measure] + [CloseLink]);
    HandoffConservesInput([], events + [Measure] + [CloseLink]);
    var s := Run(Begin([]), events + [Measure] + [CloseLink]);
    assert s.gone + Handed(s) == s.log && |s.gone + Handed(s)| == |s.gone| + |Handed(s)|;
  }
}
