/** Events over a chain of handoffs, for any stream, unfinished pastes included:
    crates/tea-agent/src/detach.rs with the decoder of crates/tea-agent/src/terminal.rs. */
module HandoffExactly {
  import opened Wrappers
  import opened Utf8
  import opened Handoff
  import opened HandoffEvents
  import D = InputDecoder
  import C = Chunking
  import X = ChunkingExactly

  // ----- One session --------------------------------------------------------------------------

  /** Every call of the decoder does what it would do with the rest of the stream already there;
      `c` is what follows the input that reaches it in this session. */
  predicate GoodSession(replay: seq<byte>, events: seq<Event>, c: seq<byte>) {
    events == [] ||
    (var s, e := Run(Begin(replay), events[..|events| - 1]), events[|events| - 1];
     && GoodSession(replay, events[..|events| - 1], Fetched(s, e) + c)
     && (IsDecode(s, e) ==> X.StepGood(ModeOf(s), c)))
  }

  /** The events so far, followed by what the decoder would make of `c`, are those of the whole. */
  ghost predicate OnTrack(m: C.Mode, pulled: seq<byte>, emitted: seq<D.Event>, c: seq<byte>) {
    C.Drain(C.START.Plus(pulled + c)) == After(emitted, C.Drain(m.Plus(c)))
  }

  lemma GoodDecode(m: C.Mode, pulled: seq<byte>, emitted: seq<D.Event>, c: seq<byte>)
    requires X.StepGood(m, c) && OnTrack(m, pulled, emitted, c)
    ensures OnTrack(C.Step(m).next, pulled, emitted + EventOf(m), c)
  {
    var r := C.Step(m);
    X.GoodStep(m, c);
    if r.event.Some? {
      C.DrainUnfolds(m.Plus(c), r.event.value, r.next.Plus(c));
      assert emitted + ([r.event.value] + C.Drain(r.next.Plus(c)).events) ==
             emitted + [r.event.value] + C.Drain(r.next.Plus(c)).events;
    } else {
      assert emitted + [] == emitted;
    }
  }

  lemma FetchOnTrack(m: C.Mode, pulled: seq<byte>, emitted: seq<D.Event>, x: seq<byte>, c: seq<byte>)
    requires OnTrack(m, pulled, emitted, x + c)
    ensures OnTrack(m.Plus(x), pulled + x, emitted, c)
  {
    Regroup(pulled, x, c);
    PlusTwice(m, x, c);
  }

  lemma StepOnTrack(s: Session, e: Event, now: int, emitted: seq<D.Event>, c: seq<byte>)
    requires C.Unexpired(s.decoder, now) && (e.Decode? ==> e.now == now)
    requires OnTrack(ModeOf(s), Pulled(s), emitted, Fetched(s, e) + c)
    requires IsDecode(s, e) ==> X.StepGood(ModeOf(s), c)
    ensures OnTrack(ModeOf(Step(s, e)), Pulled(Step(s, e)), emitted + Emits(s, e), c)
  {
    if IsDecode(s, e) {
      DecodeIs(s, now);
      assert Fetched(s, e) + c == c;
      GoodDecode(ModeOf(s), Pulled(s), emitted, c);
    } else {
      OtherIs(s, e);
      FetchOnTrack(ModeOf(s), Pulled(s), emitted, Fetched(s, e), c);
      assert emitted + [] == emitted;
    }
  }

  lemma StartOnTrack(replay: seq<byte>, c: seq<byte>)
    ensures OnTrack(ModeOf(Begin(replay)), Pulled(Begin(replay)), [], c)
  {
    var d := C.Drain(C.START.Plus(c));
    assert [] + c == c && Pulled(Begin(replay)) == [] && [] + d.events == d.events;
  }

  lemma {:induction false} GoodSessionOnTrack(replay: seq<byte>, events: seq<Event>, now: int, c: seq<byte>)
    requires AtInstant(events, now) && GoodSession(replay, events, c)
    ensures var s := Run(Begin(replay), events); OnTrack(ModeOf(s), Pulled(s), Emitted(replay, events), c)
  {
    if events == [] {
      StartOnTrack(replay, c);
    } else {
      var init, e := events[..|events| - 1], events[|events| - 1];
      var s := Run(Begin(replay), init);
      TimerIsUnexpired(replay, init, now);
      GoodSessionOnTrack(replay, init, now, Fetched(s, e) + c);
      StepOnTrack(s, e, now, Emitted(replay, init), c);
    }
  }

  // ----- A session that goes wrong ------------------------------------------------------------

  /** Another event than the whole stream's. */
  predicate Differs(emitted: seq<D.Event>, all: C.Drained) {
    exists k :: 0 <= k < |emitted| && k < |all.events| && emitted[k] != all.events[k]
  }

  /** Waiting inside a paste that never ends, while the whole stream tears it and goes on. */
  ghost predicate Stalls(m: C.Mode, emitted: seq<D.Event>, all: C.Drained, c: seq<byte>) {
    && m.paste && D.FindEnd(m.bytes + c, 0).None?
    && |emitted| < |all.events| && all.residue.paste && |all.residue.bytes| + 2 >= |m.bytes + c|
  }

  ghost predicate Astray(m: C.Mode, pulled: seq<byte>, emitted: seq<D.Event>, c: seq<byte>) {
    var all := C.Drain(C.START.Plus(pulled + c));
    Differs(emitted, all) || Stalls(m, emitted, all, c)
  }

  lemma TornDrain(m: C.Mode)
    requires C.TornPaste(m)
    ensures C.Drain(m).events != [] && C.Drain(m).residue.paste
    ensures |C.Drain(m).residue.bytes| + 2 >= |X.Behind(m)|
  {
    X.TornStepIs(m);
    var rest := X.Behind(m);
    var n := X.TornBytes(rest);
    C.DrainUnfolds(m, X.TornKey(rest), C.Mode(rest[n..], true));
    X.NoEndBehind(rest, n);
    X.Silent(rest[n..]);
  }

  lemma BadDecode(m: C.Mode, pulled: seq<byte>, emitted: seq<D.Event>, c: seq<byte>)
    requires !X.StepGood(m, c) && OnTrack(m, pulled, emitted, c)
    ensures Astray(C.Step(m).next, pulled, emitted + EventOf(m), c)
  {
    X.BadStepShows(m, c);
    var tail := C.Drain(m.Plus(c));
    var all := C.Drain(C.START.Plus(pulled + c));
    assert all.events[|emitted|] == tail.events[0];
    if C.Step(m).event.Some? {
      assert (emitted + EventOf(m))[|emitted|] == C.Step(m).event.value;
    } else {
      X.NoEventIsNotTorn(m);
      X.PlusBehind(m, c);
      TornDrain(m.Plus(c));
      assert emitted + [] == emitted;
    }
  }

  lemma DiffersOnward(emitted: seq<D.Event>, more: seq<D.Event>, all: C.Drained)
    requires Differs(emitted, all)
    ensures Differs(emitted + more, all)
  {
    var k :| 0 <= k < |emitted| && k < |all.events| && emitted[k] != all.events[k];
    assert (emitted + more)[k] == emitted[k];
  }

  lemma StalledDecode(m: C.Mode, c: seq<byte>)
    requires m.paste && D.FindEnd(m.bytes + c, 0).None?
    ensures C.Step(m).next == m && EventOf(m) == []
  {
    X.NoEndInFront(m.bytes, c);
    C.StepOnPasteMode(m);
  }

  lemma AstrayDecode(m: C.Mode, pulled: seq<byte>, emitted: seq<D.Event>, c: seq<byte>)
    requires Astray(m, pulled, emitted, c)
    ensures Astray(C.Step(m).next, pulled, emitted + EventOf(m), c)
  {
    var all := C.Drain(C.START.Plus(pulled + c));
    if Differs(emitted, all) {
      DiffersOnward(emitted, EventOf(m), all);
    } else {
      StalledDecode(m, c);
      assert emitted + [] == emitted;
    }
  }

  lemma AstrayFetch(m: C.Mode, pulled: seq<byte>, emitted: seq<D.Event>, x: seq<byte>, c: seq<byte>)
    requires Astray(m, pulled, emitted, x + c)
    ensures Astray(m.Plus(x), pulled + x, emitted, c)
  {
    Regroup(pulled, x, c);
    Regroup(m.bytes, x, c);
  }

  lemma AstrayStep(s: Session, e: Event, now: int, emitted: seq<D.Event>, c: seq<byte>)
    requires C.Unexpired(s.decoder, now) && (e.Decode? ==> e.now == now)
    requires Astray(ModeOf(s), Pulled(s), emitted, Fetched(s, e) + c)
             || (IsDecode(s, e) && !X.StepGood(ModeOf(s), c) && OnTrack(ModeOf(s), Pulled(s), emitted, Fetched(s, e) + c))
    ensures Astray(ModeOf(Step(s, e)), Pulled(Step(s, e)), emitted + Emits(s, e), c)
  {
    if IsDecode(s, e) {
      DecodeIs(s, now);
      assert Fetched(s, e) + c == c;
      if Astray(ModeOf(s), Pulled(s), emitted, c) {
        AstrayDecode(ModeOf(s), Pulled(s), emitted, c);
      } else {
        BadDecode(ModeOf(s), Pulled(s), emitted, c);
      }
    } else {
      OtherIs(s, e);
      AstrayFetch(ModeOf(s), Pulled(s), emitted, Fetched(s, e), c);
      assert emitted + [] == emitted;
    }
  }

  lemma {:induction false} BadSessionIsAstray(replay: seq<byte>, events: seq<Event>, now: int, c: seq<byte>)
    requires AtInstant(events, now) && !GoodSession(replay, events, c)
    ensures var s := Run(Begin(replay), events); Astray(ModeOf(s), Pulled(s), Emitted(replay, events), c)
    decreases |events|
  {
    var init, e := events[..|events| - 1], events[|events| - 1];
    var s := Run(Begin(replay), init);
    TimerIsUnexpired(replay, init, now);
    if GoodSession(replay, init, Fetched(s, e) + c) {
      GoodSessionOnTrack(replay, init, now, Fetched(s, e) + c);
    } else {
      BadSessionIsAstray(replay, init, now, Fetched(s, e) + c);
    }
    AstrayStep(s, e, now, Emitted(replay, init), c);
  }

  // ----- What entering a paste costs ----------------------------------------------------------

  function Cost(m: C.Mode): nat {
    if m.paste then 0 else 6
  }

  lemma StepCosts(m: C.Mode)
    ensures C.Step(m).next.paste ==> |C.Step(m).next.bytes| + Cost(m) <= |m.bytes|
  {
    C.EventsConsume(m);
    if m.paste {
      C.StepOnPasteMode(m);
    } else if C.TornPaste(m) {
      X.TornStepIs(m);
    } else {
      OutsideStaysOutside(m);
    }
  }

  lemma OutsideStaysOutside(m: C.Mode)
    requires !m.paste && !C.TornPaste(m)
    ensures C.Step(m).next.paste ==> |C.Step(m).next.bytes| + 6 <= |m.bytes|
  {
    if m.bytes == [] || (|m.bytes| == 1 && m.bytes[0] == D.ESC) {
    } else if m.bytes[0] != D.ESC {
      C.StepOnPlain(m, []);
    } else {
      match D.MatchFrom(m.bytes, 0)
      case None => C.StepOnOther(m);
      case Some(i) => if i == 0 { C.StepOnPaste(m); } else { C.StepOnKey(m, i); }
    }
  }

  /** A decoder that ends inside a paste it did not start in has consumed an introducer. */
  lemma {:induction false} DrainCosts(m: C.Mode)
    ensures C.Drain(m).residue.paste ==> |C.Drain(m).residue.bytes| + Cost(m) <= |m.bytes|
    decreases |m.bytes|
  {
    C.EventsConsume(m);
    StepCosts(m);
    var r := C.Step(m);
    if r.event.Some? {
      C.DrainUnfolds(m, r.event.value, r.next);
      DrainCosts(r.next);
    }
  }

  lemma ChainCosts(replay: seq<byte>, chain: seq<seq<Event>>)
    requires Hands(replay, chain)
    ensures var r := Decoded(replay, chain).residue; r.paste ==> |r.bytes| + 6 <= |replay + AllTyped(chain)|
  {
    ChainConservesInput(replay, chain);
    var last := LastReplay(replay, chain);
    assert |AllGone(replay, chain) + last| == |AllGone(replay, chain)| + |last|;
    assert C.START.Plus(last).bytes == last;
    DrainCosts(C.START.Plus(last));
  }

  // ----- The theorem --------------------------------------------------------------------------

  /** In every session each call of the decoder does what it would do with the rest of the stream
      already there, and no session hands off inside a paste. */
  ghost predicate IsGood(replay: seq<byte>, chain: seq<seq<Event>>)
    requires Hands(replay, chain)
    decreases |chain|
  {
    chain == []
    || (var s := Run(Begin(replay), chain[0]);
        && GoodSession(replay, chain[0], Waiting(s) + AllTyped(chain[1..]))
        && !s.decoder.paste && IsGood(Handed(s), chain[1..]))
  }

  lemma AstrayChain(s: Session, emitted: seq<D.Event>, d: C.Drained, c: seq<byte>)
    requires Astray(ModeOf(s), Pulled(s), emitted, c)
    requires d.residue.paste ==> |d.residue.bytes| + 6 <= |s.decoder.bytes + c|
    ensures After(emitted, d) != C.Drain(C.START.Plus(Pulled(s) + c))
  {
    var all := C.Drain(C.START.Plus(Pulled(s) + c));
    if Differs(emitted, all) {
      var k :| 0 <= k < |emitted| && k < |all.events| && emitted[k] != all.events[k];
      assert (emitted + d.events)[k] == emitted[k];
    }
  }

  /** Over any chain of handoffs within the window, for every stream: the events, and what is left to
      decode, are those of the whole stream decoded at once if and only if no call of a decoder tears
      a paste differently from the whole or waits inside one that the whole tears, and no session
      hands off inside a paste. */
  lemma {:induction false} ChainExactly(replay: seq<byte>, chain: seq<seq<Event>>, now: int)
    requires Hands(replay, chain) && ChainAtInstant(chain, now)
    ensures Decoded(replay, chain) == C.Drain(C.START.Plus(replay + AllTyped(chain))) <==> IsGood(replay, chain)
    decreases |chain|, 1
  {
    if chain == [] {
      assert replay + [] == replay;
      var d := C.Drain(C.START.Plus(replay));
      assert [] + d.events == d.events;
    } else {
      var s, later := Run(Begin(replay), chain[0]), AllTyped(chain[1..]);
      var x := Remainder(replay, chain[0], later);
      DecodedUnfolds(replay, chain);
      Regroup(s.decoder.bytes, x, later);
      if GoodSession(replay, chain[0], x + later) {
        GoodSessionOnTrack(replay, chain[0], now, x + later);
        assert ModeOf(s).Plus(x + later) == C.Mode(Handed(s) + later, s.decoder.paste);
        AfterGoodSession(replay, chain, now, s, later);
      } else {
        BadSessionIsAstray(replay, chain[0], now, x + later);
        ChainCosts(Handed(s), chain[1..]);
        AstrayChain(s, Emitted(replay, chain[0]), Decoded(Handed(s), chain[1..]), x + later);
      }
    }
  }

  lemma {:induction false} AfterGoodSession(replay: seq<byte>, chain: seq<seq<Event>>, now: int, s: Session, later: seq<byte>)
    requires Hands(replay, chain) && ChainAtInstant(chain, now) && chain != []
    requires s == Run(Begin(replay), chain[0]) && later == AllTyped(chain[1..])
    requires GoodSession(replay, chain[0], Waiting(s) + later)
    requires C.Drain(C.START.Plus(replay + AllTyped(chain))) ==
             After(Emitted(replay, chain[0]), C.Drain(C.Mode(Handed(s) + later, s.decoder.paste)))
    ensures Decoded(replay, chain) == C.Drain(C.START.Plus(replay + AllTyped(chain))) <==> IsGood(replay, chain)
    decreases |chain|, 0
  {
    DecodedUnfolds(replay, chain);
    AfterIsInjective(Emitted(replay, chain[0]), Decoded(Handed(s), chain[1..]),
                     C.Drain(C.Mode(Handed(s) + later, s.decoder.paste)));
    if s.decoder.paste {
      ChainIsLimited(Handed(s), chain[1..], now);
      InsideIsNotLimited(Handed(s) + later);
    } else {
      assert C.START.Plus(Handed(s) + later) == C.Mode(Handed(s) + later, false);
      ChainExactly(Handed(s), chain[1..], now);
    }
  }
}
