/** The escape timer over whole sessions: crates/tea-agent/src/terminal.rs.

    A lone escape should be held for 30 ms before it is reported as a key. The timer is not always
    cleared when the bytes it was set for are consumed, and a later escape then meets an old one. */
module EscapeTimer {
  import opened Wrappers
  import opened Utf8
  import opened InputDecoder
  import opened Chunking

  // ----- One call -----------------------------------------------------------------------------

  predicate IsAlt(e: Option<Event>) {
    e.Some? && e.value.Key? && e.value.modifier == Alt
  }

  /** An event that leaves the timer as it was. */
  predicate IsStale(d: State, now: int) {
    Next(d, now).event.Some? && (d.paste || IsAlt(Next(d, now).event))
  }

  /** A call that returns nothing because it holds an escape. */
  predicate Holds(d: State, now: int) {
    Next(d, now).event.None? && !d.paste && d.bytes != [] && d.bytes[0] == ESC
  }

  /** A call that returns nothing and looks at no key: inside a paste, or on an empty buffer. */
  predicate Idles(d: State, now: int) {
    Next(d, now).event.None? && (d.paste || d.bytes == [])
  }

  lemma PartialHasNoAltByte(b: seq<byte>)
    requires IsPartial(b) && |b| >= 2
    ensures !IsAltByte(b[1])
  {
    var k :| 0 <= k < COUNT && b < CANDIDATES[k];
    CandidateShape(k);
  }

  lemma UnrecognisedTimer(d: State, now: int)
    ensures var r := Unrecognised(d, now);
            r.next.deadline == if r.event.None? then Some(Deadline(d, now))
                               else if IsAlt(r.event) then d.deadline else None
  {
    if IsPartial(d.bytes) && |d.bytes| >= 2 {
      PartialHasNoAltByte(d.bytes);
    }
  }

  lemma EscapeTimerAfter(d: State, now: int)
    requires d.bytes != [] && d.bytes[0] == ESC
    ensures var r := EscapeStep(d, now);
            r.next.deadline == if r.event.None? then Some(Deadline(d, now))
                               else if IsAlt(r.event) then d.deadline else None
  {
    if |d.bytes| > 1 {
      match MatchFrom(d.bytes, 0)
      case None => UnrecognisedTimer(d, now);
      case Some(i) => UnrecognisedTimer(d.(bytes := d.bytes[|CANDIDATES[i]|..], paste := true), now);
    }
  }

  /** Exactly what a call does to the timer: a stale event and an idle call keep it, holding an
      escape sets it if it was not set, and everything else clears it. */
  lemma TimerAfter(d: State, now: int)
    ensures Next(d, now).next.deadline ==
            if IsStale(d, now) || Idles(d, now) then d.deadline
            else if Holds(d, now) then Some(Deadline(d, now))
            else None
  {
    if !d.paste && d.bytes != [] && d.bytes[0] == ESC {
      EscapeTimerAfter(d, now);
    }
  }

  /** In particular an event leaves a timer behind if and only if one was set and the event was an
      Alt key or was decoded in paste mode. */
  lemma EventLeavesTimer(d: State, now: int)
    requires Next(d, now).event.Some?
    ensures Next(d, now).next.deadline.Some? <==>
            d.deadline.Some? && (d.paste || IsAlt(Next(d, now).event))
  {
    TimerAfter(d, now);
  }

  // ----- Sessions -----------------------------------------------------------------------------

  /** Bytes arrive, or the decoder is asked for an event. */
  datatype Op = Arrive(bytes: seq<byte>) | Call(now: int)

  function Do(d: State, op: Op): State {
    match op
    case Arrive(bytes) => d.(bytes := d.bytes + bytes)
    case Call(now) => Next(d, now).next
  }

  function After(ops: seq<Op>): State {
    if ops == [] then State([], false, None) else Do(After(ops[..|ops| - 1]), ops[|ops| - 1])
  }

  /** What one operation is to the timer. */
  datatype Effect = Keep | Stale | Hold(at: int) | Reset

  function EffectOf(d: State, op: Op): Effect {
    if op.Arrive? then Keep
    else if IsStale(d, op.now) then Stale
    else if Idles(d, op.now) then Keep
    else if Holds(d, op.now) then Hold(op.now)
    else Reset
  }

  function Effects(ops: seq<Op>): (es: seq<Effect>)
    ensures |es| == |ops|
  {
    if ops == [] then [] else Effects(ops[..|ops| - 1]) + [EffectOf(After(ops[..|ops| - 1]), ops[|ops| - 1])]
  }

  /** The timer as a history of effects leaves it. */
  function Timer(es: seq<Effect>): Option<int> {
    if es == [] then None
    else
      var before, e := Timer(es[..|es| - 1]), es[|es| - 1];
      if e.Reset? then None else if e.Hold? && before.None? then Some(e.at + 30) else before
  }

  lemma EffectIsTheTimer(d: State, op: Op)
    ensures Do(d, op).deadline ==
            var e := EffectOf(d, op);
            if e.Reset? then None else if e.Hold? && d.deadline.None? then Some(e.at + 30) else d.deadline
  {
    if op.Call? {
      TimerAfter(d, op.now);
    }
  }

  lemma {:induction false} TimerOfSession(ops: seq<Op>)
    ensures After(ops).deadline == Timer(Effects(ops))
  {
    if ops == [] {
    } else {
      TimerOfSession(ops[..|ops| - 1]);
      OneMoreEffect(After(ops[..|ops| - 1]), ops[|ops| - 1], Effects(ops[..|ops| - 1]));
    }
  }

  lemma OneMoreEffect(d: State, op: Op, es: seq<Effect>)
    requires d.deadline == Timer(es)
    ensures Do(d, op).deadline == Timer(es + [EffectOf(d, op)])
  {
    EffectIsTheTimer(d, op);
    TimerPush(es, EffectOf(d, op));
  }

  lemma TimerPush(es: seq<Effect>, e: Effect)
    ensures Timer(es + [e]) ==
            if e.Reset? then None else if e.Hold? && Timer(es).None? then Some(e.at + 30) else Timer(es)
  {
    assert (es + [e])[..|es|] == es;
  }

  // ----- Who set the timer --------------------------------------------------------------------

  /** Operation `k` set the timer, and nothing has cleared it since. */
  predicate SetBy(es: seq<Effect>, k: nat) {
    && k < |es| && es[k].Hold? && Timer(es[..k]).None?
    && forall m :: k < m < |es| ==> !es[m].Reset?
  }

  lemma {:induction false} SetTimerIsTheTimer(es: seq<Effect>, k: nat)
    requires SetBy(es, k)
    ensures Timer(es) == Some(es[k].at + 30)
    decreases |es|
  {
    var init := es[..|es| - 1];
    if k == |es| - 1 {
    } else {
      assert init[..k] == es[..k];
      SetTimerIsTheTimer(init, k);
    }
  }

  lemma {:induction false} TimerWasSet(es: seq<Effect>) returns (k: nat)
    requires Timer(es).Some?
    ensures SetBy(es, k) && Timer(es) == Some(es[k].at + 30)
  {
    var init := es[..|es| - 1];
    if Timer(init).Some? {
      k := TimerWasSet(init);
      assert init[..k] == es[..k];
    } else {
      k := |es| - 1;
    }
  }

  // ----- Something stale was decoded in between -----------------------------------------------

  /** Undecoded bytes, or an open paste. */
  predicate IsBusy(d: State) {
    d.bytes != [] || d.paste
  }

  lemma HeldStaysBusy(d: State, now: int)
    requires Holds(d, now)
    ensures IsBusy(Next(d, now).next)
  {
    if |d.bytes| > 1 {
      var m := MatchFrom(d.bytes, 0);
    }
  }

  lemma EffectKeepsBusy(d: State, op: Op)
    ensures EffectOf(d, op).Hold? || (EffectOf(d, op).Keep? && IsBusy(d)) ==> IsBusy(Do(d, op))
  {
    if op.Call? && Holds(d, op.now) {
      HeldStaysBusy(d, op.now);
    }
  }

  lemma BusyBefore(d: State, op: Op)
    requires !IsBusy(Do(d, op)) && (EffectOf(d, op).Keep? || EffectOf(d, op).Hold?)
    ensures !IsBusy(d) && EffectOf(d, op).Keep?
  {
    EffectKeepsBusy(d, op);
  }

  /** A held escape is there until an event consumes it: by a stale event, or clearing the timer. */
  lemma {:induction false} StaleAfterSet(ops: seq<Op>, k: nat) returns (j: nat)
    requires SetBy(Effects(ops), k) && !IsBusy(After(ops))
    ensures k < j < |ops| && Effects(ops)[j].Stale?
    decreases |ops|
  {
    var n := |ops| - 1;
    StaleOrEarlier(After(ops[..n]), ops[n], Effects(ops[..n]), k);
    if SetBy(Effects(ops[..n]), k) && !IsBusy(After(ops[..n])) {
      j := StaleAfterSet(ops[..n], k);
    } else {
      j := n;
    }
  }

  lemma StaleOrEarlier(d: State, op: Op, es: seq<Effect>, k: nat)
    requires SetBy(es + [EffectOf(d, op)], k) && !IsBusy(Do(d, op))
    ensures (SetBy(es, k) && !IsBusy(d)) || (k < |es| && EffectOf(d, op).Stale?)
  {
    SetEarlier(es, EffectOf(d, op), k);
    if !EffectOf(d, op).Stale? {
      BusyBefore(d, op);
    }
  }

  lemma SetEarlier(es: seq<Effect>, e: Effect, k: nat)
    requires SetBy(es + [e], k)
    ensures !e.Reset? && (e.Hold? || SetBy(es, k))
    ensures !e.Hold? ==> k < |es|
  {
    assert (es + [e])[|es|] == e;
    assert (es + [e])[..k] == es[..k];
    assert forall m :: 0 <= m < |es| ==> (es + [e])[m] == es[m];
  }

  // ----- The theorem --------------------------------------------------------------------------

  /** Call `k` set the timer, the event of call `j`, an Alt key or one decoded in paste mode, left it
      behind, and nothing cleared it. */
  predicate IsLeftBy(es: seq<Effect>, k: nat, j: nat) {
    SetBy(es, k) && k < j < |es| && es[j].Stale?
  }

  /** And it has expired. */
  predicate LeftBehind(es: seq<Effect>, k: nat, j: nat, now: int) {
    IsLeftBy(es, k, j) && es[k].at + 30 <= now
  }

  lemma LoneEscapeArrives(ops: seq<Op>, now: int)
    requires !IsBusy(After(ops))
    ensures Next(After(ops + [Arrive([ESC])]), now).event.None? <==> now < Deadline(After(ops), now)
  {
    assert (ops + [Arrive([ESC])])[..|ops|] == ops;
    assert [] + [ESC] == [ESC];
  }

  lemma TimerIsLeftBehind(ops: seq<Op>) returns (k: nat, j: nat)
    requires !IsBusy(After(ops)) && Timer(Effects(ops)).Some?
    ensures IsLeftBy(Effects(ops), k, j)
  {
    k := TimerWasSet(Effects(ops));
    j := StaleAfterSet(ops, k);
  }

  /** After any session that has decoded everything, a lone escape is held if and only if no Alt key
      and no event in paste mode left an expired timer behind. */
  lemma LoneEscapeIsHeld(ops: seq<Op>, now: int)
    requires !IsBusy(After(ops))
    ensures Next(After(ops + [Arrive([ESC])]), now).event.None? <==>
            !exists k: nat, j: nat :: LeftBehind(Effects(ops), k, j, now)
  {
    LoneEscapeArrives(ops, now);
    TimerOfSession(ops);
    if Timer(Effects(ops)).Some? {
      var k, j := TimerIsLeftBehind(ops);
      LeftTimer(Effects(ops), k, j, now);
    } else {
      NoTimer(Effects(ops), now);
    }
  }

  lemma NoTimer(es: seq<Effect>, now: int)
    requires Timer(es).None?
    ensures !exists k: nat, j: nat :: LeftBehind(es, k, j, now)
  {
    forall k: nat, j: nat
      ensures !LeftBehind(es, k, j, now)
    {
      if SetBy(es, k) {
        SetTimerIsTheTimer(es, k);
      }
    }
  }

  lemma LeftTimer(es: seq<Effect>, k: nat, j: nat, now: int)
    requires IsLeftBy(es, k, j)
    ensures Timer(es).Some?
    ensures Timer(es).value <= now <==> exists k: nat, j: nat :: LeftBehind(es, k, j, now)
  {
    SetTimerIsTheTimer(es, k);
    assert Timer(es).value <= now ==> LeftBehind(es, k, j, now);
    forall k: nat, j: nat | LeftBehind(es, k, j, now)
      ensures Timer(es) == Some(es[k].at + 30)
    {
      SetTimerIsTheTimer(es, k);
    }
  }

  // ----- Both kinds of event do it ------------------------------------------------------------

  /** Held at 0, completed to an Alt key at 10: a lone escape at 30 or later is reported at once. */
  lemma AltLeavesTimer(later: int)
    requires later >= 30
    ensures var held := Next(State([ESC], false, None), 0);
            var alt := Next(held.next.(bytes := [ESC, 'a' as int]), 10);
            && held.event == None && alt.event == Some(Key(Char('a' as int), Alt)) && !IsBusy(alt.next)
            && Next(alt.next.(bytes := [ESC]), later).event == Some(Key(Esc, Plain))
  {
    var b: seq<byte> := [ESC, 'a' as int];
    forall k | 0 <= k < COUNT
      ensures !(CANDIDATES[k] <= b) && !(b < CANDIDATES[k])
    {
      CandidateShape(k);
    }
  }

  /** A paste introducer at 0, its terminator at 10: likewise. */
  lemma PasteLeavesTimer(later: int)
    requires later >= 30
    ensures var held := Next(State(PASTE_START, false, None), 0);
            var pasted := Next(held.next.(bytes := PASTE_END), 10);
            && held.event == None && pasted.event == Some(Paste([])) && !IsBusy(pasted.next)
            && Next(pasted.next.(bytes := [ESC]), later).event == Some(Key(Esc, Plain))
  {
    CandidateShape(0);
    MatchIsUnique(PASTE_START, 0);
    assert PASTE_START[|PASTE_START|..] == [];
    assert [] < CANDIDATES[1];
    assert FindEnd([], 0).None?;
    assert PASTE_END[0..] == PASTE_END;
    assert FindEnd(PASTE_END, 0) == Some(0);
  }
}
