/** Conservation of terminal input across runtime handoffs: crates/tea-agent/src/detach.rs with the
    decoder of crates/tea-agent/src/terminal.rs.

    One session is a relay, a FIFO connection, a runtime link and a decoder. A closing runtime
    reports how much it consumed; the relay replays the rest to the next runtime. */
module Handoff {
  import opened Wrappers
  import opened Utf8
  import opened RemoteLink
  import InputDecoder

  // ----- The relay ----------------------------------------------------------------------------

  /** How much recently sent input the relay retains. */
  const WINDOW: nat := 64 * 1024

  datatype RelayState = RelayState(sent: seq<byte>, base: nat)

  /** The retained tail of everything sent, and the offset of its first byte. */
  function Retained(log: seq<byte>): RelayState {
    var base := if |log| > WINDOW then |log| - WINDOW else 0;
    RelayState(log[base..], base)
  }

  /** `resolve` for a closing runtime that asked for a handoff. */
  function Replay(r: RelayState, consumed: nat): seq<byte> {
    if consumed >= r.base then Skip(r.sent, consumed - r.base) else []
  }

  function Skip(s: seq<byte>, n: nat): seq<byte> {
    if n <= |s| then s[n..] else []
  }

  class Relay {
    var sent: seq<byte>
    var sentBase: nat

    function View(): RelayState
      reads this
    {
      RelayState(sent, sentBase)
    }

    constructor ()
      ensures View() == Retained([])
    {
      sent, sentBase := [], 0;
    }

    /** The recording closure: append, then drop from the front while over the window. */
    method Record(bytes: seq<byte>, ghost log: seq<byte>)
      requires View() == Retained(log)
      modifies this
      ensures View() == Retained(log + bytes)
    {
      sent := sent + bytes;
      ghost var all := log + bytes;
      while |sent| > WINDOW
        invariant sentBase + |sent| == |all| && sent == all[sentBase..]
        invariant sentBase > 0 ==> |sent| >= WINDOW
        decreases |sent|
      {
        sent := sent[1..];
        sentBase := sentBase + 1;
      }
    }

    method Resolve(handoff: bool, consumed: nat) returns (replay: seq<byte>)
      ensures replay == if handoff then Replay(View(), consumed) else []
    {
      replay := [];
      if handoff && consumed >= sentBase {
        replay := Skip(sent, consumed - sentBase);
      }
    }
  }

  // ----- One session --------------------------------------------------------------------------

  /** `log` is every byte the relay sent in this session; `gone` is every byte that left the
      decoder; `wire` holds the INPUT payloads in flight. */
  datatype Session = Session(
    log: seq<byte>, relay: RelayState, wire: seq<seq<byte>>,
    link: LinkState, decoder: InputDecoder.State, gone: seq<byte>,
    unconsumed: Option<nat>, reported: Option<nat>)

  datatype Event =
    | Type(bytes: seq<byte>)      // the relay records and sends terminal input
    | Deliver                     // the serve thread reads one INPUT frame
    | Pull                        // the application takes the queued input
    | Decode(now: int)            // the application asks the decoder for an event
    | Measure                     // the event loop ends; undecoded bytes are counted
    | CloseLink                   // the runtime closes and reports what it consumed

  function Begin(replay: seq<byte>): Session {
    Session(replay, Retained(replay), if replay == [] then [] else [replay],
            Attach(INITIAL, 0), InputDecoder.State([], false, None), [], None, None)
  }

  /** Once the undecoded bytes have been counted the application takes and decodes nothing more.
      Steps that are not enabled leave the session unchanged. */
  function Step(s: Session, e: Event): Session {
    match e
    case Type(bytes) =>
      s.(log := s.log + bytes, relay := Retained(s.log + bytes), wire := s.wire + [bytes])
    case Deliver =>
      if s.wire == [] then s
      else s.(wire := s.wire[1..], link := ReceiveInput(s.link, s.wire[0]))
    case Pull =>
      if s.unconsumed.Some? then s
      else s.(link := TakeInput(s.link),
              decoder := s.decoder.(bytes := s.decoder.bytes + s.link.input))
    case Decode(now) =>
      if s.unconsumed.Some? then s
      else
        var next := InputDecoder.Next(s.decoder, now).next;
        s.(decoder := next, gone := s.gone + Removed(s.decoder.bytes, next.bytes))
    case Measure =>
      if s.unconsumed.Some? then s else s.(unconsumed := Some(|s.decoder.bytes|))
    case CloseLink =>
      if s.unconsumed.None? || s.reported.Some? then s
      else s.(link := Close(s.link), reported := Some(Consumed(s.link, s.unconsumed.value)))
  }

  /** The bytes taken from the front of `before` to leave something of the length of `after`. */
  function Removed(before: seq<byte>, after: seq<byte>): seq<byte> {
    if |after| <= |before| then before[..|before| - |after|] else []
  }

  function Run(s: Session, events: seq<Event>): Session {
    if events == [] then s else Step(Run(s, events[..|events| - 1]), events[|events| - 1])
  }

  function Join(wire: seq<seq<byte>>): seq<byte> {
    if wire == [] then [] else wire[0] + Join(wire[1..])
  }

  // ----- The invariant ------------------------------------------------------------------------

  /** Every byte sent is in exactly one place, in order, and the link's counter agrees. */
  ghost predicate Inv(s: Session) {
    && s.log == s.gone + s.decoder.bytes + s.link.input + Join(s.wire)
    && s.link.received == |s.gone| + |s.decoder.bytes| + |s.link.input|
    && s.relay == Retained(s.log)
    && (s.unconsumed.Some? ==> s.unconsumed.value == |s.decoder.bytes|)
    && (s.reported.Some? ==> s.unconsumed.Some? && s.reported.value == |s.gone|)
  }

  lemma {:induction false} JoinAppend(wire: seq<seq<byte>>, bytes: seq<byte>)
    ensures Join(wire + [bytes]) == Join(wire) + bytes
  {
    if wire == [] {
      assert wire + [bytes] == [bytes];
    } else {
      assert (wire + [bytes])[1..] == wire[1..] + [bytes];
      JoinAppend(wire[1..], bytes);
    }
  }

  /** Moving bytes between adjacent places keeps the whole. */
  lemma MoveAcross(a: seq<byte>, b: seq<byte>, c: seq<byte>, d: seq<byte>, n: nat)
    requires n <= |b|
    ensures a + b + c + d == (a + b[..n]) + b[n..] + c + d
  {
    assert b == b[..n] + b[n..];
  }

  lemma StepKeepsInv(s: Session, e: Event)
    requires Inv(s)
    ensures Inv(Step(s, e))
  {
    match e
    case Type(bytes) =>
      JoinAppend(s.wire, bytes);
      Regroup(s.gone + s.decoder.bytes + s.link.input, Join(s.wire), bytes);
    case Deliver =>
      if s.wire != [] {
        Regroup(s.gone + s.decoder.bytes, s.link.input, s.wire[0]);
        Regroup(s.gone + s.decoder.bytes + s.link.input, s.wire[0], Join(s.wire[1..]));
      }
    case Pull =>
      if s.unconsumed.None? {
        Regroup(s.gone, s.decoder.bytes, s.link.input);
        assert s.gone + (s.decoder.bytes + s.link.input) + [] == s.gone + (s.decoder.bytes + s.link.input);
      }
    case Decode(now) =>
      if s.unconsumed.None? {
        var n := InputDecoder.NextDropsFront(s.decoder, now);
        MoveAcross(s.gone, s.decoder.bytes, s.link.input, Join(s.wire), n);
      }
    case Measure =>
    case CloseLink =>
  }

  lemma Regroup(a: seq<byte>, b: seq<byte>, c: seq<byte>)
    ensures a + b + c == a + (b + c)
  {
  }

  lemma {:induction false} RunKeepsInv(replay: seq<byte>, events: seq<Event>)
    ensures Inv(Run(Begin(replay), events))
  {
    if events == [] {
      assert Join([replay]) == replay + Join([]);
    } else {
      RunKeepsInv(replay, events[..|events| - 1]);
      StepKeepsInv(Run(Begin(replay), events[..|events| - 1]), events[|events| - 1]);
    }
  }

  // ----- Main results -------------------------------------------------------------------------

  function Handed(s: Session): seq<byte>
    requires s.reported.Some?
  {
    Replay(s.relay, s.reported.value)
  }

  /** The bytes the runtime did not consume: undecoded, queued, in flight, or sent after it closed. */
  function Backlog(s: Session): int {
    |s.log| - |s.gone|
  }

  /** In every run of a session that ended in a handoff, the bytes that left the decoder followed
      by the replay are exactly the bytes the relay sent, if and only if the backlog fits the
      retained window. */
  lemma HandoffConservesInput(replay: seq<byte>, events: seq<Event>)
    requires Run(Begin(replay), events).reported.Some?
    ensures var s := Run(Begin(replay), events);
            s.gone + Handed(s) == s.log <==> Backlog(s) <= WINDOW
  {
    RunKeepsInv(replay, events);
    ReplayIsTheRest(Run(Begin(replay), events));
  }

  lemma ReplayIsTheRest(s: Session)
    requires Inv(s) && s.reported.Some?
    ensures s.gone + Handed(s) == s.log <==> Backlog(s) <= WINDOW
  {
    var n := |s.gone|;
    assert s.log[..n] == s.gone;
    if Backlog(s) <= WINDOW {
      assert s.relay.sent[n - s.relay.base..] == s.log[n..];
      assert s.log == s.log[..n] + s.log[n..];
    }
  }

  /** A session on a link that has served other terminals before. */
  function BeginOn(l: LinkState, c: ConnectionId, replay: seq<byte>): Session {
    Begin(replay).(link := Attach(l, c))
  }

  /** Two sessions that differ at most in who is attached and under which generation and session. */
  predicate Alike(s: Session, t: Session) {
    s == t.(link := s.link) && s.link.input == t.link.input && s.link.received == t.link.received
  }

  lemma StepAlike(s: Session, t: Session, e: Event)
    requires Alike(s, t)
    ensures Alike(Step(s, e), Step(t, e))
  {
  }

  lemma {:induction false} RunAlike(s: Session, t: Session, events: seq<Event>)
    requires Alike(s, t)
    ensures Alike(Run(s, events), Run(t, events))
  {
    if events == [] {
    } else {
      RunAlike(s, t, events[..|events| - 1]);
      StepAlike(Run(s, events[..|events| - 1]), Run(t, events[..|events| - 1]), events[|events| - 1]);
    }
  }

  /** Whatever a link has been through, a terminal that attaches to it while it is open and free is
      served as on a new one, so its input is conserved under the same condition. */
  lemma AnyLinkConservesInput(l: LinkState, c: ConnectionId, replay: seq<byte>, events: seq<Event>)
    requires !l.closed && l.stream.None?
    ensures Alike(Run(BeginOn(l, c, replay), events), Run(Begin(replay), events))
    ensures var s := Run(BeginOn(l, c, replay), events);
            s.reported.Some? ==> (s.gone + Handed(s) == s.log <==> Backlog(s) <= WINDOW)
  {
    RunAlike(BeginOn(l, c, replay), Begin(replay), events);
    if Run(Begin(replay), events).reported.Some? {
      HandoffConservesInput(replay, events);
    }
  }

  /** One byte too many, typed before the runtime closes: nothing is replayed. */
  lemma FullWindowLosesInput(typed: seq<byte>)
    requires |typed| == WINDOW + 1
    ensures var s := Run(Begin([]), [Type(typed), Measure, CloseLink]);
            && s.reported == Some(0) && s.gone == [] && s.log == typed
            && Backlog(s) == WINDOW + 1 && Handed(s) == []
  {
    var events := [Type(typed), Measure, CloseLink];
    var s1 := Step(Begin([]), Type(typed));
    var s2 := Step(s1, Measure);
    assert events[..2] == [Type(typed), Measure] && events[..2][..1] == [Type(typed)] && events[..2][..1][..0] == [];
    assert [] + typed == typed;
    assert Run(Begin([]), [Type(typed)]) == s1;
    assert Run(Begin([]), events[..2]) == s2;
  }

  /** What was typed during a session, as opposed to replayed into it. */
  function Typed(events: seq<Event>): seq<byte> {
    if events == [] then []
    else
      var before := Typed(events[..|events| - 1]);
      var last := events[|events| - 1];
      if last.Type? then before + last.bytes else before
  }

  lemma {:induction false} LogIsReplayThenTyped(replay: seq<byte>, events: seq<Event>)
    ensures Run(Begin(replay), events).log == replay + Typed(events)
  {
    if events == [] {
      assert replay + [] == replay;
    } else {
      LogIsReplayThenTyped(replay, events[..|events| - 1]);
      var last := events[|events| - 1];
      if last.Type? {
        Regroup(replay, Typed(events[..|events| - 1]), last.bytes);
      }
    }
  }

  // ----- Chains of handoffs -------------------------------------------------------------------

  /** Every session of the chain handed off with a backlog that fits the window; `replay` enters
      the first. */
  ghost predicate Hands(replay: seq<byte>, chain: seq<seq<Event>>)
    decreases |chain|
  {
    chain == []
    || (var s := Run(Begin(replay), chain[0]);
        s.reported.Some? && Backlog(s) <= WINDOW && Hands(Handed(s), chain[1..]))
  }

  /** Everything that left a decoder, in order, over the chain. */
  ghost function AllGone(replay: seq<byte>, chain: seq<seq<Event>>): seq<byte>
    requires Hands(replay, chain)
    decreases |chain|
  {
    if chain == [] then []
    else
      var s := Run(Begin(replay), chain[0]);
      s.gone + AllGone(Handed(s), chain[1..])
  }

  /** The replay that the last session leaves behind. */
  ghost function LastReplay(replay: seq<byte>, chain: seq<seq<Event>>): seq<byte>
    requires Hands(replay, chain)
    decreases |chain|
  {
    if chain == [] then replay
    else LastReplay(Handed(Run(Begin(replay), chain[0])), chain[1..])
  }

  function AllTyped(chain: seq<seq<Event>>): seq<byte> {
    if chain == [] then [] else Typed(chain[0]) + AllTyped(chain[1..])
  }

  /** Over any chain of handoffs whose backlogs fit the window, no input byte is lost, duplicated
      or reordered: what the runtimes took, followed by what is still to be replayed, is what was
      handed in followed by everything typed. */
  lemma {:induction false} ChainConservesInput(replay: seq<byte>, chain: seq<seq<Event>>)
    requires Hands(replay, chain)
    ensures AllGone(replay, chain) + LastReplay(replay, chain) == replay + AllTyped(chain)
    decreases |chain|
  {
    if chain == [] {
      assert [] + replay == replay + [];
    } else {
      var s := Run(Begin(replay), chain[0]);
      HandoffConservesInput(replay, chain[0]);
      LogIsReplayThenTyped(replay, chain[0]);
      ChainConservesInput(Handed(s), chain[1..]);
      ChainStep(s.gone, AllGone(Handed(s), chain[1..]), LastReplay(Handed(s), chain[1..]),
                Handed(s), AllTyped(chain[1..]), replay, Typed(chain[0]));
    }
  }

  lemma ChainStep(gone: seq<byte>, later: seq<byte>, last: seq<byte>, handed: seq<byte>,
                  typedLater: seq<byte>, replay: seq<byte>, typed: seq<byte>)
    requires gone + handed == replay + typed && later + last == handed + typedLater
    ensures (gone + later) + last == replay + (typed + typedLater)
  {
    Regroup(gone, later, last);
    Regroup(gone, handed, typedLater);
    Regroup(replay, typed, typedLater);
  }
}
