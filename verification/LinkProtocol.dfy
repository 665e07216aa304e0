/** What the runtime sends on each connection, over every interleaving of its threads:
    crates/tea-agent/src/detach.rs. */
module LinkProtocol {
  import opened Wrappers
  import Utf8
  import opened RemoteLink

  datatype Sent = Refuse | Welcome | OutputFrame | CloseFrame

  /** A `serve` thread: reading the handshake, attached but not yet past its second lock, reading
      frames under the generation it saw there, or gone. */
  datatype Phase = Greeting | Attached | Serving(generation: nat) | Gone

  /** `attachedAs` is the generation that the connection's own attachment produced. */
  datatype Connection = Connection(phase: Phase, sent: seq<Sent>, attachedAs: nat)

  datatype System = System(link: LinkState, connections: map<ConnectionId, Connection>)

  /** `written` tells whether the write of that step succeeded; a failed write sends no frame. */
  datatype Event =
    | Accept(c: ConnectionId)
    | Handshake(c: ConnectionId, hello: Option<Hello>, written: bool)
    | ReadGeneration(c: ConnectionId)
    | Input(c: ConnectionId, payload: seq<Utf8.byte>)
    | Hangup(c: ConnectionId)
    | TakeAll
    | WriteOutput(written: bool)
    | SetSession(session: Option<string>)
    | CloseLink(written: bool)

  function Put(s: System, c: ConnectionId, k: Connection): System {
    s.(connections := s.connections[c := k])
  }

  function Send(s: System, c: ConnectionId, frame: Sent): System {
    if c in s.connections
    then Put(s, c, s.connections[c].(sent := s.connections[c].sent + [frame]))
    else s
  }

  /** Steps that are not enabled leave the system unchanged. */
  function Step(s: System, e: Event): System {
    match e
    case Accept(c) => if c in s.connections then s else Put(s, c, Connection(Greeting, [], 0))
    case Handshake(c, hello, written) =>
      if c !in s.connections || !s.connections[c].phase.Greeting? then s
      else if !Admits(s.link, hello) then
        Put(s, c, Connection(Gone, if written then [Refuse] else [], 0))
      else if !written then Put(s, c, Connection(Gone, [], 0))
      else Put(s, c, Connection(Attached, [Welcome], s.link.generation + 1)).(link := Attach(s.link, c))
    case ReadGeneration(c) =>
      if c in s.connections && s.connections[c].phase.Attached?
      then Put(s, c, s.connections[c].(phase := Serving(s.link.generation)))
      else s
    case Input(c, payload) =>
      if c in s.connections && s.connections[c].phase.Serving?
      then s.(link := ReceiveInput(s.link, payload))
      else s
    case Hangup(c) =>
      if c in s.connections && s.connections[c].phase.Serving?
      then Put(s, c, s.connections[c].(phase := Gone))
           .(link := EndServing(s.link, s.connections[c].phase.generation))
      else s
    case TakeAll => s.(link := TakeInput(s.link))
    case WriteOutput(written) =>
      var t := s.(link := Output(s.link, written));
      if written && s.link.stream.Some? then Send(t, s.link.stream.value, OutputFrame) else t
    case SetSession(session) => s.(link := s.link.(session := session))
    case CloseLink(written) =>
      var t := s.(link := Close(s.link));
      if written && s.link.stream.Some? then Send(t, s.link.stream.value, CloseFrame) else t
  }

  function Run(s: System, events: seq<Event>): System {
    if events == [] then s else Step(Run(s, events[..|events| - 1]), events[|events| - 1])
  }

  const START: System := System(INITIAL, map[])

  // ----- The language of one connection -------------------------------------------------------

  predicate AllOutputs(frames: seq<Sent>) {
    forall i :: 0 <= i < |frames| ==> frames[i] == OutputFrame
  }

  /** `WELCOME OUTPUT*`: a terminal that is still attached has received this. */
  predicate Open(frames: seq<Sent>) {
    |frames| > 0 && frames[0] == Welcome && AllOutputs(frames[1..])
  }

  /** A prefix of `REFUSE` or of `WELCOME OUTPUT* CLOSE`. */
  predicate WellFormed(frames: seq<Sent>) {
    || frames == []
    || frames == [Refuse]
    || Open(frames)
    || (frames[|frames| - 1] == CloseFrame && Open(frames[..|frames| - 1]))
  }

  ghost predicate Inv(s: System) {
    && (forall c :: c in s.connections ==> WellFormed(s.connections[c].sent))
    && (forall c :: c in s.connections && s.connections[c].phase.Greeting? ==> s.connections[c].sent == [])
    && (s.link.stream.Some? ==>
          && s.link.stream.value in s.connections
          && !s.connections[s.link.stream.value].phase.Greeting?
          && Open(s.connections[s.link.stream.value].sent))
    && (s.link.closed ==> s.link.stream.None?)
  }

  /** The attached terminal is the one whose attachment produced the current generation. */
  ghost predicate GenerationsAgree(s: System) {
    && (forall c :: c in s.connections ==> s.connections[c].attachedAs <= s.link.generation)
    && (s.link.stream.Some? ==>
          && s.link.stream.value in s.connections
          && s.connections[s.link.stream.value].attachedAs == s.link.generation > 0
          && forall c :: c in s.connections && c != s.link.stream.value ==>
               s.connections[c].attachedAs < s.link.generation)
  }

  lemma StepKeepsGenerations(s: System, e: Event)
    requires Inv(s) && GenerationsAgree(s)
    ensures GenerationsAgree(Step(s, e))
  {
  }

  lemma {:induction false} RunKeepsGenerations(events: seq<Event>)
    ensures GenerationsAgree(Run(START, events))
  {
    if events == [] {
    } else {
      RunKeepsGenerations(events[..|events| - 1]);
      RunKeepsInv(events[..|events| - 1]);
      StepKeepsGenerations(Run(START, events[..|events| - 1]), events[|events| - 1]);
    }
  }

  lemma OpenGrows(frames: seq<Sent>)
    requires Open(frames)
    ensures Open(frames + [OutputFrame]) && WellFormed(frames + [CloseFrame])
  {
    assert (frames + [OutputFrame])[1..] == frames[1..] + [OutputFrame];
    assert (frames + [CloseFrame])[..|frames|] == frames;
  }

  lemma StepKeepsInv(s: System, e: Event)
    requires Inv(s)
    ensures Inv(Step(s, e))
  {
    if e.WriteOutput? || e.CloseLink? {
      if s.link.stream.Some? {
        OpenGrows(s.connections[s.link.stream.value].sent);
      }
    } else if e.Handshake? {
      assert Open([Welcome]);
    }
  }

  lemma {:induction false} RunKeepsInv(events: seq<Event>)
    ensures Inv(Run(START, events))
  {
    if events == [] {
    } else {
      RunKeepsInv(events[..|events| - 1]);
      StepKeepsInv(Run(START, events[..|events| - 1]), events[|events| - 1]);
    }
  }

  // ----- The handshake ------------------------------------------------------------------------

  /** The session the runtime serves, as last set. */
  function LastSession(events: seq<Event>): Option<string> {
    if events == [] then None
    else if events[|events| - 1].SetSession? then events[|events| - 1].session
    else LastSession(events[..|events| - 1])
  }

  predicate WasClosed(events: seq<Event>) {
    exists i :: 0 <= i < |events| && events[i].CloseLink?
  }

  lemma StepSetsSession(s: System, e: Event)
    ensures Step(s, e).link.session == if e.SetSession? then e.session else s.link.session
    ensures Step(s, e).link.closed <==> s.link.closed || e.CloseLink?
  {
  }

  lemma {:induction false} SessionAndClosing(events: seq<Event>)
    ensures Run(START, events).link.session == LastSession(events)
    ensures Run(START, events).link.closed <==> WasClosed(events)
  {
    if events == [] {
    } else {
      var n := |events| - 1;
      SessionAndClosing(events[..n]);
      StepSetsSession(Run(START, events[..n]), events[n]);
      assert events == events[..n] + [events[n]];
      assert WasClosed(events) <==> WasClosed(events[..n]) || events[n].CloseLink?;
    }
  }

  /** Who is welcomed, in every run: a terminal that speaks protocol 1, while the link was never
      closed and no other is attached, and that names no session or the one being served. Everyone
      else is refused. */
  lemma HandshakeAnswer(events: seq<Event>, c: ConnectionId, hello: Option<Hello>)
    requires c in Run(START, events).connections && Run(START, events).connections[c].phase.Greeting?
    ensures var s := Run(START, events);
            var t := Step(s, Handshake(c, hello, true));
            var welcome := && hello.Some? && hello.value.protocol == Some(1)
                           && !WasClosed(events) && s.link.stream.None?
                           && (hello.value.session.None? || hello.value.session == LastSession(events));
            && t.connections[c].sent == [if welcome then Welcome else Refuse]
            && t.link.stream == (if welcome then Some(c) else s.link.stream)
            && t.link.generation == s.link.generation + if welcome then 1 else 0
  {
    SessionAndClosing(events);
  }

  // ----- Input ----------------------------------------------------------------------------------

  /** The step welcomes a terminal. */
  predicate Attaches(s: System, e: Event) {
    && e.Handshake? && e.c in s.connections && s.connections[e.c].phase.Greeting?
    && Step(s, e).connections[e.c].sent == [Welcome]
  }

  /** What the step adds to the input. */
  function Arrives(s: System, e: Event): seq<Utf8.byte> {
    if e.Input? && e.c in s.connections && s.connections[e.c].phase.Serving? then e.payload else []
  }

  /** All input since a terminal was last welcomed. */
  function Arrived(events: seq<Event>): seq<Utf8.byte> {
    if events == [] then []
    else
      var s, e := Run(START, events[..|events| - 1]), events[|events| - 1];
      if Attaches(s, e) then [] else Arrived(events[..|events| - 1]) + Arrives(s, e)
  }

  /** The step empties the queue: the application takes it, a terminal is welcomed, or the reader
      under the current generation leaves. */
  predicate Empties(s: System, e: Event) {
    || e.TakeAll? || Attaches(s, e)
    || (e.Hangup? && e.c in s.connections && s.connections[e.c].phase == Serving(s.link.generation))
  }

  /** All input since the queue was last emptied. */
  function Queued(events: seq<Event>): seq<Utf8.byte> {
    if events == [] then []
    else
      var s, e := Run(START, events[..|events| - 1]), events[|events| - 1];
      if Empties(s, e) then [] else Queued(events[..|events| - 1]) + Arrives(s, e)
  }

  lemma StepInput(s: System, e: Event)
    ensures Step(s, e).link.received == if Attaches(s, e) then 0 else s.link.received + |Arrives(s, e)|
    ensures Step(s, e).link.input == if Empties(s, e) then [] else s.link.input + Arrives(s, e)
  {
    assert s.link.input + [] == s.link.input;
  }

  /** In every run the counter is the number of input bytes since a terminal was last welcomed, and
      the queue is, in order, the input since it was last emptied. */
  lemma {:induction false} InputIsCounted(events: seq<Event>)
    ensures Run(START, events).link.received == |Arrived(events)|
    ensures Run(START, events).link.input == Queued(events)
  {
    if events == [] {
    } else {
      InputIsCounted(events[..|events| - 1]);
      StepInput(Run(START, events[..|events| - 1]), events[|events| - 1]);
    }
  }

  // ----- Frames ---------------------------------------------------------------------------------

  /** In every run, what the runtime has sent on a connection is a prefix of `REFUSE` or of
      `WELCOME OUTPUT* CLOSE`, and a closed link has no terminal. */
  lemma FramesFollowTheProtocol(events: seq<Event>, c: ConnectionId)
    ensures var s := Run(START, events);
            && (c in s.connections ==> WellFormed(s.connections[c].sent))
            && (s.link.closed ==> s.link.stream.None?)
  {
    RunKeepsInv(events);
  }

  /** A step sends at most one frame, and OUTPUT or CLOSE goes only to the one attached terminal:
      every other connection receives nothing, or its handshake answer. */
  lemma OnlyTheAttachedTerminalIsServed(events: seq<Event>, e: Event, c: ConnectionId)
    ensures var s := Run(START, events);
            var t := Step(s, e);
            c in s.connections ==>
              && c in t.connections
              && s.connections[c].sent <= t.connections[c].sent
              && |t.connections[c].sent| <= |s.connections[c].sent| + 1
              && (t.connections[c].sent != s.connections[c].sent ==>
                    || (s.connections[c].sent == [] && e.Handshake? && e.c == c)
                    || s.link.stream == Some(c))
  {
    RunKeepsInv(events);
  }

  /** Exactly what each step other than a handshake sends, and when it detaches the terminal. */
  lemma StepsServeExactly(events: seq<Event>, e: Event, c: ConnectionId)
    requires c in Run(START, events).connections && !e.Handshake?
    ensures var s := Run(START, events);
            var t := Step(s, e);
            && t.connections[c].sent == s.connections[c].sent +
                 (if s.link.stream != Some(c) then []
                  else if e == WriteOutput(true) then [OutputFrame]
                  else if e == CloseLink(true) then [CloseFrame]
                  else [])
            && t.link.stream ==
                 (if e == WriteOutput(false) || e.CloseLink? then None
                  else if e.Hangup? && e.c in s.connections && s.connections[e.c].phase == Serving(s.link.generation)
                  then None else s.link.stream)
            && t.link.generation == s.link.generation
  {
    RunKeepsInv(events);
    var sent := Run(START, events).connections[c].sent;
    assert sent + [] == sent;
  }

  lemma StepAfterClose(events: seq<Event>, e: Event)
    requires Run(START, events).link.closed
    ensures var s := Run(START, events);
            OnlyRefusals(s, Step(s, e))
  {
    RunKeepsInv(events);
  }

  /** The link is closed and without a terminal, and since `s` nothing but refusals has been sent. */
  ghost predicate OnlyRefusals(s: System, z: System) {
    && z.link.closed && z.link.stream.None?
    && (forall c :: c in s.connections ==>
          && c in z.connections
          && (z.connections[c].sent == s.connections[c].sent
              || (s.connections[c].sent == [] && z.connections[c].sent == [Refuse])))
    && (forall c :: c in z.connections && c !in s.connections ==>
          z.connections[c].sent == [] || z.connections[c].sent == [Refuse])
  }

  lemma RefusalsCompose(a: System, b: System, c: System)
    requires OnlyRefusals(a, b) && OnlyRefusals(b, c)
    ensures OnlyRefusals(a, c)
  {
  }

  lemma LastOf(a: seq<Event>, b: seq<Event>)
    requires b != []
    ensures (a + b)[..|a + b| - 1] == a + b[..|b| - 1] && (a + b)[|a + b| - 1] == b[|b| - 1]
  {
  }

  /** Once closed, whatever follows, a link admits no terminal and sends nothing but refusals. */
  lemma {:induction false} NothingAfterClose(events: seq<Event>, more: seq<Event>)
    requires Run(START, events).link.closed
    ensures OnlyRefusals(Run(START, events), Run(START, events + more))
  {
    if more == [] {
      assert events + more == events;
      RunKeepsInv(events);
    } else {
      var n := |more| - 1;
      LastOf(events, more);
      NothingAfterClose(events, more[..n]);
      StepAfterClose(events + more[..n], more[n]);
      RefusalsCompose(Run(START, events), Run(START, events + more[..n]), Run(START, events + more));
    }
  }

  /** A finished thread detaches a terminal other than its own exactly when it read the generation
      only after that terminal had attached. */
  lemma LateReaderDetachesSuccessor(events: seq<Event>, c: ConnectionId, d: ConnectionId)
    requires var s := Run(START, events);
             && c in s.connections && s.connections[c].phase.Serving?
             && d in s.connections && s.link.stream == Some(d) && c != d
    ensures var s := Run(START, events);
            && (Step(s, Hangup(c)).link.stream != Some(d) <==>
                  s.connections[c].phase.generation == s.connections[d].attachedAs)
            && (s.connections[c].phase.generation == s.connections[c].attachedAs ==>
                  Step(s, Hangup(c)).link.stream == Some(d))
  {
    RunKeepsGenerations(events);
  }

  /** Such runs exist: a terminal is lost to a failed output, a second attaches, and only then
      does the first one's thread read the generation and finish. */
  lemma SuccessorCanBeDetached(hello: Hello)
    requires hello == Hello(Some(PROTOCOL_VERSION), None)
    ensures var s := Step(Step(Step(Step(Step(START, Accept(1)), Handshake(1, Some(hello), true)),
                                    WriteOutput(false)), Accept(2)), Handshake(2, Some(hello), true));
            && s.link.stream == Some(2)
            && Step(Step(s, ReadGeneration(1)), Hangup(1)).link.stream == None
  {
  }
}
