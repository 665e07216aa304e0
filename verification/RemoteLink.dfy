/** The runtime's end of the relay connection: crates/tea-agent/src/detach.rs.

    Every lock-protected section of `RemoteLink` is one function on `LinkState`; the class is the
    mutex-protected object whose methods perform them. */
module RemoteLink {
  import opened Wrappers
  import opened Utf8

  type ConnectionId = nat

  datatype LinkState = LinkState(stream: Option<ConnectionId>, input: seq<byte>, received: nat,
                                 generation: nat, session: Option<string>, closed: bool)

  const INITIAL: LinkState := LinkState(None, [], 0, 0, None, false)

  const PROTOCOL_VERSION: nat := 1

  /** A parsed HELLO payload. */
  datatype Hello = Hello(protocol: Option<nat>, session: Option<string>)

  /** Whether the handshake is answered with WELCOME; every other answer is REFUSE. */
  predicate Admits(l: LinkState, hello: Option<Hello>) {
    && hello.Some?
    && hello.value.protocol == Some(PROTOCOL_VERSION)
    && !l.closed
    && l.stream.None?
    && (hello.value.session.Some? ==> l.session == hello.value.session)
  }

  function Attach(l: LinkState, c: ConnectionId): LinkState {
    l.(stream := Some(c), generation := l.generation + 1, input := [], received := 0)
  }

  function ReceiveInput(l: LinkState, payload: seq<byte>): LinkState {
    l.(received := l.received + |payload|, input := l.input + payload)
  }

  function TakeInput(l: LinkState): LinkState {
    l.(input := [])
  }

  /** The end of a `serve` thread that had read the given generation. */
  function EndServing(l: LinkState, generation: nat): LinkState {
    if l.generation == generation then l.(stream := None, input := []) else l
  }

  /** An output that could not be written detaches the terminal. */
  function Output(l: LinkState, written: bool): LinkState {
    if l.stream.Some? && !written then l.(stream := None) else l
  }

  function Consumed(l: LinkState, unconsumed: nat): nat {
    var held := unconsumed + |l.input|;
    if l.received >= held then l.received - held else 0
  }

  function Close(l: LinkState): LinkState {
    l.(closed := true, stream := None)
  }

  class Link {
    var stream: Option<ConnectionId>
    var input: seq<byte>
    var received: nat
    var generation: nat
    var session: Option<string>
    var closed: bool

    function View(): LinkState
      reads this
    {
      LinkState(stream, input, received, generation, session, closed)
    }

    constructor ()
      ensures View() == INITIAL
    {
      stream, input, received, generation, session, closed := None, [], 0, 0, None, false;
    }

    /** The locked section of `serve`; `written` says whether the WELCOME write succeeds. */
    method Serve(c: ConnectionId, hello: Option<Hello>, written: bool) returns (attached: bool)
      modifies this
      ensures attached == (Admits(old(View()), hello) && written)
      ensures View() == if attached then Attach(old(View()), c) else old(View())
    {
      attached := false;
      if hello.None? {
        return;
      }
      if hello.value.protocol != Some(PROTOCOL_VERSION) || closed || stream.Some? {
        return;
      }
      if hello.value.session.Some? && session != hello.value.session {
        return;
      }
      if !written {
        return;
      }
      stream := Some(c);
      generation := generation + 1;
      input, received := [], 0;
      attached := true;
    }

    method Receive(payload: seq<byte>)
      modifies this
      ensures View() == ReceiveInput(old(View()), payload)
    {
      received := received + |payload|;
      input := input + payload;
    }

    method FinishServing(mine: nat)
      modifies this
      ensures View() == EndServing(old(View()), mine)
    {
      if generation == mine {
        stream, input := None, [];
      }
    }

    method WaitInput() returns (bytes: seq<byte>)
      modifies this
      ensures bytes == old(input) && View() == TakeInput(old(View()))
    {
      bytes := input;
      input := [];
    }

    method WriteOutput(written: bool) returns (to: Option<ConnectionId>)
      modifies this
      ensures to == (if written then old(stream) else None)
      ensures View() == Output(old(View()), written)
    {
      to := None;
      if stream.Some? {
        if written {
          to := stream;
        } else {
          stream := None;
        }
      }
    }

    method CloseWithHandoff(unconsumed: nat) returns (consumed: nat, to: Option<ConnectionId>)
      modifies this
      ensures consumed == Consumed(old(View()), unconsumed) && to == old(stream)
      ensures View() == Close(old(View()))
    {
      closed := true;
      var held := unconsumed + |input|;
      consumed := if received >= held then received - held else 0;
      to := stream;
      stream := None;
    }
  }
}
