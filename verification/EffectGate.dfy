/** The manual effect gate and its hand-written futures: crates/tea-core/src/effect.rs.

    Each lock-protected section is one function on `GateState`. Wakers taken inside a section are
    woken after the lock is released, so a wake is in flight until a separate step delivers it. */
module EffectGate {
  import opened Wrappers

  type Waker = nat
  type ActionId = nat

  const U64_MAX: nat := 0xFFFF_FFFF_FFFF_FFFF

  datatype Parked = Parked(id: ActionId, action: nat, released: bool, waker: Option<Waker>)

  datatype GateState = GateState(nextId: nat, pending: Option<Parked>, closed: bool,
                                 waiting: seq<Waker>)

  const FRESH: GateState := GateState(0, None, false, [])

  function SaturatingSucc(n: nat): nat {
    if n >= U64_MAX then U64_MAX else n + 1
  }

  // ----- The gate's sections ------------------------------------------------------------------

  datatype ReleaseResult = Released | Closed | UnknownAction | AlreadyReleased

  function Peek(g: GateState): Option<Parked> {
    if g.pending.Some? && !g.pending.value.released then g.pending else None
  }

  function ReleaseResultOf(g: GateState, expected: ActionId): ReleaseResult {
    if g.closed then Closed
    else if g.pending.None? || g.pending.value.id != expected then UnknownAction
    else if g.pending.value.released then AlreadyReleased
    else Released
  }

  function ReleaseStep(g: GateState, expected: ActionId): GateState {
    if ReleaseResultOf(g, expected).Released?
    then g.(pending := Some(g.pending.value.(released := true)))
    else g
  }

  function ToSeq(w: Option<Waker>): seq<Waker> {
    if w.Some? then [w.value] else []
  }

  /** The waker a successful release wakes. */
  function ReleaseWakes(g: GateState, expected: ActionId): seq<Waker> {
    if ReleaseResultOf(g, expected).Released? then ToSeq(g.pending.value.waker) else []
  }

  function CloseStep(g: GateState): GateState {
    g.(closed := true, waiting := [])
  }

  function CloseWakes(g: GateState): seq<Waker> {
    (if g.pending.Some? then ToSeq(g.pending.value.waker) else []) + g.waiting
  }

  /** Which way a poll left its section. */
  datatype Exit = ExitClosed | Disappeared | Mismatch | StillParked | Resolved | SlotTaken | Parks

  function PollExit(g: GateState, actionId: Option<ActionId>): Exit {
    if g.closed then ExitClosed
    else if actionId.Some? then
      if g.pending.None? then Disappeared
      else if g.pending.value.id != actionId.value then Mismatch
      else if !g.pending.value.released then StillParked
      else Resolved
    else if g.pending.Some? then SlotTaken
    else Parks
  }

  function PollStep(g: GateState, actionId: Option<ActionId>, action: nat, w: Waker): GateState {
    match PollExit(g, actionId)
    case ExitClosed => g
    case Disappeared => g
    case Mismatch => g.(waiting := g.waiting + [w])
    case StillParked => g.(pending := Some(g.pending.value.(waker := Some(w))))
    case Resolved => g.(pending := None, waiting := [])
    case SlotTaken => g.(waiting := g.waiting + [w])
    case Parks =>
      var id := SaturatingSucc(g.nextId);
      g.(nextId := id, pending := Some(Parked(id, action, false, Some(w))))
  }

  /** The object: the fields under the mutex. */
  class ManualEffectGate {
    var nextActionId: nat
    var pending: Option<Parked>
    var closed: bool
    var waitingForSlot: seq<Waker>

    function View(): GateState
      reads this
    {
      GateState(nextActionId, pending, closed, waitingForSlot)
    }

    constructor ()
      ensures View() == FRESH
    {
      nextActionId, pending, closed, waitingForSlot := 0, None, false, [];
    }

    method PeekAction() returns (p: Option<Parked>)
      ensures p == Peek(View())
      ensures !closed ==> forall id :: ReleaseResultOf(View(), id).Released? <==> p.Some? && p.value.id == id
    {
      p := if pending.Some? && !pending.value.released then pending else None;
    }

    method Release(expected: ActionId) returns (r: ReleaseResult, wake: seq<Waker>)
      modifies this
      ensures r == ReleaseResultOf(old(View()), expected)
      ensures wake == ReleaseWakes(old(View()), expected)
      ensures View() == ReleaseStep(old(View()), expected)
    {
      if closed {
        return Closed, [];
      }
      if pending.None? || pending.value.id != expected {
        return UnknownAction, [];
      }
      if pending.value.released {
        return AlreadyReleased, [];
      }
      pending := Some(pending.value.(released := true));
      r, wake := Released, ToSeq(pending.value.waker);
    }

    method Close() returns (wake: seq<Waker>)
      modifies this
      ensures wake == CloseWakes(old(View())) && View() == CloseStep(old(View()))
    {
      closed := true;
      wake := (if pending.Some? then ToSeq(pending.value.waker) else []) + waitingForSlot;
      waitingForSlot := [];
    }

    /** One poll of a wait future; it reports the future's new action id and whom to wake. */
    method Poll(actionId: Option<ActionId>, action: nat, w: Waker)
      returns (exit: Exit, actionId': Option<ActionId>, wake: seq<Waker>)
      modifies this
      ensures exit == PollExit(old(View()), actionId)
      ensures View() == PollStep(old(View()), actionId, action, w)
      ensures actionId' == (if exit.Parks? then Some(View().nextId) else actionId)
      ensures wake == (if exit.Resolved? then old(waitingForSlot) else [])
    {
      actionId', wake := actionId, [];
      if closed {
        return ExitClosed, actionId', wake;
      }
      if actionId.Some? {
        if pending.None? {
          return Disappeared, actionId', wake;
        }
        if pending.value.id != actionId.value {
          waitingForSlot := waitingForSlot + [w];
          return Mismatch, actionId', wake;
        }
        if !pending.value.released {
          pending := Some(pending.value.(waker := Some(w)));
          return StillParked, actionId', wake;
        }
        pending := None;
        wake := waitingForSlot;
        waitingForSlot := [];
        return Resolved, actionId', wake;
      }
      if pending.Some? {
        waitingForSlot := waitingForSlot + [w];
        return SlotTaken, actionId', wake;
      }
      nextActionId := SaturatingSucc(nextActionId);
      pending := Some(Parked(nextActionId, action, false, Some(w)));
      exit, actionId' := Parks, Some(nextActionId);
    }
  }

  // ----- All interleavings --------------------------------------------------------------------

  type FutureId = nat

  /** A wait future. A pending one remembers the waker of its last poll and whether that waker has
      been woken since. */
  datatype Status = Created | Pending(waker: Waker, woken: bool) | Ready(ok: bool)

  datatype Wait = Wait(action: nat, actionId: Option<ActionId>, status: Status)

  /** `owner` is the future that parked last; `wakes` are the wakes in flight; `releases` lists the
      ids released so far and `parks` counts the ids handed out. */
  datatype System = System(gate: GateState, waits: map<FutureId, Wait>, owner: FutureId,
                           wakes: multiset<Waker>, releases: seq<ActionId>, parks: nat)

  /** A future may be dropped at any time; the gate is not told. */
  datatype Event =
    | NewWait(f: FutureId, action: nat)
    | Poll(f: FutureId, w: Waker)
    | Drop(f: FutureId)
    | Release(expected: ActionId)
    | CloseGate
    | Deliver(w: Waker)

  predicate Unfinished(t: Wait) {
    !t.status.Ready?
  }

  function Wake(waits: map<FutureId, Wait>, w: Waker): map<FutureId, Wait> {
    map f | f in waits ::
      if waits[f].status.Pending? && waits[f].status.waker == w
      then waits[f].(status := Pending(w, true))
      else waits[f]
  }

  function Polled(t: Wait, g: GateState, w: Waker): Wait {
    match PollExit(g, t.actionId)
    case ExitClosed => t.(status := Ready(false))
    case Disappeared => t.(status := Ready(false))
    case Resolved => t.(status := Ready(true))
    case Parks => t.(actionId := Some(SaturatingSucc(g.nextId)), status := Pending(w, false))
    case _ => t.(status := Pending(w, false))
  }

  /** Steps that are not enabled leave the system unchanged. */
  function Step(s: System, e: Event): System {
    match e
    case NewWait(f, action) =>
      if f in s.waits then s else s.(waits := s.waits[f := Wait(action, None, Created)])
    case Poll(f, w) =>
      if f !in s.waits || !Unfinished(s.waits[f]) then s
      else
        var t := s.waits[f];
        var exit := PollExit(s.gate, t.actionId);
        System(PollStep(s.gate, t.actionId, t.action, w), s.waits[f := Polled(t, s.gate, w)],
               if exit.Parks? then f else s.owner,
               if exit.Resolved? then s.wakes + multiset(s.gate.waiting) else s.wakes,
               s.releases, if exit.Parks? then s.parks + 1 else s.parks)
    case Drop(f) =>
      if f in s.waits then s.(waits := s.waits - {f}) else s
    case Release(expected) =>
      s.(gate := ReleaseStep(s.gate, expected),
         wakes := s.wakes + multiset(ReleaseWakes(s.gate, expected)),
         releases := if ReleaseResultOf(s.gate, expected).Released? then s.releases + [expected]
                     else s.releases)
    case CloseGate =>
      s.(gate := CloseStep(s.gate), wakes := s.wakes + multiset(CloseWakes(s.gate)))
    case Deliver(w) =>
      if w in s.wakes then s.(wakes := s.wakes - multiset{w}, waits := Wake(s.waits, w)) else s
  }

  function Run(events: seq<Event>): System {
    if events == [] then System(FRESH, map[], 0, multiset{}, [], 0)
    else Step(Run(events[..|events| - 1]), events[|events| - 1])
  }

  // ----- The slot -----------------------------------------------------------------------------

  predicate HoldsAction(s: System, f: FutureId) {
    f in s.waits && Unfinished(s.waits[f]) && s.waits[f].actionId.Some?
  }

  /** The slot's owner is there, waiting. */
  predicate IsOwned(s: System) {
    && s.gate.pending.Some? && HoldsAction(s, s.owner) && s.waits[s.owner].status.Pending?
    && s.waits[s.owner].actionId == Some(s.gate.pending.value.id)
  }

  /** An open gate whose slot belongs to nobody. */
  predicate Orphaned(s: System) {
    !s.gate.closed && s.gate.pending.Some? && forall f :: f in s.waits ==> !HoldsAction(s, f)
  }

  /** A future that holds an action owns the slot; an open gate's slot has its owner or is orphaned. */
  ghost predicate SlotInv(s: System) {
    && (forall f :: f in s.waits && HoldsAction(s, f) ==>
          && f == s.owner
          && s.gate.pending.Some? && s.gate.pending.value.id == s.waits[f].actionId.value)
    && (s.gate.pending.Some? && !s.gate.closed ==> IsOwned(s) || Orphaned(s))
    && (!s.gate.closed && s.gate.waiting != [] ==> s.gate.pending.Some?)
    && (forall f :: f in s.waits && s.waits[f].status.Created? ==> s.waits[f].actionId.None?)
  }

  lemma PollKeepsSlot(s: System, f: FutureId, w: Waker)
    requires SlotInv(s) && f in s.waits && Unfinished(s.waits[f])
    ensures SlotInv(Step(s, Poll(f, w)))
  {
    var t := Step(s, Poll(f, w));
    var exit := PollExit(s.gate, s.waits[f].actionId);
    assert !exit.Disappeared? && !exit.Mismatch?;
    assert forall g :: g in t.waits && g != f ==> t.waits[g] == s.waits[g];
    match exit
    case StillParked => assert f == s.owner;
    case Resolved => assert f == s.owner;
    case Parks => assert s.gate.waiting == [];
    case SlotTaken => assert !HoldsAction(s, f);
    case _ =>
  }

  lemma DeliverKeepsSlot(s: System, w: Waker)
    requires SlotInv(s)
    ensures SlotInv(Step(s, Deliver(w)))
  {
    assert Wake(s.waits, w).Keys == s.waits.Keys;
  }

  lemma StepKeepsSlot(s: System, e: Event)
    requires SlotInv(s)
    ensures SlotInv(Step(s, e))
  {
    match e
    case Poll(f, w) => if f in s.waits && Unfinished(s.waits[f]) { PollKeepsSlot(s, f, w); }
    case Deliver(w) => DeliverKeepsSlot(s, w);
    case _ =>
  }

  lemma {:induction false} RunKeepsSlot(events: seq<Event>)
    ensures SlotInv(Run(events))
  {
    if events == [] {
    } else {
      RunKeepsSlot(events[..|events| - 1]);
      StepKeepsSlot(Run(events[..|events| - 1]), events[|events| - 1]);
    }
  }

  /** In every run at most one unfinished future holds an action, it is the one in the slot, and no
      poll finds its action gone or replaced. */
  lemma SlotIsExclusive(events: seq<Event>, f: FutureId, g: FutureId)
    requires var s := Run(events);
             && f in s.waits && Unfinished(s.waits[f]) && s.waits[f].actionId.Some?
             && g in s.waits && Unfinished(s.waits[g])
    ensures var s := Run(events);
            && (s.waits[g].actionId.Some? ==> f == g)
            && s.gate.pending.Some? && Some(s.gate.pending.value.id) == s.waits[f].actionId
            && !PollExit(s.gate, s.waits[g].actionId).Disappeared?
            && !PollExit(s.gate, s.waits[g].actionId).Mismatch?
  {
    RunKeepsSlot(events);
  }

  // ----- Wakers -------------------------------------------------------------------------------

  /** Where the waker of a future that is waiting and has not been woken can be found. */
  ghost predicate Registered(s: System, f: FutureId)
    requires f in s.waits && s.waits[f].status.Pending?
  {
    var w := s.waits[f].status.waker;
    || w in s.wakes
    || (!s.gate.closed
        && if s.waits[f].actionId.Some?
           then s.gate.pending.Some? && s.gate.pending.value.waker == Some(w) && !s.gate.pending.value.released
           else w in s.gate.waiting)
  }

  ghost predicate WakerInv(s: System) {
    && SlotInv(s)
    && (forall f :: f in s.waits && s.waits[f].status.Pending? && !s.waits[f].status.woken ==>
          Registered(s, f))
    && (IsOwned(s) && !s.gate.closed ==> s.gate.pending.value.waker == Some(s.waits[s.owner].status.waker))
  }

  lemma PollKeepsWakers(s: System, f: FutureId, w: Waker)
    requires WakerInv(s) && f in s.waits && Unfinished(s.waits[f])
    ensures WakerInv(Step(s, Poll(f, w)))
  {
    StepKeepsSlot(s, Poll(f, w));
    var t := Step(s, Poll(f, w));
    forall g | g in t.waits && t.waits[g].status.Pending? && !t.waits[g].status.woken
      ensures Registered(t, g)
    {
      if g != f {
        assert Registered(s, g);
      }
    }
  }

  lemma CloseKeepsWakers(s: System)
    requires WakerInv(s)
    ensures WakerInv(Step(s, CloseGate))
  {
    StepKeepsSlot(s, CloseGate);
    var t := Step(s, CloseGate);
    forall g | g in t.waits && t.waits[g].status.Pending? && !t.waits[g].status.woken
      ensures Registered(t, g)
    {
      assert Registered(s, g);
    }
  }

  lemma ReleaseKeepsWakers(s: System, expected: ActionId)
    requires WakerInv(s)
    ensures WakerInv(Step(s, Release(expected)))
  {
    StepKeepsSlot(s, Release(expected));
    var t := Step(s, Release(expected));
    forall g | g in t.waits && t.waits[g].status.Pending? && !t.waits[g].status.woken
      ensures Registered(t, g)
    {
      assert Registered(s, g);
    }
  }

  lemma DeliverKeepsWakers(s: System, w: Waker)
    requires WakerInv(s)
    ensures WakerInv(Step(s, Deliver(w)))
  {
    StepKeepsSlot(s, Deliver(w));
    var t := Step(s, Deliver(w));
    forall g | g in t.waits && t.waits[g].status.Pending? && !t.waits[g].status.woken
      ensures Registered(t, g)
    {
      assert Registered(s, g);
    }
  }

  lemma ArrivalsKeepWakers(s: System, e: Event)
    requires WakerInv(s) && (e.NewWait? || e.Drop?)
    ensures WakerInv(Step(s, e))
  {
    StepKeepsSlot(s, e);
    var t := Step(s, e);
    forall g | g in t.waits && t.waits[g].status.Pending? && !t.waits[g].status.woken
      ensures Registered(t, g)
    {
      assert Registered(s, g);
    }
  }

  lemma {:induction false} RunKeepsWakers(events: seq<Event>)
    ensures WakerInv(Run(events))
  {
    if events == [] {
    } else {
      var s, e := Run(events[..|events| - 1]), events[|events| - 1];
      RunKeepsWakers(events[..|events| - 1]);
      match e
      case Poll(f, w) => if f in s.waits && Unfinished(s.waits[f]) { PollKeepsWakers(s, f, w); }
      case Release(expected) => ReleaseKeepsWakers(s, expected);
      case CloseGate => CloseKeepsWakers(s);
      case Deliver(w) => DeliverKeepsWakers(s, w);
      case _ => ArrivalsKeepWakers(s, e);
    }
  }

  /** No lost wake-up: in every run, the waker of a future that was left pending and has not been
      woken is still in the slot, in the wait list, or in flight. */
  lemma NoLostWakeUp(events: seq<Event>, f: FutureId)
    requires f in Run(events).waits && Run(events).waits[f].status.Pending?
    requires !Run(events).waits[f].status.woken
    ensures Registered(Run(events), f)
  {
    RunKeepsWakers(events);
  }

  /** Every wake has been delivered, a future waits, and nobody can do anything: no pending future
      has been woken, and there is no action to release. */
  predicate Stuck(s: System) {
    && s.wakes == multiset{} && Peek(s.gate).None?
    && (exists f :: f in s.waits && s.waits[f].status.Pending?)
    && (forall f :: f in s.waits && s.waits[f].status.Pending? ==> !s.waits[f].status.woken)
  }

  lemma OwnedIsNotStuck(s: System)
    requires WakerInv(s) && !s.gate.closed && IsOwned(s) && s.wakes == multiset{}
    ensures Peek(s.gate).Some? || s.waits[s.owner].status.woken
  {
    if !s.waits[s.owner].status.woken {
      assert Registered(s, s.owner);
    }
  }

  /** Only an orphaned slot sticks. */
  lemma StuckIsOrphaned(events: seq<Event>)
    requires Stuck(Run(events))
    ensures Orphaned(Run(events))
  {
    RunKeepsWakers(events);
    var s := Run(events);
    var f :| f in s.waits && s.waits[f].status.Pending?;
    assert Registered(s, f);
    assert !s.gate.closed && s.gate.pending.Some?;
    if !Orphaned(s) {
      OwnedIsNotStuck(s);
    }
  }

  // ----- Identities ---------------------------------------------------------------------------

  /** While ids have not saturated: the counter counts them, every id given out is at most the
      counter, and an action has been released exactly once if its future resolved or its slot is
      marked, and never otherwise. */
  ghost predicate IdInv(s: System) {
    && SlotInv(s)
    && s.gate.nextId == (if s.parks <= U64_MAX then s.parks else U64_MAX)
    && (s.parks <= U64_MAX ==>
          && (forall id :: id in s.releases ==> id <= s.parks)
          && (forall f :: f in s.waits && s.waits[f].actionId.Some? ==> 0 < s.waits[f].actionId.value <= s.parks)
          && (s.gate.pending.Some? ==>
                && 0 < s.gate.pending.value.id <= s.parks
                && multiset(s.releases)[s.gate.pending.value.id] ==
                     (if s.gate.pending.value.released then 1 else 0))
          && (forall f :: f in s.waits && s.waits[f].status == Ready(true) ==>
                s.waits[f].actionId.Some?
                && multiset(s.releases)[s.waits[f].actionId.value] == 1
                && (s.gate.pending.Some? ==> s.gate.pending.value.id != s.waits[f].actionId.value)))
  }

  lemma ParkKeepsIds(s: System, f: FutureId, w: Waker)
    requires IdInv(s) && f in s.waits && Unfinished(s.waits[f]) && PollExit(s.gate, s.waits[f].actionId).Parks?
    ensures IdInv(Step(s, Poll(f, w)))
  {
    PollKeepsSlot(s, f, w);
    var t := Step(s, Poll(f, w));
    assert forall g :: g in t.waits && g != f ==> t.waits[g] == s.waits[g];
    assert s.parks + 1 !in s.releases || s.parks >= U64_MAX;
  }

  lemma OtherPollKeepsIds(s: System, f: FutureId, w: Waker)
    requires IdInv(s) && f in s.waits && Unfinished(s.waits[f]) && !PollExit(s.gate, s.waits[f].actionId).Parks?
    ensures IdInv(Step(s, Poll(f, w)))
  {
    PollKeepsSlot(s, f, w);
    var t := Step(s, Poll(f, w));
    assert forall g :: g in t.waits && g != f ==> t.waits[g] == s.waits[g];
  }

  lemma PollKeepsIds(s: System, f: FutureId, w: Waker)
    requires IdInv(s) && f in s.waits && Unfinished(s.waits[f])
    ensures IdInv(Step(s, Poll(f, w)))
  {
    if PollExit(s.gate, s.waits[f].actionId).Parks? {
      ParkKeepsIds(s, f, w);
    } else {
      OtherPollKeepsIds(s, f, w);
    }
  }

  lemma ReleaseKeepsIds(s: System, expected: ActionId)
    requires IdInv(s)
    ensures IdInv(Step(s, Release(expected)))
  {
    StepKeepsSlot(s, Release(expected));
    assert multiset(s.releases + [expected]) == multiset(s.releases) + multiset{expected};
  }

  lemma StepKeepsIds(s: System, e: Event)
    requires IdInv(s)
    ensures IdInv(Step(s, e))
  {
    StepKeepsSlot(s, e);
    match e
    case Poll(f, w) => if f in s.waits && Unfinished(s.waits[f]) { PollKeepsIds(s, f, w); }
    case Release(expected) => ReleaseKeepsIds(s, expected);
    case _ =>
  }

  lemma {:induction false} RunKeepsIds(events: seq<Event>)
    ensures IdInv(Run(events))
  {
    if events == [] {
    } else {
      RunKeepsIds(events[..|events| - 1]);
      StepKeepsIds(Run(events[..|events| - 1]), events[|events| - 1]);
    }
  }

  /** A future resolves successfully only after exactly one release of its own action. */
  lemma OkNeedsOneRelease(events: seq<Event>, f: FutureId)
    requires Run(events).parks <= U64_MAX
    requires f in Run(events).waits && Run(events).waits[f].status == Ready(true)
    ensures var s := Run(events);
            s.waits[f].actionId.Some? && multiset(s.releases)[s.waits[f].actionId.value] == 1
  {
    RunKeepsIds(events);
  }

  /** The step parks a new action. */
  predicate IsPark(s: System, e: Event) {
    e.Poll? && e.f in s.waits && Unfinished(s.waits[e.f]) && PollExit(s.gate, s.waits[e.f].actionId).Parks?
  }

  /** Every id handed out in a run, in order, whatever became of the futures. */
  function HandedOut(events: seq<Event>): seq<ActionId> {
    if events == [] then []
    else
      var s := Run(events[..|events| - 1]);
      HandedOut(events[..|events| - 1]) +
      (if IsPark(s, events[|events| - 1]) then [SaturatingSucc(s.gate.nextId)] else [])
  }

  lemma ParkCounts(s: System, e: Event)
    ensures Step(s, e).parks == s.parks + if IsPark(s, e) then 1 else 0
    ensures IsPark(s, e) ==> Step(s, e).waits[e.f].actionId == Some(SaturatingSucc(s.gate.nextId))
  {
  }

  lemma {:induction false} HandedOutCounts(events: seq<Event>)
    ensures |HandedOut(events)| == Run(events).parks
    ensures Run(events).parks <= U64_MAX ==>
              forall i :: 0 <= i < |HandedOut(events)| ==> HandedOut(events)[i] == i + 1
  {
    if events == [] {
    } else {
      var n := |events| - 1;
      HandedOutCounts(events[..n]);
      RunKeepsIds(events[..n]);
      ParkCounts(Run(events[..n]), events[n]);
    }
  }

  /** Until the 64-bit counter saturates, ids strictly increase over the whole run. */
  lemma IdsStrictlyIncrease(events: seq<Event>, i: nat, j: nat)
    requires i < j < |HandedOut(events)| <= U64_MAX
    ensures HandedOut(events)[i] < HandedOut(events)[j]
  {
    HandedOutCounts(events);
  }

  // ----- Which action is parked ---------------------------------------------------------------

  /** The action that a live future was created with. */
  function CreatedWith(events: seq<Event>, f: FutureId): Option<nat> {
    if events == [] then None
    else
      var n := |events| - 1;
      if events[n] == Drop(f) then None
      else if events[n].NewWait? && events[n].f == f && f !in Run(events[..n]).waits then Some(events[n].action)
      else CreatedWith(events[..n], f)
  }

  lemma StepKeepsAction(s: System, e: Event, f: FutureId)
    ensures f in Step(s, e).waits <==> (f in s.waits || (e.NewWait? && e.f == f)) && e != Drop(f)
    ensures f in Step(s, e).waits ==>
              Step(s, e).waits[f].action == if f in s.waits then s.waits[f].action else e.action
  {
  }

  lemma {:induction false} ActionsAreKept(events: seq<Event>, f: FutureId)
    ensures f in Run(events).waits ==> CreatedWith(events, f) == Some(Run(events).waits[f].action)
  {
    if events == [] {
    } else {
      ActionsAreKept(events[..|events| - 1], f);
      StepKeepsAction(Run(events[..|events| - 1]), events[|events| - 1], f);
    }
  }

  /** An owned slot holds its owner's action. */
  predicate SlotIsOwners(s: System) {
    IsOwned(s) && !s.gate.closed ==> s.gate.pending.value.action == s.waits[s.owner].action
  }

  lemma StepKeepsSlotAction(s: System, e: Event)
    requires SlotInv(s) && SlotIsOwners(s)
    ensures SlotIsOwners(Step(s, e))
  {
    match e
    case Poll(f, w) =>
      if f in s.waits && Unfinished(s.waits[f]) {
        PollKeepsSlotAction(s, f, w);
      }
    case _ =>
  }

  lemma PollKeepsSlotAction(s: System, f: FutureId, w: Waker)
    requires SlotInv(s) && SlotIsOwners(s) && f in s.waits && Unfinished(s.waits[f])
    ensures SlotIsOwners(Step(s, Poll(f, w)))
  {
    var t := Step(s, Poll(f, w));
    assert forall g :: g in t.waits && g != f ==> t.waits[g] == s.waits[g];
    assert t.waits[f].action == s.waits[f].action;
  }

  lemma {:induction false} RunKeepsSlotAction(events: seq<Event>)
    ensures SlotIsOwners(Run(events))
  {
    if events == [] {
    } else {
      RunKeepsSlot(events[..|events| - 1]);
      RunKeepsSlotAction(events[..|events| - 1]);
      StepKeepsSlotAction(Run(events[..|events| - 1]), events[|events| - 1]);
    }
  }

  /** What is shown for release is the action that its future was created with, and releasing it lets
      that future through and frees the slot. */
  lemma ShownActionIsLetThrough(events: seq<Event>, w: Waker)
    requires var s := Run(events); !s.gate.closed && Peek(s.gate).Some? && !Orphaned(s)
    ensures var s := Run(events);
            var shown := Peek(s.gate).value;
            var z := Step(Step(s, Release(shown.id)), Poll(s.owner, w));
            && CreatedWith(events, s.owner) == Some(shown.action)
            && s.owner in z.waits && z.waits[s.owner].status == Ready(true)
            && z.gate.pending.None? && z.releases == s.releases + [shown.id]
  {
    RunKeepsSlot(events);
    RunKeepsSlotAction(events);
    ActionsAreKept(events, Run(events).owner);
  }

  /** A free open gate parks whoever polls next, and shows its action. */
  lemma FreeGateParks(events: seq<Event>, f: FutureId, w: Waker)
    requires var s := Run(events);
             !s.gate.closed && s.gate.pending.None? && f in s.waits && Unfinished(s.waits[f])
    ensures var t := Step(Run(events), Poll(f, w));
            && t.owner == f && t.waits[f].status.Pending? && Peek(t.gate).Some?
            && CreatedWith(events, f) == Some(Peek(t.gate).value.action)
            && t.waits[f].actionId == Some(Peek(t.gate).value.id)
  {
    RunKeepsSlot(events);
    ActionsAreKept(events, f);
  }

  // ----- Closing ------------------------------------------------------------------------------

  predicate WasClosed(events: seq<Event>) {
    exists i :: 0 <= i < |events| && events[i].CloseGate?
  }

  lemma {:induction false} ClosedIffClosed(events: seq<Event>)
    ensures Run(events).gate.closed <==> WasClosed(events)
  {
    if events == [] {
    } else {
      var n := |events| - 1;
      ClosedIffClosed(events[..n]);
      StepCloses(Run(events[..n]), events[n]);
      assert events == events[..n] + [events[n]];
      assert WasClosed(events) <==> WasClosed(events[..n]) || events[n].CloseGate?;
    }
  }

  lemma StepCloses(s: System, e: Event)
    ensures Step(s, e).gate.closed <==> s.gate.closed || e.CloseGate?
  {
  }

  /** Once closed, every poll of an unfinished future fails, nothing is released, and the gate itself
      does not change any more. Until then no poll fails. */
  lemma ClosedGateFails(events: seq<Event>, f: FutureId, w: Waker, id: ActionId)
    requires f in Run(events).waits && Unfinished(Run(events).waits[f])
    ensures var s := Run(events);
            var t := Step(s, Poll(f, w));
            && (t.waits[f].status == Ready(false) <==> WasClosed(events))
            && (WasClosed(events) ==> t.gate == s.gate && ReleaseResultOf(s.gate, id).Closed?)
  {
    ClosedIffClosed(events);
    RunKeepsSlot(events);
  }

  // ----- Dropping a parked future -------------------------------------------------------------

  /** The slot of an open gate loses its owner. */
  predicate DropsOwner(s: System, e: Event) {
    e.Drop? && !s.gate.closed && IsOwned(s) && e.f == s.owner
  }

  /** An orphaned slot comes from dropping its owner, and goes only by closing the gate. */
  lemma OrphanedStep(s: System, e: Event)
    requires SlotInv(s)
    ensures Orphaned(Step(s, e)) <==> DropsOwner(s, e) || (Orphaned(s) && !e.CloseGate?)
  {
    match e
    case Poll(f, w) => if f in s.waits && Unfinished(s.waits[f]) { OrphanedPoll(s, f, w); }
    case Deliver(w) => OrphanedDeliver(s, w);
    case Drop(f) => OrphanedDrop(s, f);
    case NewWait(f, action) => OrphanedArrival(s, f, action);
    case _ => assert Step(s, e).waits == s.waits;
  }

  lemma OrphanedPoll(s: System, f: FutureId, w: Waker)
    requires SlotInv(s) && f in s.waits && Unfinished(s.waits[f])
    ensures Orphaned(Step(s, Poll(f, w))) <==> Orphaned(s)
  {
    var t := Step(s, Poll(f, w));
    assert forall g :: g in t.waits && g != f ==> t.waits[g] == s.waits[g];
    if Orphaned(s) {
      assert !HoldsAction(s, f) && !HoldsAction(t, f);
      assert forall g :: g in t.waits ==> !HoldsAction(t, g) || HoldsAction(s, g);
    } else if !s.gate.closed && s.gate.pending.Some? {
      assert IsOwned(s);
      assert f != s.owner ==> HoldsAction(t, s.owner);
      assert HoldsAction(t, s.owner) || t.gate.pending.None?;
    } else if t.gate.pending.Some? && !t.gate.closed {
      assert HoldsAction(t, f);
    }
  }

  lemma OrphanedDeliver(s: System, w: Waker)
    ensures Orphaned(Step(s, Deliver(w))) <==> Orphaned(s)
  {
    var t := Step(s, Deliver(w));
    assert t.waits.Keys == s.waits.Keys;
    assert forall f :: f in s.waits ==> HoldsAction(t, f) == HoldsAction(s, f);
  }

  lemma OrphanedDrop(s: System, f: FutureId)
    requires SlotInv(s)
    ensures Orphaned(Step(s, Drop(f))) <==> DropsOwner(s, Drop(f)) || Orphaned(s)
  {
    var t := Step(s, Drop(f));
    assert forall g :: g in t.waits ==> HoldsAction(t, g) == HoldsAction(s, g);
    if IsOwned(s) && f != s.owner {
      assert HoldsAction(t, s.owner);
    }
  }

  lemma OrphanedArrival(s: System, f: FutureId, action: nat)
    requires SlotInv(s)
    ensures Orphaned(Step(s, NewWait(f, action))) <==> Orphaned(s)
  {
    var t := Step(s, NewWait(f, action));
    assert forall g :: g in s.waits ==> HoldsAction(t, g) == HoldsAction(s, g);
    assert f !in s.waits ==> !HoldsAction(t, f);
  }

  /** Some step dropped the owner of an open gate's slot, and the gate has not been closed since. */
  predicate OwnerWasDropped(events: seq<Event>) {
    events != [] &&
    (var n := |events| - 1;
     DropsOwner(Run(events[..n]), events[n]) || (OwnerWasDropped(events[..n]) && !events[n].CloseGate?))
  }

  /** In every run: the slot is orphaned if and only if its owner was dropped and the gate has not
      been closed since. */
  lemma {:induction false} OrphanedIffOwnerDropped(events: seq<Event>)
    ensures Orphaned(Run(events)) <==> OwnerWasDropped(events)
  {
    if events == [] {
    } else {
      var n := |events| - 1;
      OrphanedIffOwnerDropped(events[..n]);
      RunKeepsSlot(events[..n]);
      OrphanedStep(Run(events[..n]), events[n]);
    }
  }

  // ----- A wedged gate ------------------------------------------------------------------------

  function RunFrom(s: System, more: seq<Event>): System {
    if more == [] then s else Step(RunFrom(s, more[..|more| - 1]), more[|more| - 1])
  }

  lemma LastOf(a: seq<Event>, b: seq<Event>)
    requires b != []
    ensures (a + b)[..|a + b| - 1] == a + b[..|b| - 1] && (a + b)[|a + b| - 1] == b[|b| - 1]
  {
  }

  lemma {:induction false} RunAppend(events: seq<Event>, more: seq<Event>)
    ensures Run(events + more) == RunFrom(Run(events), more)
  {
    if more == [] {
      assert events + more == events;
    } else {
      LastOf(events, more);
      RunAppend(events, more[..|more| - 1]);
    }
  }

  lemma {:induction false} FirstStep(s: System, e: Event, rest: seq<Event>)
    ensures RunFrom(s, [e] + rest) == RunFrom(Step(s, e), rest)
  {
    if rest == [] {
      assert [e] + rest == [e] && [e][..0] == [];
    } else {
      LastOf([e], rest);
      FirstStep(s, e, rest[..|rest| - 1]);
    }
  }

  predicate Open(more: seq<Event>) {
    forall i :: 0 <= i < |more| ==> !more[i].CloseGate?
  }

  /** Until the gate is closed an orphaned slot stays, no future finishes, and no action is parked. */
  lemma {:induction false} OrphanedSlotIsPermanent(s: System, more: seq<Event>)
    requires SlotInv(s) && Orphaned(s) && Open(more)
    ensures var z := RunFrom(s, more);
            && SlotInv(z) && Orphaned(z) && z.parks == s.parks
            && (Peek(s.gate).None? ==> Peek(z.gate).None?)
            && forall f :: f in z.waits && z.waits[f].status.Ready? ==> f in s.waits && s.waits[f].status.Ready?
  {
    if more == [] {
    } else {
      var n := |more| - 1;
      OrphanedSlotIsPermanent(s, more[..n]);
      StepKeepsSlot(RunFrom(s, more[..n]), more[n]);
      OrphanedStep(RunFrom(s, more[..n]), more[n]);
      OrphanedStepDoesNothing(RunFrom(s, more[..n]), more[n]);
    }
  }

  lemma OrphanedStepDoesNothing(s: System, e: Event)
    requires Orphaned(s) && !e.CloseGate?
    ensures var z := Step(s, e);
            && z.parks == s.parks && (Peek(s.gate).None? ==> Peek(z.gate).None?)
            && forall f :: f in z.waits && z.waits[f].status.Ready? ==> f in s.waits && s.waits[f].status.Ready?
  {
    if e.Poll? && e.f in s.waits && Unfinished(s.waits[e.f]) {
      assert !HoldsAction(s, e.f);
    }
  }

  /** Steps that neither drop a future nor close the gate. */
  predicate Gentle(more: seq<Event>) {
    forall i :: 0 <= i < |more| ==> !more[i].CloseGate? && !more[i].Drop?
  }

  lemma GentleFirst(e: Event, rest: seq<Event>)
    requires Gentle(rest) && !e.CloseGate? && !e.Drop?
    ensures Gentle([e] + rest)
  {
  }

  predicate HasPending(s: System) {
    exists f :: f in s.waits && s.waits[f].status.Pending?
  }

  /** Orphaned, released, and with somebody waiting. */
  predicate IsWedged(s: System) {
    Orphaned(s) && Peek(s.gate).None? && HasPending(s)
  }

  function WokenSet(s: System): set<FutureId> {
    set f | f in s.waits && s.waits[f].status.Pending? && s.waits[f].status.woken
  }

  /** Polled again, the woken futures find the slot taken and wait on. */
  lemma PollWoken(s: System) returns (more: seq<Event>)
    requires IsWedged(s) && s.wakes == multiset{}
    ensures Gentle(more) && Stuck(RunFrom(s, more))
    decreases |WokenSet(s)|
  {
    if WokenSet(s) == {} {
      more := [];
      assert forall f :: f in s.waits && s.waits[f].status.Pending? ==> f !in WokenSet(s);
    } else {
      var f :| f in WokenSet(s);
      var e := Poll(f, 0);
      PollOneWoken(s, f);
      var rest := PollWoken(Step(s, e));
      more := [e] + rest;
      FirstStep(s, e, rest);
      GentleFirst(e, rest);
    }
  }

  lemma PollOneWoken(s: System, f: FutureId)
    requires IsWedged(s) && s.wakes == multiset{} && f in WokenSet(s)
    ensures var t := Step(s, Poll(f, 0));
            IsWedged(t) && t.wakes == multiset{} && |WokenSet(t)| < |WokenSet(s)|
  {
    var t := Step(s, Poll(f, 0));
    assert !HoldsAction(s, f);
    assert t.waits == s.waits[f := s.waits[f].(status := Pending(0, false))];
    assert forall g :: g in t.waits ==> HoldsAction(t, g) == HoldsAction(s, g);
    assert t.waits[f].status.Pending?;
    assert WokenSet(t) == WokenSet(s) - {f};
  }

  lemma DeliverAll(s: System) returns (more: seq<Event>)
    requires IsWedged(s)
    ensures Gentle(more) && Stuck(RunFrom(s, more))
    decreases |s.wakes|
  {
    if s.wakes == multiset{} {
      more := PollWoken(s);
    } else {
      var w :| w in s.wakes;
      var e := Deliver(w);
      DeliverOne(s, w);
      var rest := DeliverAll(Step(s, e));
      more := [e] + rest;
      FirstStep(s, e, rest);
      GentleFirst(e, rest);
    }
  }

  lemma DeliverOne(s: System, w: Waker)
    requires IsWedged(s) && w in s.wakes
    ensures IsWedged(Step(s, Deliver(w))) && |Step(s, Deliver(w)).wakes| < |s.wakes|
  {
    var t := Step(s, Deliver(w));
    OrphanedDeliver(s, w);
    var f :| f in s.waits && s.waits[f].status.Pending?;
    assert f in t.waits && t.waits[f].status.Pending?;
  }

  lemma {:induction false} FreshKey(keys: set<FutureId>) returns (n: FutureId)
    ensures forall k :: k in keys ==> k < n
    decreases |keys|
  {
    if keys == {} {
      n := 0;
    } else {
      var k :| k in keys;
      var m := FreshKey(keys - {k});
      n := if k < m then m else k + 1;
      assert forall j :: j in keys ==> j == k || j in keys - {k};
    }
  }

  /** A new future finds the slot taken, and releasing the orphaned action does not help it. */
  lemma Wedge(s: System) returns (more: seq<Event>)
    requires SlotInv(s) && Orphaned(s)
    ensures Gentle(more) && Stuck(RunFrom(s, more))
  {
    var f := FreshKey(s.waits.Keys);
    var a, b, c := NewWait(f, 0), Poll(f, 0), Release(s.gate.pending.value.id);
    var s1 := Step(s, a);
    var s2 := Step(s1, b);
    var s3 := Step(s2, c);
    WedgeSteps(s, f);
    var rest := DeliverAll(s3);
    more := [a] + ([b] + ([c] + rest));
    FirstStep(s2, c, rest);
    FirstStep(s1, b, [c] + rest);
    FirstStep(s, a, [b] + ([c] + rest));
    GentleFirst(c, rest);
    GentleFirst(b, [c] + rest);
    GentleFirst(a, [b] + ([c] + rest));
  }

  lemma WedgeSteps(s: System, f: FutureId)
    requires SlotInv(s) && Orphaned(s) && f !in s.waits
    ensures IsWedged(Step(Step(Step(s, NewWait(f, 0)), Poll(f, 0)), Release(s.gate.pending.value.id)))
  {
    var s1 := Step(s, NewWait(f, 0));
    OrphanedArrival(s, f, 0);
    StepKeepsSlot(s, NewWait(f, 0));
    var s2 := Step(s1, Poll(f, 0));
    OrphanedPoll(s1, f, 0);
    StepKeepsSlot(s1, Poll(f, 0));
    assert s2.waits[f].status.Pending?;
    var s3 := Step(s2, Release(s.gate.pending.value.id));
    OrphanedStep(s2, Release(s.gate.pending.value.id));
    assert f in s3.waits && s3.waits[f].status.Pending?;
  }

  /** No step of `more`, taken after `events`, drops the slot's owner. */
  predicate KeepsOwners(events: seq<Event>, more: seq<Event>) {
    more == [] ||
    (var n := |more| - 1;
     KeepsOwners(events, more[..n]) && !DropsOwner(Run(events + more[..n]), more[n]))
  }

  lemma {:induction false} GentleKeepsOwners(events: seq<Event>, more: seq<Event>)
    requires Gentle(more)
    ensures KeepsOwners(events, more)
  {
    if more == [] {
    } else {
      GentleKeepsOwners(events, more[..|more| - 1]);
    }
  }

  lemma {:induction false} OrphanedFromBefore(events: seq<Event>, more: seq<Event>)
    requires KeepsOwners(events, more) && Orphaned(Run(events + more))
    ensures Orphaned(Run(events))
  {
    if more == [] {
      assert events + more == events;
    } else {
      var init := events + more[..|more| - 1];
      LastOf(events, more);
      RunKeepsSlot(init);
      OrphanedStep(Run(init), more[|more| - 1]);
      OrphanedFromBefore(events, more[..|more| - 1]);
    }
  }

  /** The gate can get stuck without a further owner being dropped if and only if the owner of its
      slot was dropped and it has not been closed since. */
  lemma WedgedIffOwnerDropped(events: seq<Event>)
    ensures (exists more :: KeepsOwners(events, more) && Stuck(Run(events + more))) <==> OwnerWasDropped(events)
  {
    OrphanedIffOwnerDropped(events);
    if more :| KeepsOwners(events, more) && Stuck(Run(events + more)) {
      StuckIsOrphaned(events + more);
      OrphanedFromBefore(events, more);
    }
    if OwnerWasDropped(events) {
      RunKeepsSlot(events);
      var more := Wedge(Run(events));
      RunAppend(events, more);
      GentleKeepsOwners(events, more);
    }
  }

  /** So while owners are kept, a waiting future means a wake in flight, a woken future, or an action
      to release. */
  lemma NeverStuck(events: seq<Event>)
    requires !OwnerWasDropped(events)
    ensures !Stuck(Run(events))
  {
    if Stuck(Run(events)) {
      StuckIsOrphaned(events);
      OrphanedIffOwnerDropped(events);
    }
  }
}
