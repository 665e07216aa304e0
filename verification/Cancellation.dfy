/** The cancellation token: crates/tea-core/src/scheduler.rs.

    The flag is swapped outside the waiter lock. A poll tests it before taking the lock and again
    while holding it, so the section of a poll is modelled in two parts, with the lock held in
    between; a concurrent `cancel` may swap the flag there but cannot take the list. */
module Cancellation {
  import opened Wrappers

  type Waker = nat

  datatype Entry = Entry(id: nat, waker: Waker)

  // ----- The waiter list ----------------------------------------------------------------------

  /** Replace the waker of the entry with this id, or append one. */
  function Upsert(waiters: seq<Entry>, id: nat, w: Waker): seq<Entry> {
    if waiters == [] then [Entry(id, w)]
    else if waiters[0].id == id then [Entry(id, w)] + waiters[1..]
    else [waiters[0]] + Upsert(waiters[1..], id, w)
  }

  predicate HasWaker(waiters: seq<Entry>, w: Waker) {
    exists k :: 0 <= k < |waiters| && waiters[k].waker == w
  }

  function Without(waiters: seq<Entry>, id: nat): seq<Entry> {
    if waiters == [] then []
    else if waiters[0].id == id then Without(waiters[1..], id)
    else [waiters[0]] + Without(waiters[1..], id)
  }

  class Token {
    var cancelled: bool
    var nextWaiterId: nat
    var waiters: seq<Entry>

    constructor ()
      ensures !cancelled && nextWaiterId == 0 && waiters == []
    {
      cancelled, nextWaiterId, waiters := false, 0, [];
    }

    /** The swap that elects the one cancelling call. */
    method Swap() returns (won: bool)
      modifies this
      ensures won == !old(cancelled) && cancelled
      ensures waiters == old(waiters) && nextWaiterId == old(nextWaiterId)
    {
      won := !cancelled;
      cancelled := true;
    }

    method TakeWaiters() returns (taken: seq<Entry>)
      modifies this
      ensures taken == old(waiters) && waiters == []
      ensures cancelled == old(cancelled) && nextWaiterId == old(nextWaiterId)
    {
      taken := waiters;
      waiters := [];
    }

    /** The locked section of a poll. */
    method PollSection(id: nat, w: Waker) returns (ready: bool)
      modifies this
      ensures ready == old(cancelled) == cancelled && nextWaiterId == old(nextWaiterId)
      ensures waiters == if ready then old(waiters) else Upsert(old(waiters), id, w)
    {
      ready := cancelled;
      if ready {
        return;
      }
      var list := waiters;
      var i := 0;
      while i < |list| && list[i].id != id
        invariant 0 <= i <= |list|
        invariant cancelled == old(cancelled) && nextWaiterId == old(nextWaiterId)
        invariant Upsert(list, id, w) == list[..i] + Upsert(list[i..], id, w)
      {
        UpsertStep(list, i, id, w);
        i := i + 1;
      }
      if i < |list| {
        assert list[i..][1..] == list[i + 1..];
        waiters := list[..i] + ([Entry(id, w)] + list[i + 1..]);
      } else {
        waiters := list[..i] + [Entry(id, w)];
      }
    }

    /** The locked section of `register_waker`: an entry that would wake the same task is enough. */
    method RegisterSection(w: Waker) returns (ready: bool)
      modifies this
      ensures ready == old(cancelled) == cancelled
      ensures if ready || HasWaker(old(waiters), w)
              then waiters == old(waiters) && nextWaiterId == old(nextWaiterId)
              else waiters == old(waiters) + [Entry(old(nextWaiterId), w)]
                   && nextWaiterId == old(nextWaiterId) + 1
    {
      ready := cancelled;
      if !ready && !HasWaker(waiters, w) {
        waiters := waiters + [Entry(nextWaiterId, w)];
        nextWaiterId := nextWaiterId + 1;
      }
    }

    method DropSection(id: nat)
      modifies this
      ensures forall e :: e in waiters <==> e in old(waiters) && e.id != id
      ensures waiters == Without(old(waiters), id)
      ensures cancelled == old(cancelled) && nextWaiterId == old(nextWaiterId)
    {
      forall e
        ensures e in Without(waiters, id) <==> e in waiters && e.id != id
      {
        WithoutKeeps(waiters, id, e);
      }
      waiters := Without(waiters, id);
    }
  }

  lemma UpsertStep(waiters: seq<Entry>, i: nat, id: nat, w: Waker)
    requires i < |waiters| && waiters[i].id != id
    ensures waiters[..i] + Upsert(waiters[i..], id, w) ==
            waiters[..i + 1] + Upsert(waiters[i + 1..], id, w)
  {
    assert waiters[i..][1..] == waiters[i + 1..];
    assert waiters[..i + 1] == waiters[..i] + [waiters[i]];
  }

  /** Updating one id leaves entries with other ids, and the new entry is present. */
  lemma {:induction false} UpsertKeeps(waiters: seq<Entry>, id: nat, w: Waker, e: Entry)
    ensures Entry(id, w) in Upsert(waiters, id, w)
    ensures e in waiters && e.id != id ==> e in Upsert(waiters, id, w)
    ensures e in Upsert(waiters, id, w) ==> e == Entry(id, w) || e in waiters
  {
    if waiters == [] {
    } else {
      UpsertKeeps(waiters[1..], id, w, e);
      assert waiters == [waiters[0]] + waiters[1..];
    }
  }

  lemma {:induction false} WithoutKeeps(waiters: seq<Entry>, id: nat, e: Entry)
    ensures e in Without(waiters, id) <==> e in waiters && e.id != id
  {
    if waiters == [] {
    } else {
      WithoutKeeps(waiters[1..], id, e);
      assert waiters == [waiters[0]] + waiters[1..];
    }
  }

  // ----- All interleavings --------------------------------------------------------------------

  /** A `cancelled()` future: between polls, testing the flag without the lock, holding the lock
      after seeing it clear, returned pending, or returned ready. */
  datatype WaitStatus = Fresh | Polling(w: Waker) | Holding(w: Waker) | Waiting(w: Waker) | Done

  /** A `register_waker` call. A finished one has its own entry, was merged into an entry that
      already held its waker, or woke the waker at once. */
  datatype RegStatus = Asking | Locked | Kept(id: nat) | Merged | WokeNow

  datatype Registration = Registration(w: Waker, status: RegStatus)

  datatype Holder = ByWait(f: nat) | ByRegistration(r: nat)

  /** The one cancelling call: not begun, past the swap, or waking what it took. */
  datatype Phase = Idle | Swapped | Waking(left: seq<Entry>)

  /** `waits` is keyed by waiter id. */
  datatype System = System(
    cancelled: bool, waiters: seq<Entry>, nextId: nat, lock: Option<Holder>, phase: Phase,
    waits: map<nat, WaitStatus>, registrations: map<nat, Registration>, delivered: set<Waker>)

  datatype Event =
    | NewWait | PollStart(f: nat, w: Waker) | PollEnter(f: nat) | PollFinish(f: nat)
    | Drop(f: nat) | DropEntry(id: nat)
    | RegisterStart(r: nat, w: Waker) | RegisterEnter(r: nat) | RegisterFinish(r: nat)
    | CancelSwap | CancelTake | CancelWake

  const START: System := System(false, [], 0, None, Idle, map[], map[], {})

  predicate BetweenPolls(s: WaitStatus) {
    s.Fresh? || s.Waiting? || s.Done?
  }

  /** Whether an id belongs to a registration's own entry. */
  predicate IsKept(s: System, id: nat) {
    exists r :: r in s.registrations && s.registrations[r].status == Kept(id)
  }

  function SetWait(s: System, f: nat, status: WaitStatus): System
    requires f in s.waits
  {
    s.(waits := s.waits[f := status])
  }

  function SetRegistration(s: System, r: nat, status: RegStatus): System
    requires r in s.registrations
  {
    s.(registrations := s.registrations[r := s.registrations[r].(status := status)])
  }

  /** Steps that are not enabled leave the system unchanged. `DropEntry` is the locked part of a
      drop, for an id whose future no longer exists. */
  function Step(s: System, e: Event): System {
    match e
    case NewWait => s.(waits := s.waits[s.nextId := Fresh], nextId := s.nextId + 1)
    case PollStart(f, w) =>
      if f !in s.waits || !BetweenPolls(s.waits[f]) || s.waits[f].Done? then s
      else if s.cancelled then SetWait(s, f, Done)
      else SetWait(s, f, Polling(w))
    case PollEnter(f) =>
      if f !in s.waits || !s.waits[f].Polling? || s.lock.Some? then s
      else if s.cancelled then SetWait(s, f, Done)
      else SetWait(s, f, Holding(s.waits[f].w)).(lock := Some(ByWait(f)))
    case PollFinish(f) =>
      if f !in s.waits || s.lock != Some(ByWait(f)) || !s.waits[f].Holding? then s
      else
        var w := s.waits[f].w;
        SetWait(s, f, Waiting(w)).(waiters := Upsert(s.waiters, f, w), lock := None)
    case Drop(f) =>
      if f in s.waits && BetweenPolls(s.waits[f]) then s.(waits := s.waits - {f}) else s
    case DropEntry(id) =>
      if s.lock.Some? || id >= s.nextId || id in s.waits || IsKept(s, id) then s
      else s.(waiters := Without(s.waiters, id))
    case RegisterStart(r, w) =>
      if r in s.registrations then s
      else if s.cancelled then
        s.(registrations := s.registrations[r := Registration(w, WokeNow)], delivered := s.delivered + {w})
      else s.(registrations := s.registrations[r := Registration(w, Asking)])
    case RegisterEnter(r) =>
      if r !in s.registrations || !s.registrations[r].status.Asking? || s.lock.Some? then s
      else if s.cancelled then
        SetRegistration(s, r, WokeNow).(delivered := s.delivered + {s.registrations[r].w})
      else SetRegistration(s, r, Locked).(lock := Some(ByRegistration(r)))
    case RegisterFinish(r) =>
      if r !in s.registrations || s.lock != Some(ByRegistration(r)) then s
      else
        var w := s.registrations[r].w;
        if HasWaker(s.waiters, w) then SetRegistration(s, r, Merged).(lock := None)
        else SetRegistration(s, r, Kept(s.nextId))
             .(waiters := s.waiters + [Entry(s.nextId, w)], nextId := s.nextId + 1, lock := None)
    case CancelSwap =>
      if s.cancelled then s else s.(cancelled := true, phase := Swapped)
    case CancelTake =>
      if s.phase.Swapped? && s.lock.None?
      then s.(phase := Waking(s.waiters), waiters := [])
      else s
    case CancelWake =>
      if s.phase.Waking? && s.phase.left != []
      then s.(phase := Waking(s.phase.left[1..]), delivered := s.delivered + {s.phase.left[0].waker})
      else s
  }

  function Run(events: seq<Event>): System {
    if events == [] then START else Step(Run(events[..|events| - 1]), events[|events| - 1])
  }

  predicate CancelFinished(s: System) {
    s.phase == Waking([])
  }

  // ----- The invariant ------------------------------------------------------------------------

  /** An entry that will still be woken, or whose waker already has been. */
  ghost predicate Covered(s: System, e: Entry) {
    || e.waker in s.delivered
    || (!s.phase.Waking? && e in s.waiters)
    || (s.phase.Waking? && e in s.phase.left)
  }

  /** An id belongs to one future or one registration. */
  ghost predicate IdsDistinct(s: System) {
    && (forall f :: f in s.waits ==> f < s.nextId)
    && (forall r :: r in s.registrations && s.registrations[r].status.Kept? ==>
          s.registrations[r].status.id < s.nextId && s.registrations[r].status.id !in s.waits)
  }

  ghost predicate LockInv(s: System) {
    && (s.cancelled <==> !s.phase.Idle?)
    && (s.phase.Waking? ==> s.lock.None? && s.waiters == [])
    && (forall f :: f in s.waits && s.waits[f].Holding? ==> s.lock == Some(ByWait(f)))
    && (s.lock.Some? && s.lock.value.ByWait? ==> s.lock.value.f in s.waits && s.waits[s.lock.value.f].Holding?)
    && (s.lock.Some? && s.lock.value.ByRegistration? ==>
          s.lock.value.r in s.registrations && s.registrations[s.lock.value.r].status.Locked?)
  }

  ghost predicate WaitsCovered(s: System) {
    forall f :: f in s.waits && s.waits[f].Waiting? ==>
      Covered(s, Entry(f, s.waits[f].w))
  }

  ghost predicate RegistrationsCovered(s: System) {
    forall r :: r in s.registrations && s.registrations[r].status.Kept? ==>
      Covered(s, Entry(s.registrations[r].status.id, s.registrations[r].w))
  }

  ghost predicate Inv(s: System) {
    IdsDistinct(s) && LockInv(s) && WaitsCovered(s) && RegistrationsCovered(s)
  }

  lemma StepKeepsIds(s: System, e: Event)
    requires IdsDistinct(s)
    ensures IdsDistinct(Step(s, e))
  {
  }

  lemma StepKeepsLock(s: System, e: Event)
    requires LockInv(s) && IdsDistinct(s)
    ensures LockInv(Step(s, e))
  {
  }

  /** An entry stays covered unless the step rewrites or removes its id. */
  lemma StepKeepsCover(s: System, e: Event, x: Entry)
    requires LockInv(s) && Covered(s, x)
    requires e.PollFinish? && e.f in s.waits ==> e.f != x.id
    requires e.DropEntry? ==> e.id != x.id
    ensures Covered(Step(s, e), x)
  {
    match e
    case PollFinish(f) =>
      if f in s.waits && s.waits[f].Holding? {
        UpsertKeeps(s.waiters, f, s.waits[f].w, x);
      }
    case DropEntry(id) => WithoutKeeps(s.waiters, id, x);
    case _ =>
  }

  lemma StepKeepsWaits(s: System, e: Event)
    requires Inv(s)
    ensures WaitsCovered(Step(s, e))
  {
    var t := Step(s, e);
    forall f | f in t.waits && t.waits[f].Waiting?
      ensures Covered(t, Entry(f, t.waits[f].w))
    {
      if e == PollFinish(f) && s.lock == Some(ByWait(f)) && s.waits[f].Holding? {
        UpsertKeeps(s.waiters, f, s.waits[f].w, Entry(0, 0));
      } else {
        var x := Entry(f, s.waits[f].w);
        assert Covered(s, x);
        if e == PollFinish(f) || e == DropEntry(f) {
          assert t == s;
        } else {
          StepKeepsCover(s, e, x);
        }
      }
    }
  }

  lemma StepKeepsRegistrations(s: System, e: Event)
    requires Inv(s)
    ensures RegistrationsCovered(Step(s, e))
  {
    var t := Step(s, e);
    forall r | r in t.registrations && t.registrations[r].status.Kept?
      ensures Covered(t, Entry(t.registrations[r].status.id, t.registrations[r].w))
    {
      if r in s.registrations && s.registrations[r].status.Kept? {
        var x := Entry(s.registrations[r].status.id, s.registrations[r].w);
        if e.DropEntry? && e.id == x.id {
          assert IsKept(s, e.id);
        } else {
          StepKeepsCover(s, e, x);
        }
      }
    }
  }

  lemma {:induction false} RunKeepsInv(events: seq<Event>)
    ensures Inv(Run(events))
  {
    if events == [] {
    } else {
      var s, e := Run(events[..|events| - 1]), events[|events| - 1];
      RunKeepsInv(events[..|events| - 1]);
      StepKeepsIds(s, e);
      StepKeepsLock(s, e);
      StepKeepsWaits(s, e);
      StepKeepsRegistrations(s, e);
    }
  }

  // ----- Main results -------------------------------------------------------------------------

  /** No lost cancellation: in every interleaving, once `cancel` has finished, every live future
      that returned pending has had its waker woken. */
  lemma PendingWaitsAreWoken(events: seq<Event>, f: nat)
    requires CancelFinished(Run(events))
    requires f in Run(events).waits && Run(events).waits[f].Waiting?
    ensures Run(events).waits[f].w in Run(events).delivered
  {
    RunKeepsInv(events);
    var s := Run(events);
    assert Covered(s, Entry(f, s.waits[f].w));
  }

  /** A registration that was given its own entry is woken too. */
  lemma KeptRegistrationsAreWoken(events: seq<Event>, r: nat)
    requires CancelFinished(Run(events))
    requires r in Run(events).registrations && Run(events).registrations[r].status.Kept?
    ensures Run(events).registrations[r].w in Run(events).delivered
  {
    RunKeepsInv(events);
    var s := Run(events);
    assert Covered(s, Entry(s.registrations[r].status.id, s.registrations[r].w));
  }

  // ----- Readiness means cancelled ------------------------------------------------------------

  /** Nobody has been answered: no future is ready, no waker woken, no registration turned away. */
  ghost predicate Quiet(s: System) {
    && !s.cancelled && s.phase.Idle? && s.delivered == {}
    && (forall f :: f in s.waits ==> !s.waits[f].Done?)
    && (forall r :: r in s.registrations ==> !s.registrations[r].status.WokeNow?)
  }

  /** In every run: the token is cancelled exactly when some call has swapped the flag, and until then
      nobody is answered. */
  lemma {:induction false} QuietUntilCancelled(events: seq<Event>)
    ensures Run(events).cancelled <==> CancelSwap in events
    ensures CancelSwap !in events ==> Quiet(Run(events))
  {
    if events == [] {
    } else {
      var n := |events| - 1;
      QuietUntilCancelled(events[..n]);
      assert events == events[..n] + [events[n]];
      StepIsQuiet(Run(events[..n]), events[n]);
    }
  }

  lemma StepIsQuiet(s: System, e: Event)
    ensures Step(s, e).cancelled <==> s.cancelled || e.CancelSwap?
    ensures Quiet(s) && !e.CancelSwap? ==> Quiet(Step(s, e))
  {
  }

  /** From the swap on, every poll that begins or reaches the lock is ready, and every registration that
      begins or reaches the lock has its waker woken at once. */
  lemma AnsweredOnceCancelled(events: seq<Event>, id: nat, w: Waker)
    requires CancelSwap in events
    ensures var s := Run(events);
            && (id in s.waits && BetweenPolls(s.waits[id]) ==> Run(events + [PollStart(id, w)]).waits[id] == Done)
            && (id in s.waits && s.waits[id].Polling? && s.lock.None? ==> Run(events + [PollEnter(id)]).waits[id] == Done)
            && (id !in s.registrations ==> w in Run(events + [RegisterStart(id, w)]).delivered)
            && (id in s.registrations && s.registrations[id].status.Asking? && s.lock.None? ==>
                  s.registrations[id].w in Run(events + [RegisterEnter(id)]).delivered)
  {
    QuietUntilCancelled(events);
    assert forall e :: (events + [e])[..|events + [e]| - 1] == events && (events + [e])[|events + [e]| - 1] == e;
  }

  /** Before the swap, a poll that ran to its end is pending and its waker is listed under its own id. */
  lemma PendingIsListed(events: seq<Event>, f: nat)
    requires CancelSwap !in events && f in Run(events).waits && Run(events).waits[f].Waiting?
    ensures Entry(f, Run(events).waits[f].w) in Run(events).waiters
  {
    QuietUntilCancelled(events);
    RunKeepsInv(events);
    assert Covered(Run(events), Entry(f, Run(events).waits[f].w));
  }

  // ----- What `cancel` wakes ------------------------------------------------------------------

  /** Whether a step is the one that takes the list. */
  predicate Takes(s: System, e: Event) {
    e.CancelTake? && s.phase.Swapped? && s.lock.None?
  }

  /** The steps before the list was taken; all of them if it was not. */
  function BeforeTake(events: seq<Event>): (r: seq<Event>)
    ensures r <= events
  {
    if events == [] then []
    else
      var n := |events| - 1;
      if Run(events[..n]).phase.Waking? then BeforeTake(events[..n])
      else if Takes(Run(events[..n]), events[n]) then events[..n]
      else events
  }

  /** A registration that found the token cancelled and woke its waker itself. */
  predicate WokeItself(s: System, w: Waker) {
    exists r :: r in s.registrations && s.registrations[r] == Registration(w, WokeNow)
  }

  /** Of the list that was taken, the part before `left` has been woken, and nothing else has but
      for registrations that woke themselves. */
  ghost predicate WakesFrom(s: System, taken: seq<Entry>) {
    && (!s.phase.Waking? ==> forall w :: w in s.delivered <==> WokeItself(s, w))
    && (s.phase.Waking? ==>
          && |s.phase.left| <= |taken| && s.phase.left == taken[|taken| - |s.phase.left|..]
          && forall w :: w in s.delivered <==>
                         WokeItself(s, w) || HasWaker(taken[..|taken| - |s.phase.left|], w))
  }

  /** The waker that a registration wakes itself in this step. */
  function SelfWoken(s: System, e: Event): set<Waker> {
    match e
    case RegisterStart(r, w) => if r !in s.registrations && s.cancelled then {w} else {}
    case RegisterEnter(r) =>
      if r in s.registrations && s.registrations[r].status.Asking? && s.lock.None? && s.cancelled
      then {s.registrations[r].w} else {}
    case _ => {}
  }

  lemma SelfWokenAreNew(s: System, e: Event, w: Waker)
    requires LockInv(s)
    ensures WokeItself(Step(s, e), w) <==> WokeItself(s, w) || w in SelfWoken(s, e)
  {
    var t := Step(s, e);
    if r :| r in s.registrations && s.registrations[r] == Registration(w, WokeNow) {
      assert t.registrations[r] == Registration(w, WokeNow);
    }
    if w in SelfWoken(s, e) {
      assert t.registrations[e.r] == Registration(w, WokeNow);
    }
  }

  lemma DeliveredByStep(s: System, e: Event)
    requires !e.CancelWake?
    ensures Step(s, e).delivered == s.delivered + SelfWoken(s, e)
  {
  }

  lemma OneMoreWoken(taken: seq<Entry>, n: nat, w: Waker)
    requires n < |taken|
    ensures HasWaker(taken[..n + 1], w) <==> HasWaker(taken[..n], w) || taken[n].waker == w
  {
    assert taken[..n + 1] == taken[..n] + [taken[n]];
    if HasWaker(taken[..n], w) {
      var k :| 0 <= k < n && taken[..n][k].waker == w;
      assert taken[..n + 1][k].waker == w;
    }
    assert taken[..n + 1][n] == taken[n];
  }

  lemma WakeKeepsWakes(s: System, taken: seq<Entry>)
    requires LockInv(s) && WakesFrom(s, taken) && s.phase.Waking? && s.phase.left != []
    ensures WakesFrom(Step(s, CancelWake), taken)
  {
    var t, n := Step(s, CancelWake), |taken| - |s.phase.left|;
    forall w
      ensures w in t.delivered <==> WokeItself(t, w) || HasWaker(taken[..n + 1], w)
    {
      OneMoreWoken(taken, n, w);
    }
  }

  lemma OtherKeepsWakes(s: System, e: Event, taken: seq<Entry>)
    requires LockInv(s) && WakesFrom(s, taken) && !e.CancelWake? && !Takes(s, e)
    ensures WakesFrom(Step(s, e), taken)
  {
    DeliveredByStep(s, e);
    var t := Step(s, e);
    forall w
      ensures WokeItself(t, w) <==> WokeItself(s, w) || w in SelfWoken(s, e)
    {
      SelfWokenAreNew(s, e, w);
    }
  }

  lemma TakeKeepsWakes(s: System, e: Event)
    requires WakesFrom(s, []) && Takes(s, e)
    ensures WakesFrom(Step(s, e), s.waiters)
  {
    var t := Step(s, e);
    assert t.registrations == s.registrations && s.waiters[..0] == [];
    assert forall w :: WokeItself(t, w) <==> WokeItself(s, w);
  }

  /** The list taken, or an empty one while it has not been. */
  function Taken(events: seq<Event>): seq<Entry> {
    if Run(events).phase.Waking? then Run(BeforeTake(events)).waiters else []
  }

  lemma StepWakes(s: System, e: Event, taken: seq<Entry>)
    requires LockInv(s) && WakesFrom(s, taken) && (!s.phase.Waking? ==> taken == [])
    ensures WakesFrom(Step(s, e), if Takes(s, e) then s.waiters else taken)
  {
    if Takes(s, e) {
      TakeKeepsWakes(s, e);
    } else if e.CancelWake? && s.phase.Waking? && s.phase.left != [] {
      WakeKeepsWakes(s, taken);
    } else if e.CancelWake? {
      assert Step(s, e) == s;
    } else {
      OtherKeepsWakes(s, e, taken);
    }
  }

  lemma WakingStays(s: System, e: Event)
    requires LockInv(s)
    ensures Step(s, e).phase.Waking? <==> s.phase.Waking? || Takes(s, e)
  {
  }

  lemma TakenStep(events: seq<Event>)
    requires events != []
    ensures var n := |events| - 1;
            Taken(events) == if Takes(Run(events[..n]), events[n]) then Run(events[..n]).waiters else Taken(events[..n])
  {
    RunKeepsInv(events[..|events| - 1]);
    WakingStays(Run(events[..|events| - 1]), events[|events| - 1]);
  }

  lemma {:induction false} RunWakes(events: seq<Event>)
    ensures WakesFrom(Run(events), Taken(events))
  {
    if events == [] {
    } else {
      var n := |events| - 1;
      RunWakes(events[..n]);
      RunKeepsInv(events[..n]);
      TakenStep(events);
      StepWakes(Run(events[..n]), events[n], Taken(events[..n]));
    }
  }

  /** Exactly what a finished `cancel` has woken: the wakers that were listed when it took the list,
      and those of registrations that woke themselves. */
  lemma WokenExactly(events: seq<Event>, w: Waker)
    requires CancelFinished(Run(events))
    ensures w in Run(events).delivered <==>
            HasWaker(Run(BeforeTake(events)).waiters, w) || WokeItself(Run(events), w)
  {
    RunWakes(events);
    AllWoken(Run(events), Taken(events), w);
  }

  lemma AllWoken(s: System, taken: seq<Entry>, w: Waker)
    requires WakesFrom(s, taken) && CancelFinished(s)
    ensures w in s.delivered <==> HasWaker(taken, w) || WokeItself(s, w)
  {
    assert taken[..|taken|] == taken;
  }

  // ----- Merged registrations -----------------------------------------------------------------

  predicate Distinct(waiters: seq<Entry>) {
    forall i, j :: 0 <= i < j < |waiters| ==> waiters[i].id != waiters[j].id
  }

  predicate Below(waiters: seq<Entry>, n: nat) {
    forall i :: 0 <= i < |waiters| ==> waiters[i].id < n
  }

  lemma {:induction false} UpsertIsDistinct(waiters: seq<Entry>, id: nat, w: Waker, n: nat)
    requires Distinct(waiters) && Below(waiters, n) && id < n
    ensures Distinct(Upsert(waiters, id, w)) && Below(Upsert(waiters, id, w), n)
  {
    if waiters == [] {
    } else {
      UpsertIsDistinct(waiters[1..], id, w, n);
      var r := Upsert(waiters[1..], id, w);
      forall i | 0 <= i < |r|
        ensures r[i].id == id || r[i].id != waiters[0].id
      {
        UpsertKeeps(waiters[1..], id, w, r[i]);
      }
      if waiters[0].id == id {
        PushFront(Entry(id, w), waiters[1..], n);
      } else {
        PushFront(waiters[0], r, n);
      }
    }
  }

  lemma PushFront(x: Entry, r: seq<Entry>, n: nat)
    requires Distinct(r) && Below(r, n) && x.id < n && forall i :: 0 <= i < |r| ==> r[i].id != x.id
    ensures Distinct([x] + r) && Below([x] + r, n)
  {
  }

  lemma {:induction false} WithoutIsDistinct(waiters: seq<Entry>, id: nat, n: nat)
    requires Distinct(waiters) && Below(waiters, n)
    ensures Distinct(Without(waiters, id)) && Below(Without(waiters, id), n)
  {
    if waiters == [] {
    } else {
      WithoutIsDistinct(waiters[1..], id, n);
      var r := Without(waiters[1..], id);
      forall i | 0 <= i < |r|
        ensures r[i].id != waiters[0].id
      {
        WithoutKeeps(waiters[1..], id, r[i]);
      }
    }
  }

  lemma StepKeepsList(s: System, e: Event)
    requires IdsDistinct(s) && Distinct(s.waiters) && Below(s.waiters, s.nextId)
    ensures Distinct(Step(s, e).waiters) && Below(Step(s, e).waiters, Step(s, e).nextId)
  {
    match e
    case PollFinish(f) =>
      if f in s.waits && s.waits[f].Holding? {
        UpsertIsDistinct(s.waiters, f, s.waits[f].w, s.nextId);
      }
    case DropEntry(id) => WithoutIsDistinct(s.waiters, id, s.nextId);
    case _ =>
  }

  lemma {:induction false} RunKeepsList(events: seq<Event>)
    ensures Distinct(Run(events).waiters) && Below(Run(events).waiters, Run(events).nextId)
  {
    if events == [] {
    } else {
      RunKeepsList(events[..|events| - 1]);
      RunKeepsInv(events[..|events| - 1]);
      StepKeepsList(Run(events[..|events| - 1]), events[|events| - 1]);
    }
  }

  /** Only entries with this id carry the waker. */
  predicate OnlyIn(waiters: seq<Entry>, w: Waker, id: nat) {
    forall k :: 0 <= k < |waiters| && waiters[k].waker == w ==> waiters[k].id == id
  }

  /** The step takes the last entry with the waker off the list: a dropped wait's entry is removed,
      or a wait is polled under another waker, and no other entry has the waker. */
  predicate Loses(s: System, e: Event, w: Waker) {
    match e
    case DropEntry(id) =>
      s.lock.None? && id < s.nextId && id !in s.waits && !IsKept(s, id) && OnlyIn(s.waiters, w, id)
    case PollFinish(f) =>
      f in s.waits && s.lock == Some(ByWait(f)) && s.waits[f].Holding? && s.waits[f].w != w
      && OnlyIn(s.waiters, w, f)
    case _ => false
  }

  /** The step puts an entry with the waker on the list. */
  predicate Lists(s: System, e: Event, w: Waker) {
    match e
    case PollFinish(f) =>
      f in s.waits && s.lock == Some(ByWait(f)) && s.waits[f] == Holding(w)
    case RegisterFinish(r) =>
      r in s.registrations && s.lock == Some(ByRegistration(r)) && s.registrations[r].w == w
    case _ => false
  }

  lemma {:induction false} UpsertWakers(waiters: seq<Entry>, id: nat, v: Waker, w: Waker)
    requires Distinct(waiters)
    ensures HasWaker(Upsert(waiters, id, v), w) <==> v == w || !OnlyIn(waiters, w, id)
  {
    if k :| 0 <= k < |waiters| && waiters[k].waker == w && waiters[k].id != id {
      UpsertKeeps(waiters, id, v, waiters[k]);
    }
    UpsertKeeps(waiters, id, v, Entry(id, v));
    if v != w && HasWaker(Upsert(waiters, id, v), w) {
      var k :| 0 <= k < |Upsert(waiters, id, v)| && Upsert(waiters, id, v)[k].waker == w;
      UpsertReplaces(waiters, id, v, Upsert(waiters, id, v)[k]);
    }
  }

  lemma {:induction false} UpsertReplaces(waiters: seq<Entry>, id: nat, v: Waker, x: Entry)
    requires Distinct(waiters) && x in Upsert(waiters, id, v) && x != Entry(id, v)
    ensures x in waiters && x.id != id
  {
    if waiters == [] {
    } else if waiters[0].id == id {
      assert x in waiters[1..];
    } else if x != waiters[0] {
      UpsertReplaces(waiters[1..], id, v, x);
    }
  }

  lemma WithoutWakers(waiters: seq<Entry>, id: nat, w: Waker)
    ensures HasWaker(Without(waiters, id), w) <==> !OnlyIn(waiters, w, id)
  {
    if k :| 0 <= k < |waiters| && waiters[k].waker == w && waiters[k].id != id {
      WithoutKeeps(waiters, id, waiters[k]);
    }
    if k :| 0 <= k < |Without(waiters, id)| && Without(waiters, id)[k].waker == w {
      WithoutKeeps(waiters, id, Without(waiters, id)[k]);
    }
  }

  /** Whether a waker is listed after a step that does not take the list. */
  lemma ListedAfter(s: System, e: Event, w: Waker)
    requires Distinct(s.waiters) && !Takes(s, e)
    ensures HasWaker(Step(s, e).waiters, w) <==> Lists(s, e, w) || (HasWaker(s.waiters, w) && !Loses(s, e, w))
  {
    match e
    case PollFinish(f) =>
      if f in s.waits && s.waits[f].Holding? {
        UpsertWakers(s.waiters, f, s.waits[f].w, w);
      }
    case DropEntry(id) => WithoutWakers(s.waiters, id, w);
    case RegisterFinish(r) => ListedByRegistration(s, r, w);
    case _ =>
  }

  lemma ListedByRegistration(s: System, r: nat, w: Waker)
    ensures HasWaker(Step(s, RegisterFinish(r)).waiters, w) <==>
            Lists(s, RegisterFinish(r), w) || HasWaker(s.waiters, w)
  {
    var t := Step(s, RegisterFinish(r));
    if |t.waiters| > |s.waiters| {
      assert t.waiters[|s.waiters|] == Entry(s.nextId, s.registrations[r].w);
      assert forall k :: 0 <= k < |s.waiters| ==> t.waiters[k] == s.waiters[k];
    }
  }

  /** After the first `m` steps some step lost the waker, and none has listed it since. */
  predicate LostSince(events: seq<Event>, m: nat, w: Waker) {
    m < |events| &&
    (var n := |events| - 1;
     || Loses(Run(events[..n]), events[n], w)
     || (LostSince(events[..n], m, w) && !Lists(Run(events[..n]), events[n], w)))
  }

  lemma NotTakenBefore(events: seq<Event>)
    requires events != [] && !Run(events).phase.Waking?
    ensures !Run(events[..|events| - 1]).phase.Waking? && !Takes(Run(events[..|events| - 1]), events[|events| - 1])
  {
    RunKeepsInv(events[..|events| - 1]);
    WakingStays(Run(events[..|events| - 1]), events[|events| - 1]);
  }

  lemma {:induction false} ListedUnlessLost(events: seq<Event>, m: nat, w: Waker)
    requires m <= |events| && HasWaker(Run(events[..m]).waiters, w) && !Run(events).phase.Waking?
    ensures HasWaker(Run(events).waiters, w) <==> !LostSince(events, m, w)
    decreases |events|
  {
    if m == |events| {
      assert events[..m] == events;
    } else {
      var n := |events| - 1;
      NotTakenBefore(events);
      RunKeepsList(events[..n]);
      assert events[..n][..m] == events[..m];
      ListedUnlessLost(events[..n], m, w);
      ListedAfter(Run(events[..n]), events[n], w);
    }
  }

  lemma {:induction false} BeforeTakeHasNotTaken(events: seq<Event>)
    ensures !Run(BeforeTake(events)).phase.Waking?
  {
    if events == [] {
    } else {
      var n := |events| - 1;
      BeforeTakeHasNotTaken(events[..n]);
      RunKeepsInv(events[..n]);
      WakingStays(Run(events[..n]), events[n]);
    }
  }

  /** Step `m` merges registration `r` into an entry that already holds its waker. */
  predicate MergesAt(events: seq<Event>, m: nat, r: nat) {
    && m < |events| && events[m] == RegisterFinish(r)
    && var s := Run(events[..m]);
       r in s.registrations && s.lock == Some(ByRegistration(r)) && HasWaker(s.waiters, s.registrations[r].w)
  }

  lemma MergeIsListed(events: seq<Event>, m: nat, r: nat)
    requires MergesAt(events, m, r)
    ensures var s, t := Run(events[..m]), Run(events[..m + 1]);
            && r in t.registrations && t.registrations[r] == Registration(s.registrations[r].w, Merged)
            && HasWaker(t.waiters, s.registrations[r].w)
  {
    assert events[..m + 1][..m] == events[..m];
  }

  /** Merging needs the lock, so it comes before the list is taken. */
  lemma {:induction false} MergeIsBeforeTake(events: seq<Event>, m: nat, r: nat)
    requires MergesAt(events, m, r)
    ensures m < |BeforeTake(events)|
    decreases |events|
  {
    var n := |events| - 1;
    if m == n {
      RunKeepsInv(events[..n]);
    } else {
      assert events[..n][..m] == events[..m];
      MergeIsBeforeTake(events[..n], m, r);
    }
  }

  /** The theorem. A merged registration is woken by a finished `cancel` if and only if, from the
      merge to the taking of the list, no step took the last entry with its waker off the list
      without a later one putting it back; or a registration of the same waker woke itself. */
  lemma MergedIsWokenIff(events: seq<Event>, m: nat, r: nat)
    requires CancelFinished(Run(events)) && MergesAt(events, m, r)
    ensures var w := Run(events[..m]).registrations[r].w;
            w in Run(events).delivered <==>
            !LostSince(BeforeTake(events), m + 1, w) || WokeItself(Run(events), w)
  {
    var w, before := Run(events[..m]).registrations[r].w, BeforeTake(events);
    MergeIsListed(events, m, r);
    MergeIsBeforeTake(events, m, r);
    BeforeTakeHasNotTaken(events);
    assert before[..m + 1] == events[..m + 1];
    ListedUnlessLost(before, m + 1, w);
    WokenExactly(events, w);
  }

  function RunFrom(s: System, events: seq<Event>): System
    decreases |events|
  {
    if events == [] then s else RunFrom(Step(s, events[0]), events[1..])
  }

  /** Waking delivers what was taken and nothing else. */
  lemma {:induction false} FinishWaking(s: System) returns (events: seq<Event>)
    requires s.phase.Waking?
    ensures CancelFinished(RunFrom(s, events))
    ensures RunFrom(s, events).registrations == s.registrations
    ensures forall w :: w in RunFrom(s, events).delivered ==>
              w in s.delivered || HasWaker(s.phase.left, w)
    decreases |s.phase.left|
  {
    if s.phase.left == [] {
      events := [];
    } else {
      var t := Step(s, CancelWake);
      var rest := FinishWaking(t);
      events := [CancelWake] + rest;
      FirstStep(s, CancelWake, rest);
      forall w | w in RunFrom(t, rest).delivered
        ensures w in s.delivered || HasWaker(s.phase.left, w)
      {
        if w == s.phase.left[0].waker {
          assert HasWaker(s.phase.left, w);
        } else if HasWaker(t.phase.left, w) {
          var k :| 0 <= k < |t.phase.left| && t.phase.left[k].waker == w;
          assert s.phase.left[k + 1].waker == w;
        }
      }
    }
  }

  /** The cancelling call is never blocked for good: from every state in which it has begun, the
      holder of the lock can finish, and then its own steps finish it. */
  lemma CancelCompletes(events: seq<Event>) returns (more: seq<Event>)
    requires Run(events).cancelled
    ensures CancelFinished(RunFrom(Run(events), more))
  {
    RunKeepsInv(events);
    var s := Run(events);
    if s.phase.Waking? {
      more := FinishWaking(s);
    } else if s.lock.None? {
      more := TakeAndWake(s);
    } else {
      var e := if s.lock.value.ByWait? then PollFinish(s.lock.value.f) else RegisterFinish(s.lock.value.r);
      var rest := TakeAndWake(Step(s, e));
      more := [e] + rest;
      FirstStep(s, e, rest);
    }
  }

  lemma TakeAndWake(s: System) returns (more: seq<Event>)
    requires s.phase.Swapped? && s.lock.None?
    ensures CancelFinished(RunFrom(s, more))
  {
    var rest := FinishWaking(Step(s, CancelTake));
    more := [CancelTake] + rest;
    FirstStep(s, CancelTake, rest);
  }

  /** A registration merged into the entry of a wait is lost when that wait is dropped: from any
      state where the wait's entry is the only one with its waker, there is a continuation in which
      `cancel` finishes and the registered waker is never woken. */
  lemma MergedRegistrationIsLostOnDrop(s: System, f: nat, r: nat) returns (events: seq<Event>)
    requires !s.cancelled && s.lock.None? && f in s.waits && s.waits[f].Waiting? && f < s.nextId
    requires !IsKept(s, f)
    requires forall k :: 0 <= k < |s.waiters| && s.waiters[k].waker == s.waits[f].w ==> s.waiters[k].id == f
    requires r in s.registrations && s.registrations[r] == Registration(s.waits[f].w, Merged)
    requires s.waits[f].w !in s.delivered
    ensures var t := RunFrom(s, events);
            && CancelFinished(t) && r in t.registrations && t.registrations[r] == s.registrations[r]
            && s.registrations[r].w !in t.delivered
  {
    var w := s.waits[f].w;
    var a := Step(s, Drop(f));
    var b := Step(a, DropEntry(f));
    var c := Step(b, CancelSwap);
    var d := Step(c, CancelTake);
    var rest := FinishWaking(d);
    events := [Drop(f)] + ([DropEntry(f)] + ([CancelSwap] + ([CancelTake] + rest)));
    assert !IsKept(a, f);
    assert b.waiters == Without(s.waiters, f);
    forall k | 0 <= k < |b.waiters|
      ensures b.waiters[k].waker != w
    {
      WithoutKeeps(s.waiters, f, b.waiters[k]);
    }
    FirstStep(c, CancelTake, rest);
    FirstStep(b, CancelSwap, [CancelTake] + rest);
    FirstStep(a, DropEntry(f), [CancelSwap] + ([CancelTake] + rest));
    FirstStep(s, Drop(f), [DropEntry(f)] + ([CancelSwap] + ([CancelTake] + rest)));
  }

  lemma FirstStep(s: System, e: Event, rest: seq<Event>)
    ensures RunFrom(s, [e] + rest) == RunFrom(Step(s, e), rest)
  {
    assert ([e] + rest)[1..] == rest;
  }

  /** One wait, returned pending with waker `w`, and the given registrations. */
  function OneWait(w: Waker, registrations: map<nat, Registration>): System {
    System(false, [Entry(0, w)], 1, None, Idle, map[0 := Waiting(w)], registrations, {})
  }

  lemma FirstPoll(w: Waker)
    ensures Step(Step(Step(Step(START, NewWait), PollStart(0, w)), PollEnter(0)), PollFinish(0))
            == OneWait(w, map[])
  {
  }

  lemma RegistrationMerges(w: Waker)
    ensures Step(Step(Step(OneWait(w, map[]), RegisterStart(0, w)), RegisterEnter(0)), RegisterFinish(0))
            == OneWait(w, map[0 := Registration(w, Merged)])
  {
    var b := Step(Step(OneWait(w, map[]), RegisterStart(0, w)), RegisterEnter(0));
    assert b.waiters[0].waker == w;
    assert b.registrations == map[0 := Registration(w, Locked)];
  }

  lemma SecondPoll(w: Waker, v: Waker, m: map<nat, Registration>)
    ensures Step(Step(Step(OneWait(w, m), PollStart(0, v)), PollEnter(0)), PollFinish(0)) == OneWait(v, m)
  {
    var b := Step(Step(OneWait(w, m), PollStart(0, v)), PollEnter(0));
    assert b.waits == map[0 := Holding(v)];
  }

  lemma CancelOneWait(v: Waker, m: map<nat, Registration>)
    ensures var t := Step(Step(Step(OneWait(v, m), CancelSwap), CancelTake), CancelWake);
            CancelFinished(t) && t.delivered == {v} && t.registrations == m
  {
  }

  /** It is lost in the same way when the wait is polled again under another waker, which rewrites
      the entry it was merged into. */
  lemma MergedRegistrationIsLostOnRepoll(w: Waker, v: Waker)
    requires v != w
    ensures var s := Step(Step(Step(Step(START, NewWait), PollStart(0, w)), PollEnter(0)), PollFinish(0));
            var m := Step(Step(Step(s, RegisterStart(0, w)), RegisterEnter(0)), RegisterFinish(0));
            var p := Step(Step(Step(m, PollStart(0, v)), PollEnter(0)), PollFinish(0));
            var t := Step(Step(Step(p, CancelSwap), CancelTake), CancelWake);
            CancelFinished(t) && t.registrations == map[0 := Registration(w, Merged)] && w !in t.delivered
  {
    FirstPoll(w);
    RegistrationMerges(w);
    var m := map[0 := Registration(w, Merged)];
    SecondPoll(w, v, m);
    CancelOneWait(v, m);
  }
}
