/** The per-run cache warmer: crates/tea-core/src/cache_warming.rs.

    Times are whole nanoseconds. The savings estimate and the currency check are arbitrary answers,
    given with the event that asks for them. */
module CacheWarmer {
  import opened Wrappers

  const MILLISECOND: nat := 1_000_000
  const SECOND: nat := 1_000_000_000
  const MINIMUM_MARGIN: nat := 10_000_000_000
  const MAX_WARMING_AGE: nat := 3_600_000_000_000
  const TWO_64: nat := 0x1_0000_0000_0000_0000

  // ----- The delay ----------------------------------------------------------------------------

  /** Ninety percent of the lifetime in milliseconds, as a 64-bit number. */
  function NinetyPercent(ttl: nat): nat {
    (ttl / MILLISECOND * 9 / 10) % TWO_64 * MILLISECOND
  }

  function WarmingDelay(ttl: nat): Option<nat> {
    if ttl <= MINIMUM_MARGIN then None
    else
      var capped := if NinetyPercent(ttl) < ttl - MINIMUM_MARGIN then NinetyPercent(ttl) else ttl - MINIMUM_MARGIN;
      Some(if capped > MILLISECOND then capped else MILLISECOND)
  }

  /** The delay is positive, inside the lifetime, and leaves the full margin except for lifetimes
      less than a millisecond above it. */
  lemma DelayLeavesMargin(ttl: nat)
    requires WarmingDelay(ttl).Some?
    ensures MILLISECOND <= WarmingDelay(ttl).value < ttl
    ensures WarmingDelay(ttl).value + MINIMUM_MARGIN <= ttl <==> ttl >= MINIMUM_MARGIN + MILLISECOND
  {
  }

  /** It is never past ninety percent of the lifetime. */
  lemma DelayIsAtMostNinetyPercent(ttl: nat)
    requires WarmingDelay(ttl).Some?
    ensures WarmingDelay(ttl).value * 10 <= ttl * 9
  {
    var ms := ttl / MILLISECOND;
    assert (ms * 9 / 10) % TWO_64 <= ms * 9 / 10;
    assert (ms * 9 / 10) * 10 <= ms * 9;
    assert ms * MILLISECOND <= ttl;
    assert NinetyPercent(ttl) <= (ms * 9 / 10) * MILLISECOND;
  }

  // ----- The state and its locked sections ----------------------------------------------------

  datatype Plan = Plan(request: nat, ttl: nat, delay: nat, startedAt: nat)
  datatype Schedule = Schedule(nextWarmAt: nat, deadlineAt: nat)
  datatype Armed = Armed(plan: Plan, schedule: Schedule)
  datatype Flight = Grounded | Flying(cancelled: bool)
  datatype Outcome = Completed | Failed | Cancelled
  datatype Record = Record(request: nat, outcome: Outcome, reported: bool)
  datatype Capability = Capability(ttlSeconds: nat, replayIsSafe: bool)

  /** `driver` says whether a driver waker is registered; `idle` are the registered settle calls. */
  datatype Warmer = Warmer(generation: nat, plan: Option<Armed>, flight: Flight, records: seq<Record>,
                           closed: bool, driver: bool, idle: set<nat>)

  const NEW: Warmer := Warmer(0, None, Grounded, [], false, false, {})

  function Clear(w: Warmer): Warmer {
    w.(generation := (w.generation + 1) % TWO_64, plan := None,
       flight := if w.flight.Flying? then Flying(true) else Grounded, driver := false)
  }

  function ScheduleAt(plan: Plan, now: nat): Schedule
    requires plan.delay <= plan.ttl
  {
    Schedule(now + plan.delay, now + plan.delay + (plan.ttl - plan.delay) / 2)
  }

  function ScheduleLocked(w: Warmer, plan: Plan, now: nat): Warmer
    requires plan.delay <= plan.ttl
  {
    var horizon := plan.startedAt + MAX_WARMING_AGE;
    if now + plan.delay > horizon || now >= horizon then Clear(w)
    else w.(plan := Some(Armed(plan, ScheduleAt(plan, now))), driver := false)
  }

  function Start(w: Warmer, request: nat, capability: Option<Capability>, now: nat): Warmer {
    if capability.None? || !capability.value.replayIsSafe then Clear(Clear(w))
    else
      var ttl := capability.value.ttlSeconds * SECOND;
      var delay := WarmingDelay(ttl);
      if delay.None? then Clear(Clear(w))
      else
        DelayLeavesMargin(ttl);
        ScheduleLocked(Clear(w), Plan(request, ttl, delay.value, now), now)
  }

  function Close(w: Warmer): Warmer {
    if w.closed then w else Clear(w.(closed := true))
  }

  /** Whether a refresh is sent, and the state after the decision. */
  function Decide(w: Warmer, generation: nat, s: Schedule, current: bool, now: nat, worthwhile: bool): (Warmer, bool) {
    if w.generation != generation || w.closed then (w, false)
    else if !current then (Clear(w), false)
    else if now < s.nextWarmAt then (w.(driver := false), false)
    else if now > s.deadlineAt then (Clear(w), false)
    else if !worthwhile then (Clear(w), false)
    else (w.(flight := Flying(false)), true)
  }

  function Finish(w: Warmer, generation: nat, plan: Plan, outcome: Outcome, reported: bool, now: nat): Warmer
    requires plan.delay <= plan.ttl
  {
    var landed := w.(flight := Grounded, idle := {},
                     records := if outcome.Completed? || reported
                                then w.records + [Record(plan.request, outcome, reported)] else w.records);
    if w.generation == generation && !w.closed then ScheduleLocked(landed, plan, now) else landed
  }

  class CacheWarmer {
    var generation: nat
    var plan: Option<Armed>
    var flight: Flight
    var records: seq<Record>
    var closed: bool
    var driver: bool
    var idle: set<nat>

    function View(): Warmer
      reads this
    {
      Warmer(generation, plan, flight, records, closed, driver, idle)
    }

    constructor ()
      ensures View() == NEW
    {
      generation, plan, flight, records, closed, driver, idle := 0, None, Grounded, [], false, false, {};
    }

    /** Supersedes whatever was planned and cancels what is in flight. */
    method ClearLocked()
      modifies this
      ensures View() == Clear(old(View()))
    {
      generation := (generation + 1) % TWO_64;
      plan := None;
      if flight.Flying? {
        flight := Flying(true);
      }
      driver := false;
    }

    method ArmLocked(p: Plan, now: nat)
      requires p.delay <= p.ttl
      modifies this
      ensures View() == ScheduleLocked(old(View()), p, now)
    {
      var next := now + p.delay;
      var deadline := next + (p.ttl - p.delay) / 2;
      var horizon := p.startedAt + MAX_WARMING_AGE;
      if next > horizon || now >= horizon {
        ClearLocked();
        return;
      }
      plan := Some(Armed(p, Schedule(next, deadline)));
      driver := false;
    }

    method StartPlan(request: nat, capability: Option<Capability>, now: nat)
      modifies this
      ensures View() == Start(old(View()), request, capability, now)
    {
      ClearLocked();
      if capability.None? || !capability.value.replayIsSafe {
        ClearLocked();
        return;
      }
      var ttl := capability.value.ttlSeconds * SECOND;
      var delay := WarmingDelay(ttl);
      if delay.None? {
        ClearLocked();
        return;
      }
      DelayLeavesMargin(ttl);
      ArmLocked(Plan(request, ttl, delay.value, now), now);
    }

    /** The first section of `settle`. */
    method BeginSettle()
      modifies this
      ensures View() == Close(old(View()))
    {
      if !closed {
        closed := true;
        ClearLocked();
      }
    }

    /** One poll of `settle`'s wait. */
    method PollSettled(waker: nat) returns (ready: bool)
      modifies this
      ensures ready <==> old(flight) == Grounded
      ensures View() == if ready then old(View()) else old(View()).(idle := old(idle) + {waker})
    {
      ready := flight == Grounded;
      if !ready {
        idle := idle + {waker};
      }
    }

    method TakeRecords() returns (taken: seq<Record>)
      modifies this
      ensures taken == old(records) && View() == old(View()).(records := [])
    {
      taken := records;
      records := [];
    }

    /** The first section of `refresh`. */
    method DecideRefresh(g: nat, s: Schedule, current: bool, now: nat, worthwhile: bool) returns (sent: bool)
      modifies this
      ensures (View(), sent) == Decide(old(View()), g, s, current, now, worthwhile)
    {
      if generation != g || closed {
        return false;
      }
      if !current {
        ClearLocked();
        return false;
      }
      if now < s.nextWarmAt {
        driver := false;
        return false;
      }
      if now > s.deadlineAt {
        ClearLocked();
        return false;
      }
      if !worthwhile {
        ClearLocked();
        return false;
      }
      flight := Flying(false);
      sent := true;
    }

    /** The last section of `refresh`. */
    method FinishRefresh(g: nat, p: Plan, outcome: Outcome, reported: bool, now: nat)
      requires p.delay <= p.ttl
      modifies this
      ensures View() == Finish(old(View()), g, p, outcome, reported, now)
    {
      flight := Grounded;
      idle := {};
      if outcome.Completed? || reported {
        records := records + [Record(p.request, outcome, reported)];
      }
      if generation == g && !closed {
        ArmLocked(p, now);
      }
    }
  }
}
