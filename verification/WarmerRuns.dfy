/** Whole runs of the cache warmer: its driver, the run that starts and settles it, and the clock.
    crates/tea-core/src/cache_warming.rs. */
module WarmerRuns {
  import opened Wrappers
  import opened CacheWarmer

  /** Where the driver is: in its first wait, asleep until a refresh, or inside `refresh`. */
  datatype Driver =
    | Looking
    | Sleeping(generation: nat, plan: Plan, schedule: Schedule)
    | Deciding(generation: nat, plan: Plan, schedule: Schedule)
    | Sending(generation: nat, plan: Plan)
    | Done

  /** A refresh request: the `rank`-th sent for the `start`-th started plan. */
  datatype Send = Send(start: nat, rank: nat, plan: Plan, schedule: Schedule, at: nat)

  /** `parked`: the driver returned Pending and has not been woken. `parkedSettles`: likewise for
      settle calls. `recorded` counts the records ever pushed; `clock` is the last time read. */
  datatype System = System(w: Warmer, driver: Driver, parked: bool, parkedSettles: set<nat>, settled: set<nat>,
                           starts: nat, rank: nat, sends: seq<Send>, recorded: nat, clock: nat)

  const START: System := System(NEW, Looking, false, {}, {}, 0, 0, [], 0, 0)

  datatype Event =
    | StartPlan(request: nat, capability: Option<Capability>, now: nat)
    | BeginSettle
    | PollSettle(i: nat)
    | TakeRecords
    | Look
    | Doze
    | TimerFires
    | Superseded
    | DecideRefresh(current: bool, now: nat, worthwhile: bool)
    | FinishRefresh(outcome: Outcome, reported: bool, now: nat)

  predicate Enabled(s: System, e: Event) {
    match e
    case PollSettle(i) => s.w.closed && i !in s.settled
    case Look => s.driver.Looking?
    case Doze => s.driver.Sleeping? && s.driver.generation == s.w.generation && !s.w.closed
    case TimerFires => s.driver.Sleeping?
    case Superseded => s.driver.Sleeping? && (s.driver.generation != s.w.generation || s.w.closed)
    case DecideRefresh(_, _, _) => s.driver.Deciding?
    case FinishRefresh(_, _, _) => s.driver.Sending? && s.driver.plan.delay <= s.driver.plan.ttl
    case _ => true
  }

  /** A new warmer state; taking the driver's waker wakes the driver. */
  function With(s: System, w: Warmer): System {
    s.(w := w, parked := s.parked && w.driver)
  }

  function Look1(s: System): System
    requires s.driver.Looking?
  {
    if s.w.closed then s.(driver := Done, parked := false)
    else if s.w.plan.Some? && s.w.flight.Grounded? then
      s.(driver := Sleeping(s.w.generation, s.w.plan.value.plan, s.w.plan.value.schedule), parked := false)
    else s.(w := s.w.(driver := true), parked := true)
  }

  function Decide1(s: System, current: bool, now: nat, worthwhile: bool): System
    requires s.driver.Deciding?
  {
    var d := s.driver;
    var (w, sent) := Decide(s.w, d.generation, d.schedule, current, now, worthwhile);
    if sent then
      With(s, w).(driver := Sending(d.generation, d.plan), rank := s.rank + 1, clock := now,
                  sends := s.sends + [Send(s.starts, s.rank + 1, d.plan, d.schedule, now)])
    else With(s, w).(driver := Looking, clock := now)
  }

  function Finish1(s: System, outcome: Outcome, reported: bool, now: nat): System
    requires s.driver.Sending? && s.driver.plan.delay <= s.driver.plan.ttl
  {
    var w := Finish(s.w, s.driver.generation, s.driver.plan, outcome, reported, now);
    With(s, w).(driver := Looking, parkedSettles := {}, clock := now,
                recorded := s.recorded + |w.records| - |s.w.records|)
  }

  function Step(s: System, e: Event): System
    requires Enabled(s, e)
  {
    match e
    case StartPlan(request, capability, now) =>
      With(s, Start(s.w, request, capability, now)).(starts := s.starts + 1, rank := 0, clock := now)
    case BeginSettle => With(s, Close(s.w))
    case PollSettle(i) =>
      if s.w.flight.Grounded? then s.(settled := s.settled + {i}, parkedSettles := s.parkedSettles - {i})
      else s.(w := s.w.(idle := s.w.idle + {i}), parkedSettles := s.parkedSettles + {i})
    case TakeRecords => s.(w := s.w.(records := []))
    case Look => Look1(s)
    case Doze => s.(w := s.w.(driver := true), parked := true)
    case TimerFires => s.(driver := Deciding(s.driver.generation, s.driver.plan, s.driver.schedule), parked := false)
    case Superseded => s.(driver := Looking, parked := false)
    case DecideRefresh(current, now, worthwhile) => Decide1(s, current, now, worthwhile)
    case FinishRefresh(outcome, reported, now) => Finish1(s, outcome, reported, now)
  }

  predicate Runs(s: System, es: seq<Event>, z: System)
    decreases |es|
  {
    if es == [] then s == z else Enabled(s, es[0]) && Runs(Step(s, es[0]), es[1..], z)
  }

  // ----- What every run keeps -----------------------------------------------------------------

  predicate SoundPlan(p: Plan) {
    p.ttl % SECOND == 0 && WarmingDelay(p.ttl) == Some(p.delay) && p.delay + MINIMUM_MARGIN <= p.ttl
  }

  /** The schedule was computed for this plan, at a time `nextWarmAt - delay`, within its hour. */
  predicate SoundSchedule(p: Plan, s: Schedule) {
    && SoundPlan(p) && p.delay <= s.nextWarmAt <= p.startedAt + MAX_WARMING_AGE
    && s.deadlineAt == s.nextWarmAt + (p.ttl - p.delay) / 2
  }

  predicate SoundDriver(d: Driver) {
    match d
    case Sleeping(_, p, s) => SoundSchedule(p, s)
    case Deciding(_, p, s) => SoundSchedule(p, s)
    case Sending(_, p) => SoundPlan(p)
    case _ => true
  }

  predicate SoundWarmer(w: Warmer) {
    w.plan.Some? ==> SoundSchedule(w.plan.value.plan, w.plan.value.schedule)
  }

  predicate Inv(s: System) {
    && SoundWarmer(s.w) && SoundDriver(s.driver)
    && (s.w.flight.Flying? <==> s.driver.Sending?)
    && s.parkedSettles <= s.w.idle
    && (s.parkedSettles != {} ==> s.w.flight.Flying?)
    && (s.settled != {} ==> s.w.closed && s.w.flight.Grounded?)
  }

  lemma WholeSeconds(seconds: nat, ttl: nat)
    requires ttl == seconds * SECOND
    ensures ttl % SECOND == 0 && (ttl > MINIMUM_MARGIN ==> ttl >= MINIMUM_MARGIN + MILLISECOND)
  {
    if seconds > 10 {
      assert seconds * SECOND >= 11 * SECOND;
    }
  }

  lemma WholeSecondsLeaveMargin(seconds: nat, ttl: nat)
    requires ttl == seconds * SECOND
    ensures ttl % SECOND == 0
    ensures WarmingDelay(ttl).Some? ==> WarmingDelay(ttl).value + MINIMUM_MARGIN <= ttl
  {
    WholeSeconds(seconds, ttl);
    if WarmingDelay(ttl).Some? {
      DelayLeavesMargin(ttl);
    }
  }

  lemma ScheduleIsSound(w: Warmer, p: Plan, now: nat)
    requires SoundPlan(p)
    ensures SoundWarmer(ScheduleLocked(w.(plan := None), p, now)) && SoundWarmer(ScheduleLocked(w, p, now))
  {
  }

  lemma StartIsSound(w: Warmer, request: nat, capability: Option<Capability>, now: nat)
    ensures SoundWarmer(Start(w, request, capability, now))
    ensures Start(w, request, capability, now).flight.Flying? <==> w.flight.Flying?
    ensures Start(w, request, capability, now).closed == w.closed && Start(w, request, capability, now).idle == w.idle
    ensures !Start(w, request, capability, now).driver
  {
    if capability.Some? {
      WholeSecondsLeaveMargin(capability.value.ttlSeconds, capability.value.ttlSeconds * SECOND);
    }
  }

  lemma DecideKeepsInv(s: System, current: bool, now: nat, worthwhile: bool)
    requires Inv(s) && s.driver.Deciding?
    ensures Inv(Decide1(s, current, now, worthwhile))
  {
  }

  lemma FinishKeepsInv(s: System, outcome: Outcome, reported: bool, now: nat)
    requires Inv(s) && s.driver.Sending?
    ensures Inv(Finish1(s, outcome, reported, now))
  {
    ScheduleIsSound(s.w, s.driver.plan, now);
  }

  lemma StepKeepsInv(s: System, e: Event)
    requires Inv(s) && Enabled(s, e)
    ensures Inv(Step(s, e))
  {
    match e {
      case StartPlan(request, capability, now) => StartIsSound(s.w, request, capability, now);
      case DecideRefresh(current, now, worthwhile) => DecideKeepsInv(s, current, now, worthwhile);
      case FinishRefresh(outcome, reported, now) => FinishKeepsInv(s, outcome, reported, now);
      case _ =>
    }
  }

  lemma {:induction false} RunKeepsInv(s: System, es: seq<Event>, z: System)
    requires Inv(s) && Runs(s, es, z)
    ensures Inv(z)
    decreases |es|
  {
    if es == [] {
    } else {
      StepKeepsInv(s, es[0]);
      RunKeepsInv(Step(s, es[0]), es[1..], z);
    }
  }

  // ----- Records ------------------------------------------------------------------------------

  /** What the step adds to the records: one for a refresh that completed or reported usage. */
  function Recorded(s: System, e: Event): seq<Record> {
    if e.FinishRefresh? && s.driver.Sending? && (e.outcome == Completed || e.reported)
    then [Record(s.driver.plan.request, e.outcome, e.reported)] else []
  }

  /** All records of a run, in order. */
  function AllRecords(s: System, es: seq<Event>): seq<Record>
    decreases |es|
  {
    if es == [] || !Enabled(s, es[0]) then [] else Recorded(s, es[0]) + AllRecords(Step(s, es[0]), es[1..])
  }

  /** The records handed out by a run, in order. */
  function TakenRecords(s: System, es: seq<Event>): seq<Record>
    decreases |es|
  {
    if es == [] || !Enabled(s, es[0]) then []
    else (if es[0].TakeRecords? then s.w.records else []) + TakenRecords(Step(s, es[0]), es[1..])
  }

  lemma StepRecords(s: System, e: Event)
    requires Enabled(s, e)
    ensures Step(s, e).w.records == if e.TakeRecords? then [] else s.w.records + Recorded(s, e)
    ensures Step(s, e).recorded == s.recorded + |Recorded(s, e)|
  {
    assert s.w.records + [] == s.w.records;
  }

  /** Every refresh that completed or reported usage is recorded once, in order, with the request that
      was sent, its outcome and whether it reported; nothing else is recorded, and what has been
      taken followed by what is held is all of it. */
  lemma {:induction false} RecordsAreComplete(s: System, es: seq<Event>, z: System)
    requires Runs(s, es, z)
    ensures TakenRecords(s, es) + z.w.records == s.w.records + AllRecords(s, es)
    decreases |es|
  {
    if es == [] {
      assert [] + z.w.records == s.w.records + [];
    } else {
      var t := Step(s, es[0]);
      StepRecords(s, es[0]);
      RecordsAreComplete(t, es[1..], z);
      RecordParts(s.w.records, Recorded(s, es[0]), AllRecords(t, es[1..]), TakenRecords(t, es[1..]), z.w.records,
                  es[0].TakeRecords?);
    }
  }

  lemma RecordParts(held: seq<Record>, now: seq<Record>, later: seq<Record>, taken: seq<Record>, rest: seq<Record>, take: bool)
    requires taken + rest == (if take then [] else held + now) + later
    requires take ==> now == []
    ensures (if take then held else []) + taken + rest == held + (now + later)
  {
    if take {
      assert held + taken + rest == held + (taken + rest);
      assert [] + later == later;
    } else {
      assert [] + taken + rest == taken + rest;
      assert held + now + later == held + (now + later);
    }
  }

  /** The refresh in flight is the last one sent. */
  predicate FlightIsLastSend(s: System) {
    s.driver.Sending? ==> s.sends != [] && s.sends[|s.sends| - 1].plan == s.driver.plan
  }

  lemma {:induction false} SendingIsLastSend(s: System, es: seq<Event>, z: System)
    requires Runs(s, es, z) && FlightIsLastSend(s)
    ensures FlightIsLastSend(z)
    decreases |es|
  {
    if es == [] {
    } else {
      assert FlightIsLastSend(Step(s, es[0]));
      SendingIsLastSend(Step(s, es[0]), es[1..], z);
    }
  }

  // ----- Decisions and schedules --------------------------------------------------------------

  /** Exactly when a refresh is sent, and what becomes of the plan otherwise: an early wake keeps it,
      a decision under an old generation or after settlement leaves everything alone, and anything
      else stops the warming. */
  lemma DecidesExactly(s: System, current: bool, now: nat, worthwhile: bool)
    requires s.driver.Deciding?
    ensures var z, d := Decide1(s, current, now, worthwhile), s.driver;
            var live := d.generation == s.w.generation && !s.w.closed;
            var inTime := d.schedule.nextWarmAt <= now <= d.schedule.deadlineAt;
            && (z.sends != s.sends <==> live && current && inTime && worthwhile)
            && (z.sends != s.sends ==> z.driver == Sending(d.generation, d.plan) && z.w.flight == Flying(false))
            && (!live || (current && (now < d.schedule.nextWarmAt || (inTime && worthwhile))) ==> z.w.plan == s.w.plan)
            && (live && !(current && (now < d.schedule.nextWarmAt || (inTime && worthwhile))) ==> z.w.plan == None)
  {
  }

  /** After a refresh the warmer rests; it re-arms the same plan one delay later if the refresh is
      still current, the warmer open and the hour not over, and otherwise leaves the plan to others. */
  lemma FinishesExactly(s: System, outcome: Outcome, reported: bool, now: nat)
    requires s.driver.Sending? && s.driver.plan.delay <= s.driver.plan.ttl
    ensures var z, p := Finish1(s, outcome, reported, now), s.driver.plan;
            var live := s.driver.generation == s.w.generation && !s.w.closed;
            && z.w.flight == Grounded && z.driver == Looking && z.w.idle == {}
            && (!live ==> z.w.plan == s.w.plan)
            && (live && now + p.delay <= p.startedAt + MAX_WARMING_AGE && now < p.startedAt + MAX_WARMING_AGE ==>
                  z.w.plan == Some(Armed(p, Schedule(now + p.delay, now + p.delay + (p.ttl - p.delay) / 2))))
            && (live && (now + p.delay > p.startedAt + MAX_WARMING_AGE || now >= p.startedAt + MAX_WARMING_AGE) ==>
                  z.w.plan == None)
  {
  }

  /** Starting a plan supersedes the old one. The new one is armed one delay ahead exactly when the
      request may be replayed, the lifetime leaves a margin and the delay is within the hour. */
  lemma StartsExactly(s: System, request: nat, capability: Option<Capability>, now: nat)
    requires s.w.generation < TWO_64
    ensures var z := Step(s, StartPlan(request, capability, now));
            && (z.w.flight.Flying? ==> z.w.flight.cancelled) && z.w.generation != s.w.generation
            && (z.w.plan.Some? <==>
                  && capability.Some? && capability.value.replayIsSafe
                  && WarmingDelay(capability.value.ttlSeconds * SECOND).Some?
                  && WarmingDelay(capability.value.ttlSeconds * SECOND).value <= MAX_WARMING_AGE)
            && (z.w.plan.Some? ==>
                  var p := z.w.plan.value.plan;
                  && p.request == request && p.ttl == capability.value.ttlSeconds * SECOND && p.startedAt == now
                  && z.w.plan.value.schedule.nextWarmAt == now + p.delay)
  {
    StartRaisesGeneration(s.w, request, capability, now);
  }

  // ----- Safety of every send -----------------------------------------------------------------

  /** In every run, a refresh is sent only while the warmer is open, under the current generation,
      with none in flight, inside its window, and five seconds or more before the lifetime counted
      from the scheduling time runs out. */
  lemma SendsAreSafe(es: seq<Event>, s: System, current: bool, now: nat, worthwhile: bool)
    requires Runs(START, es, s) && s.driver.Deciding?
    ensures var z := Decide1(s, current, now, worthwhile);
            z.sends != s.sends ==>
              && !s.w.closed && s.driver.generation == s.w.generation && s.w.flight == Grounded
              && s.driver.schedule.nextWarmAt <= now <= s.driver.schedule.deadlineAt
              && s.driver.plan.delay <= s.driver.schedule.nextWarmAt
              && now + 5 * SECOND <= s.driver.schedule.nextWarmAt - s.driver.plan.delay + s.driver.plan.ttl
  {
    RunKeepsInv(START, es, s);
  }

  /** Once a settle call has returned, nothing is sent and nothing recorded, whatever follows. */
  lemma {:induction false} QuietAfterSettle(s: System, es: seq<Event>, z: System)
    requires Inv(s) && s.settled != {} && Runs(s, es, z)
    ensures z.sends == s.sends && z.recorded == s.recorded
    decreases |es|
  {
    if es == [] {
    } else {
      StepKeepsInv(s, es[0]);
      QuietStep(s, es[0]);
      QuietAfterSettle(Step(s, es[0]), es[1..], z);
    }
  }

  lemma QuietStep(s: System, e: Event)
    requires Inv(s) && s.settled != {} && Enabled(s, e)
    ensures Step(s, e).sends == s.sends && Step(s, e).recorded == s.recorded && Step(s, e).settled != {}
  {
  }

  lemma SettledIsFinal(before: seq<Event>, s: System, after: seq<Event>, z: System)
    requires Runs(START, before, s) && s.settled != {} && Runs(s, after, z)
    ensures z.sends == s.sends && z.recorded == s.recorded
  {
    RunKeepsInv(START, before, s);
    QuietAfterSettle(s, after, z);
  }

  // ----- Wake-ups -----------------------------------------------------------------------------

  /** A parked driver has its waker registered and nothing to do; a superseded one is never parked. */
  predicate Awake(s: System) {
    s.parked ==>
      && s.w.driver && !s.w.closed
      && match s.driver
         case Looking => s.w.plan.None?
         case Sleeping(g, _, _) => s.w.generation == g
         case _ => false
  }

  lemma AwakeStep(s: System, e: Event)
    requires Inv(s) && Awake(s) && Enabled(s, e)
    ensures Awake(Step(s, e))
  {
    if e.StartPlan? {
      StartIsSound(s.w, e.request, e.capability, e.now);
    }
  }

  lemma {:induction false} RunKeepsAwake(s: System, es: seq<Event>, z: System)
    requires Inv(s) && Awake(s) && Runs(s, es, z)
    ensures Awake(z) && Inv(z)
    decreases |es|
  {
    if es == [] {
    } else {
      StepKeepsInv(s, es[0]);
      AwakeStep(s, es[0]);
      RunKeepsAwake(Step(s, es[0]), es[1..], z);
    }
  }

  /** No wake-up is lost: a parked driver would find nothing to do, and a parked settle call is
      registered for the refresh that is still in flight. */
  lemma NoLostWakeUp(es: seq<Event>, z: System)
    requires Runs(START, es, z)
    ensures z.parked ==> z.w.driver && !z.w.closed && (z.driver.Looking? ==> z.w.plan.None?)
    ensures z.parked && z.driver.Sleeping? ==> z.driver.generation == z.w.generation
    ensures z.parkedSettles != {} ==> z.parkedSettles <= z.w.idle && z.driver.Sending?
  {
    RunKeepsAwake(START, es, z);
  }

  // ----- Steady runs: generations do not wrap, the clock does not go back ----------------------

  function TimeOf(e: Event, clock: nat): nat {
    if e.StartPlan? || e.DecideRefresh? || e.FinishRefresh? then e.now else clock
  }

  predicate Steady(s: System, e: Event)
    requires Enabled(s, e)
  {
    s.clock <= TimeOf(e, s.clock) && s.w.generation <= Step(s, e).w.generation
  }

  predicate SteadyRun(s: System, es: seq<Event>, z: System)
    decreases |es|
  {
    if es == [] then s == z
    else Enabled(s, es[0]) && Steady(s, es[0]) && SteadyRun(Step(s, es[0]), es[1..], z)
  }

  /** A driver that holds the current generation holds the plan and schedule now in force, and a
      refresh that is no longer current has been cancelled. */
  predicate Fresh(s: System) {
    && s.w.generation < TWO_64
    && match s.driver
       case Sleeping(g, p, t) => g <= s.w.generation && (g == s.w.generation ==> s.w.plan == Some(Armed(p, t)))
       case Deciding(g, p, t) => g <= s.w.generation && (g == s.w.generation ==> s.w.plan == Some(Armed(p, t)))
       case Sending(g, p) =>
         && g <= s.w.generation
         && (g == s.w.generation ==> s.w.plan.Some? && s.w.plan.value.plan == p)
         && (g != s.w.generation ==> s.w.flight == Flying(true))
         && (s.w.closed ==> g != s.w.generation)
       case _ => true
  }

  lemma StartRaisesGeneration(w: Warmer, request: nat, capability: Option<Capability>, now: nat)
    requires w.generation < TWO_64
    ensures var z := Start(w, request, capability, now);
            && z.generation < TWO_64 && z.generation != w.generation
            && (z.flight.Flying? ==> z.flight.cancelled)
  {
  }

  lemma FreshStep(s: System, e: Event)
    requires Inv(s) && Fresh(s) && Enabled(s, e) && Steady(s, e)
    ensures Fresh(Step(s, e))
  {
    if e.StartPlan? {
      StartRaisesGeneration(s.w, e.request, e.capability, e.now);
    }
  }

  // ----- The bound ----------------------------------------------------------------------------

  /** `n` delays after the plan started, or later. */
  predicate Past(p: Plan, n: nat, t: nat) {
    p.startedAt + n * p.delay <= t
  }

  predicate OnSchedule(s: System) {
    s.w.plan.Some? ==>
      if s.driver.Sending? && s.driver.generation == s.w.generation
      then Past(s.w.plan.value.plan, s.rank, s.clock)
      else Past(s.w.plan.value.plan, s.rank + 1, s.w.plan.value.schedule.nextWarmAt)
  }

  /** Every send was inside the hour: its rank, its due time and the moment of its decision. */
  predicate SendInHour(d: Send) {
    && SoundSchedule(d.plan, d.schedule) && Past(d.plan, d.rank, d.schedule.nextWarmAt)
    && d.schedule.nextWarmAt <= d.at <= d.schedule.deadlineAt
  }

  /** Sends of one start share their plan and are ranked 1, 2, ... */
  predicate Ranked(s: System) {
    && (forall i :: 0 <= i < |s.sends| ==> s.sends[i].start <= s.starts)
    && RanksCount(s.sends)
    && s.rank == CountOf(s.sends, s.starts)
    && (s.w.plan.Some? ==>
          forall i :: 0 <= i < |s.sends| && s.sends[i].start == s.starts ==> s.sends[i].plan == s.w.plan.value.plan)
    && (forall i :: 0 <= i < |s.sends| ==> SendInHour(s.sends[i]))
  }

  function CountOf(sends: seq<Send>, start: nat): nat {
    if sends == [] then 0
    else CountOf(sends[..|sends| - 1], start) + (if sends[|sends| - 1].start == start then 1 else 0)
  }

  lemma {:induction false} NoneYet(sends: seq<Send>, start: nat)
    requires forall i :: 0 <= i < |sends| ==> sends[i].start < start
    ensures CountOf(sends, start) == 0
  {
    if sends == [] {
    } else {
      NoneYet(sends[..|sends| - 1], start);
    }
  }

  lemma Ladder(p: Plan, n: nat, t: nat, now: nat)
    requires Past(p, n, t) && t <= now
    ensures Past(p, n, now) && Past(p, n + 1, now + p.delay)
  {
    assert (n + 1) * p.delay == n * p.delay + p.delay;
  }

  lemma StartIsOnSchedule(w: Warmer, request: nat, capability: Option<Capability>, now: nat)
    ensures var z := Start(w, request, capability, now);
            z.plan.Some? ==> Past(z.plan.value.plan, 1, z.plan.value.schedule.nextWarmAt)
  {
  }

  lemma DecideOnSchedule(s: System, current: bool, now: nat, worthwhile: bool)
    requires Inv(s) && Fresh(s) && OnSchedule(s) && s.driver.Deciding?
    ensures OnSchedule(Decide1(s, current, now, worthwhile))
  {
    if s.w.plan.Some? {
      var armed := s.w.plan.value;
      if armed.schedule.nextWarmAt <= now {
        Ladder(armed.plan, s.rank + 1, armed.schedule.nextWarmAt, now);
      }
    }
  }

  lemma FinishOnSchedule(s: System, outcome: Outcome, reported: bool, now: nat)
    requires Inv(s) && Fresh(s) && OnSchedule(s) && s.driver.Sending? && s.clock <= now
    ensures OnSchedule(Finish1(s, outcome, reported, now))
  {
    if s.driver.generation == s.w.generation {
      Ladder(s.driver.plan, s.rank, s.clock, now);
      RearmedOnSchedule(s.driver.plan, s.rank, now);
    }
  }

  lemma RearmedOnSchedule(p: Plan, n: nat, now: nat)
    requires p.delay <= p.ttl && Past(p, n + 1, now + p.delay)
    ensures forall w': Warmer {:trigger ScheduleLocked(w', p, now)} ::
              ScheduleLocked(w', p, now).plan.Some? ==>
                var armed := ScheduleLocked(w', p, now).plan.value;
                armed.plan == p && Past(p, n + 1, armed.schedule.nextWarmAt)
  {
  }

  lemma OnScheduleStep(s: System, e: Event)
    requires Inv(s) && Fresh(s) && OnSchedule(s) && Enabled(s, e) && Steady(s, e)
    ensures OnSchedule(Step(s, e))
  {
    match e {
      case StartPlan(request, capability, now) =>
        StartIsOnSchedule(s.w, request, capability, now);
        StartRaisesGeneration(s.w, request, capability, now);
      case DecideRefresh(current, now, worthwhile) => DecideOnSchedule(s, current, now, worthwhile);
      case FinishRefresh(outcome, reported, now) => FinishOnSchedule(s, outcome, reported, now);
      case _ =>
    }
  }

  // ----- The log ------------------------------------------------------------------------------

  lemma LogOneMore(sends: seq<Send>, d: Send)
    ensures CountOf(sends + [d], d.start) == CountOf(sends, d.start) + 1
    ensures (sends + [d])[..|sends| + 1] == sends + [d]
  {
    assert (sends + [d])[..|sends|] == sends;
  }

  lemma EarlierPrefix(sends: seq<Send>, d: Send, i: nat)
    requires i <= |sends|
    ensures (sends + [d])[..i] == sends[..i]
  {
  }

  /** Every send carries its own position among those of its start. */
  predicate RanksCount(sends: seq<Send>) {
    forall i :: 0 <= i < |sends| ==> sends[i].rank == CountOf(sends[..i + 1], sends[i].start)
  }

  lemma RanksOneMore(sends: seq<Send>, d: Send)
    requires RanksCount(sends) && d.rank == CountOf(sends, d.start) + 1
    ensures RanksCount(sends + [d])
  {
    LogOneMore(sends, d);
    var all := sends + [d];
    forall i | 0 <= i < |all|
      ensures all[i].rank == CountOf(all[..i + 1], all[i].start)
    {
      if i < |sends| {
        EarlierPrefix(sends, d, i + 1);
        assert all[i] == sends[i];
      }
    }
  }

  lemma SendIsRanked(s: System, z: System, d: Send)
    requires Ranked(s) && z.sends == s.sends + [d] && z.starts == s.starts && z.w.plan == s.w.plan
    requires d.start == s.starts && d.rank == z.rank == s.rank + 1 && SendInHour(d)
    requires s.w.plan.Some? && d.plan == s.w.plan.value.plan
    ensures Ranked(z)
  {
    RanksOneMore(s.sends, d);
    LogOneMore(s.sends, d);
    assert forall i :: 0 <= i < |s.sends| ==> z.sends[i] == s.sends[i];
  }

  /** The decision either logs one send of the plan in force, inside its hour, or logs nothing. */
  lemma DecideLogs(s: System, current: bool, now: nat, worthwhile: bool) returns (d: Send)
    requires Inv(s) && Fresh(s) && OnSchedule(s) && s.driver.Deciding?
    ensures var z := Decide1(s, current, now, worthwhile);
            && z.starts == s.starts
            && (if z.sends == s.sends
                then z.rank == s.rank && (z.w.plan.Some? ==> z.w.plan == s.w.plan)
                else && z.sends == s.sends + [d] && z.w.plan == s.w.plan && s.w.plan.Some?
                     && d.start == s.starts && d.rank == z.rank == s.rank + 1
                     && d.plan == s.w.plan.value.plan && SendInHour(d))
  {
    d := Send(s.starts, s.rank + 1, s.driver.plan, s.driver.schedule, now);
  }

  lemma DecideIsRanked(s: System, current: bool, now: nat, worthwhile: bool)
    requires Inv(s) && Fresh(s) && OnSchedule(s) && Ranked(s) && s.driver.Deciding?
    ensures Ranked(Decide1(s, current, now, worthwhile))
  {
    var d := DecideLogs(s, current, now, worthwhile);
    var z := Decide1(s, current, now, worthwhile);
    if z.sends == s.sends {
      SilentIsRanked(s, z);
    } else {
      SendIsRanked(s, z, d);
    }
  }

  /** Steps that send nothing and keep the plan, or drop it, keep the log in order. */
  lemma SilentIsRanked(s: System, z: System)
    requires Ranked(s) && z.sends == s.sends && z.starts == s.starts && z.rank == s.rank
    requires z.w.plan.Some? ==> s.w.plan.Some? && z.w.plan.value.plan == s.w.plan.value.plan
    ensures Ranked(z)
  {
  }

  lemma StartIsRanked(s: System, z: System)
    requires Ranked(s) && z.sends == s.sends && z.starts == s.starts + 1 && z.rank == 0
    ensures Ranked(z)
  {
    NoneYet(s.sends, z.starts);
  }

  lemma RankedStep(s: System, e: Event)
    requires Inv(s) && Fresh(s) && OnSchedule(s) && Ranked(s) && Enabled(s, e)
    ensures Ranked(Step(s, e))
  {
    if e.StartPlan? {
      StartIsRanked(s, Step(s, e));
    } else if e.DecideRefresh? {
      DecideIsRanked(s, e.current, e.now, e.worthwhile);
    } else {
      SilentStep(s, e);
      SilentIsRanked(s, Step(s, e));
    }
  }

  lemma SilentStep(s: System, e: Event)
    requires Fresh(s) && Enabled(s, e) && !e.StartPlan? && !e.DecideRefresh?
    ensures var z := Step(s, e);
            && z.sends == s.sends && z.starts == s.starts && z.rank == s.rank
            && (z.w.plan.Some? ==> s.w.plan.Some? && z.w.plan.value.plan == s.w.plan.value.plan)
  {
  }

  predicate SteadyInv(s: System) {
    Inv(s) && Fresh(s) && OnSchedule(s) && Ranked(s)
  }

  lemma SteadyStepKeepsInv(s: System, e: Event)
    requires SteadyInv(s) && Enabled(s, e) && Steady(s, e)
    ensures SteadyInv(Step(s, e))
  {
    StepKeepsInv(s, e);
    FreshStep(s, e);
    OnScheduleStep(s, e);
    RankedStep(s, e);
  }

  lemma {:induction false} SteadyRunKeepsInv(s: System, es: seq<Event>, z: System)
    requires SteadyInv(s) && SteadyRun(s, es, z)
    ensures SteadyInv(z)
    decreases |es|
  {
    if es == [] {
    } else {
      SteadyStepKeepsInv(s, es[0]);
      SteadyRunKeepsInv(Step(s, es[0]), es[1..], z);
    }
  }

  lemma StartIsSteady()
    ensures SteadyInv(START)
  {
  }

  /** Only the latest started plan is ever sent, and a refresh in flight that was superseded or
      settled over has been cancelled. */
  lemma OnlyTheCurrentPlanIsSent(es: seq<Event>, s: System)
    requires SteadyRun(START, es, s)
    ensures s.driver.Deciding? && s.driver.generation == s.w.generation ==>
              s.w.plan == Some(Armed(s.driver.plan, s.driver.schedule))
    ensures s.driver.Sending? && (s.driver.generation != s.w.generation || s.w.closed) ==> s.w.flight == Flying(true)
  {
    StartIsSteady();
    SteadyRunKeepsInv(START, es, s);
  }

  /** The last send of a start, and how many there were. */
  lemma {:induction false} LastOfStart(sends: seq<Send>, start: nat) returns (k: nat)
    requires CountOf(sends, start) > 0
    ensures k < |sends| && sends[k].start == start && CountOf(sends[..k + 1], start) == CountOf(sends, start)
  {
    k := |sends| - 1;
    if sends[k].start == start {
      assert sends[..k + 1] == sends;
    } else {
      var init := sends[..k];
      k := LastOfStart(init, start);
      assert init[..k + 1] == sends[..k + 1];
    }
  }

  lemma {:induction false} OnePlanPerStart(s: System, es: seq<Event>, z: System, i: nat, j: nat)
    requires SteadyInv(s) && SteadyRun(s, es, z)
    requires i < j < |z.sends| && z.sends[i].start == z.sends[j].start && |s.sends| <= j
    ensures z.sends[i].plan == z.sends[j].plan
    decreases |es|
  {
    if es == [] {
    } else {
      var e, t := es[0], Step(s, es[0]);
      SteadyStepKeepsInv(s, e);
      if |t.sends| <= j {
        OnePlanPerStart(t, es[1..], z, i, j);
      } else {
        SendsGrow(t, es[1..], z);
        assert t.sends[i] == z.sends[i] && t.sends[j] == z.sends[j];
        SentNow(s, e, j);
        EarlierSendsSharePlan(s, t, i);
      }
    }
  }

  lemma EarlierSendsSharePlan(s: System, t: System, i: nat)
    requires Ranked(s) && s.w.plan.Some? && i < |s.sends| <= |t.sends| && t.sends[..|s.sends|] == s.sends
    ensures t.sends[i].start == s.starts ==> t.sends[i].plan == s.w.plan.value.plan
  {
    assert t.sends[i] == s.sends[i];
  }

  /** The step that adds a send adds the plan in force. */
  lemma SentNow(s: System, e: Event, j: nat)
    requires Fresh(s) && Enabled(s, e) && |s.sends| <= j < |Step(s, e).sends|
    ensures e.DecideRefresh? && j == |s.sends| && Step(s, e).sends[..j] == s.sends
    ensures s.w.plan.Some? && Step(s, e).sends[j].plan == s.w.plan.value.plan && Step(s, e).sends[j].start == s.starts
  {
  }

  lemma {:induction false} SendsGrow(s: System, es: seq<Event>, z: System)
    requires SteadyRun(s, es, z)
    ensures |s.sends| <= |z.sends| && z.sends[..|s.sends|] == s.sends
    decreases |es|
  {
    if es == [] {
    } else {
      SendsGrow(Step(s, es[0]), es[1..], z);
      assert |s.sends| <= |Step(s, es[0]).sends| && Step(s, es[0]).sends[..|s.sends|] == s.sends;
    }
  }

  /** The bound. Each started plan sends at most as many refreshes as whole delays fit in an hour;
      each was due within an hour of the plan's start, and decided within half the margin of that. */
  lemma SendsFitInAnHour(es: seq<Event>, z: System, k: nat)
    requires SteadyRun(START, es, z) && k < |z.sends|
    ensures var p := z.sends[k].plan;
            && p.delay > 0 && CountOf(z.sends, z.sends[k].start) <= MAX_WARMING_AGE / p.delay
            && z.sends[k].schedule.nextWarmAt <= p.startedAt + MAX_WARMING_AGE
            && z.sends[k].at <= p.startedAt + MAX_WARMING_AGE + (p.ttl - p.delay) / 2
  {
    StartIsSteady();
    SteadyRunKeepsInv(START, es, z);
    var start, p := z.sends[k].start, z.sends[k].plan;
    assert SendInHour(z.sends[k]);
    DelayLeavesMargin(p.ttl);
    CountsItself(z.sends, k);
    var last := LastOfStart(z.sends, start);
    assert SendInHour(z.sends[last]);
    SamePlan(es, z, k, last);
    FitsIn(z.sends[last].rank, p.delay);
  }

  lemma SamePlan(es: seq<Event>, z: System, i: nat, j: nat)
    requires SteadyRun(START, es, z) && i < |z.sends| && j < |z.sends| && z.sends[i].start == z.sends[j].start
    ensures z.sends[i].plan == z.sends[j].plan
  {
    StartIsSteady();
    if i < j {
      OnePlanPerStart(START, es, z, i, j);
    } else if j < i {
      OnePlanPerStart(START, es, z, j, i);
    }
  }

  lemma {:induction false} CountsItself(sends: seq<Send>, k: nat)
    requires k < |sends|
    ensures CountOf(sends, sends[k].start) > 0
  {
    if k == |sends| - 1 {
    } else {
      CountsItself(sends[..|sends| - 1], k);
    }
  }

  lemma FitsIn(n: nat, delay: nat)
    requires delay > 0
    ensures n * delay <= MAX_WARMING_AGE ==> n <= MAX_WARMING_AGE / delay
  {
    if n > MAX_WARMING_AGE / delay {
      assert n * delay >= (MAX_WARMING_AGE / delay + 1) * delay;
    }
  }

  // ----- Where the plans come from ------------------------------------------------------------

  function StartEvents(es: seq<Event>): seq<Event> {
    if es == [] then [] else (if es[0].StartPlan? then [es[0]] else []) + StartEvents(es[1..])
  }

  /** The plan of this start: its request, replayable, with its whole-second lifetime and its time. */
  predicate StartedBy(p: Plan, e: Event) {
    && e.StartPlan? && p.request == e.request && p.startedAt == e.now
    && e.capability.Some? && e.capability.value.replayIsSafe && p.ttl == e.capability.value.ttlSeconds * SECOND
  }

  /** The plan in force and every send belong to the start they are counted under. */
  predicate Tied(s: System, starts: seq<Event>) {
    && s.starts == |starts|
    && (s.w.plan.Some? ==> starts != [] && StartedBy(s.w.plan.value.plan, starts[|starts| - 1]))
    && forall i :: 0 <= i < |s.sends| ==>
         1 <= s.sends[i].start <= |starts| && StartedBy(s.sends[i].plan, starts[s.sends[i].start - 1])
  }

  lemma TiedStart(s: System, e: Event, starts: seq<Event>)
    requires Tied(s, starts) && e.StartPlan? && s.w.generation < TWO_64
    ensures Tied(Step(s, e), starts + [e])
  {
    StartsExactly(s, e.request, e.capability, e.now);
    assert forall k :: 0 <= k < |starts| ==> (starts + [e])[k] == starts[k];
  }

  lemma TiedDecision(s: System, e: Event, starts: seq<Event>)
    requires Inv(s) && Fresh(s) && OnSchedule(s) && Tied(s, starts) && e.DecideRefresh? && Enabled(s, e)
    ensures Tied(Step(s, e), starts)
  {
    var d := DecideLogs(s, e.current, e.now, e.worthwhile);
    var z := Step(s, e);
    if z.sends != s.sends {
      assert forall i :: 0 <= i < |s.sends| ==> z.sends[i] == s.sends[i];
      assert z.sends[|s.sends|] == d;
    }
  }

  lemma TiedStep(s: System, e: Event, starts: seq<Event>)
    requires Inv(s) && Fresh(s) && OnSchedule(s) && Tied(s, starts) && Enabled(s, e)
    ensures Tied(Step(s, e), starts + if e.StartPlan? then [e] else [])
  {
    assert starts + [] == starts;
    if e.StartPlan? {
      TiedStart(s, e, starts);
    } else if e.DecideRefresh? {
      TiedDecision(s, e, starts);
    } else {
      SilentStep(s, e);
    }
  }

  lemma {:induction false} TiedRun(s: System, es: seq<Event>, z: System, starts: seq<Event>)
    requires SteadyInv(s) && SteadyRun(s, es, z) && Tied(s, starts)
    ensures Tied(z, starts + StartEvents(es))
    decreases |es|
  {
    if es == [] {
      assert starts + [] == starts;
    } else {
      var first := if es[0].StartPlan? then [es[0]] else [];
      SteadyStepKeepsInv(s, es[0]);
      TiedStep(s, es[0], starts);
      TiedRun(Step(s, es[0]), es[1..], z, starts + first);
      assert starts + first + StartEvents(es[1..]) == starts + (first + StartEvents(es[1..]));
    }
  }

  /** Every refresh replays the request of the start it is counted under, one that may be replayed, and
      was timed by that start's lifetime and moment. */
  lemma SendsAreStarted(es: seq<Event>, z: System, k: nat)
    requires SteadyRun(START, es, z) && k < |z.sends|
    ensures var d := z.sends[k];
            1 <= d.start <= |StartEvents(es)| && StartedBy(d.plan, StartEvents(es)[d.start - 1])
  {
    StartIsSteady();
    TiedRun(START, es, z, []);
    assert [] + StartEvents(es) == StartEvents(es);
  }

  // ----- Refreshes do happen ------------------------------------------------------------------

  lemma FiveMinuteDelay()
    ensures WarmingDelay(300 * SECOND) == Some(270 * SECOND)
  {
  }

  lemma OneStep(s: System, e: Event, es: seq<Event>, z: System)
    requires Enabled(s, e) && Steady(s, e) && SteadyRun(Step(s, e), es, z)
    ensures SteadyRun(s, [e] + es, z)
  {
    assert ([e] + es)[1..] == es;
  }

  /** A five-minute lifetime, kept current and worthwhile, is refreshed after four and a half
      minutes. */
  lemma RefreshIsSent() returns (es: seq<Event>, z: System)
    ensures SteadyRun(START, es, z) && |z.sends| == 1 && z.sends[0].at == 270 * SECOND
    ensures z.sends[0].plan == Plan(7, 300 * SECOND, 270 * SECOND, 0)
  {
    FiveMinuteDelay();
    var start, decide := StartPlan(7, Some(Capability(300, true)), 0), DecideRefresh(true, 270 * SECOND, true);
    var s1 := Step(START, start);
    var s2 := Step(s1, Look);
    var s3 := Step(s2, TimerFires);
    z := Step(s3, decide);
    OneStep(s3, decide, [], z);
    OneStep(s2, TimerFires, [decide], z);
    OneStep(s1, Look, [TimerFires, decide], z);
    OneStep(START, start, [Look, TimerFires, decide], z);
    es := [start] + [Look, TimerFires, decide];
  }
}
