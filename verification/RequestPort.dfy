/** The one-request provider port of a compaction operation: crates/tea-core/src/compaction.rs. */
module RequestPort {
  import opened Wrappers

  /** An effect the run's gate has accepted. */
  type Effect = nat

  datatype Port = Port(admitted: bool, nextTicket: nat, pending: map<nat, Effect>)

  // ----- The port's atomic sections -----------------------------------------------------------

  /** Swap the flag; the caller goes on only if it was down. */
  function Enter(p: Port): (Port, bool) {
    (p.(admitted := true), !p.admitted)
  }

  function Rollback(p: Port): Port {
    p.(admitted := false)
  }

  function Draw(p: Port): (Port, nat) {
    (p.(nextTicket := p.nextTicket + 1), p.nextTicket + 1)
  }

  function Insert(p: Port, ticket: nat, effect: Effect): Port {
    p.(pending := p.pending[ticket := effect])
  }

  function Remove(p: Port, ticket: nat): Port {
    p.(pending := p.pending - {ticket})
  }

  class CoreCompactionRequestPort {
    var admitted: bool
    var nextTicket: nat
    var pending: map<nat, Effect>

    function View(): Port
      reads this
    {
      Port(admitted, nextTicket, pending)
    }

    constructor ()
      ensures View() == Port(false, 0, map[])
    {
      admitted, nextTicket, pending := false, 0, map[];
    }

    /** The first section of `begin_provider_request`. */
    method EnterBegin() returns (won: bool)
      modifies this
      ensures (View(), won) == Enter(old(View()))
    {
      won := !admitted;
      admitted := true;
    }

    /** What follows the gate's refusal. */
    method FailBegin()
      modifies this
      ensures View() == Rollback(old(View()))
    {
      admitted := false;
    }

    /** What follows the gate's consent, when nothing comes between drawing and inserting. */
    method FinishBegin(effect: Effect) returns (ticket: nat)
      modifies this
      ensures ticket == Draw(old(View())).1
      ensures View() == Insert(Draw(old(View())).0, ticket, effect)
    {
      nextTicket := nextTicket + 1;
      ticket := nextTicket;
      pending := pending[ticket := effect];
    }

    /** The lookup of `settle_provider_request`; only one caller gets the effect. */
    method TakeTicket(ticket: nat) returns (found: bool, effect: Effect)
      modifies this
      ensures found <==> ticket in old(pending)
      ensures found ==> effect == old(pending)[ticket]
      ensures View() == Remove(old(View()), ticket)
    {
      found, effect := ticket in pending, 0;
      if found {
        effect := pending[ticket];
        pending := pending - {ticket};
      } else {
        assert pending - {ticket} == pending;
      }
    }

    /** `settle_unfinished`: the gate is asked about one ticket after another until it refuses one.
        `given` are the tickets it was asked about. */
    method SettleUnfinished(consents: nat -> bool) returns (ok: bool, given: seq<nat>)
      modifies this
      ensures View() == old(View()).(pending := map[])
      ensures ok <==> old(pending) == map[]
      ensures GivenBy(old(pending), given)
      ensures (forall t :: t in old(pending) ==> consents(t)) ==> forall t :: t in old(pending) ==> t in given
    {
      var taken := pending;
      pending := map[];
      given := [];
      if taken == map[] {
        return true, given;
      }
      ok := false;
      var left := taken.Keys;
      while left != {}
        invariant left <= taken.Keys
        invariant forall i :: 0 <= i < |given| ==> given[i] in taken && given[i] !in left
        invariant forall t :: t in taken ==> t in left || t in given
        invariant forall i, j :: 0 <= i < j < |given| ==> given[i] != given[j]
        invariant left == taken.Keys || given != []
        invariant pending == map[] && admitted == old(admitted) && nextTicket == old(nextTicket)
      {
        var t :| t in left;
        left := left - {t};
        ghost var before := given;
        given := given + [t];
        assert forall u :: u in before ==> u in given;
        if !consents(t) {
          return false, given;
        }
      }
    }
  }

  /** Distinct pending tickets, and not none of them when there are some. */
  ghost predicate GivenBy(pending: map<nat, Effect>, given: seq<nat>) {
    && (forall t :: t in given ==> t in pending)
    && (forall i, j :: 0 <= i < j < |given| ==> given[i] != given[j])
    && (pending != map[] ==> given != [])
  }

  // ----- Concurrent callers -------------------------------------------------------------------

  /** Where one call of `begin_provider_request` is. `Dropped` is a future abandoned at the gate. */
  datatype Begin =
    | Refused
    | Failed
    | AtGate
    | Dropped
    | Accepted(effect: Effect)
    | Drawn(effect: Effect, ticket: nat)
    | Admitted(effect: Effect, ticket: nat)

  /** `given` logs the tickets handed to the run's settlement, and `settled` the effects with them. */
  datatype System = System(port: Port, begins: map<nat, Begin>, given: seq<nat>, settled: seq<Effect>)

  datatype Event =
    | Call(i: nat)
    | Consent(i: nat, effect: Effect)
    | Refuse(i: nat)
    | Drop(i: nat)
    | DrawTicket(i: nat)
    | InsertTicket(i: nat)
    | Settle(ticket: nat)
    | SettleRest(asked: seq<nat>)

  const START: System := System(Port(false, 0, map[]), map[], [], [])

  predicate At(s: System, i: nat, b: Begin) {
    i in s.begins && s.begins[i] == b
  }

  ghost predicate Enabled(s: System, e: Event) {
    match e
    case Call(i) => i !in s.begins
    case Consent(i, _) => At(s, i, AtGate)
    case Refuse(i) => At(s, i, AtGate)
    case Drop(i) => At(s, i, AtGate)
    case DrawTicket(i) => i in s.begins && s.begins[i].Accepted?
    case InsertTicket(i) => i in s.begins && s.begins[i].Drawn?
    case Settle(_) => true
    case SettleRest(asked) => GivenBy(s.port.pending, asked)
  }

  function Step(s: System, e: Event): System
    requires Enabled(s, e)
  {
    match e
    case Call(i) =>
      var (p, won) := Enter(s.port);
      s.(port := p, begins := s.begins[i := if won then AtGate else Refused])
    case Consent(i, effect) => s.(begins := s.begins[i := Accepted(effect)])
    case Refuse(i) => s.(port := Rollback(s.port), begins := s.begins[i := Failed])
    case Drop(i) => s.(begins := s.begins[i := Dropped])
    case DrawTicket(i) =>
      var (p, t) := Draw(s.port);
      s.(port := p, begins := s.begins[i := Drawn(s.begins[i].effect, t)])
    case InsertTicket(i) =>
      var b := s.begins[i];
      s.(port := Insert(s.port, b.ticket, b.effect), begins := s.begins[i := Admitted(b.effect, b.ticket)])
    case Settle(t) =>
      if t in s.port.pending
      then s.(port := Remove(s.port, t), given := s.given + [t], settled := s.settled + [s.port.pending[t]])
      else s
    case SettleRest(asked) =>
      s.(port := s.port.(pending := map[]), given := s.given + asked,
         settled := s.settled + EffectsOf(s.port.pending, asked))
  }

  function EffectsOf(pending: map<nat, Effect>, asked: seq<nat>): seq<Effect> {
    seq(|asked|, i requires 0 <= i < |asked| => if asked[i] in pending then pending[asked[i]] else 0)
  }

  ghost predicate Runs(s: System, es: seq<Event>, z: System)
    decreases |es|
  {
    if es == [] then s == z
    else Enabled(s, es[0]) && Runs(Step(s, es[0]), es[1..], z)
  }

  // ----- The invariant ------------------------------------------------------------------------

  /** A call that won the flag and has not given it back. */
  predicate Holds(b: Begin) {
    !b.Refused? && !b.Failed?
  }

  /** Call `i` is the only one that holds the flag; its ticket, once inserted, is pending or given. */
  predicate HeldBy(s: System, i: nat) {
    && s.port.admitted && i in s.begins && Holds(s.begins[i])
    && (forall j :: j in s.begins && j != i ==> !Holds(s.begins[j]))
    && match s.begins[i]
       case Admitted(effect, t) =>
         || (s.port.pending.Keys == {t} && s.port.pending[t] == effect && s.given == [] && s.settled == [])
         || (s.port.pending == map[] && s.given == [t] && s.settled == [effect])
       case _ => s.port.pending == map[] && s.given == [] && s.settled == []
  }

  predicate Free(s: System) {
    && !s.port.admitted && s.port.pending == map[] && s.given == [] && s.settled == []
    && forall j :: j in s.begins ==> !Holds(s.begins[j])
  }

  ghost predicate Inv(s: System) {
    Free(s) || exists i :: HeldBy(s, i)
  }

  lemma FreeStep(s: System, e: Event)
    requires Free(s) && Enabled(s, e)
    ensures Inv(Step(s, e))
  {
    if e.Call? {
      assert HeldBy(Step(s, e), e.i);
    } else if e.SettleRest? {
      GivenFromNothing(e.asked);
      assert Free(Step(s, e));
    } else {
      assert Free(Step(s, e));
    }
  }

  lemma GivenFromNothing(asked: seq<nat>)
    ensures GivenBy(map[], asked) ==> asked == []
  {
    if asked != [] {
      assert asked[0] in asked;
    }
  }

  lemma GivenFromOne(pending: map<nat, Effect>, asked: seq<nat>, t: nat)
    requires pending.Keys == {t}
    ensures GivenBy(pending, asked) ==> asked == [t] && EffectsOf(pending, asked) == [pending[t]]
  {
    assert t in pending.Keys;
    if |asked| > 0 {
      assert asked[0] in asked;
    }
    if |asked| > 1 {
      assert asked[1] in asked;
    }
  }

  lemma HeldStep(s: System, e: Event, i: nat)
    requires HeldBy(s, i) && Enabled(s, e)
    ensures Inv(Step(s, e))
  {
    var z := Step(s, e);
    match e {
      case Refuse(j) =>
        assert Free(z);
      case Settle(t) =>
        if t in s.port.pending {
          assert z.port.pending == map[];
        }
        assert HeldBy(z, i);
      case SettleRest(asked) =>
        if s.port.pending == map[] {
          GivenFromNothing(asked);
        } else {
          GivenFromOne(s.port.pending, asked, s.begins[i].ticket);
        }
        assert HeldBy(z, i);
      case InsertTicket(j) =>
        assert z.port.pending.Keys == {s.begins[i].ticket};
        assert HeldBy(z, i);
      case _ =>
        assert HeldBy(z, i);
    }
  }

  lemma {:induction false} RunKeepsInv(s: System, es: seq<Event>, z: System)
    requires Inv(s) && Runs(s, es, z)
    ensures Inv(z)
    decreases |es|
  {
    if es == [] {
    } else {
      if Free(s) {
        FreeStep(s, es[0]);
      } else {
        var i :| HeldBy(s, i);
        HeldStep(s, es[0], i);
      }
      RunKeepsInv(Step(s, es[0]), es[1..], z);
    }
  }

  predicate HasTicket(s: System, i: nat) {
    i in s.begins && s.begins[i].Admitted?
  }

  // ----- The theorems -------------------------------------------------------------------------

  /** At most one call of an operation is ever at, past, or abandoned at the gate. */
  lemma OneRequestPerOperation(es: seq<Event>, z: System, i: nat, j: nat)
    requires Runs(START, es, z)
    requires i in z.begins && j in z.begins && Holds(z.begins[i]) && Holds(z.begins[j])
    ensures i == j
  {
    assert Free(START);
    RunKeepsInv(START, es, z);
  }

  /** No ticket is settled twice, and none that was not admitted. */
  lemma SettledOnceAtMost(es: seq<Event>, z: System, t: nat)
    requires Runs(START, es, z)
    ensures multiset(z.given)[t] <= 1
    ensures t in z.given ==> t !in z.port.pending && exists i :: HasTicket(z, i) && z.begins[i].ticket == t
  {
    assert Free(START);
    RunKeepsInv(START, es, z);
    if !Free(z) {
      var i :| HeldBy(z, i);
      if t in z.given {
        assert HasTicket(z, i);
      }
    }
  }

  /** When `settle_unfinished` has taken the rest, every ticket admitted so far has been given to
      exactly one settlement, even if the gate refused on the way. */
  lemma EveryTicketIsSettledOnce(es: seq<Event>, s: System, asked: seq<nat>, i: nat, t: nat)
    requires Runs(START, es, s) && Enabled(s, SettleRest(asked))
    requires HasTicket(s, i) && s.begins[i].ticket == t
    ensures multiset(Step(s, SettleRest(asked)).given)[t] == 1
    ensures Step(s, SettleRest(asked)).settled == [s.begins[i].effect]
    ensures Step(s, SettleRest(asked)).port.pending == map[]
  {
    assert Free(START);
    RunKeepsInv(START, es, s);
    var k :| HeldBy(s, k);
    assert k == i;
    if s.port.pending == map[] {
      GivenFromNothing(asked);
      assert s.given + asked == [t] && EffectsOf(s.port.pending, asked) == [];
    } else {
      GivenFromOne(s.port.pending, asked, t);
      assert s.given + asked == [t];
    }
  }

  /** The proviso "admitted so far" is needed: a call still at the gate can be admitted afterwards. */
  lemma LateAdmissionIsLeftPending(effect: Effect)
    ensures exists es: seq<Event>, z: System ::
              SettleRest([]) in es && Runs(START, es, z) && 1 in z.port.pending && z.given == []
  {
    var s := Step(START, Call(0));
    assert GivenBy(s.port.pending, []);
    var t := Step(s, SettleRest([]));
    var z := AdmittedLate(t, effect);
    var rest := [Consent(0, effect), DrawTicket(0), InsertTicket(0)];
    LastStep(s, SettleRest([]), rest, z);
    LastStep(START, Call(0), [SettleRest([])] + rest, z);
    var es := [Call(0)] + ([SettleRest([])] + rest);
    assert es[1] == SettleRest([]);
  }

  lemma AdmittedLate(s: System, effect: Effect) returns (z: System)
    requires Enabled(s, Consent(0, effect)) && s.port.nextTicket == 0
    ensures Runs(s, [Consent(0, effect), DrawTicket(0), InsertTicket(0)], z)
    ensures 1 in z.port.pending && z.given == s.given
  {
    var t := Step(s, Consent(0, effect));
    var u := Step(t, DrawTicket(0));
    z := Step(u, InsertTicket(0));
    LastStep(u, InsertTicket(0), [], z);
    LastStep(t, DrawTicket(0), [InsertTicket(0)], z);
    LastStep(s, Consent(0, effect), [DrawTicket(0), InsertTicket(0)], z);
  }

  lemma LastStep(s: System, e: Event, rest: seq<Event>, z: System)
    requires Enabled(s, e) && Runs(Step(s, e), rest, z)
    ensures Runs(s, [e] + rest, z)
  {
    assert ([e] + rest)[1..] == rest;
  }

  lemma {:induction false} TicketsStay(s: System, es: seq<Event>, z: System, i: nat)
    requires Runs(s, es, z) && HasTicket(s, i)
    ensures HasTicket(z, i)
    decreases |es|
  {
    if es == [] {
    } else {
      assert HasTicket(Step(s, es[0]), i);
      TicketsStay(Step(s, es[0]), es[1..], z, i);
    }
  }

  predicate NoSettling(es: seq<Event>) {
    forall i :: 0 <= i < |es| ==> !es[i].Settle? && !es[i].SettleRest?
  }

  lemma {:induction false} GivenStays(s: System, es: seq<Event>, z: System)
    requires Runs(s, es, z) && NoSettling(es)
    ensures z.given == s.given
    decreases |es|
  {
    if es == [] {
    } else {
      assert !es[0].Settle? && !es[0].SettleRest?;
      GivenStays(Step(s, es[0]), es[1..], z);
    }
  }

  lemma HolderHasTicket(z: System, i: nat)
    requires Inv(z) && HasTicket(z, i)
    ensures HeldBy(z, i)
  {
    var k :| Free(z) || HeldBy(z, k);
  }

  lemma GivenMeansTicket(z: System)
    requires Inv(z)
    ensures z.port.pending != map[] || z.given != [] ==> exists i :: HasTicket(z, i)
    ensures z.port.pending == map[] || z.given == []
  {
    if !Free(z) {
      var i :| HeldBy(z, i);
      assert z.begins[i].Admitted? ==> HasTicket(z, i);
    }
  }

  /** Exactly when a ticket outlives `settle_unfinished`: with no settlement after it, one is left
      pending if and only if a call was admitted only afterwards. */
  lemma LeftPendingIff(es: seq<Event>, s: System, asked: seq<nat>, more: seq<Event>, z: System)
    requires Runs(START, es, s) && Enabled(s, SettleRest(asked))
    requires Runs(Step(s, SettleRest(asked)), more, z) && NoSettling(more)
    ensures z.port.pending != map[] <==> exists i :: HasTicket(z, i) && !HasTicket(s, i)
  {
    assert Free(START);
    RunKeepsInv(START, es, s);
    var t := Step(s, SettleRest(asked));
    AfterSettling(s, asked);
    RunKeepsInv(t, more, z);
    GivenStays(t, more, z);
    GivenMeansTicket(z);
    forall i | HasTicket(z, i)
      ensures HeldBy(z, i)
    {
      HolderHasTicket(z, i);
    }
    if j :| HasTicket(s, j) {
      TicketsStay(t, more, z, j);
    }
  }

  lemma AfterSettling(s: System, asked: seq<nat>)
    requires Inv(s) && Enabled(s, SettleRest(asked))
    ensures var t := Step(s, SettleRest(asked));
            && Inv(t) && t.begins == s.begins && (t.given != [] <==> exists j :: HasTicket(s, j))
  {
    var t := Step(s, SettleRest(asked));
    if Free(s) {
      FreeStep(s, SettleRest(asked));
      GivenFromNothing(asked);
    } else {
      var i :| HeldBy(s, i);
      HeldStep(s, SettleRest(asked), i);
      GivenFromNothing(asked);
      if HasTicket(s, i) {
        GivenFromOneOrNone(s, asked, i);
      }
    }
  }

  lemma GivenFromOneOrNone(s: System, asked: seq<nat>, i: nat)
    requires HeldBy(s, i) && HasTicket(s, i) && GivenBy(s.port.pending, asked)
    ensures s.given + asked != []
  {
    if s.port.pending != map[] {
      GivenFromOne(s.port.pending, asked, s.begins[i].ticket);
    }
  }

  /** The effect the gate gave to a call, if it gave one. */
  function ConsentOf(es: seq<Event>, i: nat): Option<Effect> {
    if es == [] then None
    else if es[0].Consent? && es[0].i == i then Some(es[0].effect)
    else ConsentOf(es[1..], i)
  }

  predicate HasEffect(s: System, i: nat) {
    i in s.begins && (s.begins[i].Accepted? || s.begins[i].Drawn? || s.begins[i].Admitted?)
  }

  lemma {:induction false} EffectsAreKept(s: System, es: seq<Event>, z: System, i: nat)
    requires Runs(s, es, z) && HasEffect(z, i)
    ensures if HasEffect(s, i) then z.begins[i].effect == s.begins[i].effect
            else ConsentOf(es, i) == Some(z.begins[i].effect)
    decreases |es|
  {
    if es == [] {
    } else {
      EffectsAreKept(Step(s, es[0]), es[1..], z, i);
    }
  }

  /** What is settled is the effect the gate gave to the one admitted call, and it is settled under the
      ticket that call was given. */
  lemma SettledEffectIsTheGates(es: seq<Event>, z: System)
    requires Runs(START, es, z) && z.given != []
    ensures exists i :: HasTicket(z, i) && z.given == [z.begins[i].ticket] &&
                        z.settled == [z.begins[i].effect] && ConsentOf(es, i) == Some(z.begins[i].effect)
  {
    assert Free(START);
    RunKeepsInv(START, es, z);
    var i :| HeldBy(z, i);
    assert HasTicket(z, i);
    EffectsAreKept(START, es, z, i);
  }

  /** A failed call leaves the port as free as it found it, so another may be admitted. */
  lemma RefusalFreesThePort(es: seq<Event>, s: System, i: nat)
    requires Runs(START, es, s) && At(s, i, AtGate)
    ensures Free(Step(s, Refuse(i)))
  {
    assert Free(START);
    RunKeepsInv(START, es, s);
  }
}
