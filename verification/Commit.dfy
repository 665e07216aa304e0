/** The compaction transaction: reserve, write durably, publish, with cancellation and other
    writers between any two steps. crates/tea-core/src/compaction.rs, with `replace_messages` and
    the cancelling phase from crates/tea-core/src/state/lifecycle.rs and crates/tea-core/src/agent/mod.rs. */
module Commit {
  import opened Wrappers
  import opened Transcript
  import opened TranscriptValidity
  import opened Preservation

  datatype Phase = Idle | Running(run: nat) | Cancelling(run: nat)

  datatype Agent = Agent(phase: Phase, messages: seq<Message>, revision: nat, nextId: nat)

  datatype Result = Ok | Cancelled | StaleSource(expected: nat, actual: nat)

  // ----- The locked sections ------------------------------------------------------------------

  function SaturatingNext(n: nat): nat {
    if n >= U64_MAX then U64_MAX else n + 1
  }

  /** One above every id, and at least one. */
  function NextAfter(ms: seq<Message>): (r: nat)
    ensures 1 <= r <= U64_MAX
    ensures forall i :: 0 <= i < |ms| ==> ms[i].id < r || r == U64_MAX
  {
    if ms == [] then 1
    else
      var r, s := NextAfter(ms[..|ms| - 1]), SaturatingNext(ms[|ms| - 1].id);
      if s > r then s else r
  }

  function Replace(a: Agent, ms: seq<Message>): Agent {
    Agent(a.phase, ms, SaturatingNext(a.revision), if NextAfter(ms) > a.nextId then NextAfter(ms) else a.nextId)
  }

  function Reservation(a: Agent, cancelled: bool, owner: nat, expected: nat): Result {
    if cancelled then Cancelled
    else if a.phase != Running(owner) then Cancelled
    else if a.revision != expected then StaleSource(expected, a.revision)
    else Ok
  }

  function Publication(a: Agent, owner: nat, expected: nat): Result {
    if a.phase != Running(owner) && a.phase != Cancelling(owner) then Cancelled
    else if a.revision != expected then StaleSource(expected, a.revision)
    else Ok
  }

  class AgentState {
    var phase: Phase
    var messages: seq<Message>
    var revision: nat
    var nextId: nat

    function View(): Agent
      reads this
    {
      Agent(phase, messages, revision, nextId)
    }

    constructor ()
      ensures View() == Agent(Idle, [], 0, 1)
    {
      phase, messages, revision, nextId := Idle, [], 0, 1;
    }

    method ReplaceMessages(ms: seq<Message>)
      modifies this
      ensures View() == Replace(old(View()), ms)
      ensures forall i :: 0 <= i < |ms| ==> ms[i].id < nextId || nextId >= U64_MAX
      ensures nextId >= old(nextId)
    {
      var next := 1;
      for i := 0 to |ms|
        invariant next == NextAfter(ms[..i])
        invariant View() == old(View())
      {
        assert ms[..i + 1][..i] == ms[..i];
        if SaturatingNext(ms[i].id) > next {
          next := SaturatingNext(ms[i].id);
        }
      }
      assert ms[..|ms|] == ms;
      if next > nextId {
        nextId := next;
      }
      messages := ms;
      revision := SaturatingNext(revision);
    }

    /** Selects cancellation or publication; changes nothing. */
    method ReserveDurableCommit(cancelled: bool, owner: nat, expected: nat) returns (r: Result)
      ensures r == Reservation(View(), cancelled, owner, expected)
      ensures r.Ok? <==> !cancelled && phase == Running(owner) && revision == expected
    {
      if cancelled {
        return Cancelled;
      }
      if phase != Running(owner) {
        return Cancelled;
      }
      if revision != expected {
        return StaleSource(expected, revision);
      }
      r := Ok;
    }

    /** Adopts a replacement that is already durable. */
    method PublishDurableReplacement(owner: nat, expected: nat, ms: seq<Message>) returns (r: Result)
      modifies this
      ensures r == Publication(old(View()), owner, expected)
      ensures View() == if r.Ok? then Replace(old(View()), ms) else old(View())
    {
      if phase != Running(owner) && phase != Cancelling(owner) {
        return Cancelled;
      }
      if revision != expected {
        return StaleSource(expected, revision);
      }
      ReplaceMessages(ms);
      r := Ok;
    }
  }

  // ----- The transaction and its environment --------------------------------------------------

  datatype Pc = Start | Reserved | Written | Settled | Committed | Abandoned

  /** What one call of the transaction was given. */
  datatype Operation = Operation(owner: nat, expected: nat, source: seq<Message>, replacement: seq<Message>) {
    /** What it writes and publishes. */
    function Outcome(): seq<Message> {
      Preserve(source, replacement, FreshId(source, replacement))
    }
  }

  datatype World = World(agent: Agent, cancelled: bool, durable: seq<Message>, pc: Pc)

  datatype Event =
    | Reserve
    | BeforeGate(ok: bool)
    | AfterGate(ok: bool)
    | Publish
    | CancelToken
    | CancelPhase(run: nat)
    | OtherWriter(messages: seq<Message>)

  predicate IsCancel(e: Event) {
    e.CancelToken? || e.CancelPhase?
  }

  function Step(op: Operation, w: World, e: Event): World {
    match e
    case Reserve =>
      if w.pc != Start then w
      else w.(pc := if Reservation(w.agent, w.cancelled, op.owner, op.expected).Ok? then Reserved else Abandoned)
    case BeforeGate(ok) =>
      if w.pc != Reserved then w
      else if ok then w.(durable := op.Outcome(), pc := Written)
      else w.(pc := Abandoned)
    case AfterGate(ok) =>
      if w.pc != Written then w else w.(pc := if ok then Settled else Abandoned)
    case Publish =>
      if w.pc != Settled then w
      else if Publication(w.agent, op.owner, op.expected).Ok?
      then w.(agent := Replace(w.agent, op.Outcome()), pc := Committed)
      else w.(pc := Abandoned)
    case CancelToken => w.(cancelled := true)
    case CancelPhase(run) =>
      w.(agent := w.agent.(phase := if w.agent.phase.Idle? then Idle else Cancelling(run)))
    case OtherWriter(ms) => w.(agent := w.agent.(messages := ms, revision := SaturatingNext(w.agent.revision)))
  }

  function Run(op: Operation, w: World, es: seq<Event>): World {
    if es == [] then w else Step(op, Run(op, w, es[..|es| - 1]), es[|es| - 1])
  }

  /** A transaction that is about to start on the history it read. */
  predicate Begins(op: Operation, w: World) {
    && w.pc == Start && !w.cancelled && w.agent.phase == Running(op.owner)
    && w.agent.revision == op.expected && w.agent.messages == op.source && w.durable == op.source
  }

  // ----- Cancellation cannot split durable and live history -----------------------------------

  /** The gates succeed, only this run is cancelled, and nobody else writes history. */
  predicate Calm(op: Operation, e: Event) {
    match e
    case BeforeGate(ok) => ok
    case AfterGate(ok) => ok
    case CancelPhase(run) => run == op.owner
    case OtherWriter(_) => false
    case _ => true
  }

  predicate AllCalm(op: Operation, es: seq<Event>) {
    forall i :: 0 <= i < |es| ==> Calm(op, es[i])
  }

  /** A cancellation step came before the reservation. */
  predicate CancelledFirst(es: seq<Event>) {
    es != [] && (CancelledFirst(es[..|es| - 1]) || (IsCancel(es[|es| - 1]) && Reserve !in es[..|es| - 1]))
  }

  predicate Inv(op: Operation, w: World, first: bool, reserved: bool) {
    && (w.agent.phase == Running(op.owner) || w.agent.phase == Cancelling(op.owner))
    && (w.pc != Committed ==> w.agent.revision == op.expected && w.agent.messages == op.source)
    && (w.pc == Committed ==> w.agent.messages == op.Outcome())
    && w.durable == (if w.pc in {Written, Settled, Committed} then op.Outcome() else op.source)
    && (w.pc == Start <==> !reserved)
    && (w.pc == Start ==> (first <==> w.cancelled || w.agent.phase != Running(op.owner)))
    && (w.pc != Start ==> (w.pc == Abandoned <==> first))
  }

  lemma {:induction false} CalmRunKeepsInv(op: Operation, w: World, es: seq<Event>)
    requires Begins(op, w) && AllCalm(op, es)
    ensures Inv(op, Run(op, w, es), CancelledFirst(es), Reserve in es)
  {
    if es == [] {
    } else {
      var init, e := es[..|es| - 1], es[|es| - 1];
      CalmRunKeepsInv(op, w, init);
      assert es == init + [e];
      CalmStepKeepsInv(op, Run(op, w, init), e, CancelledFirst(init), Reserve in init);
    }
  }

  lemma CalmStepKeepsInv(op: Operation, w: World, e: Event, first: bool, reserved: bool)
    requires Inv(op, w, first, reserved) && Calm(op, e)
    ensures Inv(op, Step(op, w, e), first || (IsCancel(e) && !reserved), reserved || e == Reserve)
  {
  }

  /** The theorem. Wherever cancellation steps fall, a finished transaction has changed neither
      history or made both the same replacement: the former exactly when a cancellation step came
      before the reservation. */
  lemma CancellationCannotSplit(op: Operation, w: World, es: seq<Event>)
    requires Begins(op, w) && AllCalm(op, es)
    ensures var z := Run(op, w, es);
            && (z.pc == Abandoned ==> CancelledFirst(es) && z.durable == op.source && z.agent.messages == op.source)
            && (z.pc == Committed ==>
                  !CancelledFirst(es) && z.durable == op.Outcome() && z.agent.messages == op.Outcome())
    ensures Reserve in es && CancelledFirst(es) ==> Run(op, w, es).pc == Abandoned
  {
    CalmRunKeepsInv(op, w, es);
  }

  /** A reserved transaction is never stuck: its own three steps finish it, whatever was cancelled. */
  lemma ReservedTransactionFinishes(op: Operation, w: World, es: seq<Event>)
    requires Begins(op, w) && AllCalm(op, es) && Reserve in es && !CancelledFirst(es)
    ensures var z := Run(op, w, es);
            Step(op, Step(op, Step(op, z, BeforeGate(true)), AfterGate(true)), Publish).pc == Committed
  {
    CalmRunKeepsInv(op, w, es);
  }

  // ----- What the published history is --------------------------------------------------------

  /** A commit of a valid replacement with ids to spare publishes a valid history, the same one in
      both places, under which the retained messages keep the configuration they had, in its own
      order wherever the replacement had to be rewritten. */
  lemma CommittedHistoryIsSound(op: Operation, w: World, es: seq<Event>)
    requires Begins(op, w) && AllCalm(op, es) && Run(op, w, es).pc == Committed
    requires ValidTranscript(op.replacement) && ValidUpdates(op.source)
    requires FreshId(op.source, op.replacement) < U64_MAX
    requires Replay(Before(op.source, SuffixLen(op.source, op.replacement))).Some?
    ensures var live, n := Run(op, w, es).agent.messages, SuffixLen(op.source, op.replacement);
            && live == Run(op, w, es).durable && ValidTranscript(live) && n <= |live|
            && (forall j :: 0 <= j <= n ==> SameMeaning(Reading(live, n, j), Reading(op.source, n, j)))
            && (Rewrites(Before(op.source, n), Before(op.replacement, n)) ==>
                  forall j :: 0 <= j <= n ==> Reading(live, n, j) == Reading(op.source, n, j))
  {
    CalmRunKeepsInv(op, w, es);
    RewriteIsValid(op.source, op.replacement);
    ConfigurationIsPreserved(op.source, op.replacement, FreshId(op.source, op.replacement));
    ConfigurationIsExact(op.source, op.replacement, FreshId(op.source, op.replacement));
  }

  // ----- Every run: the final comparison guards the source ------------------------------------

  predicate Guarded(op: Operation, w: World) {
    && w.agent.revision >= op.expected
    && (w.agent.revision == op.expected && w.pc != Committed ==> w.agent.messages == op.source)
    && (w.pc == Committed ==> w.agent.revision > op.expected)
  }

  lemma {:induction false} RunIsGuarded(op: Operation, w: World, es: seq<Event>)
    requires Begins(op, w) && op.expected < U64_MAX
    ensures Guarded(op, Run(op, w, es))
  {
    if es == [] {
    } else {
      RunIsGuarded(op, w, es[..|es| - 1]);
      StepIsGuarded(op, Run(op, w, es[..|es| - 1]), es[|es| - 1]);
    }
  }

  lemma StepIsGuarded(op: Operation, w: World, e: Event)
    requires Guarded(op, w) && op.expected < U64_MAX
    ensures Guarded(op, Step(op, w, e))
  {
  }

  /** In every run, with failing gates and other writers, the step that publishes overwrites the
      very history the replacement was made from. */
  lemma PublicationOverwritesItsSource(op: Operation, w: World, es: seq<Event>)
    requires Begins(op, w) && op.expected < U64_MAX
    requires Run(op, w, es).pc != Committed && Step(op, Run(op, w, es), Publish).pc == Committed
    ensures Run(op, w, es).agent.messages == op.source
  {
    RunIsGuarded(op, w, es);
  }

  /** At the last revision the counter saturates and the comparison cannot see another writer. */
  lemma SaturatedRevisionLosesAnUpdate(op: Operation, w: World, ms: seq<Message>)
    requires w.pc == Settled && w.agent.phase == Running(op.owner)
    requires w.agent.revision == op.expected == U64_MAX
    ensures var z := Step(op, Step(op, w, OtherWriter(ms)), Publish);
            z.pc == Committed && z.agent.messages == op.Outcome()
  {
  }

  // ----- Exactly what happens, whatever comes between the steps -------------------------------

  /** The run named by the last phase change, if there was one. */
  function LastCancelled(es: seq<Event>, owner: nat): nat {
    if es == [] then owner
    else if es[|es| - 1].CancelPhase? then es[|es| - 1].run
    else LastCancelled(es[..|es| - 1], owner)
  }

  /** The history another writer wrote last, or the source. */
  function LastWritten(es: seq<Event>, source: seq<Message>): seq<Message> {
    if es == [] then source
    else if es[|es| - 1].OtherWriter? then es[|es| - 1].messages
    else LastWritten(es[..|es| - 1], source)
  }

  predicate Writes(es: seq<Event>) {
    exists i :: 0 <= i < |es| && es[i].OtherWriter?
  }

  predicate Cancels(es: seq<Event>) {
    exists i :: 0 <= i < |es| && IsCancel(es[i])
  }

  /** Nobody else wrote, or the counter was too full to show it. */
  predicate LooksUnwritten(op: Operation, es: seq<Event>) {
    !Writes(es) || op.expected == U64_MAX
  }

  /** The agent as cancellations and other writers have left it, before anything is published. */
  predicate Unpublished(op: Operation, z: World, es: seq<Event>) {
    && z.pc != Committed
    && z.agent.messages == LastWritten(es, op.source)
    && z.agent.revision >= op.expected && (z.agent.revision == op.expected <==> LooksUnwritten(op, es))
    && !z.agent.phase.Idle?
    && (z.agent.phase == Running(op.owner) || z.agent.phase == Cancelling(op.owner) <==>
          LastCancelled(es, op.owner) == op.owner)
    && (!z.cancelled && z.agent.phase == Running(op.owner) <==> !Cancels(es))
    && (z.pc in {Start, Reserved} ==> z.durable == op.source)
    && (z.pc in {Written, Settled} ==> z.durable == op.Outcome())
  }

  lemma OneMore(es: seq<Event>)
    requires es != []
    ensures var init, e := es[..|es| - 1], es[|es| - 1];
            && (Writes(es) <==> Writes(init) || e.OtherWriter?)
            && (Cancels(es) <==> Cancels(init) || IsCancel(e))
  {
    assert es == es[..|es| - 1] + [es[|es| - 1]];
  }

  lemma UnpublishedStep(op: Operation, z: World, es: seq<Event>)
    requires es != [] && es[|es| - 1] != Publish && op.expected <= U64_MAX
    requires Unpublished(op, z, es[..|es| - 1])
    ensures Unpublished(op, Step(op, z, es[|es| - 1]), es)
  {
    OneMore(es);
  }

  lemma {:induction false} BeforePublication(op: Operation, w: World, es: seq<Event>)
    requires Begins(op, w) && op.expected <= U64_MAX && Publish !in es
    ensures Unpublished(op, Run(op, w, es), es)
  {
    if es == [] {
    } else {
      BeforePublication(op, w, es[..|es| - 1]);
      UnpublishedStep(op, Run(op, w, es[..|es| - 1]), es);
    }
  }

  /** Reservation, after any steps of other runs and writers: it succeeds if and only if none was a
      cancellation and no writer was seen; otherwise nothing has been written. */
  lemma ReservationExactly(op: Operation, w: World, es: seq<Event>)
    requires Begins(op, w) && op.expected <= U64_MAX && Publish !in es && Run(op, w, es).pc == Start
    ensures var z := Step(op, Run(op, w, es), Reserve);
            && (z.pc == Reserved <==> !Cancels(es) && LooksUnwritten(op, es))
            && (z.pc != Reserved ==> z.pc == Abandoned)
            && z.durable == op.source && z.agent.messages == LastWritten(es, op.source)
  {
    BeforePublication(op, w, es);
  }

  /** A gate that refuses the write, whenever it does: the durable history is untouched. */
  lemma RefusedWriteChangesNothing(op: Operation, w: World, es: seq<Event>)
    requires Begins(op, w) && op.expected <= U64_MAX && Publish !in es && Run(op, w, es).pc == Reserved
    ensures var z := Step(op, Run(op, w, es), BeforeGate(false));
            z.pc == Abandoned && z.durable == op.source && z.agent.messages == LastWritten(es, op.source)
  {
    BeforePublication(op, w, es);
  }

  /** A settlement that fails, whatever came before it: the replacement is durable, and live is what
      other writers made of the source. */
  lemma FailedSettlementSplits(op: Operation, w: World, es: seq<Event>)
    requires Begins(op, w) && op.expected <= U64_MAX && Publish !in es && Run(op, w, es).pc == Written
    ensures var z := Step(op, Run(op, w, es), AfterGate(false));
            z.pc == Abandoned && z.durable == op.Outcome() && z.agent.messages == LastWritten(es, op.source)
  {
    BeforePublication(op, w, es);
  }

  /** Publication, with cancellations and other writers anywhere before it, during the gate waits
      included: it commits if and only if the last run to be cancelled is the owner and no other
      writer was seen. Either way the replacement is durable; live follows it only by the commit, and
      is otherwise what the other writers made of the source. */
  lemma SplitExactly(op: Operation, w: World, es: seq<Event>)
    requires Begins(op, w) && op.expected <= U64_MAX && Publish !in es && Run(op, w, es).pc == Settled
    ensures var z := Step(op, Run(op, w, es), Publish);
            && (z.pc == Committed <==> LastCancelled(es, op.owner) == op.owner && LooksUnwritten(op, es))
            && (z.pc != Committed ==> z.pc == Abandoned)
            && z.durable == op.Outcome()
            && z.agent.messages == (if z.pc == Committed then op.Outcome() else LastWritten(es, op.source))
  {
    BeforePublication(op, w, es);
  }

  /** So every transaction that ends after its write leaves durable and live history equal if and only
      if it commits, or the others happened to write the very same history. */
  lemma EndsTogetherIff(op: Operation, w: World, es: seq<Event>, last: Event)
    requires Begins(op, w) && op.expected <= U64_MAX && Publish !in es
    requires Run(op, w, es).pc in {Written, Settled} && Step(op, Run(op, w, es), last).pc in {Committed, Abandoned}
    ensures var z := Step(op, Run(op, w, es), last);
            z.durable == z.agent.messages <==> z.pc == Committed || LastWritten(es, op.source) == op.Outcome()
  {
    BeforePublication(op, w, es);
  }

  // ----- Why a step was refused ---------------------------------------------------------------

  /** The reservation answers cancellation first, then a changed source with the revision it found. */
  lemma ReservationSaysWhy(op: Operation, w: World, es: seq<Event>)
    requires Begins(op, w) && op.expected <= U64_MAX && Publish !in es
    ensures var s := Run(op, w, es);
            Reservation(s.agent, s.cancelled, op.owner, op.expected) ==
              if Cancels(es) then Cancelled
              else if LooksUnwritten(op, es) then Ok
              else StaleSource(op.expected, s.agent.revision)
  {
    BeforePublication(op, w, es);
  }

  lemma PublicationSaysWhy(op: Operation, w: World, es: seq<Event>)
    requires Begins(op, w) && op.expected <= U64_MAX && Publish !in es
    ensures var s := Run(op, w, es);
            Publication(s.agent, op.owner, op.expected) ==
              if LastCancelled(es, op.owner) != op.owner then Cancelled
              else if LooksUnwritten(op, es) then Ok
              else StaleSource(op.expected, s.agent.revision)
  {
    BeforePublication(op, w, es);
  }

  // ----- Message ids --------------------------------------------------------------------------

  /** Adopting a history moves the id allocator past every id in it, by no more than that, and never
      back. */
  lemma ReplaceAdvancesIds(a: Agent, ms: seq<Message>)
    ensures var z := Replace(a, ms);
            && z.nextId >= a.nextId
            && (forall i :: 0 <= i < |ms| ==> ms[i].id < z.nextId || z.nextId >= U64_MAX)
            && (z.nextId == a.nextId || z.nextId == 1 || exists i :: 0 <= i < |ms| && z.nextId == SaturatingNext(ms[i].id))
  {
    NextAfterIsTight(ms);
  }

  lemma {:induction false} NextAfterIsTight(ms: seq<Message>)
    ensures NextAfter(ms) == 1 || exists i :: 0 <= i < |ms| && NextAfter(ms) == SaturatingNext(ms[i].id)
  {
    if ms == [] {
    } else {
      NextAfterIsTight(ms[..|ms| - 1]);
      assert ms[|ms| - 1].id == ms[|ms| - 1].id;
    }
  }

  lemma {:induction false} IdsNeverGoBack(op: Operation, w: World, es: seq<Event>)
    ensures Run(op, w, es).agent.nextId >= w.agent.nextId
  {
    if es == [] {
    } else {
      IdsNeverGoBack(op, w, es[..|es| - 1]);
    }
  }

  // ----- Both kinds of split ------------------------------------------------------------------

  lemma RunPush(op: Operation, w: World, es: seq<Event>, e: Event)
    ensures Run(op, w, es + [e]) == Step(op, Run(op, w, es), e)
  {
    assert (es + [e])[..|es|] == es;
  }

  lemma RunTwo(op: Operation, w: World, a: Event, b: Event)
    ensures Run(op, w, [a, b]) == Step(op, Step(op, w, a), b)
  {
    assert [] + [a] == [a] && [a] + [b] == [a, b];
    RunPush(op, w, [], a);
    RunPush(op, w, [a], b);
  }

  /** Another writer during the first gate wait: the replacement is durable, the other history live. */
  lemma WriterDuringGateSplits(op: Operation, w: World, ms: seq<Message>)
    requires Begins(op, w) && op.expected < U64_MAX
    ensures var z := Run(op, w, [Reserve, OtherWriter(ms)] + [BeforeGate(true)] + [AfterGate(true)] + [Publish]);
            z.pc == Abandoned && z.durable == op.Outcome() && z.agent.messages == ms
  {
    var es := [Reserve, OtherWriter(ms)];
    RunTwo(op, w, Reserve, OtherWriter(ms));
    RunPush(op, w, es, BeforeGate(true));
    RunPush(op, w, es + [BeforeGate(true)], AfterGate(true));
    RunPush(op, w, es + [BeforeGate(true)] + [AfterGate(true)], Publish);
  }

  lemma FailureWithoutOthers(op: Operation, w: World)
    requires Begins(op, w)
    ensures var z := Run(op, w, [Reserve, BeforeGate(true)] + [AfterGate(false)]);
            z.pc == Abandoned && z.durable == op.Outcome() && z.agent.messages == op.source
  {
    RunTwo(op, w, Reserve, BeforeGate(true));
    RunPush(op, w, [Reserve, BeforeGate(true)], AfterGate(false));
  }

  /** A failed settlement, on a valid source and replacement that differ. */
  lemma SplitExample() returns (op: Operation, w: World)
    ensures Begins(op, w) && ValidTranscript(op.source) && ValidTranscript(op.replacement)
    ensures var z := Run(op, w, [Reserve, BeforeGate(true)] + [AfterGate(false)]);
            z.pc == Abandoned && z.durable != z.agent.messages
  {
    var a, b := User(1, ""), User(2, "");
    op := Operation(0, 0, [a], [b]);
    w := World(Agent(Running(0), [a], 0, 2), false, [a], Start);
    OneWithoutCalls(a);
    OneWithoutCalls(b);
    BarePrefix(a);
    NothingInCommon([a], [b]);
    FailureWithoutOthers(op, w);
  }

  lemma NothingInCommon(a: seq<Message>, b: seq<Message>)
    requires |a| == 1 && |b| == 1 && a[0] != b[0] && Replay(a) == None
    ensures Preserve(a, b, FreshId(a, b)) == b
  {
    assert SuffixLen(a, b) == 0;
    assert a[..1] == a && b[..1] == b && a[1..] == [] && b + [] == b;
  }
}
