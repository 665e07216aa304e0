/** The bounded worker loop of one evaluation wave: evals/controller.py.

    Items are their plan indices. `fails` says how each attempt ends; which outstanding attempts
    complete next is an arbitrary choice. */
module Wave {

  datatype Record = Record(index: nat, failed: bool)

  /** What happened, in order. */
  datatype Event = Start(index: nat) | Settle(index: nat, failed: bool)

  // ----- Traces -------------------------------------------------------------------------------

  /** Attempts started and not yet settled. */
  function Outstanding(trace: seq<Event>): int {
    if trace == [] then 0
    else Outstanding(trace[..|trace| - 1]) + (if trace[|trace| - 1].Start? then 1 else -1)
  }

  predicate HasFailure(trace: seq<Event>) {
    exists i :: 0 <= i < |trace| && trace[i].Settle? && trace[i].failed
  }

  function Started(trace: seq<Event>): seq<nat> {
    if trace == [] then []
    else Started(trace[..|trace| - 1]) + (if trace[|trace| - 1].Start? then [trace[|trace| - 1].index] else [])
  }

  /** At no point were more than `limit` attempts outstanding, and, when failures stop the wave,
      no attempt was started after a failure had settled. */
  ghost predicate Orderly(trace: seq<Event>, limit: nat, stopOnFailure: bool) {
    trace == [] ||
    (var init, last := trace[..|trace| - 1], trace[|trace| - 1];
     && Orderly(init, limit, stopOnFailure)
     && 0 <= Outstanding(trace) <= limit
     && (last.Start? && stopOnFailure ==> !HasFailure(init)))
  }

  lemma Extend(trace: seq<Event>, e: Event)
    ensures (trace + [e])[..|trace|] == trace
    ensures Outstanding(trace + [e]) == Outstanding(trace) + if e.Start? then 1 else -1
    ensures Started(trace + [e]) == Started(trace) + if e.Start? then [e.index] else []
    ensures HasFailure(trace + [e]) <==> HasFailure(trace) || (e.Settle? && e.failed)
  {
    assert (trace + [e])[..|trace|] == trace;
    assert (trace + [e])[|trace|] == e;
    if HasFailure(trace) {
      var i :| 0 <= i < |trace| && trace[i].Settle? && trace[i].failed;
      assert (trace + [e])[i] == trace[i];
    }
  }

  lemma OrderlyExtend(trace: seq<Event>, e: Event, limit: nat, stopOnFailure: bool)
    requires Orderly(trace, limit, stopOnFailure)
    requires if e.Start? then 0 <= Outstanding(trace) < limit && (stopOnFailure ==> !HasFailure(trace))
             else 0 < Outstanding(trace) <= limit
    ensures Orderly(trace + [e], limit, stopOnFailure)
  {
    Extend(trace, e);
  }

  /** What `Orderly` says of any moment of the run. */
  lemma {:induction false} NeverOverLimit(trace: seq<Event>, limit: nat, stopOnFailure: bool, n: nat)
    requires Orderly(trace, limit, stopOnFailure) && n <= |trace|
    ensures 0 <= Outstanding(trace[..n]) <= limit
    ensures n < |trace| && stopOnFailure && HasFailure(trace[..n]) ==> !trace[n].Start?
  {
    if n < |trace| {
      var init := trace[..|trace| - 1];
      if n < |init| {
        NeverOverLimit(init, limit, stopOnFailure, n);
        assert init[..n] == trace[..n] && init[n] == trace[n];
      } else {
        assert trace[..n] == init;
        NeverOverLimit(init, limit, stopOnFailure, n);
        assert init[..n] == init;
      }
    } else {
      assert trace[..n] == trace;
    }
  }

  // ----- The loop -----------------------------------------------------------------------------

  function PlanOrder(n: nat): (s: seq<nat>)
    ensures |s| == n && forall i :: 0 <= i < n ==> s[i] == i
  {
    if n == 0 then [] else PlanOrder(n - 1) + [n - 1]
  }

  function FirstRecords(n: nat, fails: nat -> bool): (s: seq<Record>)
    ensures |s| == n && forall i :: 0 <= i < n ==> s[i] == Record(i, fails(i))
  {
    if n == 0 then [] else FirstRecords(n - 1, fails) + [Record(n - 1, fails(n - 1))]
  }

  /** The indices below `next` are outstanding or recorded; the records are the attempts' own. */
  ghost predicate Accounts(next: nat, futures: set<nat>, records: map<nat, Record>, fails: nat -> bool) {
    && (forall i :: i in futures ==> i < next && i !in records)
    && (forall i :: i in records ==> i < next && records[i] == Record(i, fails(i)))
    && (forall i :: 0 <= i < next ==> i in futures || i in records)
  }

  /** The trace tells the same story as the loop's variables. */
  ghost predicate Tells(trace: seq<Event>, next: nat, futures: set<nat>, records: map<nat, Record>, stopped: bool,
                        limit: nat, stopOnFailure: bool) {
    && Orderly(trace, limit, stopOnFailure)
    && Outstanding(trace) == |futures| <= limit
    && Started(trace) == PlanOrder(next)
    && (stopped <==> stopOnFailure && HasFailure(trace))
    && (HasFailure(trace) <==> exists i :: i in records && records[i].failed)
  }

  /** `start_until_full`. */
  method StartUntilFull(items: nat, limit: nat, stopped: bool, stopOnFailure: bool, next: nat, futures: set<nat>,
                        ghost records: map<nat, Record>, ghost fails: nat -> bool, ghost trace: seq<Event>)
    returns (next': nat, futures': set<nat>, ghost trace': seq<Event>)
    requires next <= items && Accounts(next, futures, records, fails)
    requires Tells(trace, next, futures, records, stopped, limit, stopOnFailure)
    ensures next <= next' <= items && Accounts(next', futures', records, fails)
    ensures Tells(trace', next', futures', records, stopped, limit, stopOnFailure)
    ensures |futures'| == |futures| + next' - next
    ensures stopped || next' == items || |futures'| == limit
  {
    next', futures', trace' := next, futures, trace;
    while !stopped && next' < items && |futures'| < limit
      invariant next <= next' <= items && Accounts(next', futures', records, fails)
      invariant Tells(trace', next', futures', records, stopped, limit, stopOnFailure)
      invariant |futures'| == |futures| + next' - next
    {
      Extend(trace', Start(next'));
      OrderlyExtend(trace', Start(next'), limit, stopOnFailure);
      trace' := trace' + [Start(next')];
      futures' := futures' + {next'};
      next' := next' + 1;
    }
  }

  /** The body of the completion loop for one completed attempt. */
  method SettleOne(index: nat, limit: nat, stopped: bool, stopOnFailure: bool, futures: set<nat>,
                   records: map<nat, Record>, fails: nat -> bool, ghost next: nat, ghost trace: seq<Event>)
    returns (stopped': bool, futures': set<nat>, records': map<nat, Record>, ghost trace': seq<Event>)
    requires index in futures && Accounts(next, futures, records, fails)
    requires Tells(trace, next, futures, records, stopped, limit, stopOnFailure)
    ensures futures' == futures - {index}
    ensures Accounts(next, futures', records', fails)
    ensures Tells(trace', next, futures', records', stopped', limit, stopOnFailure)
  {
    var record := Record(index, fails(index));
    Extend(trace, Settle(index, record.failed));
    assert |futures| > 0;
    OrderlyExtend(trace, Settle(index, record.failed), limit, stopOnFailure);
    trace' := trace + [Settle(index, record.failed)];
    futures' := futures - {index};
    records' := records[index := record];
    RecordedFailure(records, record);
    stopped' := stopped || (record.failed && stopOnFailure);
  }

  lemma RecordedFailure(records: map<nat, Record>, r: Record)
    requires r.index !in records
    ensures var z := records[r.index := r];
            (exists i :: i in z && z[i].failed) <==> r.failed || exists i :: i in records && records[i].failed
  {
    var z := records[r.index := r];
    assert z[r.index] == r;
    if i :| i in records && records[i].failed {
      assert z[i] == records[i];
    }
  }

  method SettleAll(done: set<nat>, limit: nat, stopped: bool, stopOnFailure: bool, futures: set<nat>,
                   records: map<nat, Record>, fails: nat -> bool, ghost next: nat, ghost trace: seq<Event>)
    returns (stopped': bool, futures': set<nat>, records': map<nat, Record>, ghost trace': seq<Event>)
    requires done <= futures && Accounts(next, futures, records, fails)
    requires Tells(trace, next, futures, records, stopped, limit, stopOnFailure)
    ensures futures' == futures - done
    ensures Accounts(next, futures', records', fails)
    ensures Tells(trace', next, futures', records', stopped', limit, stopOnFailure)
  {
    stopped', futures', records', trace' := stopped, futures, records, trace;
    var left := done;
    while left != {}
      invariant left <= done && futures' == futures - done + left
      invariant Accounts(next, futures', records', fails)
      invariant Tells(trace', next, futures', records', stopped', limit, stopOnFailure)
    {
      var index :| index in left;
      stopped', futures', records', trace' :=
        SettleOne(index, limit, stopped', stopOnFailure, futures', records', fails, next, trace');
      OneLess(futures, done, left, index);
      left := left - {index};
    }
    assert futures' == futures - done;
  }

  lemma OneLess(futures: set<nat>, done: set<nat>, left: set<nat>, index: nat)
    requires index in left && left <= done
    ensures futures - done + left - {index} == futures - done + (left - {index})
  {
  }

  lemma Fewer(a: set<nat>, b: set<nat>)
    requires b <= a && b != {}
    ensures |a - b| < |a|
  {
    assert a == (a - b) + b;
  }

  /** The records in index order. */
  method InPlanOrder(records: map<nat, Record>, next: nat, fails: nat -> bool) returns (out: seq<Record>)
    requires Accounts(next, {}, records, fails)
    ensures out == FirstRecords(next, fails)
  {
    out := [];
    for i := 0 to next
      invariant out == FirstRecords(i, fails)
    {
      if i in records {
        out := out + [records[i]];
      }
    }
  }

  /** For every order of completions: the attempted items are a prefix of the plan, returned in plan
      order, each with its own outcome; the trace of starts and settlements is orderly; a wave that
      was never stopped attempted everything; and it was stopped exactly if an attempt failed and
      failures stop the wave. */
  method ExecuteWave(items: nat, concurrency: nat, admission: nat, stopOnFailure: bool, fails: nat -> bool)
    returns (records: seq<Record>, stopped: bool, ghost trace: seq<Event>)
    requires concurrency >= 1 && admission >= 1
    ensures |records| <= items && records == FirstRecords(|records|, fails)
    ensures stopped || |records| == items
    ensures stopped <==> stopOnFailure && exists i :: 0 <= i < |records| && records[i].failed
    ensures Orderly(trace, if concurrency < admission then concurrency else admission, stopOnFailure)
    ensures Started(trace) == PlanOrder(|records|) && Outstanding(trace) == 0
  {
    var limit := if concurrency < admission then concurrency else admission;
    var next: nat, futures: set<nat>, byIndex: map<nat, Record> := 0, {}, map[];
    stopped, trace := false, [];
    next, futures, trace := StartUntilFull(items, limit, stopped, stopOnFailure, next, futures, byIndex, fails, trace);
    while futures != {}
      invariant next <= items && Accounts(next, futures, byIndex, fails)
      invariant Tells(trace, next, futures, byIndex, stopped, limit, stopOnFailure)
      invariant stopped || next == items || |futures| == limit
      decreases 2 * (items - next) + |futures|
    {
      var done: set<nat> :| done <= futures && done != {};
      Fewer(futures, done);
      stopped, futures, byIndex, trace :=
        SettleAll(done, limit, stopped, stopOnFailure, futures, byIndex, fails, next, trace);
      next, futures, trace :=
        StartUntilFull(items, limit, stopped, stopOnFailure, next, futures, byIndex, fails, trace);
    }
    records := InPlanOrder(byIndex, next, fails);
    assert forall i :: 0 <= i < next ==> i in byIndex && records[i] == byIndex[i];
  }
}
