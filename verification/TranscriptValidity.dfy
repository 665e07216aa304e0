/** The structural validator of compacted histories: crates/tea-core/src/compaction.rs. */
module TranscriptValidity {
  import opened Transcript

  const U64_MAX: nat := 0xFFFF_FFFF_FFFF_FFFF

  // ----- What a well-formed history is --------------------------------------------------------

  function CallsOf(m: Message): seq<Call> {
    if m.Assistant? then m.calls else []
  }

  function ResultsOf(m: Message): seq<Call> {
    if m.ToolResult? then [Call(m.callId, m.toolName)] else []
  }

  /** The tool calls of a history, in order. */
  function Calls(ms: seq<Message>): seq<Call> {
    if ms == [] then [] else Calls(ms[..|ms| - 1]) + CallsOf(ms[|ms| - 1])
  }

  /** The calls that its tool results answer, in order. */
  function Results(ms: seq<Message>): seq<Call> {
    if ms == [] then [] else Results(ms[..|ms| - 1]) + ResultsOf(ms[|ms| - 1])
  }

  predicate DistinctIds(cs: seq<Call>) {
    forall i, j :: 0 <= i < j < |cs| ==> cs[i].id != cs[j].id
  }

  predicate ValidIds(ms: seq<Message>) {
    && (forall i :: 0 <= i < |ms| ==> 0 < ms[i].id < U64_MAX)
    && (forall i, j :: 0 <= i < j < |ms| ==> ms[i].id != ms[j].id)
  }

  predicate ValidUpdates(ms: seq<Message>) {
    forall i :: 0 <= i < |ms| && ms[i].System? ==> ValidUpdate(ms[i].update)
  }

  /** Every result comes after the call it answers. */
  predicate AnswersFollowCalls(ms: seq<Message>) {
    forall i :: 0 <= i < |ms| && ms[i].ToolResult? ==> Call(ms[i].callId, ms[i].toolName) in Calls(ms[..i])
  }

  /** Calls are identified uniquely, and each is answered exactly once, later, under its own name. */
  ghost predicate Paired(ms: seq<Message>) {
    DistinctIds(Calls(ms)) && AnswersFollowCalls(ms) && multiset(Results(ms)) == multiset(Calls(ms))
  }

  ghost predicate ValidTranscript(ms: seq<Message>) {
    ValidIds(ms) && ValidUpdates(ms) && Paired(ms)
  }

  // ----- The scan -----------------------------------------------------------------------------

  /** What one message must satisfy after the messages `before` it. */
  predicate Admissible(before: seq<Message>, m: Message) {
    && 0 < m.id < U64_MAX
    && (forall i :: 0 <= i < |before| ==> before[i].id != m.id)
    && DistinctIds(Calls(before) + CallsOf(m))
    && (m.ToolResult? ==>
          Call(m.callId, m.toolName) in Calls(before) && (forall r :: r in Results(before) ==> r.id != m.callId))
    && (m.System? ==> ValidUpdate(m.update))
  }

  /** Every message was admissible when it was reached. */
  predicate Scanned(ms: seq<Message>) {
    ms == [] || (Scanned(ms[..|ms| - 1]) && Admissible(ms[..|ms| - 1], ms[|ms| - 1]))
  }

  predicate AllAnswered(ms: seq<Message>) {
    forall c :: c in Calls(ms) ==> exists r :: r in Results(ms) && r.id == c.id
  }

  lemma {:induction false} ScannedPrefix(ms: seq<Message>, n: nat)
    requires n <= |ms| && Scanned(ms)
    ensures Scanned(ms[..n])
  {
    if n < |ms| {
      ScannedPrefix(ms[..|ms| - 1], n);
      assert ms[..|ms| - 1][..n] == ms[..n];
    } else {
      assert ms[..n] == ms;
    }
  }

  /** One message's calls, entered one at a time. */
  method EnterCalls(calls: map<string, string>, more: seq<Call>, ghost before: seq<Call>)
    returns (ok: bool, all: map<string, string>)
    requires DistinctIds(before) && Records(calls, before)
    ensures ok <==> DistinctIds(before + more)
    ensures ok ==> Records(all, before + more)
  {
    all := calls;
    assert before + more[..0] == before;
    for i := 0 to |more|
      invariant DistinctIds(before + more[..i]) && Records(all, before + more[..i])
    {
      var c := more[i];
      assert before + more[..i + 1] == before + more[..i] + [c];
      if c.id in all {
        assert Call(c.id, all[c.id]) in before + more[..i];
        ClashIsFinal(before + more[..i], c, before + more);
        return false, all;
      }
      all := all[c.id := c.name];
    }
    assert more[..|more|] == more;
    ok := true;
  }

  lemma ClashIsFinal(head: seq<Call>, c: Call, whole: seq<Call>)
    requires |head| < |whole| && whole[..|head|] == head && whole[|head|] == c
    requires exists d :: d in head && d.id == c.id
    ensures !DistinctIds(whole)
  {
    var d :| d in head && d.id == c.id;
    var i :| 0 <= i < |head| && head[i] == d;
    assert whole[i] == d && whole[|head|].id == d.id;
  }

  ghost predicate Records(calls: map<string, string>, cs: seq<Call>) {
    && (forall c :: c in cs ==> c.id in calls && calls[c.id] == c.name)
    && (forall id :: id in calls ==> Call(id, calls[id]) in cs)
  }

  /** The loop's three collections describe the messages scanned so far. */
  ghost predicate Tracks(ids: set<nat>, calls: map<string, string>, results: set<string>, ms: seq<Message>) {
    && (forall i :: 0 <= i < |ms| ==> ms[i].id in ids)
    && (forall id :: id in ids ==> exists i :: 0 <= i < |ms| && ms[i].id == id)
    && Records(calls, Calls(ms))
    && (forall r :: r in Results(ms) ==> r.id in results)
    && (forall id :: id in results ==> exists r :: r in Results(ms) && r.id == id)
  }

  lemma {:induction false} ScannedCallsAreDistinct(ms: seq<Message>)
    requires Scanned(ms)
    ensures DistinctIds(Calls(ms))
  {
  }

  lemma Extend(before: seq<Message>, m: Message)
    ensures (before + [m])[..|before|] == before
    ensures Calls(before + [m]) == Calls(before) + CallsOf(m)
    ensures Results(before + [m]) == Results(before) + ResultsOf(m)
    ensures Scanned(before + [m]) <==> Scanned(before) && Admissible(before, m)
  {
    assert (before + [m])[..|before|] == before;
  }

  /** One message of the loop. */
  method ScanOne(ghost before: seq<Message>, m: Message,
                 ids: set<nat>, calls: map<string, string>, results: set<string>)
    returns (ok: bool, ids': set<nat>, calls': map<string, string>, results': set<string>)
    requires Scanned(before) && Tracks(ids, calls, results, before)
    ensures ok <==> Admissible(before, m)
    ensures ok ==> Tracks(ids', calls', results', before + [m])
  {
    ids', calls', results' := ids, calls, results;
    ScannedCallsAreDistinct(before);
    Extend(before, m);
    if m.id == 0 || m.id >= U64_MAX {
      return false, ids', calls', results';
    }
    if m.id in ids {
      return false, ids', calls', results';
    }
    ids' := ids + {m.id};
    NewId(before, m, ids);
    assert Calls(before) + [] == Calls(before);
    match m {
      case Assistant(_, _, more) =>
        ok, calls' := EnterCalls(calls, more, Calls(before));
      case ToolResult(_, callId, toolName, _) =>
        if callId !in calls || calls[callId] != toolName || callId in results {
          return false, ids', calls', results';
        }
        results' := results + {callId};
        NewResult(Results(before), Call(callId, toolName), results);
        ok := true;
      case User(_, _) =>
        ok := true;
      case System(_, update) =>
        ok := ValidUpdate(update);
    }
  }

  lemma NewId(before: seq<Message>, m: Message, ids: set<nat>)
    requires forall i :: 0 <= i < |before| ==> before[i].id in ids
    requires forall id :: id in ids ==> exists i :: 0 <= i < |before| && before[i].id == id
    ensures forall i :: 0 <= i < |before + [m]| ==> (before + [m])[i].id in ids + {m.id}
    ensures forall id :: id in ids + {m.id} ==> exists i :: 0 <= i < |before + [m]| && (before + [m])[i].id == id
  {
    var all := before + [m];
    assert all[|before|] == m;
    forall id | id in ids
      ensures exists i :: 0 <= i < |all| && all[i].id == id
    {
      var i :| 0 <= i < |before| && before[i].id == id;
      assert all[i].id == id;
    }
  }

  lemma NewResult(rs: seq<Call>, r: Call, ids: set<string>)
    requires forall r :: r in rs ==> r.id in ids
    requires forall id :: id in ids ==> exists r :: r in rs && r.id == id
    ensures forall q :: q in rs + [r] ==> q.id in ids + {r.id}
    ensures forall id :: id in ids + {r.id} ==> exists q :: q in rs + [r] && q.id == id
  {
    var all := rs + [r];
    assert all[|rs|] == r;
    forall id | id in ids
      ensures exists q :: q in all && q.id == id
    {
      var q :| q in rs && q.id == id;
      assert q in all;
    }
  }

  /** `validate_messages` decides well-formedness. */
  method ValidateMessages(ms: seq<Message>) returns (ok: bool)
    ensures ok <==> ValidTranscript(ms)
  {
    var ids: set<nat>, calls: map<string, string>, results: set<string> := {}, map[], {};
    ScanDecides(ms);
    for i := 0 to |ms|
      invariant Scanned(ms[..i]) && Tracks(ids, calls, results, ms[..i])
    {
      NextPrefix(ms, i);
      var fine;
      fine, ids, calls, results := ScanOne(ms[..i], ms[i], ids, calls, results);
      if !fine {
        return false;
      }
    }
    ok := forall id :: id in calls ==> id in results;
    Verdict(ids, calls, results, ms);
  }

  lemma NextPrefix(ms: seq<Message>, i: nat)
    requires i < |ms| && Scanned(ms[..i])
    ensures ms[..i + 1] == ms[..i] + [ms[i]]
    ensures Scanned(ms[..i + 1]) <==> Admissible(ms[..i], ms[i])
    ensures Scanned(ms) ==> Admissible(ms[..i], ms[i])
  {
    assert ms[..i + 1] == ms[..i] + [ms[i]];
    Extend(ms[..i], ms[i]);
    if Scanned(ms) {
      ScannedPrefix(ms, i + 1);
    }
  }

  lemma Verdict(ids: set<nat>, calls: map<string, string>, results: set<string>, ms: seq<Message>)
    requires Tracks(ids, calls, results, ms[..|ms|])
    ensures (forall id :: id in calls ==> id in results) <==> AllAnswered(ms)
    ensures Scanned(ms[..|ms|]) == Scanned(ms)
  {
    assert ms[..|ms|] == ms;
  }

  // ----- The scan means well-formedness -------------------------------------------------------

  lemma {:induction false} ScanIsIdsAndUpdates(ms: seq<Message>)
    requires Scanned(ms)
    ensures ValidIds(ms) && ValidUpdates(ms)
  {
    if ms == [] {
    } else {
      ScanIsIdsAndUpdates(ms[..|ms| - 1]);
      IdsOneMore(ms);
      UpdatesOneMore(ms);
    }
  }

  lemma IdsOneMore(ms: seq<Message>)
    requires ms != [] && ValidIds(ms[..|ms| - 1]) && Admissible(ms[..|ms| - 1], ms[|ms| - 1])
    ensures ValidIds(ms)
  {
    var init := ms[..|ms| - 1];
    assert forall i :: 0 <= i < |init| ==> init[i] == ms[i];
  }

  lemma UpdatesOneMore(ms: seq<Message>)
    requires ms != [] && ValidUpdates(ms[..|ms| - 1])
    requires ms[|ms| - 1].System? ==> ValidUpdate(ms[|ms| - 1].update)
    ensures ValidUpdates(ms)
  {
    var init := ms[..|ms| - 1];
    assert forall i :: 0 <= i < |init| ==> init[i] == ms[i];
  }

  lemma {:induction false} ScanOrdersAnswers(ms: seq<Message>)
    requires Scanned(ms)
    ensures AnswersFollowCalls(ms)
  {
    if ms == [] {
    } else {
      var init := ms[..|ms| - 1];
      ScanOrdersAnswers(init);
      forall i | 0 <= i < |ms| && ms[i].ToolResult?
        ensures Call(ms[i].callId, ms[i].toolName) in Calls(ms[..i])
      {
        if i < |init| {
          assert ms[i] == init[i] && ms[..i] == init[..i];
        }
      }
    }
  }

  /** Scanned results have distinct ids, and each is one of the calls. */
  lemma {:induction false} ScannedResults(ms: seq<Message>)
    requires Scanned(ms)
    ensures DistinctIds(Results(ms))
    ensures forall r :: r in Results(ms) ==> r in Calls(ms)
  {
    if ms == [] {
    } else {
      ScannedResults(ms[..|ms| - 1]);
    }
  }

  lemma {:induction false} AnswersAreCalls(ms: seq<Message>)
    requires AnswersFollowCalls(ms)
    ensures forall r :: r in Results(ms) ==> r in Calls(ms)
  {
    if ms == [] {
    } else {
      PrefixAnswers(ms, |ms| - 1);
      AnswersAreCalls(ms[..|ms| - 1]);
    }
  }

  lemma PrefixAnswers(ms: seq<Message>, n: nat)
    requires n <= |ms| && AnswersFollowCalls(ms)
    ensures AnswersFollowCalls(ms[..n])
  {
    forall i | 0 <= i < n && ms[..n][i].ToolResult?
      ensures Call(ms[..n][i].callId, ms[..n][i].toolName) in Calls(ms[..n][..i])
    {
      assert ms[..n][..i] == ms[..i] && ms[..n][i] == ms[i];
    }
  }

  lemma {:induction false} WellFormedIsScanned(ms: seq<Message>)
    requires ValidIds(ms) && ValidUpdates(ms) && AnswersFollowCalls(ms)
    requires DistinctIds(Calls(ms)) && DistinctIds(Results(ms))
    ensures Scanned(ms)
  {
    if ms == [] {
    } else {
      PrefixAnswers(ms, |ms| - 1);
      PrefixIdsAndUpdates(ms, |ms| - 1);
      DistinctHead(Calls(ms[..|ms| - 1]), CallsOf(ms[|ms| - 1]));
      DistinctHead(Results(ms[..|ms| - 1]), ResultsOf(ms[|ms| - 1]));
      WellFormedIsScanned(ms[..|ms| - 1]);
      WellFormedLastIsAdmissible(ms);
    }
  }

  lemma PrefixIdsAndUpdates(ms: seq<Message>, n: nat)
    requires n <= |ms| && ValidIds(ms) && ValidUpdates(ms)
    ensures ValidIds(ms[..n]) && ValidUpdates(ms[..n])
  {
  }

  lemma WellFormedLastIsAdmissible(ms: seq<Message>)
    requires ms != [] && ValidIds(ms) && ValidUpdates(ms) && AnswersFollowCalls(ms)
    requires DistinctIds(Calls(ms)) && DistinctIds(Results(ms))
    ensures Admissible(ms[..|ms| - 1], ms[|ms| - 1])
  {
    var init, m := ms[..|ms| - 1], ms[|ms| - 1];
    if m.ToolResult? {
      LastIsNew(Results(init), Call(m.callId, m.toolName));
    }
  }

  lemma LastIsNew(a: seq<Call>, c: Call)
    requires DistinctIds(a + [c])
    ensures forall r :: r in a ==> r.id != c.id
  {
    assert (a + [c])[|a|] == c;
    forall r | r in a
      ensures r.id != c.id
    {
      var i :| 0 <= i < |a| && a[i] == r;
      assert (a + [c])[i] == r;
    }
  }

  lemma DistinctHead(a: seq<Call>, b: seq<Call>)
    requires DistinctIds(a + b)
    ensures DistinctIds(a)
  {
    forall i, j | 0 <= i < j < |a|
      ensures a[i].id != a[j].id
    {
      assert (a + b)[i] == a[i] && (a + b)[j] == a[j];
    }
  }

  /** With distinct ids on both sides, answering everything is being the same bag. */
  lemma SameBag(cs: seq<Call>, rs: seq<Call>)
    requires DistinctIds(cs)
    requires forall r :: r in rs ==> r in cs
    ensures DistinctIds(rs) && (forall c :: c in cs ==> exists r :: r in rs && r.id == c.id)
            <==> multiset(rs) == multiset(cs)
  {
    if DistinctIds(rs) && (forall c :: c in cs ==> exists r :: r in rs && r.id == c.id) {
      forall c
        ensures multiset(rs)[c] == multiset(cs)[c]
      {
        CountDistinct(cs, c);
        CountDistinct(rs, c);
        if c in cs {
          var r :| r in rs && r.id == c.id;
          OneOfAnId(cs, r, c);
        }
      }
    }
    if multiset(rs) == multiset(cs) {
      BagKeepsDistinct(cs, rs);
      forall c | c in cs
        ensures exists r :: r in rs && r.id == c.id
      {
        assert c in multiset(rs);
      }
    }
  }

  lemma OneOfAnId(cs: seq<Call>, a: Call, b: Call)
    requires DistinctIds(cs) && a in cs && b in cs && a.id == b.id
    ensures a == b
  {
    var i :| 0 <= i < |cs| && cs[i] == a;
    var j :| 0 <= j < |cs| && cs[j] == b;
    assert !(i < j) && !(j < i);
  }

  lemma {:induction false} CountDistinct(cs: seq<Call>, c: Call)
    requires DistinctIds(cs)
    ensures multiset(cs)[c] == if c in cs then 1 else 0
  {
    if cs == [] {
    } else {
      CountDistinct(cs[1..], c);
      assert cs == [cs[0]] + cs[1..];
    }
  }

  lemma {:induction false} BagKeepsDistinct(cs: seq<Call>, rs: seq<Call>)
    requires DistinctIds(cs) && multiset(rs) == multiset(cs)
    ensures DistinctIds(rs)
  {
    forall i, j | 0 <= i < j < |rs|
      ensures rs[i].id != rs[j].id
    {
      assert rs[i] in multiset(rs) && rs[j] in multiset(rs);
      if rs[i].id == rs[j].id {
        OneOfAnId(cs, rs[i], rs[j]);
        CountDistinct(cs, rs[i]);
        TwiceIsTwo(rs, i, j);
      }
    }
  }

  lemma TwiceIsTwo(rs: seq<Call>, i: nat, j: nat)
    requires i < j < |rs| && rs[i] == rs[j]
    ensures multiset(rs)[rs[i]] >= 2
  {
    assert rs == rs[..j] + [rs[j]] + rs[j + 1..];
    assert rs[..j][i] == rs[i];
    assert rs[i] in multiset(rs[..j]);
  }

  /** Accepting every message in turn and finding every call answered is well-formedness. */
  lemma ScanDecides(ms: seq<Message>)
    ensures Scanned(ms) && AllAnswered(ms) <==> ValidTranscript(ms)
  {
    if Scanned(ms) && AllAnswered(ms) {
      ScanIsIdsAndUpdates(ms);
      ScanOrdersAnswers(ms);
      ScannedCallsAreDistinct(ms);
      ScannedResults(ms);
      SameBag(Calls(ms), Results(ms));
    }
    if ValidTranscript(ms) {
      AnswersAreCalls(ms);
      SameBag(Calls(ms), Results(ms));
      WellFormedIsScanned(ms);
    }
  }

  // ----- System messages do not take part in pairing ------------------------------------------

  function Core(ms: seq<Message>): seq<Message> {
    if ms == [] then []
    else Core(ms[..|ms| - 1]) + (if ms[|ms| - 1].System? then [] else [ms[|ms| - 1]])
  }

  predicate Answers(before: seq<Call>, m: Message) {
    m.ToolResult? ==> Call(m.callId, m.toolName) in before
  }

  /** `AnswersFollowCalls`, one message at a time. */
  predicate Ordered(ms: seq<Message>) {
    ms == [] || (Ordered(ms[..|ms| - 1]) && Answers(Calls(ms[..|ms| - 1]), ms[|ms| - 1]))
  }

  lemma {:induction false} OrderedAnswersFollow(ms: seq<Message>)
    requires Ordered(ms)
    ensures AnswersFollowCalls(ms)
  {
    if ms == [] {
    } else {
      var init := ms[..|ms| - 1];
      OrderedAnswersFollow(init);
      forall i | 0 <= i < |ms| && ms[i].ToolResult?
        ensures Call(ms[i].callId, ms[i].toolName) in Calls(ms[..i])
      {
        if i < |init| {
          assert ms[i] == init[i] && ms[..i] == init[..i];
        }
      }
    }
  }

  lemma {:induction false} AnswersFollowIsOrdered(ms: seq<Message>)
    requires AnswersFollowCalls(ms)
    ensures Ordered(ms)
  {
    if ms == [] {
    } else {
      PrefixAnswers(ms, |ms| - 1);
      AnswersFollowIsOrdered(ms[..|ms| - 1]);
    }
  }

  lemma OrderedIsAnswersFollow(ms: seq<Message>)
    ensures Ordered(ms) <==> AnswersFollowCalls(ms)
  {
    if Ordered(ms) {
      OrderedAnswersFollow(ms);
    }
    if AnswersFollowCalls(ms) {
      AnswersFollowIsOrdered(ms);
    }
  }

  lemma Push(before: seq<Message>, m: Message)
    ensures Calls(before + [m]) == Calls(before) + CallsOf(m)
    ensures Results(before + [m]) == Results(before) + ResultsOf(m)
    ensures Ordered(before + [m]) <==> Ordered(before) && Answers(Calls(before), m)
  {
    assert (before + [m])[..|before|] == before;
  }

  lemma {:induction false} CoreDecidesPairing(ms: seq<Message>)
    ensures Calls(Core(ms)) == Calls(ms) && Results(Core(ms)) == Results(ms)
    ensures Ordered(Core(ms)) <==> Ordered(ms)
  {
    if ms == [] {
    } else {
      CoreDecidesPairing(ms[..|ms| - 1]);
      assert Core(ms) == if ms[|ms| - 1].System? then Core(ms[..|ms| - 1]) else Core(ms[..|ms| - 1]) + [ms[|ms| - 1]];
      Push(Core(ms[..|ms| - 1]), ms[|ms| - 1]);
    }
  }

  /** Histories that differ only in system messages are paired alike. */
  lemma SameCoreSamePairing(a: seq<Message>, b: seq<Message>)
    requires Core(a) == Core(b)
    ensures Paired(a) <==> Paired(b)
  {
    CoreDecidesPairing(a);
    CoreDecidesPairing(b);
    OrderedIsAnswersFollow(a);
    OrderedIsAnswersFollow(b);
  }
}
