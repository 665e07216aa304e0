/** Keeping the configuration in force across a context replacement:
    crates/tea-core/src/compaction.rs.

    A source history is a summarized prefix and a retained suffix; its replacement is a checkpoint
    and the same suffix. */
module Preservation {
  import opened Wrappers
  import opened Transcript
  import opened TranscriptValidity

  // ----- The rewrite --------------------------------------------------------------------------

  /** Length of the longest common suffix. */
  function SuffixLen(a: seq<Message>, b: seq<Message>): (n: nat)
    ensures n <= |a| && n <= |b|
  {
    if a != [] && b != [] && a[|a| - 1] == b[|b| - 1]
    then 1 + SuffixLen(a[..|a| - 1], b[..|b| - 1])
    else 0
  }

  /** System messages survive only where the retained suffix has them. */
  function Kept(ms: seq<Message>, suffix: seq<Message>): seq<Message> {
    if ms == [] then []
    else Kept(ms[..|ms| - 1], suffix) +
         (if ms[|ms| - 1].System? && ms[|ms| - 1] !in suffix then [] else [ms[|ms| - 1]])
  }

  /** The guard of the rewrite: the prefix carried a configuration that the checkpoint does not restate. */
  predicate Rewrites(prefix: seq<Message>, checkpoint: seq<Message>) {
    Replay(prefix).Some? &&
    !(Replay(checkpoint).Some? && SameContent(Replay(checkpoint).value, Replay(prefix).value))
  }

  function Leading(prefix: seq<Message>, id: nat): Message {
    System(id, AsInitialUpdate(OrEmpty(Replay(prefix))))
  }

  /** The rewrite once the suffix has been found. */
  function PreserveParts(prefix: seq<Message>, checkpoint: seq<Message>, suffix: seq<Message>, id: nat): seq<Message> {
    if Rewrites(prefix, checkpoint)
    then [Leading(prefix, id)] + Kept(checkpoint + suffix, suffix)
    else checkpoint + suffix
  }

  function Before(ms: seq<Message>, n: nat): seq<Message>
    requires n <= |ms|
  {
    ms[..|ms| - n]
  }

  function Last(ms: seq<Message>, n: nat): seq<Message>
    requires n <= |ms|
  {
    ms[|ms| - n..]
  }

  function Preserve(source: seq<Message>, replacement: seq<Message>, id: nat): seq<Message> {
    var n := SuffixLen(source, replacement);
    PreserveParts(Before(source, n), Before(replacement, n), Last(source, n), id)
  }

  lemma {:induction false} SuffixIsCommon(a: seq<Message>, b: seq<Message>)
    ensures Last(a, SuffixLen(a, b)) == Last(b, SuffixLen(a, b))
  {
    if a == [] || b == [] || a[|a| - 1] != b[|b| - 1] {
    } else {
      var n := SuffixLen(a[..|a| - 1], b[..|b| - 1]);
      SuffixIsCommon(a[..|a| - 1], b[..|b| - 1]);
      LastOneMore(a, n);
      LastOneMore(b, n);
    }
  }

  /** No longer suffix is common, so every retained message is recognised as such. */
  lemma {:induction false} SuffixIsLongest(a: seq<Message>, b: seq<Message>, n: nat)
    requires n <= |a| && n <= |b|
    ensures Last(a, n) == Last(b, n) <==> n <= SuffixLen(a, b)
  {
    if n == 0 {
    } else if a[|a| - 1] != b[|b| - 1] {
      assert Last(a, n)[n - 1] != Last(b, n)[n - 1];
    } else {
      SuffixIsLongest(a[..|a| - 1], b[..|b| - 1], n - 1);
      LastOneMore(a, n - 1);
      LastOneMore(b, n - 1);
      PushedAlike(Last(a[..|a| - 1], n - 1), Last(b[..|b| - 1], n - 1), a[|a| - 1]);
    }
  }

  lemma PushedAlike(x: seq<Message>, y: seq<Message>, m: Message)
    requires |x| == |y|
    ensures x + [m] == y + [m] <==> x == y
  {
    if x + [m] == y + [m] {
      assert x == (x + [m])[..|x|] && y == (y + [m])[..|y|];
    }
  }

  lemma LastOneMore(a: seq<Message>, n: nat)
    requires n < |a|
    ensures Last(a, n + 1) == Last(a[..|a| - 1], n) + [a[|a| - 1]]
  {
  }

  lemma Split(ms: seq<Message>, n: nat)
    requires n <= |ms|
    ensures Before(ms, n) + Last(ms, n) == ms
  {
  }

  /** The last `n` messages, found by the scan from the end. */
  method RetainedSuffix(source: seq<Message>, replacement: seq<Message>) returns (n: nat)
    ensures n == SuffixLen(source, replacement)
  {
    n := 0;
    assert Before(source, 0) == source && Before(replacement, 0) == replacement;
    while n < |source| && n < |replacement| && source[|source| - 1 - n] == replacement[|replacement| - 1 - n]
      invariant n <= |source| && n <= |replacement|
      invariant n + SuffixLen(Before(source, n), Before(replacement, n)) == SuffixLen(source, replacement)
    {
      BeforeOneMore(source, n);
      BeforeOneMore(replacement, n);
      n := n + 1;
    }
  }

  lemma BeforeOneMore(a: seq<Message>, n: nat)
    requires n < |a|
    ensures Before(a, n)[..|Before(a, n)| - 1] == Before(a, n + 1)
    ensures Before(a, n)[|Before(a, n)| - 1] == a[|a| - 1 - n]
  {
  }

  /** `retain`. */
  method Retain(ms: seq<Message>, suffix: seq<Message>) returns (out: seq<Message>)
    ensures out == Kept(ms, suffix)
  {
    out := [];
    for i := 0 to |ms|
      invariant out == Kept(ms[..i], suffix)
    {
      assert ms[..i + 1][..i] == ms[..i];
      if !ms[i].System? || ms[i] in suffix {
        out := out + [ms[i]];
      }
    }
    assert ms[..|ms|] == ms;
  }

  method PreserveConfiguration(source: seq<Message>, replacement: seq<Message>, id: nat)
    returns (out: seq<Message>)
    ensures out == Preserve(source, replacement, id)
  {
    var n := RetainedSuffix(source, replacement);
    SuffixIsCommon(source, replacement);
    Split(replacement, n);
    var before, restated := Replay(Before(source, n)), Replay(Before(replacement, n));
    if before.None? {
      return replacement;
    }
    if restated.Some? && SameContent(restated.value, before.value) {
      return replacement;
    }
    out := Retain(replacement, Last(source, n));
    out := [System(id, AsInitialUpdate(before.value))] + out;
  }

  // ----- What the rewrite leaves --------------------------------------------------------------

  lemma AppendLast(a: seq<Message>, b: seq<Message>)
    requires b != []
    ensures (a + b)[..|a + b| - 1] == a + b[..|b| - 1]
    ensures (a + b)[|a + b| - 1] == b[|b| - 1]
  {
  }

  lemma {:induction false} KeptAppend(a: seq<Message>, b: seq<Message>, suffix: seq<Message>)
    ensures Kept(a + b, suffix) == Kept(a, suffix) + Kept(b, suffix)
  {
    if b == [] {
      assert a + b == a;
    } else {
      AppendLast(a, b);
      KeptAppend(a, b[..|b| - 1], suffix);
    }
  }

  lemma {:induction false} KeptAll(ms: seq<Message>, suffix: seq<Message>)
    requires forall m :: m in ms ==> m in suffix
    ensures Kept(ms, suffix) == ms
  {
    if ms == [] {
    } else {
      KeptAll(ms[..|ms| - 1], suffix);
      assert ms == ms[..|ms| - 1] + [ms[|ms| - 1]];
    }
  }

  lemma {:induction false} KeptNone(ms: seq<Message>, suffix: seq<Message>)
    requires forall m :: m in ms ==> m !in suffix
    ensures Kept(ms, suffix) == Core(ms)
  {
    if ms == [] {
    } else {
      KeptNone(ms[..|ms| - 1], suffix);
      assert ms[|ms| - 1] in ms;
    }
  }

  /** Unique ids: no message stands on both sides of a cut. */
  lemma CutIsDisjoint(a: seq<Message>, b: seq<Message>)
    requires ValidIds(a + b)
    ensures forall m :: m in a ==> m !in b
  {
    forall m | m in a
      ensures m !in b
    {
      var i :| 0 <= i < |a| && a[i] == m;
      assert (a + b)[i] == m;
      assert forall j :: 0 <= j < |b| ==> (a + b)[|a| + j] == b[j] && b[j].id != m.id;
    }
  }

  /** No system message of the checkpoint survives; the retained suffix survives whole. */
  lemma RewrittenShape(checkpoint: seq<Message>, suffix: seq<Message>)
    requires ValidIds(checkpoint + suffix)
    ensures Kept(checkpoint + suffix, suffix) == Core(checkpoint) + suffix
  {
    CutIsDisjoint(checkpoint, suffix);
    KeptAppend(checkpoint, suffix, suffix);
    KeptNone(checkpoint, suffix);
    KeptAll(suffix, suffix);
  }

  /** What precedes the suffix in the result. */
  function Head(prefix: seq<Message>, checkpoint: seq<Message>, id: nat): seq<Message> {
    if Rewrites(prefix, checkpoint) then [Leading(prefix, id)] + Core(checkpoint) else checkpoint
  }

  lemma PartsShape(prefix: seq<Message>, checkpoint: seq<Message>, suffix: seq<Message>, id: nat)
    requires ValidIds(checkpoint + suffix)
    ensures PreserveParts(prefix, checkpoint, suffix, id) == Head(prefix, checkpoint, id) + suffix
  {
    RewrittenShape(checkpoint, suffix);
    Associate([Leading(prefix, id)], Core(checkpoint), suffix);
  }

  lemma Associate(a: seq<Message>, b: seq<Message>, c: seq<Message>)
    ensures a + (b + c) == a + b + c
  {
  }

  lemma {:induction false} CoreAppend(a: seq<Message>, b: seq<Message>)
    ensures Core(a + b) == Core(a) + Core(b)
  {
    if b == [] {
      assert a + b == a;
    } else {
      AppendLast(a, b);
      CoreAppend(a, b[..|b| - 1]);
    }
  }

  lemma CoreOfOne(m: Message)
    ensures Core([m]) == if m.System? then [] else [m]
  {
    assert [m][..0] == [];
  }

  lemma {:induction false} CoreIsCore(ms: seq<Message>)
    ensures Core(Core(ms)) == Core(ms)
  {
    if ms == [] {
    } else {
      var init, m := ms[..|ms| - 1], ms[|ms| - 1];
      CoreIsCore(init);
      if !m.System? {
        CoreAppend(Core(init), [m]);
        CoreOfOne(m);
      } else {
        assert Core(ms) == Core(init);
      }
    }
  }

  lemma {:induction false} CoreHasNoSystem(ms: seq<Message>)
    ensures forall m :: m in Core(ms) ==> !m.System?
  {
    if ms == [] {
    } else {
      CoreHasNoSystem(ms[..|ms| - 1]);
    }
  }

  lemma CoreOfHead(prefix: seq<Message>, checkpoint: seq<Message>, id: nat)
    ensures Core(Head(prefix, checkpoint, id)) == Core(checkpoint)
  {
    CoreAppend([Leading(prefix, id)], Core(checkpoint));
    CoreOfOne(Leading(prefix, id));
    CoreIsCore(checkpoint);
    assert [] + Core(checkpoint) == Core(checkpoint);
  }

  /** The rewrite leaves every other message in place. */
  lemma CoreIsKept(prefix: seq<Message>, checkpoint: seq<Message>, suffix: seq<Message>, id: nat)
    requires ValidIds(checkpoint + suffix)
    ensures Core(PreserveParts(prefix, checkpoint, suffix, id)) == Core(checkpoint + suffix)
  {
    PartsShape(prefix, checkpoint, suffix, id);
    CoreAppend(checkpoint, suffix);
    CoreAppend(Head(prefix, checkpoint, id), suffix);
    CoreOfHead(prefix, checkpoint, id);
  }

  // ----- The configuration along the retained suffix ------------------------------------------

  /** The configuration in force after some messages. */
  function InForce(ms: seq<Message>): Configuration {
    OrEmpty(Replay(ms))
  }

  lemma {:induction false} ReplayIgnoresOthers(ms: seq<Message>, rest: seq<Message>)
    requires forall m :: m in rest ==> !m.System?
    ensures Replay(ms + rest) == Replay(ms)
  {
    if rest == [] {
      assert ms + rest == ms;
    } else {
      AppendLast(ms, rest);
      assert rest[|rest| - 1] in rest;
      ReplayIgnoresOthers(ms, rest[..|rest| - 1]);
    }
  }

  lemma ReplayOfOne(m: Message)
    requires m.System?
    ensures Replay([m]) == Some(Apply(EMPTY, m.update))
  {
    assert [m][..0] == [];
  }

  /** A leading initial update puts the prefix's configuration in force. */
  lemma LeadingUpdate(prefix: seq<Message>, id: nat, rest: seq<Message>)
    requires forall m :: m in rest ==> !m.System?
    ensures InForce([Leading(prefix, id)] + rest) == InForce(prefix)
  {
    ReplayIsKeyed(prefix);
    InitialUpdateReproduces(InForce(prefix));
    ReplayOfOne(Leading(prefix, id));
    ReplayIgnoresOthers([Leading(prefix, id)], rest);
  }

  lemma SameMeaningStep(a: seq<Message>, b: seq<Message>, m: Message)
    requires SameMeaning(InForce(a), InForce(b))
    ensures SameMeaning(InForce(a + [m]), InForce(b + [m]))
  {
    AppendLast(a, [m]);
    AppendLast(b, [m]);
    assert a + [m][..0] == a && b + [m][..0] == b;
    if m.System? {
      ReplayIsKeyed(a);
      ReplayIsKeyed(b);
      ApplyRespectsMeaning(InForce(a), InForce(b), m.update);
    }
  }

  /** Equal meanings before a common run of messages are equal after it. */
  lemma {:induction false} SameOnward(a: seq<Message>, b: seq<Message>, common: seq<Message>)
    requires SameMeaning(InForce(a), InForce(b))
    ensures SameMeaning(InForce(a + common), InForce(b + common))
  {
    if common == [] {
      assert a + common == a && b + common == b;
    } else {
      var init, m := common[..|common| - 1], common[|common| - 1];
      SameOnward(a, b, init);
      assert common == init + [m];
      Associate(a, init, [m]);
      Associate(b, init, [m]);
      SameMeaningStep(a + init, b + init, m);
    }
  }

  /** At the cut: preserved exactly when the prefix carried configuration or the checkpoint brings none. */
  lemma HeadMeans(prefix: seq<Message>, checkpoint: seq<Message>, id: nat)
    ensures SameMeaning(InForce(Head(prefix, checkpoint, id)), InForce(prefix)) <==>
            Replay(prefix).Some? || SameMeaning(InForce(checkpoint), EMPTY)
  {
    if Rewrites(prefix, checkpoint) {
      CoreHasNoSystem(checkpoint);
      LeadingUpdate(prefix, id, Core(checkpoint));
    } else if Replay(prefix).Some? {
      ReplayIsKeyed(prefix);
      ReplayIsKeyed(checkpoint);
      SameContentIsSameMeaning(Replay(checkpoint).value, Replay(prefix).value);
    }
  }

  /** The configuration in force once `j` of the last `n` messages have been read. */
  function Reading(ms: seq<Message>, n: nat, j: nat): Configuration
    requires j <= n <= |ms|
  {
    InForce(ms[..|ms| - n + j])
  }

  lemma ReadingIs(a: seq<Message>, b: seq<Message>, j: nat)
    requires j <= |b|
    ensures Reading(a + b, |b|, j) == InForce(a + b[..j])
  {
    assert (a + b)[..|a| + j] == a + b[..j];
  }

  lemma ReadingAtCut(a: seq<Message>, b: seq<Message>)
    ensures Reading(a + b, |b|, 0) == InForce(a)
  {
    assert (a + b)[..|a|] == a;
  }

  lemma SameReading(head: seq<Message>, prefix: seq<Message>, suffix: seq<Message>)
    ensures (forall j :: 0 <= j <= |suffix| ==>
               SameMeaning(Reading(head + suffix, |suffix|, j), Reading(prefix + suffix, |suffix|, j))) <==>
            SameMeaning(InForce(head), InForce(prefix))
  {
    ReadingAtCut(head, suffix);
    ReadingAtCut(prefix, suffix);
    if SameMeaning(InForce(head), InForce(prefix)) {
      forall j | 0 <= j <= |suffix|
        ensures SameMeaning(Reading(head + suffix, |suffix|, j), Reading(prefix + suffix, |suffix|, j))
      {
        ReadingIs(head, suffix, j);
        ReadingIs(prefix, suffix, j);
        SameOnward(head, prefix, suffix[..j]);
      }
    }
  }

  /** The retained suffix ends the result, after `Head`. */
  lemma ResultShape(source: seq<Message>, replacement: seq<Message>, id: nat)
    requires ValidIds(replacement)
    ensures var n := SuffixLen(source, replacement);
            Preserve(source, replacement, id) ==
            Head(Before(source, n), Before(replacement, n), id) + Last(source, n)
  {
    var n := SuffixLen(source, replacement);
    SuffixIsCommon(source, replacement);
    Split(replacement, n);
    PartsShape(Before(source, n), Before(replacement, n), Last(source, n), id);
  }

  /** The theorem. A replacement's retained suffix is read under the configurations the source gave
      it, at its start and after each of its messages, exactly when the summarized prefix carried
      configuration or the checkpoint brings none of its own. */
  lemma ConfigurationIsPreserved(source: seq<Message>, replacement: seq<Message>, id: nat)
    requires ValidIds(replacement)
    ensures var out, n := Preserve(source, replacement, id), SuffixLen(source, replacement);
            && n <= |out| && Last(out, n) == Last(source, n)
            && ((forall j :: 0 <= j <= n ==> SameMeaning(Reading(out, n, j), Reading(source, n, j))) <==>
                Replay(Before(source, n)).Some? || SameMeaning(InForce(Before(replacement, n)), EMPTY))
  {
    var n := SuffixLen(source, replacement);
    var head := Head(Before(source, n), Before(replacement, n), id);
    ResultShape(source, replacement, id);
    Split(source, n);
    HeadMeans(Before(source, n), Before(replacement, n), id);
    LastOf(head, Last(source, n));
    SameReading(head, Before(source, n), Last(source, n));
  }

  // ----- Up to order, or exactly --------------------------------------------------------------

  lemma EqualStep(a: seq<Message>, b: seq<Message>, m: Message)
    requires InForce(a) == InForce(b)
    ensures InForce(a + [m]) == InForce(b + [m])
  {
    AppendLast(a, [m]);
    AppendLast(b, [m]);
    assert a + [m][..0] == a && b + [m][..0] == b;
  }

  lemma {:induction false} EqualOnward(a: seq<Message>, b: seq<Message>, common: seq<Message>)
    requires InForce(a) == InForce(b)
    ensures InForce(a + common) == InForce(b + common)
  {
    if common == [] {
      assert a + common == a && b + common == b;
    } else {
      var init, m := common[..|common| - 1], common[|common| - 1];
      EqualOnward(a, b, init);
      assert common == init + [m];
      Associate(a, init, [m]);
      Associate(b, init, [m]);
      EqualStep(a + init, b + init, m);
    }
  }

  lemma EqualReading(head: seq<Message>, prefix: seq<Message>, suffix: seq<Message>)
    ensures (forall j :: 0 <= j <= |suffix| ==>
               Reading(head + suffix, |suffix|, j) == Reading(prefix + suffix, |suffix|, j)) <==>
            InForce(head) == InForce(prefix)
  {
    ReadingAtCut(head, suffix);
    ReadingAtCut(prefix, suffix);
    if InForce(head) == InForce(prefix) {
      forall j | 0 <= j <= |suffix|
        ensures Reading(head + suffix, |suffix|, j) == Reading(prefix + suffix, |suffix|, j)
      {
        ReadingIs(head, suffix, j);
        ReadingIs(prefix, suffix, j);
        EqualOnward(head, prefix, suffix[..j]);
      }
    }
  }

  lemma HeadIs(prefix: seq<Message>, checkpoint: seq<Message>, id: nat)
    ensures InForce(Head(prefix, checkpoint, id)) == InForce(prefix) <==>
            Rewrites(prefix, checkpoint) || InForce(checkpoint) == InForce(prefix)
  {
    if Rewrites(prefix, checkpoint) {
      CoreHasNoSystem(checkpoint);
      LeadingUpdate(prefix, id, Core(checkpoint));
    }
  }

  /** The configurations along the retained suffix are the source's outright, the order of sections
      and tools included, if and only if the replacement was rewritten or its checkpoint left the
      prefix's configuration in its order. */
  lemma ConfigurationIsExact(source: seq<Message>, replacement: seq<Message>, id: nat)
    requires ValidIds(replacement)
    ensures var out, n := Preserve(source, replacement, id), SuffixLen(source, replacement);
            && n <= |out|
            && ((forall j :: 0 <= j <= n ==> Reading(out, n, j) == Reading(source, n, j)) <==>
                Rewrites(Before(source, n), Before(replacement, n))
                || InForce(Before(replacement, n)) == InForce(Before(source, n)))
  {
    var n := SuffixLen(source, replacement);
    var head := Head(Before(source, n), Before(replacement, n), id);
    ResultShape(source, replacement, id);
    Split(source, n);
    HeadIs(Before(source, n), Before(replacement, n), id);
    EqualReading(head, Before(source, n), Last(source, n));
  }

  /** Only the order can differ where the meaning is kept, and only when a checkpoint restated the
      configuration in another order and was therefore left alone. */
  lemma OnlyOrderCanDiffer(prefix: seq<Message>, checkpoint: seq<Message>, id: nat)
    requires SameMeaning(InForce(Head(prefix, checkpoint, id)), InForce(prefix))
    requires InForce(Head(prefix, checkpoint, id)) != InForce(prefix)
    ensures Replay(prefix).Some? && Replay(checkpoint).Some?
    ensures SameContent(InForce(checkpoint), InForce(prefix)) && InForce(checkpoint) != InForce(prefix)
  {
    HeadMeans(prefix, checkpoint, id);
    HeadIs(prefix, checkpoint, id);
    if Replay(prefix).None? {
      NothingMeansEmpty(InForce(checkpoint));
    }
  }

  lemma NothingMeansEmpty(c: Configuration)
    ensures SameMeaning(c, EMPTY) ==> c == EMPTY
  {
    if c.sections != [] {
      assert SectionOf(c.sections, c.sections[0].id).Some?;
    }
    if c.tools != [] {
      assert ToolOf(c.tools, c.tools[0].name).Some?;
    }
  }

  lemma Restated(t: Tool, u: Tool)
    requires t.name != u.name
    ensures var prefix, checkpoint := [System(1, Update([], [t, u], []))], [System(2, Update([], [u, t], []))];
            && !Rewrites(prefix, checkpoint)
            && InForce(prefix).tools == [t, u] && InForce(checkpoint).tools == [u, t]
  {
    var prefix, checkpoint := [System(1, Update([], [t, u], []))], [System(2, Update([], [u, t], []))];
    ReplayOfOne(prefix[0]);
    ReplayOfOne(checkpoint[0]);
    TwoTools(t, u);
    TwoTools(u, t);
    assert ToolOf([t, u], u.name) == Some(u) && ToolOf([t, u], t.name) == Some(t) by {
      assert [t, u][1..] == [u];
    }
  }

  /** It does happen: two tools, restated the other way round, are left that way. */
  lemma OrderCanDiffer(t: Tool, u: Tool, id: nat) returns (source: seq<Message>, replacement: seq<Message>)
    requires t.name != u.name
    ensures |source| == |replacement| == 2 && SuffixLen(source, replacement) == 1
    ensures Preserve(source, replacement, id) == replacement
    ensures Reading(source, 1, 0).tools == [t, u] && Reading(replacement, 1, 0).tools == [u, t]
  {
    var a, b := System(1, Update([], [t, u], [])), System(2, Update([], [u, t], []));
    var c := User(3, "");
    source, replacement := [a] + [c], [b] + [c];
    Restated(t, u);
    OneInCommon([a], [b], [c]);
    ReadingAtCut([a], [c]);
    ReadingAtCut([b], [c]);
  }

  lemma TwoTools(t: Tool, u: Tool)
    requires t.name != u.name
    ensures Apply(EMPTY, Update([], [t, u], [])) == Configuration([], [t, u])
  {
    RebuildTools([t, u]);
  }

  lemma LastOf(a: seq<Message>, b: seq<Message>)
    ensures Last(a + b, |b|) == b
  {
  }

  /** The other half happens: a checkpoint that introduces a tool changes what follows it. */
  lemma CheckpointCanAddTool(t: Tool, id: nat) returns (source: seq<Message>, replacement: seq<Message>)
    requires t.name != []
    ensures ValidTranscript(source) && ValidTranscript(replacement)
    ensures SuffixLen(source, replacement) == 1 && Preserve(source, replacement, id) == replacement
    ensures |source| == |replacement| == 2
    ensures ToolOf(Reading(replacement, 1, 0).tools, t.name) == Some(t)
    ensures ToolOf(Reading(source, 1, 0).tools, t.name) == None
  {
    var a, b, c := User(1, ""), System(3, Update([], [t], [])), User(2, "");
    source, replacement := [a] + [c], [b] + [c];
    BareReading(a, b, c, id);
    DeclaresTool(t, 3);
    NothingDeclared(t.name);
    TwoWithoutCalls(a, c);
    TwoWithoutCalls(b, c);
  }

  lemma DeclaresTool(t: Tool, id: nat)
    ensures ToolOf(InForce([System(id, Update([], [t], []))]).tools, t.name) == Some(t)
  {
    ReplayOfOne(System(id, Update([], [t], [])));
    OneTool(t);
  }

  lemma NothingDeclared(name: string)
    ensures ToolOf(EMPTY.tools, name) == None
  {
  }

  lemma BareReading(a: Message, b: Message, c: Message, id: nat)
    requires a != b && !a.System?
    ensures SuffixLen([a] + [c], [b] + [c]) == 1 && Preserve([a] + [c], [b] + [c], id) == [b] + [c]
    ensures Reading([b] + [c], 1, 0) == InForce([b]) && Reading([a] + [c], 1, 0) == EMPTY
  {
    OneInCommon([a], [b], [c]);
    BarePrefix(a);
    ReadingAtCut([a], [c]);
    ReadingAtCut([b], [c]);
  }

  lemma BarePrefix(m: Message)
    requires !m.System?
    ensures Replay([m]) == None
  {
    assert [m][..0] == [];
  }

  predicate IsQuiet(m: Message) {
    0 < m.id < U64_MAX && (m.User? || (m.System? && ValidUpdate(m.update)))
  }

  lemma OneWithoutCalls(m: Message)
    requires IsQuiet(m)
    ensures Scanned([m]) && Calls([m]) == [] && Results([m]) == [] && ValidTranscript([m])
  {
    var none: seq<Message> := [];
    assert none + [m] == [m];
    Extend(none, m);
    ScanDecides([m]);
  }

  /** Two messages without calls or results. */
  lemma TwoWithoutCalls(a: Message, b: Message)
    requires IsQuiet(a) && IsQuiet(b) && a.id != b.id
    ensures ValidTranscript([a] + [b])
  {
    OneWithoutCalls(a);
    Extend([a], b);
    QuietIsAdmissible([a], b);
    assert Calls([a] + [b]) == [];
    ScanDecides([a] + [b]);
  }

  lemma QuietIsAdmissible(before: seq<Message>, m: Message)
    requires IsQuiet(m) && Calls(before) == [] && forall i :: 0 <= i < |before| ==> before[i].id != m.id
    ensures Admissible(before, m)
  {
  }

  lemma OneInCommon(a: seq<Message>, b: seq<Message>, c: seq<Message>)
    requires |a| == 1 && |b| == 1 && |c| == 1 && a[0] != b[0]
    ensures SuffixLen(a + c, b + c) == 1
    ensures Before(a + c, 1) == a && Before(b + c, 1) == b && Last(a + c, 1) == c
  {
    AppendLast(a, c);
    AppendLast(b, c);
    assert (a + c)[..1] == a && (b + c)[..1] == b;
  }

  lemma OneTool(t: Tool)
    ensures Apply(EMPTY, Update([], [t], [])) == Configuration([], [t])
  {
    assert [t][..0] == [];
    assert PutTools([], [t]) == DropTool(PutTools([], []), t.name) + [t];
  }

  // ----- The result is still well formed ------------------------------------------------------

  function MaxId(ms: seq<Message>): (r: nat)
    ensures forall i :: 0 <= i < |ms| ==> ms[i].id <= r
    ensures r == 0 || exists i :: 0 <= i < |ms| && ms[i].id == r
  {
    if ms == [] then 0
    else
      var m := MaxId(ms[..|ms| - 1]);
      if ms[|ms| - 1].id > m then ms[|ms| - 1].id else m
  }

  /** One above every id in sight, saturating. */
  function FreshId(source: seq<Message>, replacement: seq<Message>): nat {
    var m := MaxId(source + replacement);
    if m >= U64_MAX then U64_MAX else m + 1
  }

  lemma FreshIdIsFresh(source: seq<Message>, replacement: seq<Message>)
    requires FreshId(source, replacement) < U64_MAX
    ensures forall m :: m in replacement ==> m.id < FreshId(source, replacement)
  {
    forall m | m in replacement
      ensures m.id < FreshId(source, replacement)
    {
      var i :| 0 <= i < |replacement| && replacement[i] == m;
      assert (source + replacement)[|source| + i] == m;
    }
  }

  lemma {:induction false} KeptAreMembers(ms: seq<Message>, suffix: seq<Message>)
    ensures forall m :: m in Kept(ms, suffix) ==> m in ms
  {
    if ms == [] {
    } else {
      KeptAreMembers(ms[..|ms| - 1], suffix);
    }
  }

  lemma Append(ms: seq<Message>, m: Message)
    requires 0 < m.id < U64_MAX && (m.System? ==> ValidUpdate(m.update))
    requires ValidIds(ms) && ValidUpdates(ms) && forall x :: x in ms ==> x.id != m.id
    ensures ValidIds(ms + [m]) && ValidUpdates(ms + [m])
  {
    assert forall i :: 0 <= i < |ms| ==> ms[i] in ms;
  }

  lemma Prepend(m: Message, ms: seq<Message>)
    requires 0 < m.id < U64_MAX && (m.System? ==> ValidUpdate(m.update))
    requires ValidIds(ms) && ValidUpdates(ms) && forall x :: x in ms ==> x.id != m.id
    ensures ValidIds([m] + ms) && ValidUpdates([m] + ms)
  {
    assert forall i :: 0 <= i < |ms| ==> ms[i] in ms;
  }

  /** A subsequence keeps ids unique and updates valid. */
  lemma {:induction false} KeptIsValid(ms: seq<Message>, suffix: seq<Message>)
    requires ValidIds(ms) && ValidUpdates(ms)
    ensures ValidIds(Kept(ms, suffix)) && ValidUpdates(Kept(ms, suffix))
  {
    if ms == [] {
    } else {
      var n := |ms| - 1;
      PrefixIdsAndUpdates(ms, n);
      KeptIsValid(ms[..n], suffix);
      KeptAreMembers(ms[..n], suffix);
      IdIsNew(ms);
      Append(Kept(ms[..n], suffix), ms[n]);
    }
  }

  lemma IdIsNew(ms: seq<Message>)
    requires ms != [] && ValidIds(ms)
    ensures forall m :: m in ms[..|ms| - 1] ==> m.id != ms[|ms| - 1].id
  {
  }

  /** Whether the parts are put together into a well-formed history. */
  lemma PartsAreValid(prefix: seq<Message>, checkpoint: seq<Message>, suffix: seq<Message>, id: nat)
    requires ValidTranscript(checkpoint + suffix) && ValidUpdates(prefix)
    requires 0 < id && (id < U64_MAX ==> forall m :: m in checkpoint + suffix ==> m.id < id)
    ensures ValidTranscript(PreserveParts(prefix, checkpoint, suffix, id)) <==>
            (Rewrites(prefix, checkpoint) ==> id < U64_MAX)
  {
    if Rewrites(prefix, checkpoint) {
      var out := PreserveParts(prefix, checkpoint, suffix, id);
      CoreIsKept(prefix, checkpoint, suffix, id);
      SameCoreSamePairing(out, checkpoint + suffix);
      assert out[0] == Leading(prefix, id);
      if id < U64_MAX {
        KeptIsValid(checkpoint + suffix, suffix);
        KeptAreMembers(checkpoint + suffix, suffix);
        SynthesizedUpdateIsValid(prefix);
        Prepend(Leading(prefix, id), Kept(checkpoint + suffix, suffix));
      }
    }
  }

  lemma SynthesizedUpdateIsValid(prefix: seq<Message>)
    requires ValidUpdates(prefix)
    ensures ValidUpdate(AsInitialUpdate(InForce(prefix)))
  {
    ReplayIsKeyed(prefix);
    ReplayIsWellNamed(prefix);
    InitialUpdateIsValid(InForce(prefix));
  }

  /** A rewritten valid replacement is valid, exactly when an unreserved id was left for it. */
  lemma RewriteIsValid(source: seq<Message>, replacement: seq<Message>)
    requires ValidTranscript(replacement) && ValidUpdates(source)
    ensures var n, id := SuffixLen(source, replacement), FreshId(source, replacement);
            ValidTranscript(Preserve(source, replacement, id)) <==>
            (Rewrites(Before(source, n), Before(replacement, n)) ==> id < U64_MAX)
  {
    var n, id := SuffixLen(source, replacement), FreshId(source, replacement);
    Rejoin(source, replacement);
    if id < U64_MAX {
      FreshIdIsFresh(source, replacement);
    }
    UpdatesBefore(source, n);
    PartsAreValid(Before(source, n), Before(replacement, n), Last(source, n), id);
  }

  lemma Rejoin(source: seq<Message>, replacement: seq<Message>)
    ensures var n := SuffixLen(source, replacement); Before(replacement, n) + Last(source, n) == replacement
  {
    SuffixIsCommon(source, replacement);
    Split(replacement, SuffixLen(source, replacement));
  }

  lemma UpdatesBefore(ms: seq<Message>, n: nat)
    requires n <= |ms| && ValidUpdates(ms)
    ensures ValidUpdates(Before(ms, n))
  {
  }

  /** An unreserved id is left when every id is below the last two. */
  lemma FreshIdIsLeft(source: seq<Message>, replacement: seq<Message>)
    ensures FreshId(source, replacement) < U64_MAX <==>
            forall m :: m in source + replacement ==> m.id < U64_MAX - 1
  {
  }
}
