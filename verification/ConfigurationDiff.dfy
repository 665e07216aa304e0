/** The update that turns one configuration into another: crates/tea-core/src/state/configuration.rs. */
module ConfigurationDiff {
  import opened Wrappers
  import opened Transcript

  // ----- The difference -----------------------------------------------------------------------

  /** Sections of `bs` that `a` lacks or words differently. */
  function Changed(bs: seq<Section>, a: seq<Section>): seq<SectionChange> {
    if bs == [] then []
    else
      var b := bs[|bs| - 1];
      Changed(bs[..|bs| - 1], a) +
      (if SectionOf(a, b.id) != Some(b.content) then [SectionChange(b.id, Some(b.content))] else [])
  }

  /** Sections of `ss` whose id `b` does not have. */
  function Dropped(ss: seq<Section>, b: seq<Section>): seq<SectionChange> {
    if ss == [] then []
    else
      var s := ss[|ss| - 1];
      Dropped(ss[..|ss| - 1], b) + (if SectionOf(b, s.id).None? then [SectionChange(s.id, None)] else [])
  }

  /** Tools of `ts` that `other` does not declare identically. */
  function Differing(ts: seq<Tool>, other: seq<Tool>): seq<Tool> {
    if ts == [] then []
    else
      var t := ts[|ts| - 1];
      Differing(ts[..|ts| - 1], other) + (if ToolOf(other, t.name) != Some(t) then [t] else [])
  }

  function Diff(a: Configuration, b: Configuration): Option<Update> {
    if SameContent(a, b) then None
    else Some(Update(Changed(b.sections, a.sections) + Dropped(a.sections, b.sections),
                     Differing(b.tools, a.tools), Names(Differing(a.tools, b.tools))))
  }

  /** The source's loops. */
  method DiffConfigurations(a: Configuration, b: Configuration) returns (r: Option<Update>)
    ensures r == Diff(a, b)
  {
    if SameContent(a, b) {
      return None;
    }
    var changed := SectionChanges(a, b);
    var removed := FilterTools(a.tools, b.tools);
    var added := FilterTools(b.tools, a.tools);
    r := Some(Update(changed, added, Names(removed)));
  }

  method SectionChanges(a: Configuration, b: Configuration) returns (changes: seq<SectionChange>)
    ensures changes == Changed(b.sections, a.sections) + Dropped(a.sections, b.sections)
  {
    changes := [];
    for i := 0 to |b.sections|
      invariant changes == Changed(b.sections[..i], a.sections)
    {
      assert b.sections[..i + 1][..i] == b.sections[..i];
      var s := b.sections[i];
      if SectionOf(a.sections, s.id) != Some(s.content) {
        changes := changes + [SectionChange(s.id, Some(s.content))];
      }
    }
    assert b.sections[..|b.sections|] == b.sections;
    ghost var first := changes;
    for i := 0 to |a.sections|
      invariant changes == first + Dropped(a.sections[..i], b.sections)
    {
      assert a.sections[..i + 1][..i] == a.sections[..i];
      if SectionOf(b.sections, a.sections[i].id).None? {
        changes := changes + [SectionChange(a.sections[i].id, None)];
      }
    }
    assert a.sections[..|a.sections|] == a.sections;
  }

  method FilterTools(ts: seq<Tool>, other: seq<Tool>) returns (out: seq<Tool>)
    ensures out == Differing(ts, other)
  {
    out := [];
    for i := 0 to |ts|
      invariant out == Differing(ts[..i], other)
    {
      assert ts[..i + 1][..i] == ts[..i];
      if ToolOf(other, ts[i].name) != Some(ts[i]) {
        out := out + [ts[i]];
      }
    }
    assert ts[..|ts|] == ts;
  }

  // ----- What an update does to one name ------------------------------------------------------

  /** The last change of an id, if any. */
  function ChangeOf(cs: seq<SectionChange>, id: string): Option<Option<string>> {
    if cs == [] then None
    else if cs[|cs| - 1].id == id then Some(cs[|cs| - 1].content)
    else ChangeOf(cs[..|cs| - 1], id)
  }

  lemma {:induction false} ChangeOfAppend(x: seq<SectionChange>, y: seq<SectionChange>, id: string)
    ensures ChangeOf(x + y, id) == if ChangeOf(y, id).Some? then ChangeOf(y, id) else ChangeOf(x, id)
  {
    if y == [] {
      assert x + y == x;
    } else {
      assert (x + y)[..|x + y| - 1] == x + y[..|y| - 1];
      ChangeOfAppend(x, y[..|y| - 1], id);
    }
  }

  lemma ChangeOfPush(cs: seq<SectionChange>, c: SectionChange, id: string)
    ensures ChangeOf(cs + [c], id) == if c.id == id then Some(c.content) else ChangeOf(cs, id)
    ensures ChangeOf(cs + [], id) == ChangeOf(cs, id)
  {
    assert (cs + [c])[..|cs|] == cs;
    assert cs + [] == cs;
  }

  lemma {:induction false} PutSectionsMean(ss: seq<Section>, cs: seq<SectionChange>, id: string)
    requires DistinctSections(ss)
    ensures DistinctSections(PutSections(ss, cs))
    ensures SectionOf(PutSections(ss, cs), id) ==
            if ChangeOf(cs, id).Some? then ChangeOf(cs, id).value else SectionOf(ss, id)
  {
    if cs == [] {
    } else {
      var init, last := cs[..|cs| - 1], cs[|cs| - 1];
      PutSectionsMean(ss, init, id);
      PutSectionMeans(PutSections(ss, init), last, id);
      PutSectionKeepsDistinct(PutSections(ss, init), last);
    }
  }

  lemma {:induction false} DropToolsMean(ts: seq<Tool>, names: seq<string>, n: string)
    ensures ToolOf(DropTools(ts, names), n) == if n in names then None else ToolOf(ts, n)
  {
    if names == [] {
    } else {
      var init, last := names[..|names| - 1], names[|names| - 1];
      DropToolsMean(ts, init, n);
      DropToolMeans(DropTools(ts, init), last, n);
      assert names == init + [last];
    }
  }

  lemma {:induction false} PutToolsMean(ts: seq<Tool>, added: seq<Tool>, n: string)
    requires DistinctTools(added)
    ensures ToolOf(PutTools(ts, added), n) == if ToolOf(added, n).Some? then ToolOf(added, n) else ToolOf(ts, n)
  {
    if added == [] {
    } else {
      var init, last := added[..|added| - 1], added[|added| - 1];
      PutToolsMean(ts, init, n);
      PutToolMeans(PutTools(ts, init), last, n);
      LastTool(added, n);
    }
  }

  lemma LastTool(ts: seq<Tool>, n: string)
    requires ts != [] && DistinctTools(ts)
    ensures ToolOf(ts, n) == if n == ts[|ts| - 1].name then Some(ts[|ts| - 1]) else ToolOf(ts[..|ts| - 1], n)
  {
    var init, last := ts[..|ts| - 1], ts[|ts| - 1];
    ToolOfMember(ts, n);
    ToolOfMember(init, n);
    ToolOfAppend(init, last, n);
    assert ts == init + [last];
  }

  lemma LastSection(ss: seq<Section>, id: string)
    requires ss != [] && DistinctSections(ss)
    ensures var init, last := ss[..|ss| - 1], ss[|ss| - 1];
            SectionOf(ss, id) == if id == last.id then Some(last.content) else SectionOf(init, id)
  {
    var init, last := ss[..|ss| - 1], ss[|ss| - 1];
    assert ss == init + [last];
    SectionOfMember(ss, id);
    SectionOfMember(init, id);
    assert id != last.id ==> forall c :: Section(id, c) in ss <==> Section(id, c) in init;
  }

  // ----- What the difference says of one name -------------------------------------------------

  lemma {:induction false} ChangedMeans(bs: seq<Section>, a: seq<Section>, id: string)
    requires DistinctSections(bs)
    ensures ChangeOf(Changed(bs, a), id) ==
            if SectionOf(bs, id).Some? && SectionOf(bs, id) != SectionOf(a, id) then Some(SectionOf(bs, id)) else None
  {
    if bs == [] {
    } else {
      ChangedMeans(bs[..|bs| - 1], a, id);
      ChangeOfPush(Changed(bs[..|bs| - 1], a), SectionChange(bs[|bs| - 1].id, Some(bs[|bs| - 1].content)), id);
      LastSection(bs, id);
      MissingInit(bs);
    }
  }

  lemma MissingInit(ss: seq<Section>)
    requires ss != [] && DistinctSections(ss)
    ensures SectionOf(ss[..|ss| - 1], ss[|ss| - 1].id) == None
  {
    SectionOfMissing(ss[..|ss| - 1], ss[|ss| - 1].id);
  }

  lemma {:induction false} DroppedMeans(ss: seq<Section>, b: seq<Section>, id: string)
    requires DistinctSections(ss)
    ensures ChangeOf(Dropped(ss, b), id) ==
            if SectionOf(ss, id).Some? && SectionOf(b, id).None? then Some(None) else None
  {
    if ss == [] {
    } else {
      DroppedMeans(ss[..|ss| - 1], b, id);
      ChangeOfPush(Dropped(ss[..|ss| - 1], b), SectionChange(ss[|ss| - 1].id, None), id);
      LastSection(ss, id);
      MissingInit(ss);
    }
  }

  lemma {:induction false} DifferingIsDistinct(ts: seq<Tool>, other: seq<Tool>)
    requires DistinctTools(ts)
    ensures DistinctTools(Differing(ts, other))
    ensures forall t :: t in Differing(ts, other) ==> t in ts
  {
    if ts == [] {
    } else {
      DifferingIsDistinct(ts[..|ts| - 1], other);
      NewName(ts, Differing(ts[..|ts| - 1], other));
    }
  }

  lemma NewName(ts: seq<Tool>, d: seq<Tool>)
    requires ts != [] && DistinctTools(ts)
    requires forall t :: t in d ==> t in ts[..|ts| - 1]
    ensures forall i :: 0 <= i < |d| ==> d[i].name != ts[|ts| - 1].name
    ensures ToolOf(ts[..|ts| - 1], ts[|ts| - 1].name) == None
  {
    ToolOfMember(ts[..|ts| - 1], ts[|ts| - 1].name);
    assert forall i :: 0 <= i < |d| ==> d[i] in d;
  }

  lemma {:induction false} DifferingMeans(ts: seq<Tool>, other: seq<Tool>, n: string)
    requires DistinctTools(ts)
    ensures ToolOf(Differing(ts, other), n) == if ToolOf(ts, n) != ToolOf(other, n) then ToolOf(ts, n) else None
  {
    if ts == [] {
    } else {
      var init, last := ts[..|ts| - 1], ts[|ts| - 1];
      DifferingMeans(init, other, n);
      LastTool(ts, n);
      NewName(ts, []);
      ToolOfAppend(Differing(init, other), last, n);
      assert Differing(init, other) + [] == Differing(init, other);
    }
  }

  // ----- The theorems -------------------------------------------------------------------------

  /** Sections: the update mentions an id exactly when the two sides disagree on it, and then says
      what the target says. */
  lemma SectionChangesAreExact(a: Configuration, b: Configuration, id: string)
    requires Keyed(a) && Keyed(b)
    ensures ChangeOf(Changed(b.sections, a.sections) + Dropped(a.sections, b.sections), id) ==
            if SectionOf(a.sections, id) != SectionOf(b.sections, id) then Some(SectionOf(b.sections, id)) else None
  {
    ChangedMeans(b.sections, a.sections, id);
    DroppedMeans(a.sections, b.sections, id);
    ChangeOfAppend(Changed(b.sections, a.sections), Dropped(a.sections, b.sections), id);
  }

  lemma NamesMember(ts: seq<Tool>, n: string)
    requires DistinctTools(ts)
    ensures n in Names(ts) <==> ToolOf(ts, n).Some?
  {
    ToolOfMember(ts, n);
    if n in Names(ts) {
      var i :| 0 <= i < |ts| && Names(ts)[i] == n;
      assert ts[i] in ts;
    }
    if ToolOf(ts, n).Some? {
      var t := ToolOf(ts, n).value;
      var i :| 0 <= i < |ts| && ts[i] == t;
      assert Names(ts)[i] == n;
    }
  }

  /** Tools: a name is withdrawn exactly when the first side declares it and the second differs, and
      declared exactly when the second side declares it and the first differs, as the second says. */
  lemma ToolChangesAreExact(a: Configuration, b: Configuration, n: string)
    requires Keyed(a) && Keyed(b)
    ensures Diff(a, b).Some? ==>
              var u := Diff(a, b).value;
              var differ := ToolOf(a.tools, n) != ToolOf(b.tools, n);
              && (n in u.toolsRemoved <==> differ && ToolOf(a.tools, n).Some?)
              && ToolOf(u.toolsAdded, n) == if differ then ToolOf(b.tools, n) else None
  {
    DifferingMeans(a.tools, b.tools, n);
    DifferingMeans(b.tools, a.tools, n);
    DifferingIsDistinct(a.tools, b.tools);
    NamesMember(Differing(a.tools, b.tools), n);
  }

  lemma {:induction false} AllChanged(ss: seq<Section>)
    ensures Changed(ss, []) == seq(|ss|, i requires 0 <= i < |ss| => SectionChange(ss[i].id, Some(ss[i].content)))
  {
    if ss == [] {
    } else {
      AllChanged(ss[..|ss| - 1]);
    }
  }

  lemma {:induction false} AllDiffer(ts: seq<Tool>)
    ensures Differing(ts, []) == ts
  {
    if ts == [] {
    } else {
      AllDiffer(ts[..|ts| - 1]);
      assert ts == ts[..|ts| - 1] + [ts[|ts| - 1]];
    }
  }

  /** From nothing, the update is the initial declaration; applying that gives the target, order included. */
  lemma DiffFromNothing(b: Configuration)
    requires Keyed(b) && b != EMPTY
    ensures Diff(EMPTY, b) == Some(AsInitialUpdate(b))
  {
    AllChanged(b.sections);
    AllDiffer(b.tools);
    NotNothing(b);
    NothingDropped(b.sections, b.tools);
    assert Changed(b.sections, []) == AsInitialUpdate(b).sections;
  }

  lemma NotNothing(b: Configuration)
    requires b != EMPTY
    ensures !SameContent(EMPTY, b)
  {
  }

  lemma NothingDropped(ss: seq<Section>, ts: seq<Tool>)
    ensures Changed(ss, []) + Dropped([], ss) == Changed(ss, []) && Names(Differing([], ts)) == []
  {
  }

  lemma ToolsAreReached(a: Configuration, b: Configuration, n: string)
    requires Keyed(a) && Keyed(b)
    ensures ToolOf(PutTools(DropTools(a.tools, Names(Differing(a.tools, b.tools))), Differing(b.tools, a.tools)), n) ==
            ToolOf(b.tools, n)
  {
    DifferingMeans(a.tools, b.tools, n);
    DifferingMeans(b.tools, a.tools, n);
    DifferingIsDistinct(a.tools, b.tools);
    DifferingIsDistinct(b.tools, a.tools);
    NamesMember(Differing(a.tools, b.tools), n);
    DropToolsMean(a.tools, Names(Differing(a.tools, b.tools)), n);
    PutToolsMean(DropTools(a.tools, Names(Differing(a.tools, b.tools))), Differing(b.tools, a.tools), n);
  }

  /** There is no update exactly when the two already say the same; otherwise applying the update
      to the first configuration gives the meaning of the second. */
  lemma DiffReachesTarget(a: Configuration, b: Configuration)
    requires Keyed(a) && Keyed(b)
    ensures Diff(a, b).None? <==> SameMeaning(a, b)
    ensures Diff(a, b).Some? ==> SameMeaning(Apply(a, Diff(a, b).value), b)
  {
    SameContentIsSameMeaning(a, b);
    if Diff(a, b).Some? {
      var u := Diff(a, b).value;
      forall id
        ensures SectionOf(PutSections(a.sections, u.sections), id) == SectionOf(b.sections, id)
      {
        SectionChangesAreExact(a, b, id);
        PutSectionsMean(a.sections, u.sections, id);
      }
      forall n
        ensures ToolOf(PutTools(DropTools(a.tools, u.toolsRemoved), u.toolsAdded), n) == ToolOf(b.tools, n)
      {
        ToolsAreReached(a, b, n);
      }
    }
  }

  /** Synchronizing twice: once the update is applied, nothing is left to send. */
  lemma DiffIsDoneOnce(a: Configuration, b: Configuration)
    requires Keyed(a) && Keyed(b) && Diff(a, b).Some?
    ensures Diff(Apply(a, Diff(a, b).value), b).None?
  {
    DiffReachesTarget(a, b);
    ApplyRespectsMeaning(a, a, Diff(a, b).value);
    DiffReachesTarget(Apply(a, Diff(a, b).value), b);
  }
}
