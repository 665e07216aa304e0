/** Model-visible configuration in conversation order: crates/tea-core/src/state/configuration.rs.

    A configuration is an ordered list of sections and tools; its meaning is two maps. Updates act
    on lists in place, and on meanings as map updates. */
module Transcript {
  import opened Wrappers

  datatype Section = Section(id: string, content: string)
  datatype SectionChange = SectionChange(id: string, content: Option<string>)
  datatype Tool = Tool(name: string, declaration: string)

  datatype Update = Update(sections: seq<SectionChange>, toolsAdded: seq<Tool>, toolsRemoved: seq<string>)

  datatype Configuration = Configuration(sections: seq<Section>, tools: seq<Tool>)

  const EMPTY: Configuration := Configuration([], [])

  datatype Call = Call(id: string, name: string)

  datatype Message =
    | User(id: nat, content: string)
    | Assistant(id: nat, content: string, calls: seq<Call>)
    | ToolResult(id: nat, callId: string, toolName: string, content: string)
    | System(id: nat, update: Update)

  // ----- Applying updates ---------------------------------------------------------------------

  /** Replace a section in place, append it, or remove it. */
  function PutSection(ss: seq<Section>, c: SectionChange): seq<Section> {
    if ss == [] then (if c.content.Some? then [Section(c.id, c.content.value)] else [])
    else if ss[0].id == c.id then
      (if c.content.Some? then [Section(c.id, c.content.value)] else []) + ss[1..]
    else [ss[0]] + PutSection(ss[1..], c)
  }

  function PutSections(ss: seq<Section>, cs: seq<SectionChange>): seq<Section> {
    if cs == [] then ss else PutSection(PutSections(ss, cs[..|cs| - 1]), cs[|cs| - 1])
  }

  function DropTool(ts: seq<Tool>, name: string): seq<Tool> {
    if ts == [] then []
    else if ts[0].name == name then DropTool(ts[1..], name)
    else [ts[0]] + DropTool(ts[1..], name)
  }

  function DropTools(ts: seq<Tool>, names: seq<string>): seq<Tool> {
    if names == [] then ts else DropTool(DropTools(ts, names[..|names| - 1]), names[|names| - 1])
  }

  function PutTools(ts: seq<Tool>, added: seq<Tool>): seq<Tool> {
    if added == [] then ts
    else
      var t := added[|added| - 1];
      DropTool(PutTools(ts, added[..|added| - 1]), t.name) + [t]
  }

  function Apply(c: Configuration, u: Update): Configuration {
    Configuration(PutSections(c.sections, u.sections),
                  PutTools(DropTools(c.tools, u.toolsRemoved), u.toolsAdded))
  }

  /** The configuration in force after the messages; none before the first system message. */
  function Replay(ms: seq<Message>): Option<Configuration> {
    if ms == [] then None
    else
      var before, last := Replay(ms[..|ms| - 1]), ms[|ms| - 1];
      if last.System? then Some(Apply(OrEmpty(before), last.update)) else before
  }

  function OrEmpty(c: Option<Configuration>): Configuration {
    if c.Some? then c.value else EMPTY
  }

  function AsInitialUpdate(c: Configuration): Update {
    Update(seq(|c.sections|, i requires 0 <= i < |c.sections| =>
             SectionChange(c.sections[i].id, Some(c.sections[i].content))), c.tools, [])
  }

  /** The object form of `apply`: each change edits the lists in place. */
  class EffectiveConfiguration {
    var sections: seq<Section>
    var tools: seq<Tool>

    function View(): Configuration
      reads this
    {
      Configuration(sections, tools)
    }

    constructor ()
      ensures View() == EMPTY
    {
      sections, tools := [], [];
    }

    method ApplyUpdate(u: Update)
      modifies this
      ensures View() == Apply(old(View()), u)
    {
      for i := 0 to |u.sections|
        invariant sections == PutSections(old(sections), u.sections[..i]) && tools == old(tools)
      {
        assert u.sections[..i + 1][..i] == u.sections[..i];
        sections := PutSection(sections, u.sections[i]);
      }
      assert u.sections[..|u.sections|] == u.sections;
      for i := 0 to |u.toolsRemoved|
        invariant tools == DropTools(old(tools), u.toolsRemoved[..i])
        invariant sections == PutSections(old(sections), u.sections)
      {
        assert u.toolsRemoved[..i + 1][..i] == u.toolsRemoved[..i];
        tools := DropTool(tools, u.toolsRemoved[i]);
      }
      assert u.toolsRemoved[..|u.toolsRemoved|] == u.toolsRemoved;
      ghost var kept := tools;
      for i := 0 to |u.toolsAdded|
        invariant tools == PutTools(kept, u.toolsAdded[..i])
        invariant sections == PutSections(old(sections), u.sections)
      {
        assert u.toolsAdded[..i + 1][..i] == u.toolsAdded[..i];
        tools := DropTool(tools, u.toolsAdded[i].name) + [u.toolsAdded[i]];
      }
      assert u.toolsAdded[..|u.toolsAdded|] == u.toolsAdded;
    }
  }

  // ----- Validity -----------------------------------------------------------------------------

  function Utf8Length(s: string): nat {
    if s == [] then 0
    else (if s[0] < '\U{80}' then 1 else if s[0] < '\U{800}' then 2
          else if s[0] < '\U{10000}' then 3 else 4) + Utf8Length(s[1..])
  }

  predicate IsControl(c: char) {
    c < '\U{20}' || '\U{7f}' <= c <= '\U{9f}'
  }

  predicate ValidSectionId(id: string) {
    id != [] && Utf8Length(id) <= 200 && forall i :: 0 <= i < |id| ==> !IsControl(id[i])
  }

  predicate ValidUpdate(u: Update) {
    && (forall i :: 0 <= i < |u.sections| ==> ValidSectionId(u.sections[i].id))
    && (forall i, j :: 0 <= i < j < |u.sections| ==> u.sections[i].id != u.sections[j].id)
    && (forall i :: 0 <= i < |u.toolsAdded| ==> u.toolsAdded[i].name != [])
    && (forall i, j :: 0 <= i < j < |u.toolsAdded| ==> u.toolsAdded[i].name != u.toolsAdded[j].name)
    && (forall i :: 0 <= i < |u.toolsRemoved| ==> u.toolsRemoved[i] != [])
    && (forall i, j :: 0 <= i < j < |u.toolsRemoved| ==> u.toolsRemoved[i] != u.toolsRemoved[j])
  }

  predicate DistinctSections(ss: seq<Section>) {
    forall i, j :: 0 <= i < j < |ss| ==> ss[i].id != ss[j].id
  }

  predicate DistinctTools(ts: seq<Tool>) {
    forall i, j :: 0 <= i < j < |ts| ==> ts[i].name != ts[j].name
  }

  /** Every section and every tool is named once. */
  predicate Keyed(c: Configuration) {
    DistinctSections(c.sections) && DistinctTools(c.tools)
  }

  predicate WellNamed(c: Configuration) {
    && (forall i :: 0 <= i < |c.sections| ==> ValidSectionId(c.sections[i].id))
    && (forall i :: 0 <= i < |c.tools| ==> c.tools[i].name != [])
  }

  // ----- Meanings -----------------------------------------------------------------------------

  function SectionOf(ss: seq<Section>, id: string): Option<string> {
    if ss == [] then None
    else if ss[0].id == id then Some(ss[0].content)
    else SectionOf(ss[1..], id)
  }

  function ToolOf(ts: seq<Tool>, name: string): Option<Tool> {
    if ts == [] then None
    else if ts[0].name == name then Some(ts[0])
    else ToolOf(ts[1..], name)
  }

  ghost predicate SameSections(a: seq<Section>, b: seq<Section>) {
    forall id :: SectionOf(a, id) == SectionOf(b, id)
  }

  ghost predicate SameTools(a: seq<Tool>, b: seq<Tool>) {
    forall name :: ToolOf(a, name) == ToolOf(b, name)
  }

  /** Two configurations say the same thing, in whatever order. */
  ghost predicate SameMeaning(a: Configuration, b: Configuration) {
    SameSections(a.sections, b.sections) && SameTools(a.tools, b.tools)
  }

  lemma {:induction false} SectionOfMissing(ss: seq<Section>, id: string)
    requires forall i :: 0 <= i < |ss| ==> ss[i].id != id
    ensures SectionOf(ss, id) == None
  {
    if ss == [] {
    } else {
      SectionOfMissing(ss[1..], id);
    }
  }

  /** A section change is a map update. */
  lemma {:induction false} PutSectionMeans(ss: seq<Section>, c: SectionChange, id: string)
    requires DistinctSections(ss)
    ensures SectionOf(PutSection(ss, c), id) == if id == c.id then c.content else SectionOf(ss, id)
  {
    if ss == [] {
    } else {
      if ss[0].id == c.id {
        if c.content.None? {
          SectionOfMissing(ss[1..], c.id);
          assert PutSection(ss, c) == ss[1..];
        }
      } else {
        PutSectionMeans(ss[1..], c, id);
      }
    }
  }

  lemma {:induction false} PutSectionIds(ss: seq<Section>, c: SectionChange)
    ensures forall i :: 0 <= i < |PutSection(ss, c)| ==>
              PutSection(ss, c)[i].id == c.id || exists j :: 0 <= j < |ss| && ss[j].id == PutSection(ss, c)[i].id
  {
    if ss == [] || ss[0].id == c.id {
    } else {
      PutSectionIds(ss[1..], c);
      var r := PutSection(ss[1..], c);
      forall i | 0 <= i < |PutSection(ss, c)|
        ensures PutSection(ss, c)[i].id == c.id || exists j :: 0 <= j < |ss| && ss[j].id == PutSection(ss, c)[i].id
      {
        if i > 0 && r[i - 1].id != c.id {
          var j :| 0 <= j < |ss[1..]| && ss[1..][j].id == r[i - 1].id;
          assert ss[j + 1].id == r[i - 1].id;
        }
      }
    }
  }

  lemma {:induction false} PutSectionKeepsDistinct(ss: seq<Section>, c: SectionChange)
    requires DistinctSections(ss)
    ensures DistinctSections(PutSection(ss, c))
  {
    if ss == [] || ss[0].id == c.id {
    } else {
      PutSectionKeepsDistinct(ss[1..], c);
      PutSectionIds(ss[1..], c);
    }
  }

  lemma {:induction false} DropToolMeans(ts: seq<Tool>, name: string, n: string)
    ensures ToolOf(DropTool(ts, name), n) == if n == name then None else ToolOf(ts, n)
  {
    if ts == [] {
    } else {
      DropToolMeans(ts[1..], name, n);
    }
  }

  lemma {:induction false} ToolOfAppend(ts: seq<Tool>, t: Tool, n: string)
    ensures ToolOf(ts + [t], n) ==
            if ToolOf(ts, n).Some? then ToolOf(ts, n) else if n == t.name then Some(t) else None
  {
    if ts == [] {
      assert ts + [t] == [t];
    } else {
      assert (ts + [t])[1..] == ts[1..] + [t];
      ToolOfAppend(ts[1..], t, n);
    }
  }

  lemma {:induction false} DropToolKeeps(ts: seq<Tool>, name: string)
    ensures forall i :: 0 <= i < |DropTool(ts, name)| ==> DropTool(ts, name)[i] in ts && DropTool(ts, name)[i].name != name
    ensures DistinctTools(ts) ==> DistinctTools(DropTool(ts, name))
  {
    if ts == [] {
    } else {
      DropToolKeeps(ts[1..], name);
      var r := DropTool(ts[1..], name);
      forall i | 0 <= i < |r| && DistinctTools(ts)
        ensures r[i].name != ts[0].name
      {
        assert r[i] in ts[1..];
      }
    }
  }

  // ----- Updates act on meanings --------------------------------------------------------------

  lemma {:induction false} PutSectionsRespectMeaning(a: seq<Section>, b: seq<Section>, cs: seq<SectionChange>)
    requires DistinctSections(a) && DistinctSections(b)
    ensures DistinctSections(PutSections(a, cs)) && DistinctSections(PutSections(b, cs))
    ensures SameSections(a, b) ==> SameSections(PutSections(a, cs), PutSections(b, cs))
  {
    if cs == [] {
    } else {
      var init, last := cs[..|cs| - 1], cs[|cs| - 1];
      PutSectionsRespectMeaning(a, b, init);
      var x, y := PutSections(a, init), PutSections(b, init);
      PutSectionKeepsDistinct(x, last);
      PutSectionKeepsDistinct(y, last);
      if SameSections(a, b) {
        forall id
          ensures SectionOf(PutSection(x, last), id) == SectionOf(PutSection(y, last), id)
        {
          PutSectionMeans(x, last, id);
          PutSectionMeans(y, last, id);
        }
      }
    }
  }

  lemma {:induction false} DropToolsRespectMeaning(a: seq<Tool>, b: seq<Tool>, names: seq<string>)
    requires DistinctTools(a) && DistinctTools(b)
    ensures DistinctTools(DropTools(a, names)) && DistinctTools(DropTools(b, names))
    ensures SameTools(a, b) ==> SameTools(DropTools(a, names), DropTools(b, names))
  {
    if names == [] {
    } else {
      var init, last := names[..|names| - 1], names[|names| - 1];
      DropToolsRespectMeaning(a, b, init);
      var x, y := DropTools(a, init), DropTools(b, init);
      DropToolKeeps(x, last);
      DropToolKeeps(y, last);
      if SameTools(a, b) {
        forall n
          ensures ToolOf(DropTool(x, last), n) == ToolOf(DropTool(y, last), n)
        {
          DropToolMeans(x, last, n);
          DropToolMeans(y, last, n);
        }
      }
    }
  }

  lemma {:induction false} PutToolsRespectMeaning(a: seq<Tool>, b: seq<Tool>, added: seq<Tool>)
    requires DistinctTools(a) && DistinctTools(b)
    ensures DistinctTools(PutTools(a, added)) && DistinctTools(PutTools(b, added))
    ensures SameTools(a, b) ==> SameTools(PutTools(a, added), PutTools(b, added))
  {
    if added == [] {
    } else {
      var init, last := added[..|added| - 1], added[|added| - 1];
      PutToolsRespectMeaning(a, b, init);
      var x, y := PutTools(a, init), PutTools(b, init);
      DropToolKeeps(x, last.name);
      DropToolKeeps(y, last.name);
      if SameTools(a, b) {
        forall n
          ensures ToolOf(DropTool(x, last.name) + [last], n) == ToolOf(DropTool(y, last.name) + [last], n)
        {
          PutToolMeans(x, last, n);
          PutToolMeans(y, last, n);
        }
      }
    }
  }

  lemma PutToolMeans(ts: seq<Tool>, t: Tool, n: string)
    ensures ToolOf(DropTool(ts, t.name) + [t], n) == if n == t.name then Some(t) else ToolOf(ts, n)
  {
    ToolOfAppend(DropTool(ts, t.name), t, n);
    DropToolMeans(ts, t.name, n);
  }

  /** An update keeps names unique and takes equal meanings to equal meanings. */
  lemma ApplyRespectsMeaning(a: Configuration, b: Configuration, u: Update)
    requires Keyed(a) && Keyed(b)
    ensures Keyed(Apply(a, u)) && Keyed(Apply(b, u))
    ensures SameMeaning(a, b) ==> SameMeaning(Apply(a, u), Apply(b, u))
  {
    PutSectionsRespectMeaning(a.sections, b.sections, u.sections);
    DropToolsRespectMeaning(a.tools, b.tools, u.toolsRemoved);
    PutToolsRespectMeaning(DropTools(a.tools, u.toolsRemoved), DropTools(b.tools, u.toolsRemoved), u.toolsAdded);
  }

  lemma {:induction false} ReplayIsKeyed(ms: seq<Message>)
    ensures Keyed(OrEmpty(Replay(ms)))
  {
    if ms == [] {
    } else {
      ReplayIsKeyed(ms[..|ms| - 1]);
      if ms[|ms| - 1].System? {
        var c := OrEmpty(Replay(ms[..|ms| - 1]));
        ApplyRespectsMeaning(c, c, ms[|ms| - 1].update);
      }
    }
  }

  // ----- Validity of replayed names -----------------------------------------------------------

  lemma {:induction false} PutSectionsAreNamed(ss: seq<Section>, cs: seq<SectionChange>)
    requires forall i :: 0 <= i < |ss| ==> ValidSectionId(ss[i].id)
    requires forall i :: 0 <= i < |cs| ==> ValidSectionId(cs[i].id)
    ensures forall i :: 0 <= i < |PutSections(ss, cs)| ==> ValidSectionId(PutSections(ss, cs)[i].id)
  {
    if cs == [] {
    } else {
      PutSectionsAreNamed(ss, cs[..|cs| - 1]);
      PutSectionIds(PutSections(ss, cs[..|cs| - 1]), cs[|cs| - 1]);
    }
  }

  lemma {:induction false} DropToolsAreNamed(ts: seq<Tool>, names: seq<string>)
    requires forall t :: t in ts ==> t.name != []
    ensures forall t :: t in DropTools(ts, names) ==> t.name != []
  {
    if names == [] {
    } else {
      DropToolsAreNamed(ts, names[..|names| - 1]);
      DropToolKeeps(DropTools(ts, names[..|names| - 1]), names[|names| - 1]);
    }
  }

  lemma {:induction false} PutToolsAreNamed(ts: seq<Tool>, added: seq<Tool>)
    requires forall t :: t in ts ==> t.name != []
    requires forall t :: t in added ==> t.name != []
    ensures forall t :: t in PutTools(ts, added) ==> t.name != []
  {
    if added == [] {
    } else {
      PutToolsAreNamed(ts, added[..|added| - 1]);
      DropToolKeeps(PutTools(ts, added[..|added| - 1]), added[|added| - 1].name);
    }
  }

  lemma {:induction false} ReplayIsWellNamed(ms: seq<Message>)
    requires forall i :: 0 <= i < |ms| && ms[i].System? ==> ValidUpdate(ms[i].update)
    ensures WellNamed(OrEmpty(Replay(ms)))
  {
    if ms == [] {
    } else {
      ReplayIsWellNamed(ms[..|ms| - 1]);
      if ms[|ms| - 1].System? {
        var c, u := OrEmpty(Replay(ms[..|ms| - 1])), ms[|ms| - 1].update;
        PutSectionsAreNamed(c.sections, u.sections);
        DropToolsAreNamed(c.tools, u.toolsRemoved);
        PutToolsAreNamed(DropTools(c.tools, u.toolsRemoved), u.toolsAdded);
      }
    }
  }

  // ----- The initial update -------------------------------------------------------------------

  lemma {:induction false} PutNewSection(ss: seq<Section>, id: string, content: string)
    requires forall i :: 0 <= i < |ss| ==> ss[i].id != id
    ensures PutSection(ss, SectionChange(id, Some(content))) == ss + [Section(id, content)]
  {
    if ss == [] {
    } else {
      PutNewSection(ss[1..], id, content);
      assert ss == [ss[0]] + ss[1..];
    }
  }

  lemma {:induction false} DropAbsentTool(ts: seq<Tool>, name: string)
    requires forall i :: 0 <= i < |ts| ==> ts[i].name != name
    ensures DropTool(ts, name) == ts
  {
    if ts == [] {
    } else {
      DropAbsentTool(ts[1..], name);
    }
  }

  lemma {:induction false} RebuildSections(ss: seq<Section>, cs: seq<SectionChange>)
    requires DistinctSections(ss) && |cs| == |ss|
    requires forall i :: 0 <= i < |ss| ==> cs[i] == SectionChange(ss[i].id, Some(ss[i].content))
    ensures PutSections([], cs) == ss
  {
    if ss == [] {
    } else {
      var init, last := ss[..|ss| - 1], ss[|ss| - 1];
      RebuildSections(init, cs[..|cs| - 1]);
      PutNewSection(init, last.id, last.content);
      assert ss == init + [last];
    }
  }

  lemma {:induction false} RebuildTools(ts: seq<Tool>)
    requires DistinctTools(ts)
    ensures PutTools([], ts) == ts
  {
    if ts == [] {
    } else {
      var init, last := ts[..|ts| - 1], ts[|ts| - 1];
      RebuildTools(init);
      DropAbsentTool(init, last.name);
      assert ts == init + [last];
    }
  }

  /** Declaring a configuration from scratch reproduces it exactly, order included. */
  lemma InitialUpdateReproduces(c: Configuration)
    requires Keyed(c)
    ensures Apply(EMPTY, AsInitialUpdate(c)) == c
  {
    var u := AsInitialUpdate(c);
    RebuildSections(c.sections, u.sections);
    RebuildTools(c.tools);
    assert DropTools([], u.toolsRemoved) == [];
  }

  lemma InitialUpdateIsValid(c: Configuration)
    requires Keyed(c) && WellNamed(c)
    ensures ValidUpdate(AsInitialUpdate(c))
  {
    var u := AsInitialUpdate(c);
    assert forall i :: 0 <= i < |u.sections| ==> u.sections[i].id == c.sections[i].id;
  }

  // ----- Order --------------------------------------------------------------------------------

  lemma {:induction false} PutSectionAfter(x: seq<Section>, y: seq<Section>, c: SectionChange)
    requires forall i :: 0 <= i < |x| ==> x[i].id != c.id
    ensures PutSection(x + y, c) == x + PutSection(y, c)
  {
    if x == [] {
      assert x + y == y;
    } else {
      assert (x + y)[1..] == x[1..] + y;
      PutSectionAfter(x[1..], y, c);
    }
  }

  /** A section that is reworded or removed leaves the others as they are, in their places. */
  lemma SectionsKeepTheirPlace(ss: seq<Section>, c: SectionChange, i: nat)
    requires DistinctSections(ss) && i < |ss| && ss[i].id == c.id
    ensures PutSection(ss, c) ==
            ss[..i] + (if c.content.Some? then [Section(c.id, c.content.value)] else []) + ss[i + 1..]
  {
    assert ss == ss[..i] + ss[i..];
    PutSectionAfter(ss[..i], ss[i..], c);
  }

  /** A new section comes last. */
  lemma NewSectionsComeLast(ss: seq<Section>, c: SectionChange)
    requires forall i :: 0 <= i < |ss| ==> ss[i].id != c.id
    ensures PutSection(ss, c) == ss + if c.content.Some? then [Section(c.id, c.content.value)] else []
  {
    assert ss + [] == ss;
    PutSectionAfter(ss, [], c);
  }

  lemma {:induction false} DropToolAppend(x: seq<Tool>, y: seq<Tool>, name: string)
    ensures DropTool(x + y, name) == DropTool(x, name) + DropTool(y, name)
  {
    if x == [] {
      assert x + y == y;
    } else {
      assert (x + y)[1..] == x[1..] + y;
      DropToolAppend(x[1..], y, name);
    }
  }

  lemma {:induction false} DropToolAbsent(ts: seq<Tool>, name: string)
    requires forall i :: 0 <= i < |ts| ==> ts[i].name != name
    ensures DropTool(ts, name) == ts
  {
    if ts == [] {
    } else {
      DropToolAbsent(ts[1..], name);
    }
  }

  /** Removing a name takes its declaration out and leaves the others in order. */
  lemma OthersKeepTheirPlace(ts: seq<Tool>, i: nat)
    requires DistinctTools(ts) && i < |ts|
    ensures DropTool(ts, ts[i].name) == ts[..i] + ts[i + 1..]
  {
    var name := ts[i].name;
    assert ts == ts[..i] + ts[i..];
    DropToolAppend(ts[..i], ts[i..], name);
    DropToolAbsent(ts[..i], name);
    DropFirstTool(ts[i..]);
  }

  lemma DropFirstTool(ts: seq<Tool>)
    requires DistinctTools(ts) && ts != []
    ensures DropTool(ts, ts[0].name) == ts[1..]
  {
    DropToolAbsent(ts[1..], ts[0].name);
  }

  function Names(ts: seq<Tool>): (ns: seq<string>)
    ensures |ns| == |ts| && forall i :: 0 <= i < |ts| ==> ns[i] == ts[i].name
  {
    seq(|ts|, i requires 0 <= i < |ts| => ts[i].name)
  }

  /** Tools that are declared, again or for the first time, come last and in the order given. */
  lemma {:induction false} AddedToolsComeLast(ts: seq<Tool>, added: seq<Tool>)
    requires DistinctTools(added)
    ensures PutTools(ts, added) == DropTools(ts, Names(added)) + added
  {
    if added == [] {
    } else {
      var init, last := added[..|added| - 1], added[|added| - 1];
      AddedToolsComeLast(ts, init);
      DropBefore(DropTools(ts, Names(init)), init, last.name);
      assert Names(added)[..|added| - 1] == Names(init);
      PushLast(DropTools(ts, Names(added)), added);
    }
  }

  lemma DropBefore(x: seq<Tool>, y: seq<Tool>, name: string)
    requires forall i :: 0 <= i < |y| ==> y[i].name != name
    ensures DropTool(x + y, name) == DropTool(x, name) + y
  {
    DropToolAppend(x, y, name);
    DropToolAbsent(y, name);
  }

  lemma PushLast(x: seq<Tool>, y: seq<Tool>)
    requires y != []
    ensures x + y[..|y| - 1] + [y[|y| - 1]] == x + y
  {
  }

  ghost predicate IsSystemAt(ms: seq<Message>, i: int) {
    0 <= i < |ms| && ms[i].System?
  }

  /** A configuration is in force exactly from the first system message on. */
  lemma {:induction false} InForceOnceDeclared(ms: seq<Message>)
    ensures Replay(ms).Some? <==> exists i :: IsSystemAt(ms, i)
  {
    if ms == [] {
    } else {
      var init := ms[..|ms| - 1];
      InForceOnceDeclared(init);
      assert forall i :: IsSystemAt(ms, i) <==> IsSystemAt(init, i) || (i == |ms| - 1 && ms[i].System?);
    }
  }

  // ----- Comparing contents -------------------------------------------------------------------

  /** `same_content`. */
  predicate SameContent(a: Configuration, b: Configuration) {
    && |a.sections| == |b.sections| && |a.tools| == |b.tools|
    && (forall s :: s in a.sections ==> s in b.sections)
    && (forall t :: t in a.tools ==> ToolOf(b.tools, t.name) == Some(t))
  }

  lemma {:induction false} SectionOfMember(ss: seq<Section>, id: string)
    requires DistinctSections(ss)
    ensures forall c :: SectionOf(ss, id) == Some(c) <==> Section(id, c) in ss
  {
    if ss == [] {
    } else {
      SectionOfMember(ss[1..], id);
      assert ss == [ss[0]] + ss[1..];
      if ss[0].id == id {
        SectionOfMissing(ss[1..], id);
      }
    }
  }

  lemma {:induction false} ToolOfMember(ts: seq<Tool>, name: string)
    requires DistinctTools(ts)
    ensures forall t :: ToolOf(ts, name) == Some(t) <==> t in ts && t.name == name
  {
    if ts == [] {
    } else {
      ToolOfMember(ts[1..], name);
      assert ts == [ts[0]] + ts[1..];
    }
  }

  /** Equally long lists without repetition, one inside the other, have the same members. */
  lemma {:induction false} SameSizeSameMembers<T>(a: seq<T>, b: seq<T>)
    requires forall i, j :: 0 <= i < j < |a| ==> a[i] != a[j]
    requires forall x :: x in a ==> x in b
    ensures |a| <= |b|
    ensures |a| == |b| ==> forall x :: x in b ==> x in a
  {
    if a == [] {
    } else {
      assert a[0] in b;
      var k :| 0 <= k < |b| && b[k] == a[0];
      var rest := b[..k] + b[k + 1..];
      forall x | x in a[1..]
        ensures x in rest
      {
        var i :| 0 <= i < |a[1..]| && a[1..][i] == x;
        assert a[i + 1] == x && x != a[0] && x in b;
        var m :| 0 <= m < |b| && b[m] == x;
        assert if m < k then rest[m] == x else rest[m - 1] == x;
      }
      SameSizeSameMembers(a[1..], rest);
      if |a| == |b| {
        forall x | x in b
          ensures x in a
        {
          var m :| 0 <= m < |b| && b[m] == x;
          if m != k {
            assert if m < k then rest[m] == x else rest[m - 1] == x;
            assert x in a[1..];
          }
        }
      }
    }
  }

  lemma SectionsCompare(a: seq<Section>, b: seq<Section>)
    requires DistinctSections(a) && DistinctSections(b)
    ensures (|a| == |b| && forall s :: s in a ==> s in b) <==> SameSections(a, b)
  {
    if |a| == |b| && forall s :: s in a ==> s in b {
      SameSizeSameMembers(a, b);
      forall id
        ensures SectionOf(a, id) == SectionOf(b, id)
      {
        SectionOfMember(a, id);
        SectionOfMember(b, id);
        assert SectionOf(a, id).Some? ==> Section(id, SectionOf(a, id).value) in b;
        assert SectionOf(b, id).Some? ==> Section(id, SectionOf(b, id).value) in a;
      }
    }
    if SameSections(a, b) {
      SectionsInside(a, b);
      SectionsInside(b, a);
      SameSizeSameMembers(a, b);
      SameSizeSameMembers(b, a);
    }
  }

  lemma SectionsInside(a: seq<Section>, b: seq<Section>)
    requires DistinctSections(a) && DistinctSections(b) && SameSections(a, b)
    ensures forall s :: s in a ==> s in b
  {
    forall s | s in a
      ensures s in b
    {
      SectionOfMember(a, s.id);
      SectionOfMember(b, s.id);
      assert SectionOf(a, s.id) == Some(s.content);
    }
  }

  lemma ToolsCompare(a: seq<Tool>, b: seq<Tool>)
    requires DistinctTools(a) && DistinctTools(b)
    ensures (|a| == |b| && forall t :: t in a ==> ToolOf(b, t.name) == Some(t)) <==> SameTools(a, b)
  {
    if |a| == |b| && forall t :: t in a ==> ToolOf(b, t.name) == Some(t) {
      forall t | t in a
        ensures t in b
      {
        ToolOfMember(b, t.name);
      }
      SameSizeSameMembers(a, b);
      forall name
        ensures ToolOf(a, name) == ToolOf(b, name)
      {
        ToolOfMember(a, name);
        ToolOfMember(b, name);
      }
    }
    if SameTools(a, b) {
      ToolsInside(a, b);
      ToolsInside(b, a);
      SameSizeSameMembers(a, b);
      SameSizeSameMembers(b, a);
    }
  }

  lemma ToolsInside(a: seq<Tool>, b: seq<Tool>)
    requires DistinctTools(a) && DistinctTools(b) && SameTools(a, b)
    ensures forall t :: t in a ==> t in b && ToolOf(b, t.name) == Some(t)
  {
    forall t | t in a
      ensures t in b && ToolOf(b, t.name) == Some(t)
    {
      ToolOfMember(a, t.name);
      ToolOfMember(b, t.name);
      assert ToolOf(a, t.name) == Some(t);
    }
  }

  /** The length-and-membership test decides equality of meaning on replayed configurations. */
  lemma SameContentIsSameMeaning(a: Configuration, b: Configuration)
    requires Keyed(a) && Keyed(b)
    ensures SameContent(a, b) <==> SameMeaning(a, b)
  {
    SectionsCompare(a.sections, b.sections);
    ToolsCompare(a.tools, b.tools);
  }
}
