/** Prompt-layout continuity: crates/tea-core/src/measurement.rs.

    The canonical request surface is a length-delimited header followed by the raw context. The
    ledger decides continuity by comparing request components; the main result is that its answer
    `ExactExtension` says exactly that one byte string is a prefix of another. */
module PromptLayout {
  import opened Wrappers
  import opened Utf8

  /** A byte string whose length fits the eight-byte length field. */
  type Text = s: seq<byte> | |s| < 0x1_0000_0000_0000_0000

  datatype ThinkingLevel = Off | Minimal | Low | Medium | High | XHigh | Max

  datatype Model = Model(provider: Text, model: Text, revision: Option<Text>)

  /** `tools` holds the encoded tool definitions, which both the domain comparison and the surface
      use in the same form. */
  datatype Layout = Layout(systemPrompt: Text, tools: Text, model: Option<Model>,
                           thinking: ThinkingLevel, session: Option<Text>, context: seq<byte>)

  // ----- Encoding -----------------------------------------------------------------------------

  function Bytes(s: string): (b: seq<byte>)
    ensures |b| == |s|
  {
    seq(|s|, i requires 0 <= i < |s| => s[i] as int % 0x100)
  }

  function LittleEndian(n: nat, width: nat): (b: seq<byte>)
    ensures |b| == width
  {
    if width == 0 then [] else [n % 0x100] + LittleEndian(n / 0x100, width - 1)
  }

  function Delimited(value: seq<byte>): seq<byte> {
    LittleEndian(|value|, 8) + value
  }

  /** The derived `Debug` names. */
  function Label(level: ThinkingLevel): (s: string)
    ensures |s| < 0x100
  {
    match level
    case Off => "Off"
    case Minimal => "Minimal"
    case Low => "Low"
    case Medium => "Medium"
    case High => "High"
    case XHigh => "XHigh"
    case Max => "Max"
  }

  function OptionalBytes(value: Option<Text>): seq<byte> {
    match value
    case None => [0]
    case Some(v) => [1] + Delimited(v)
  }

  function ModelBytes(model: Option<Model>): seq<byte> {
    match model
    case None => [0]
    case Some(m) => [1] + (Delimited(m.provider) + (Delimited(m.model) + OptionalBytes(m.revision)))
  }

  const MAGIC: seq<byte> := Bytes("tea-core-request-surface-v2\0")
  const CONTEXT: seq<byte> := Bytes("context\0")

  function Surface(r: Layout): seq<byte> {
    MAGIC + (Delimited(r.systemPrompt) + (Delimited(r.tools) + (ModelBytes(r.model)
    + (Delimited(Bytes(Label(r.thinking))) + (OptionalBytes(r.session) + (CONTEXT + r.context))))))
  }

  method AppendOptional(bytes: seq<byte>, value: Option<Text>) returns (out: seq<byte>)
    ensures out == bytes + OptionalBytes(value)
  {
    match value {
      case Some(v) => out := bytes + [1]; out := out + Delimited(v);
      case None => out := bytes + [0];
    }
  }

  method AppendModel(bytes: seq<byte>, model: Option<Model>) returns (out: seq<byte>)
    ensures out == bytes + ModelBytes(model)
  {
    match model {
      case Some(m) =>
        out := bytes + [1];
        out := out + Delimited(m.provider);
        out := out + Delimited(m.model);
        out := AppendOptional(out, m.revision);
        ModelUnfolds(m, []);
      case None =>
        out := bytes + [0];
    }
  }

  /** `canonical_request_surface_bytes`: one growing buffer. */
  method CanonicalRequestSurfaceBytes(r: Layout) returns (bytes: seq<byte>)
    ensures bytes == Surface(r)
  {
    bytes := MAGIC;
    bytes := bytes + Delimited(r.systemPrompt);
    bytes := bytes + Delimited(r.tools);
    bytes := AppendModel(bytes, r.model);
    bytes := bytes + Delimited(Bytes(Label(r.thinking)));
    bytes := AppendOptional(bytes, r.session);
    bytes := bytes + CONTEXT;
    bytes := bytes + r.context;
    Reassociate(MAGIC, Delimited(r.systemPrompt), Delimited(r.tools), ModelBytes(r.model),
                Delimited(Bytes(Label(r.thinking))), OptionalBytes(r.session), CONTEXT, r.context);
  }

  lemma Reassociate(a: seq<byte>, b: seq<byte>, c: seq<byte>, d: seq<byte>, e: seq<byte>,
                    f: seq<byte>, g: seq<byte>, h: seq<byte>)
    ensures a + b + c + d + e + f + g + h == a + (b + (c + (d + (e + (f + (g + h))))))
  {
    assert a + b + c + d + e + f + g + h == (a + b + c + d) + (e + (f + (g + h)));
    assert (a + b + c + d) + (e + (f + (g + h))) == a + (b + (c + (d + (e + (f + (g + h))))));
  }

  // ----- Measurement --------------------------------------------------------------------------

  function CommonPrefixLen(a: seq<byte>, b: seq<byte>): (n: nat)
    ensures n <= |a| && n <= |b| && a[..n] == b[..n]
    ensures n < |a| && n < |b| ==> a[n] != b[n]
  {
    if a == [] || b == [] || a[0] != b[0] then 0
    else
      var n := CommonPrefixLen(a[1..], b[1..]);
      assert a[..n + 1] == [a[0]] + a[1..][..n] && b[..n + 1] == [b[0]] + b[1..][..n];
      n + 1
  }

  predicate DomainsMatch(a: Layout, b: Layout) {
    && a.systemPrompt == b.systemPrompt && a.tools == b.tools && a.model == b.model
    && a.thinking == b.thinking && a.session == b.session
  }

  datatype Continuity = FirstRequest | DomainChanged | ExactExtension | Discontinuous | Rebased

  datatype Measurement = Measurement(continuity: Continuity, requestPrefix: Option<nat>,
                                     contextPrefix: Option<nat>)

  function Measure(previous: Option<Layout>, current: Layout): Measurement {
    match previous
    case None => Measurement(FirstRequest, None, None)
    case Some(p) =>
      var same := DomainsMatch(p, current);
      var common := if same then CommonPrefixLen(p.context, current.context) else 0;
      var continuity :=
        if !same then DomainChanged
        else if common == |p.context| then ExactExtension
        else if common == 0 then Discontinuous
        else Rebased;
      Measurement(continuity, Some(CommonPrefixLen(Surface(p), Surface(current))), Some(common))
  }

  /** What a measurement tells about the bytes: whether there was a predecessor, and whether its
      surface, or at least its cache domain, is unchanged. */
  predicate Continues(m: Measurement, previous: Option<Layout>, r: Layout) {
    && (m.continuity == FirstRequest <==> previous.None?)
    && (m.continuity == ExactExtension <==> previous.Some? && Surface(previous.value) <= Surface(r))
    && (m.continuity == DomainChanged <==> previous.Some? && !DomainsMatch(previous.value, r))
    && (previous.Some? && m.continuity == Rebased ==>
          !(previous.value.context <= r.context) && SharesFront(previous.value.context, r.context))
    && (previous.Some? && m.continuity == Discontinuous ==> !SharesFront(previous.value.context, r.context))
    && (previous.Some? ==>
          && m.requestPrefix.Some? && IsLongestCommon(Surface(previous.value), Surface(r), m.requestPrefix.value)
          && m.contextPrefix.Some?
          && (DomainsMatch(previous.value, r) ==> IsLongestCommon(previous.value.context, r.context, m.contextPrefix.value))
          && (!DomainsMatch(previous.value, r) ==> m.contextPrefix.value == 0))
  }

  predicate SharesFront(a: seq<byte>, b: seq<byte>) {
    a != [] && b != [] && a[0] == b[0]
  }

  /** The first `n` bytes agree, and no more do. */
  predicate IsLongestCommon(a: seq<byte>, b: seq<byte>, n: nat) {
    n <= |a| && n <= |b| && a[..n] == b[..n] && (n < |a| && n < |b| ==> a[n] != b[n])
  }

  lemma ContinuityIsMeaningful(previous: Option<Layout>, r: Layout)
    ensures Continues(Measure(previous, r), previous, r)
  {
    if previous.Some? {
      var p := previous.value;
      ContinuityIsBytePrefix(p, r);
      CommonPrefixIsWhole(p.context, r.context);
    }
  }

  /** The volatile ledger. */
  class PromptLayoutLedger {
    var previous: Option<Layout>
    var expected: Option<Continuity>

    constructor ()
      ensures previous == None && expected == None
    {
      previous, expected := None, None;
    }

    method Observe(r: Layout) returns (m: Measurement)
      modifies this
      ensures m == Measure(old(previous), r) && Continues(m, old(previous), r)
      ensures previous == Some(r) && expected == old(expected)
    {
      ContinuityIsMeaningful(previous, r);
      m := Measure(previous, r);
      previous := Some(r);
    }

    method Compare(r: Layout) returns (m: Measurement)
      ensures m == Measure(previous, r) && Continues(m, previous, r)
    {
      ContinuityIsMeaningful(previous, r);
      m := Measure(previous, r);
    }

    method Commit(r: Layout)
      modifies this
      ensures previous == Some(r) && expected == old(expected)
    {
      previous := Some(r);
    }

    method Clear()
      modifies this
      ensures previous == None && expected == None
    {
      previous, expected := None, None;
    }

    method ExpectNextTransition(c: Continuity)
      modifies this
      ensures previous == old(previous) && expected == Some(c)
    {
      expected := Some(c);
    }

    /** One expectation is consumed by one measurement, whatever that measurement says. */
    method TakeExpectedTransition() returns (c: Option<Continuity>)
      modifies this
      ensures c == old(expected) && expected == None && previous == old(previous)
    {
      c := expected;
      expected := None;
    }
  }

  // ----- Prefix-freeness ----------------------------------------------------------------------

  /** Lengths that fit the field are recovered from it. */
  function Power256(width: nat): nat {
    if width == 0 then 1 else 0x100 * Power256(width - 1)
  }

  lemma {:induction false} LittleEndianIsInjective(m: nat, n: nat, width: nat)
    requires m < Power256(width) && n < Power256(width)
    requires LittleEndian(m, width) == LittleEndian(n, width)
    ensures m == n
  {
    if width == 0 {
    } else {
      assert LittleEndian(m, width)[0] == LittleEndian(n, width)[0];
      assert LittleEndian(m, width)[1..] == LittleEndian(m / 0x100, width - 1);
      assert LittleEndian(n, width)[1..] == LittleEndian(n / 0x100, width - 1);
      LittleEndianIsInjective(m / 0x100, n / 0x100, width - 1);
    }
  }

  lemma FieldWidth()
    ensures Power256(8) == 0x1_0000_0000_0000_0000
  {
    assert Power256(4) == 0x1_0000_0000;
  }

  /** Dropping a shared front: a prefix relation survives on what follows. */
  lemma DropFront(a: seq<byte>, b: seq<byte>, x: seq<byte>, y: seq<byte>)
    requires |a| == |b| && a + x <= b + y
    ensures a == b && x <= y
  {
    assert a == (a + x)[..|a|] == (b + y)[..|a|] == b;
    assert x == (a + x)[|a|..];
    assert y == (b + y)[|b|..];
  }

  /** A delimited field is never confused with a different one. */
  lemma DelimitedIsPrefixFree(v: Text, w: Text, x: seq<byte>, y: seq<byte>)
    requires Delimited(v) + x <= Delimited(w) + y
    ensures v == w && x <= y
  {
    var m, n := LittleEndian(|v|, 8), LittleEndian(|w|, 8);
    assert Delimited(v) + x == m + (v + x) && Delimited(w) + y == n + (w + y);
    DropFront(m, n, v + x, w + y);
    FieldWidth();
    LittleEndianIsInjective(|v|, |w|, 8);
    DropFront(v, w, x, y);
  }

  lemma OptionalIsPrefixFree(v: Option<Text>, w: Option<Text>, x: seq<byte>, y: seq<byte>)
    requires OptionalBytes(v) + x <= OptionalBytes(w) + y
    ensures v == w && x <= y
  {
    assert (OptionalBytes(v) + x)[0] == (OptionalBytes(w) + y)[0];
    if v.Some? {
      OptionalUnfolds(v.value, x);
      OptionalUnfolds(w.value, y);
      DropFront([1], [1], Delimited(v.value) + x, Delimited(w.value) + y);
      DelimitedIsPrefixFree(v.value, w.value, x, y);
    } else {
      DropFront([0], [0], x, y);
    }
  }

  lemma OptionalUnfolds(v: Text, x: seq<byte>)
    ensures OptionalBytes(Some(v)) + x == [1] + (Delimited(v) + x)
  {
    var d := Delimited(v);
    assert ([1] + d) + x == [1] + (d + x);
  }

  lemma ModelIsPrefixFree(v: Option<Model>, w: Option<Model>, x: seq<byte>, y: seq<byte>)
    requires ModelBytes(v) + x <= ModelBytes(w) + y
    ensures v == w && x <= y
  {
    assert (ModelBytes(v) + x)[0] == (ModelBytes(w) + y)[0];
    if v.Some? {
      var a, b := v.value, w.value;
      var ra, rb := OptionalBytes(a.revision) + x, OptionalBytes(b.revision) + y;
      ModelUnfolds(a, x);
      ModelUnfolds(b, y);
      DropFront([1], [1], Delimited(a.provider) + (Delimited(a.model) + ra),
                Delimited(b.provider) + (Delimited(b.model) + rb));
      DelimitedIsPrefixFree(a.provider, b.provider, Delimited(a.model) + ra, Delimited(b.model) + rb);
      DelimitedIsPrefixFree(a.model, b.model, ra, rb);
      OptionalIsPrefixFree(a.revision, b.revision, x, y);
    } else {
      DropFront([0], [0], x, y);
    }
  }

  lemma ModelUnfolds(m: Model, x: seq<byte>)
    ensures ModelBytes(Some(m)) + x ==
            [1] + (Delimited(m.provider) + (Delimited(m.model) + (OptionalBytes(m.revision) + x)))
  {
    var p, q, r := Delimited(m.provider), Delimited(m.model), OptionalBytes(m.revision);
    assert ([1] + (p + (q + r))) + x == [1] + (p + (q + (r + x)));
  }

  lemma LabelsAreInjective(a: ThinkingLevel, b: ThinkingLevel)
    requires Bytes(Label(a)) == Bytes(Label(b))
    ensures a == b
  {
    assert Bytes(Label(a))[0] == Label(a)[0] as int;
    assert Bytes(Label(b))[0] == Label(b)[0] as int;
  }

  /** A surface that is a prefix of another has the same header and a context that is a prefix. */
  lemma SurfacePrefixSplits(a: Layout, b: Layout)
    requires Surface(a) <= Surface(b)
    ensures DomainsMatch(a, b) && a.context <= b.context
  {
    var ca, cb := CONTEXT + a.context, CONTEXT + b.context;
    var sa, sb := OptionalBytes(a.session) + ca, OptionalBytes(b.session) + cb;
    var la, lb := Bytes(Label(a.thinking)), Bytes(Label(b.thinking));
    var ta, tb := Delimited(la) + sa, Delimited(lb) + sb;
    var ma, mb := ModelBytes(a.model) + ta, ModelBytes(b.model) + tb;
    var da, db := Delimited(a.tools) + ma, Delimited(b.tools) + mb;
    DropFront(MAGIC, MAGIC, Delimited(a.systemPrompt) + da, Delimited(b.systemPrompt) + db);
    DelimitedIsPrefixFree(a.systemPrompt, b.systemPrompt, da, db);
    DelimitedIsPrefixFree(a.tools, b.tools, ma, mb);
    ModelIsPrefixFree(a.model, b.model, ta, tb);
    DelimitedIsPrefixFree(la, lb, sa, sb);
    LabelsAreInjective(a.thinking, b.thinking);
    OptionalIsPrefixFree(a.session, b.session, ca, cb);
    DropFront(CONTEXT, CONTEXT, a.context, b.context);
  }

  lemma SameDomainKeepsPrefix(a: Layout, b: Layout)
    requires DomainsMatch(a, b) && a.context <= b.context
    ensures Surface(a) <= Surface(b)
  {
    PrefixUnder(CONTEXT, a.context, b.context);
    PrefixUnder(OptionalBytes(a.session), CONTEXT + a.context, CONTEXT + b.context);
    var sa := OptionalBytes(a.session) + (CONTEXT + a.context);
    var sb := OptionalBytes(b.session) + (CONTEXT + b.context);
    var level := Delimited(Bytes(Label(a.thinking)));
    PrefixUnder(level, sa, sb);
    PrefixUnder(ModelBytes(a.model), level + sa, level + sb);
    var ma, mb := ModelBytes(a.model) + (level + sa), ModelBytes(b.model) + (level + sb);
    PrefixUnder(Delimited(a.tools), ma, mb);
    PrefixUnder(Delimited(a.systemPrompt), Delimited(a.tools) + ma, Delimited(b.tools) + mb);
    PrefixUnder(MAGIC, Delimited(a.systemPrompt) + (Delimited(a.tools) + ma),
                Delimited(b.systemPrompt) + (Delimited(b.tools) + mb));
  }

  lemma PrefixUnder(front: seq<byte>, x: seq<byte>, y: seq<byte>)
    requires x <= y
    ensures front + x <= front + y
  {
  }

  lemma {:induction false} CommonPrefixIsWhole(a: seq<byte>, b: seq<byte>)
    ensures CommonPrefixLen(a, b) == |a| <==> a <= b
  {
    if a == [] || b == [] || a[0] != b[0] {
    } else {
      CommonPrefixIsWhole(a[1..], b[1..]);
      assert a == [a[0]] + a[1..] && b == [b[0]] + b[1..];
    }
  }

  // ----- Main results -------------------------------------------------------------------------

  /** The ledger reports `ExactExtension` exactly when the predecessor's canonical bytes are a
      prefix of the current ones, and exactly when the measured common request prefix is the whole
      predecessor. */
  lemma ContinuityIsBytePrefix(p: Layout, r: Layout)
    ensures Measure(Some(p), r).continuity == ExactExtension <==> Surface(p) <= Surface(r)
    ensures Measure(Some(p), r).continuity == ExactExtension <==>
            Measure(Some(p), r).requestPrefix == Some(|Surface(p)|)
  {
    CommonPrefixIsWhole(Surface(p), Surface(r));
    CommonPrefixIsWhole(p.context, r.context);
    if Surface(p) <= Surface(r) {
      SurfacePrefixSplits(p, r);
    } else if DomainsMatch(p, r) && p.context <= r.context {
      SameDomainKeepsPrefix(p, r);
    }
  }

  /** Distinct requests never share a canonical surface. */
  lemma SurfaceIsInjective(a: Layout, b: Layout)
    requires Surface(a) == Surface(b)
    ensures a == b
  {
    SurfacePrefixSplits(a, b);
    SurfacePrefixSplits(b, a);
  }

  ghost predicate ExtendsAt(rs: seq<Layout>, k: nat)
    requires 0 < k < |rs|
  {
    Measure(Some(rs[k - 1]), rs[k]).continuity == ExactExtension
  }

  predicate IsPrefixAt(ss: seq<seq<byte>>, k: nat)
    requires 0 < k < |ss|
  {
    ss[k - 1] <= ss[k]
  }

  lemma {:induction false} PrefixChain(ss: seq<seq<byte>>, i: nat, j: nat)
    requires i <= j < |ss| && forall k :: i < k <= j ==> IsPrefixAt(ss, k)
    ensures ss[i] <= ss[j]
    decreases j - i
  {
    if i == j {
    } else {
      PrefixChain(ss, i, j - 1);
      assert IsPrefixAt(ss, j);
      PrefixTransitive(ss[i], ss[j - 1], ss[j]);
    }
  }

  lemma PrefixTransitive(x: seq<byte>, y: seq<byte>, z: seq<byte>)
    requires x <= y && y <= z
    ensures x <= z
  {
  }

  /** Over a whole run of observations: while every request reports `ExactExtension` against its
      predecessor, each surface is a prefix of all later ones, so nothing already sent changes. */
  lemma ExtensionRunsKeepThePrefix(rs: seq<Layout>, i: nat, j: nat)
    requires i <= j < |rs|
    requires forall k :: i < k <= j ==> ExtendsAt(rs, k)
    ensures Surface(rs[i]) <= Surface(rs[j])
  {
    forall k | i < k <= j
      ensures IsPrefixAt(Surfaces(rs), k)
    {
      StepIsPrefix(rs, k);
    }
    PrefixChain(Surfaces(rs), i, j);
  }

  ghost function Surfaces(rs: seq<Layout>): (ss: seq<seq<byte>>)
    ensures |ss| == |rs| && forall k :: 0 <= k < |rs| ==> ss[k] == Surface(rs[k])
  {
    seq(|rs|, k requires 0 <= k < |rs| => Surface(rs[k]))
  }

  lemma StepIsPrefix(rs: seq<Layout>, k: nat)
    requires 0 < k < |rs| && ExtendsAt(rs, k)
    ensures IsPrefixAt(Surfaces(rs), k)
  {
    ContinuityIsBytePrefix(rs[k - 1], rs[k]);
  }
}
