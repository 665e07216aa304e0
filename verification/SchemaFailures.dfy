/** What the value checker reports, keyword by keyword: crates/tea-core/src/schema_validation.rs. */
module SchemaFailures {
  import opened Wrappers
  import opened Schema

  datatype Failure = Failure(path: string, keyword: string)

  function ChildPath(path: string, child: string): string {
    if path == "" then child else path + "." + child
  }

  function DisplayPath(path: string): string {
    if path == "" then "root" else path
  }

  function Decimal(n: nat): string {
    var digit := [('0' as int + n % 10) as char];
    if n < 10 then digit else Decimal(n / 10) + digit
  }

  // ----- The failures of a value --------------------------------------------------------------

  ghost function Unless(ok: bool, f: Failure): iset<Failure> {
    if ok then iset{} else iset{f}
  }

  /** A keyword of the schema itself. */
  ghost function Here(ok: bool, path: string, keyword: string): iset<Failure> {
    Unless(ok, Failure(DisplayPath(path), keyword))
  }

  /** A keyword about a member of the value. */
  ghost function Below(ok: bool, path: string, child: string, keyword: string): iset<Failure> {
    Unless(ok, Failure(ChildPath(path, child), keyword))
  }

  /** The first `n` names that are missing. */
  ghost function Missing(names: seq<Json>, n: nat, o: map<string, Json>, path: string): iset<Failure>
    requires n <= |names|
  {
    iset i | 0 <= i < n && names[i].Str? && names[i].text !in o :: Failure(ChildPath(path, names[i].text), "required")
  }

  ghost function RequiredFailures(s: Json, o: map<string, Json>, path: string): iset<Failure> {
    var names := ArrayMember(s, "required");
    if names.None? then iset{} else Missing(names.value, |names.value|, o, path)
  }

  ghost function CountFailures(s: Json, least: string, most: string, n: nat, path: string): iset<Failure> {
    var low, high := CountBound(s, least), CountBound(s, most);
    Here(low.Some? ==> low.value <= n, path, least) + Here(high.Some? ==> n <= high.value, path, most)
  }

  predicate BoundOk(s: Json, i: nat, x: real)
    requires i < 4
  {
    var b := NumberBound(s, BOUNDS[i]);
    b.Some? ==> if i == 0 then b.value <= x else if i == 1 then x <= b.value
                else if i == 2 then b.value < x else x < b.value
  }

  ghost function BoundFailures(s: Json, x: real, n: nat, path: string): iset<Failure>
    requires n <= 4
  {
    iset i | 0 <= i < n && !BoundOk(s, i, x) :: Failure(DisplayPath(path), BOUNDS[i])
  }

  /** Those of the first `n` alternatives. */
  ghost function AllFailures(s: Json, v: Json, n: nat, path: string): iset<Failure>
    requires ArrayMember(s, "allOf").Some? && n <= |ArrayMember(s, "allOf").value|
    decreases s, 0
  {
    var xs := ArrayMember(s, "allOf").value;
    iset i, f | 0 <= i < n && f in Failures(xs[i], v, path) :: f
  }

  ghost function AllOfFailures(s: Json, v: Json, path: string): iset<Failure>
    decreases s, 1
  {
    var xs := ArrayMember(s, "allOf");
    if xs.None? then iset{} else AllFailures(s, v, |xs.value|, path)
  }

  ghost function CombinatorFailures(s: Json, v: Json, path: string): iset<Failure>
    decreases s, 2
  {
    AllOfFailures(s, v, path)
    + Here(AnyOfOk(s, v), path, "anyOf") + Here(OneOfOk(s, v), path, "oneOf") + Here(NotOk(s, v), path, "not")
  }

  /** Those of the declared properties `ks`. */
  ghost function FailuresAmong(s: Json, o: map<string, Json>, ks: set<string>, path: string): iset<Failure>
    requires ObjectMember(s, "properties").Some? && ks <= ObjectMember(s, "properties").value.Keys
    decreases s, 0
  {
    var ps := ObjectMember(s, "properties").value;
    iset k, f | k in ks && k in o && f in Failures(ps[k], o[k], ChildPath(path, k)) :: f
  }

  ghost function PropertyFailures(s: Json, o: map<string, Json>, path: string): iset<Failure>
    decreases s, 1
  {
    var ps := ObjectMember(s, "properties");
    if ps.None? then iset{} else FailuresAmong(s, o, ps.value.Keys, path)
  }

  ghost function OneAdditionalFailures(s: Json, k: string, v: Json, path: string): iset<Failure>
    decreases s, 0
  {
    if IsDeclared(s, k) then iset{} else
    match Member(s, "additionalProperties")
    case Some(Bool(allowed)) => Below(allowed, path, k, "additionalProperties")
    case Some(Object(m)) => Failures(Member(s, "additionalProperties").value, v, ChildPath(path, k))
    case _ => iset{}
  }

  /** Those of the members `ks`. */
  ghost function AdditionalFailures(s: Json, o: map<string, Json>, ks: set<string>, path: string): iset<Failure>
    requires ks <= o.Keys
    decreases s, 1
  {
    iset k, f | k in ks && f in OneAdditionalFailures(s, k, o[k], path) :: f
  }

  ghost function ObjectFailures(s: Json, o: map<string, Json>, path: string): iset<Failure>
    decreases s, 2
  {
    RequiredFailures(s, o, path) + PropertyFailures(s, o, path) + AdditionalFailures(s, o, o.Keys, path)
  }

  /** Those of the first `n` items. */
  ghost function ItemFailures(s: Json, xs: seq<Json>, n: nat, path: string): iset<Failure>
    requires n <= |xs|
    decreases s, 0
  {
    var items := Member(s, "items");
    iset i, f | items.Some? && 0 <= i < n && f in Failures(items.value, xs[i], ChildPath(path, Decimal(i))) :: f
  }

  ghost function ArrayFailures(s: Json, xs: seq<Json>, path: string): iset<Failure>
    decreases s, 1
  {
    ItemFailures(s, xs, |xs|, path)
    + Here(UniqueOk(s, xs), path, "uniqueItems") + CountFailures(s, "minItems", "maxItems", |xs|, path)
  }

  ghost function KindFailures(s: Json, v: Json, path: string): iset<Failure>
    decreases s, 3
  {
    match v
    case Object(o) => ObjectFailures(s, o, path)
    case Array(xs) => ArrayFailures(s, xs, path)
    case Str(t) => CountFailures(s, "minLength", "maxLength", |t|, path)
    case Num(x) => BoundFailures(s, AsF64(x), 4, path)
    case _ => iset{}
  }

  /** A value of another type has that one failure; any other value has those of every keyword. */
  ghost function Failures(s: Json, v: Json, path: string): iset<Failure>
    decreases s, 4
  {
    if !TypeOk(s, v) then Here(false, path, "type")
    else Here(EnumOk(s, v), path, "enum") + Here(ConstOk(s, v), path, "const")
         + CombinatorFailures(s, v, path) + KindFailures(s, v, path)
  }

  // ----- Nothing is left unsaid ---------------------------------------------------------------

  lemma PartsAreReported(s: Json, v: Json, path: string)
    requires TypeOk(s, v)
    ensures CombinatorFailures(s, v, path) <= Failures(s, v, path)
    ensures KindFailures(s, v, path) <= Failures(s, v, path)
    ensures !EnumOk(s, v) ==> Failure(DisplayPath(path), "enum") in Failures(s, v, path)
    ensures !ConstOk(s, v) ==> Failure(DisplayPath(path), "const") in Failures(s, v, path)
  {
  }

  /** Every missing name of an object of the right type. */
  lemma EveryMissingNameIsReported(s: Json, o: map<string, Json>, path: string, name: string)
    requires TypeOk(s, Object(o)) && ArrayMember(s, "required").Some?
    requires Str(name) in ArrayMember(s, "required").value && name !in o
    ensures Failure(ChildPath(path, name), "required") in Failures(s, Object(o), path)
  {
    var names := ArrayMember(s, "required").value;
    var i :| 0 <= i < |names| && names[i] == Str(name);
    assert Failure(ChildPath(path, names[i].text), "required") in Missing(names, |names|, o, path);
    PartsAreReported(s, Object(o), path);
  }

  /** All that is wrong with a declared member, at its path. */
  lemma EveryPropertyIsReported(s: Json, o: map<string, Json>, path: string, k: string)
    requires TypeOk(s, Object(o)) && IsDeclared(s, k) && k in o
    ensures Failures(ObjectMember(s, "properties").value[k], o[k], ChildPath(path, k)) <= Failures(s, Object(o), path)
  {
    PartsAreReported(s, Object(o), path);
    forall f | f in Failures(ObjectMember(s, "properties").value[k], o[k], ChildPath(path, k))
      ensures f in PropertyFailures(s, o, path)
    {
    }
    assert PropertyFailures(s, o, path) <= KindFailures(s, Object(o), path);
  }

  /** An undeclared member: itself where none is allowed, all that is wrong with it where a schema is given. */
  lemma EveryAdditionalIsReported(s: Json, o: map<string, Json>, path: string, k: string)
    requires TypeOk(s, Object(o)) && !IsDeclared(s, k) && k in o
    ensures Member(s, "additionalProperties") == Some(Bool(false)) ==>
              Failure(ChildPath(path, k), "additionalProperties") in Failures(s, Object(o), path)
    ensures ObjectMember(s, "additionalProperties").Some? ==>
              Failures(Member(s, "additionalProperties").value, o[k], ChildPath(path, k)) <= Failures(s, Object(o), path)
  {
    PartsAreReported(s, Object(o), path);
    forall f | f in OneAdditionalFailures(s, k, o[k], path)
      ensures f in AdditionalFailures(s, o, o.Keys, path)
    {
    }
    assert AdditionalFailures(s, o, o.Keys, path) <= KindFailures(s, Object(o), path);
  }

  /** All that is wrong with an item, at its index. */
  lemma EveryItemIsReported(s: Json, xs: seq<Json>, path: string, i: nat)
    requires TypeOk(s, Array(xs)) && Member(s, "items").Some? && i < |xs|
    ensures Failures(Member(s, "items").value, xs[i], ChildPath(path, Decimal(i))) <= Failures(s, Array(xs), path)
  {
    PartsAreReported(s, Array(xs), path);
    forall f | f in Failures(Member(s, "items").value, xs[i], ChildPath(path, Decimal(i)))
      ensures f in ItemFailures(s, xs, |xs|, path)
    {
    }
    assert ItemFailures(s, xs, |xs|, path) <= KindFailures(s, Array(xs), path);
  }

  /** All that a schema under `allOf` has against the value. */
  lemma EveryAlternativeIsReported(s: Json, v: Json, path: string, i: nat)
    requires TypeOk(s, v) && ArrayMember(s, "allOf").Some? && i < |ArrayMember(s, "allOf").value|
    ensures Failures(ArrayMember(s, "allOf").value[i], v, path) <= Failures(s, v, path)
  {
    PartsAreReported(s, v, path);
    var xs := ArrayMember(s, "allOf").value;
    forall f | f in Failures(xs[i], v, path)
      ensures f in AllFailures(s, v, |xs|, path)
    {
    }
    assert AllOfFailures(s, v, path) <= CombinatorFailures(s, v, path);
  }

  /** The decimal rendering of an index names that index alone. */
  lemma {:induction false} DecimalIsInjective(m: nat, n: nat)
    requires Decimal(m) == Decimal(n)
    ensures m == n
    decreases m
  {
    if m >= 10 {
      DecimalLength(n);
      DecimalLength(m);
      assert Decimal(m)[..|Decimal(m)| - 1] == Decimal(m / 10);
      assert Decimal(n)[..|Decimal(n)| - 1] == Decimal(n / 10);
      DecimalIsInjective(m / 10, n / 10);
    } else {
      DecimalLength(n);
    }
  }

  lemma DecimalLength(n: nat)
    ensures |Decimal(n)| >= 1 && (|Decimal(n)| == 1 <==> n < 10)
    ensures Decimal(n)[|Decimal(n)| - 1] == ('0' as int + n % 10) as char
  {
  }

  // ----- Reports ------------------------------------------------------------------------------

  /** At the path itself, or past a dot that follows it. */
  predicate Under(path: string, f: Failure) {
    path == "" || f.path == path || path + "." <= f.path
  }

  /** `after` is `before` with the failures `fs` appended, all at or below `path`, none exactly when `ok`. */
  ghost predicate Reports(path: string, before: seq<Failure>, after: seq<Failure>, ok: bool, fs: iset<Failure>) {
    && before <= after && (before == after <==> ok)
    && (forall i :: |before| <= i < |after| ==> Under(path, after[i]) && after[i] in fs)
    && (forall f :: f in fs ==> f in after[|before|..])
  }

  lemma Nothing(path: string, a: seq<Failure>)
    ensures Reports(path, a, a, true, iset{})
  {
  }

  lemma Then(path: string, a: seq<Failure>, b: seq<Failure>, c: seq<Failure>, p: bool, q: bool,
             fs: iset<Failure>, gs: iset<Failure>)
    requires Reports(path, a, b, p, fs) && Reports(path, b, c, q, gs)
    ensures Reports(path, a, c, p && q, fs + gs)
  {
    assert c[|a|..] == b[|a|..] + c[|b|..];
  }

  /** What is reported below a child is reported below its parent. */
  lemma Lift(path: string, child: string, a: seq<Failure>, b: seq<Failure>, p: bool, fs: iset<Failure>)
    requires Reports(ChildPath(path, child), a, b, p, fs)
    ensures Reports(path, a, b, p, fs)
  {
    forall i | |a| <= i < |b|
      ensures Under(path, b[i])
    {
      assert Under(ChildPath(path, child), b[i]);
      if path != "" {
        BelowChild(path, child, b[i].path);
      }
    }
  }

  lemma BelowChild(path: string, child: string, p: string)
    ensures p == path + "." + child || path + "." + child + "." <= p ==> path + "." <= p
  {
    if path + "." + child + "." <= p {
      assert path + "." + child + "." == path + "." + (child + ".");
    }
  }
}
