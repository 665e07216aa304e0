/** The schema checker and the value checker: crates/tea-core/src/schema_validation.rs. */
module SchemaValidation {
  import opened Wrappers
  import opened Schema
  import opened SchemaFailures

  // ----- Reports ------------------------------------------------------------------------------

  /** Report `keyword` unless `ok`. */
  method Check(ok: bool, path: string, keyword: string, errors: seq<Failure>) returns (out: seq<Failure>)
    ensures Reports(path, errors, out, ok, Here(ok, path, keyword))
  {
    out := if ok then errors else errors + [Failure(DisplayPath(path), keyword)];
  }

  method CheckChild(ok: bool, path: string, child: string, keyword: string, errors: seq<Failure>)
    returns (out: seq<Failure>)
    ensures Reports(path, errors, out, ok, Below(ok, path, child, keyword))
  {
    out := if ok then errors else errors + [Failure(ChildPath(path, child), keyword)];
    BelowChild(path, child, ChildPath(path, child));
  }

  // ----- Checks that do not recurse -----------------------------------------------------------

  method AnyTypeMatches(names: seq<Json>, v: Json) returns (ok: bool)
    ensures ok <==> exists i :: 0 <= i < |names| && names[i].Str? && TypeMatches(names[i].text, v)
  {
    for i := 0 to |names|
      invariant forall j :: 0 <= j < i ==> !(names[j].Str? && TypeMatches(names[j].text, v))
    {
      if names[i].Str? && TypeMatches(names[i].text, v) {
        return true;
      }
    }
    ok := false;
  }

  method MatchesType(s: Json, v: Json) returns (ok: bool)
    ensures ok <==> TypeOk(s, v)
  {
    match Member(s, "type") {
      case None => ok := true;
      case Some(t) =>
        match t {
          case Str(name) => ok := TypeMatches(name, v);
          case Array(names) => ok := AnyTypeMatches(names, v);
          case _ => ok := false;
        }
    }
  }

  method CheckRequired(s: Json, o: map<string, Json>, path: string, errors: seq<Failure>) returns (out: seq<Failure>)
    ensures Reports(path, errors, out, RequiredOk(s, o), RequiredFailures(s, o, path))
  {
    out := errors;
    if ArrayMember(s, "required").None? {
      return;
    }
    var names := ArrayMember(s, "required").value;
    for i := 0 to |names|
      invariant Reports(path, errors, out, PresentUpTo(names, i, o), Missing(names, i, o, path))
    {
      if names[i].Str? {
        var next := CheckChild(names[i].text in o, path, names[i].text, "required", out);
        Then(path, errors, out, next, PresentUpTo(names, i, o), names[i].text in o,
             Missing(names, i, o, path), Below(names[i].text in o, path, names[i].text, "required"));
        out := next;
      }
      OneMoreName(names, i, o, path);
    }
  }

  ghost predicate PresentUpTo(names: seq<Json>, n: nat, o: map<string, Json>)
    requires n <= |names|
  {
    forall j :: 0 <= j < n && names[j].Str? ==> names[j].text in o
  }

  lemma OneMoreName(names: seq<Json>, i: nat, o: map<string, Json>, path: string)
    requires i < |names|
    ensures Missing(names, i + 1, o, path) ==
            Missing(names, i, o, path)
            + if names[i].Str? then Below(names[i].text in o, path, names[i].text, "required") else iset{}
  {
  }

  method HasRepeat(xs: seq<Json>) returns (repeat: bool)
    ensures repeat <==> !Distinct(xs)
  {
    for i := 0 to |xs|
      invariant forall j, k :: 0 <= j < k < i ==> xs[j] != xs[k]
    {
      if xs[i] in xs[..i] {
        return true;
      }
    }
    repeat := false;
  }

  /** `check_count`, for a lower and an upper keyword in turn. */
  method CheckCounts(s: Json, least: string, most: string, n: nat, path: string, errors: seq<Failure>)
    returns (out: seq<Failure>)
    ensures Reports(path, errors, out, CountsOk(s, least, most, n), CountFailures(s, least, most, n, path))
  {
    var low, high := CountBound(s, least), CountBound(s, most);
    var enough, few := low.Some? ==> low.value <= n, high.Some? ==> n <= high.value;
    var mid := Check(enough, path, least, errors);
    out := Check(few, path, most, mid);
    Then(path, errors, mid, out, enough, few, Here(enough, path, least), Here(few, path, most));
  }

  /** `validate_number`: the four bounds in turn. */
  method CheckNumber(s: Json, x: real, path: string, errors: seq<Failure>) returns (out: seq<Failure>)
    ensures Reports(path, errors, out, BoundsOk(s, x), BoundFailures(s, x, 4, path))
  {
    out := errors;
    for i := 0 to 4
      invariant Reports(path, errors, out, BoundsUpTo(s, i, x), BoundFailures(s, x, i, path))
    {
      var next := Check(BoundOk(s, i, x), path, BOUNDS[i], out);
      Then(path, errors, out, next, BoundsUpTo(s, i, x), BoundOk(s, i, x),
           BoundFailures(s, x, i, path), Here(BoundOk(s, i, x), path, BOUNDS[i]));
      OneMoreBound(s, i, x, path);
      out := next;
    }
    assert BoundsOk(s, x) <==> BoundOk(s, 0, x) && BoundOk(s, 1, x) && BoundOk(s, 2, x) && BoundOk(s, 3, x);
  }

  ghost predicate BoundsUpTo(s: Json, n: nat, x: real)
    requires n <= 4
  {
    forall j :: 0 <= j < n ==> BoundOk(s, j, x)
  }

  lemma OneMoreBound(s: Json, i: nat, x: real, path: string)
    requires i < 4
    ensures BoundFailures(s, x, i + 1, path) == BoundFailures(s, x, i, path) + Here(BoundOk(s, i, x), path, BOUNDS[i])
  {
  }

  // ----- The recursive checks -----------------------------------------------------------------

  lemma ListsAreSupported(s: Json)
    requires Supported(s)
    ensures ListKeywordOk(s, "allOf") && ListKeywordOk(s, "anyOf") && ListKeywordOk(s, "oneOf")
  {
    assert SubschemasOk(s);
  }

  /** The schemas under a combinator, each supported and below the schema itself. */
  method SubschemaList(s: Json, key: string) returns (xs: seq<Json>)
    requires ListKeywordOk(s, key) && ArrayMember(s, key).Some?
    ensures xs == ArrayMember(s, key).value
    ensures forall i :: 0 <= i < |xs| ==> Supported(xs[i]) && (s decreases to xs[i])
  {
    xs := ArrayMember(s, key).value;
  }

  method CheckAllOf(s: Json, v: Json, path: string, errors: seq<Failure>) returns (out: seq<Failure>)
    requires Supported(s)
    ensures Reports(path, errors, out, AllOfOk(s, v), AllOfFailures(s, v, path))
    decreases s, 0
  {
    out := errors;
    if ArrayMember(s, "allOf").None? {
      return;
    }
    ListsAreSupported(s);
    var xs := SubschemaList(s, "allOf");
    for i := 0 to |xs|
      invariant Reports(path, errors, out, AllSatisfy(xs[..i], v), AllFailures(s, v, i, path))
    {
      var next := ValidateValue(xs[i], v, path, out);
      OneMoreSatisfies(xs, v, i);
      Then(path, errors, out, next, AllSatisfy(xs[..i], v), Satisfies(xs[i], v),
           AllFailures(s, v, i, path), Failures(xs[i], v, path));
      OneMoreSchema(s, v, i, path);
      out := next;
    }
    assert xs[..|xs|] == xs;
  }

  lemma OneMoreSchema(s: Json, v: Json, i: nat, path: string)
    requires ArrayMember(s, "allOf").Some? && i < |ArrayMember(s, "allOf").value|
    ensures AllFailures(s, v, i + 1, path) ==
            AllFailures(s, v, i, path) + Failures(ArrayMember(s, "allOf").value[i], v, path)
  {
  }

  ghost predicate AllSatisfy(xs: seq<Json>, v: Json) {
    forall i :: 0 <= i < |xs| ==> Satisfies(xs[i], v)
  }

  lemma OneMoreSatisfies(xs: seq<Json>, v: Json, i: nat)
    requires i < |xs|
    ensures AllSatisfy(xs[..i + 1], v) <==> AllSatisfy(xs[..i], v) && Satisfies(xs[i], v)
  {
    assert xs[..i + 1] == xs[..i] + [xs[i]];
  }

  method CheckAnyOf(s: Json, v: Json, path: string, errors: seq<Failure>) returns (out: seq<Failure>)
    requires Supported(s)
    ensures Reports(path, errors, out, AnyOfOk(s, v), Here(AnyOfOk(s, v), path, "anyOf"))
    decreases s, 0
  {
    if ArrayMember(s, "anyOf").None? {
      return errors;
    }
    ListsAreSupported(s);
    var xs := SubschemaList(s, "anyOf");
    var found := false;
    var i := 0;
    while i < |xs| && !found
      invariant i <= |xs|
      invariant found <==> exists j :: 0 <= j < i && Satisfies(xs[j], v)
    {
      found := IsValid(xs[i], v);
      i := i + 1;
    }
    out := Check(found, path, "anyOf", errors);
  }

  method CheckOneOf(s: Json, v: Json, path: string, errors: seq<Failure>) returns (out: seq<Failure>)
    requires Supported(s)
    ensures Reports(path, errors, out, OneOfOk(s, v), Here(OneOfOk(s, v), path, "oneOf"))
    decreases s, 1
  {
    if ArrayMember(s, "oneOf").None? {
      return errors;
    }
    ListsAreSupported(s);
    var matches, hits := CountMatches(s, "oneOf", v);
    OneOfCounts(s, v, hits);
    out := Check(matches == 1, path, "oneOf", errors);
  }

  method CountMatches(s: Json, key: string, v: Json) returns (matches: nat, ghost hits: set<nat>)
    requires ListKeywordOk(s, key) && ArrayMember(s, key).Some?
    ensures matches == |hits| && Hits(ArrayMember(s, key).value, v, |ArrayMember(s, key).value|, hits)
    decreases s, 0
  {
    var xs := SubschemaList(s, key);
    matches, hits := 0, {};
    for i := 0 to |xs|
      invariant |hits| == matches && Hits(xs, v, i, hits)
    {
      var hit := IsValid(xs[i], v);
      if hit {
        hits := hits + {i};
        matches := matches + 1;
      }
    }
  }

  /** The indices below `n` whose schema the value satisfies. */
  ghost predicate Hits(xs: seq<Json>, v: Json, n: nat, hits: set<nat>)
    requires n <= |xs|
  {
    forall j :: j in hits <==> 0 <= j < n && Satisfies(xs[j], v)
  }

  lemma OneOfCounts(s: Json, v: Json, hits: set<nat>)
    requires ArrayMember(s, "oneOf").Some?
    requires Hits(ArrayMember(s, "oneOf").value, v, |ArrayMember(s, "oneOf").value|, hits)
    ensures OneOfOk(s, v) <==> |hits| == 1
  {
    ExactlyOne(hits);
    var xs := ArrayMember(s, "oneOf").value;
    assert (exists i :: i in hits) <==> exists i :: 0 <= i < |xs| && Satisfies(xs[i], v);
  }

  lemma ExactlyOne(hits: set<nat>)
    ensures |hits| == 1 <==> (exists i :: i in hits) && forall i, j :: i in hits && j in hits ==> i == j
  {
    if i :| i in hits {
      assert hits == {i} + (hits - {i});
      if j :| j in hits - {i} {
        assert |hits - {i}| == 1 + |hits - {i} - {j}|;
      }
    }
  }

  method CheckNot(s: Json, v: Json, path: string, errors: seq<Failure>) returns (out: seq<Failure>)
    requires Supported(s)
    ensures Reports(path, errors, out, NotOk(s, v), Here(NotOk(s, v), path, "not"))
    decreases s, 0
  {
    if Member(s, "not").None? {
      return errors;
    }
    var hit := IsValid(Member(s, "not").value, v);
    out := Check(!hit, path, "not", errors);
  }

  method CheckCombinators(s: Json, v: Json, path: string, errors: seq<Failure>) returns (out: seq<Failure>)
    requires Supported(s)
    ensures Reports(path, errors, out, CombinatorsOk(s, v), CombinatorFailures(s, v, path))
    decreases s, 2
  {
    var a := CheckAllOf(s, v, path, errors);
    var b := CheckAnyOf(s, v, path, a);
    ghost var ab := AllOfFailures(s, v, path) + Here(AnyOfOk(s, v), path, "anyOf");
    Then(path, errors, a, b, AllOfOk(s, v), AnyOfOk(s, v), AllOfFailures(s, v, path), Here(AnyOfOk(s, v), path, "anyOf"));
    var c := CheckOneOf(s, v, path, b);
    ghost var abc := ab + Here(OneOfOk(s, v), path, "oneOf");
    Then(path, errors, b, c, AllOfOk(s, v) && AnyOfOk(s, v), OneOfOk(s, v), ab, Here(OneOfOk(s, v), path, "oneOf"));
    out := CheckNot(s, v, path, c);
    Then(path, errors, c, out, AllOfOk(s, v) && AnyOfOk(s, v) && OneOfOk(s, v), NotOk(s, v),
         abc, Here(NotOk(s, v), path, "not"));
  }

  method CheckProperties(s: Json, o: map<string, Json>, path: string, errors: seq<Failure>)
    returns (out: seq<Failure>)
    requires Supported(s)
    ensures Reports(path, errors, out, PropertiesOk(s, o), PropertyFailures(s, o, path))
    decreases s, 0
  {
    out := errors;
    if ObjectMember(s, "properties").None? {
      return;
    }
    var ps := ObjectMember(s, "properties").value;
    var left := ps.Keys;
    while left != {}
      invariant left <= ps.Keys
      invariant Reports(path, errors, out, FineAmong(ps, o, ps.Keys - left), FailuresAmong(s, o, ps.Keys - left, path))
    {
      var k :| k in left;
      if k in o {
        var next := ValidateValue(ps[k], o[k], ChildPath(path, k), out);
        Lift(path, k, out, next, Satisfies(ps[k], o[k]), Failures(ps[k], o[k], ChildPath(path, k)));
        Then(path, errors, out, next, FineAmong(ps, o, ps.Keys - left), Satisfies(ps[k], o[k]),
             FailuresAmong(s, o, ps.Keys - left, path), Failures(ps[k], o[k], ChildPath(path, k)));
        out := next;
      }
      OneMoreProperty(s, o, ps.Keys - left, k, path);
      assert ps.Keys - (left - {k}) == ps.Keys - left + {k};
      left := left - {k};
    }
    assert ps.Keys - left == ps.Keys;
  }

  ghost predicate FineAmong(ps: map<string, Json>, o: map<string, Json>, ks: set<string>)
    requires ks <= ps.Keys
  {
    forall k :: k in ks && k in o ==> Satisfies(ps[k], o[k])
  }

  lemma OneMoreProperty(s: Json, o: map<string, Json>, ks: set<string>, k: string, path: string)
    requires ObjectMember(s, "properties").Some? && ks + {k} <= ObjectMember(s, "properties").value.Keys
    ensures var ps := ObjectMember(s, "properties").value;
            && FailuresAmong(s, o, ks + {k}, path) ==
               FailuresAmong(s, o, ks, path) + (if k in o then Failures(ps[k], o[k], ChildPath(path, k)) else iset{})
            && (FineAmong(ps, o, ks + {k}) <==> FineAmong(ps, o, ks) && (k in o ==> Satisfies(ps[k], o[k])))
  {
  }

  method CheckAdditional(s: Json, o: map<string, Json>, path: string, errors: seq<Failure>)
    returns (out: seq<Failure>)
    requires Supported(s)
    ensures Reports(path, errors, out, AdditionalOk(s, o), AdditionalFailures(s, o, o.Keys, path))
    decreases s, 1
  {
    out := errors;
    var left := o.Keys;
    while left != {}
      invariant left <= o.Keys
      invariant Reports(path, errors, out, AllowedAmong(s, o, o.Keys - left),
                        AdditionalFailures(s, o, o.Keys - left, path))
    {
      var k :| k in left;
      var next := CheckOneAdditional(s, k, o[k], path, out);
      Then(path, errors, out, next, AllowedAmong(s, o, o.Keys - left), OneAdditionalOk(s, k, o[k]),
           AdditionalFailures(s, o, o.Keys - left, path), OneAdditionalFailures(s, k, o[k], path));
      OneMoreMember(s, o, o.Keys - left, k, path);
      assert o.Keys - (left - {k}) == o.Keys - left + {k};
      out := next;
      left := left - {k};
    }
    assert o.Keys - left == o.Keys;
    AdditionalOneByOne(s, o);
  }

  ghost predicate AllowedAmong(s: Json, o: map<string, Json>, ks: set<string>)
    requires ks <= o.Keys
  {
    forall k :: k in ks ==> OneAdditionalOk(s, k, o[k])
  }

  lemma OneMoreMember(s: Json, o: map<string, Json>, ks: set<string>, k: string, path: string)
    requires ks + {k} <= o.Keys
    ensures AdditionalFailures(s, o, ks + {k}, path) ==
            AdditionalFailures(s, o, ks, path) + OneAdditionalFailures(s, k, o[k], path)
    ensures AllowedAmong(s, o, ks + {k}) <==> AllowedAmong(s, o, ks) && OneAdditionalOk(s, k, o[k])
  {
  }

  ghost predicate OneAdditionalOk(s: Json, key: string, v: Json) {
    IsDeclared(s, key) ||
    match Member(s, "additionalProperties")
    case Some(Bool(allowed)) => allowed
    case Some(Object(m)) => Satisfies(Member(s, "additionalProperties").value, v)
    case _ => true
  }

  lemma AdditionalOneByOne(s: Json, o: map<string, Json>)
    ensures AdditionalOk(s, o) <==> AllowedAmong(s, o, o.Keys)
  {
  }

  method CheckOneAdditional(s: Json, key: string, v: Json, path: string, errors: seq<Failure>)
    returns (out: seq<Failure>)
    requires Supported(s)
    ensures Reports(path, errors, out, OneAdditionalOk(s, key, v), OneAdditionalFailures(s, key, v, path))
    decreases s, 0
  {
    if IsDeclared(s, key) || Member(s, "additionalProperties").None? {
      return errors;
    }
    var additional := Member(s, "additionalProperties").value;
    match additional {
      case Bool(allowed) => out := CheckChild(allowed, path, key, "additionalProperties", errors);
      case Object(_) =>
        out := ValidateValue(additional, v, ChildPath(path, key), errors);
        Lift(path, key, errors, out, Satisfies(additional, v), Failures(additional, v, ChildPath(path, key)));
      case _ => out := errors;
    }
  }

  method ValidateObject(s: Json, o: map<string, Json>, path: string, errors: seq<Failure>)
    returns (out: seq<Failure>)
    requires Supported(s)
    ensures Reports(path, errors, out, ObjectOk(s, o), ObjectFailures(s, o, path))
    decreases s, 2
  {
    var a := CheckRequired(s, o, path, errors);
    var b := CheckProperties(s, o, path, a);
    Then(path, errors, a, b, RequiredOk(s, o), PropertiesOk(s, o),
         RequiredFailures(s, o, path), PropertyFailures(s, o, path));
    out := CheckAdditional(s, o, path, b);
    Then(path, errors, b, out, RequiredOk(s, o) && PropertiesOk(s, o), AdditionalOk(s, o),
         RequiredFailures(s, o, path) + PropertyFailures(s, o, path), AdditionalFailures(s, o, o.Keys, path));
  }

  method CheckItems(s: Json, xs: seq<Json>, path: string, errors: seq<Failure>) returns (out: seq<Failure>)
    requires Supported(s)
    ensures Reports(path, errors, out, ItemsOk(s, xs), ItemFailures(s, xs, |xs|, path))
    decreases s, 0
  {
    out := errors;
    if Member(s, "items").None? {
      return;
    }
    var items := Member(s, "items").value;
    for i := 0 to |xs|
      invariant Reports(path, errors, out, ItemsUpTo(items, xs, i), ItemFailures(s, xs, i, path))
    {
      var next := ValidateValue(items, xs[i], ChildPath(path, Decimal(i)), out);
      ghost var fs := Failures(items, xs[i], ChildPath(path, Decimal(i)));
      Lift(path, Decimal(i), out, next, Satisfies(items, xs[i]), fs);
      Then(path, errors, out, next, ItemsUpTo(items, xs, i), Satisfies(items, xs[i]), ItemFailures(s, xs, i, path), fs);
      OneMoreItem(s, xs, i, path);
      out := next;
    }
  }

  ghost predicate ItemsUpTo(items: Json, xs: seq<Json>, n: nat)
    requires n <= |xs|
  {
    forall j :: 0 <= j < n ==> Satisfies(items, xs[j])
  }

  lemma OneMoreItem(s: Json, xs: seq<Json>, i: nat, path: string)
    requires Member(s, "items").Some? && i < |xs|
    ensures ItemFailures(s, xs, i + 1, path) ==
            ItemFailures(s, xs, i, path) + Failures(Member(s, "items").value, xs[i], ChildPath(path, Decimal(i)))
  {
  }

  method ValidateArray(s: Json, xs: seq<Json>, path: string, errors: seq<Failure>) returns (out: seq<Failure>)
    requires Supported(s)
    ensures Reports(path, errors, out, ArrayOk(s, xs), ArrayFailures(s, xs, path))
    decreases s, 1
  {
    var a := CheckItems(s, xs, path, errors);
    var repeat := HasRepeat(xs);
    var b := Check(Member(s, "uniqueItems") == Some(Bool(true)) ==> !repeat, path, "uniqueItems", a);
    ghost var fs := ItemFailures(s, xs, |xs|, path);
    ghost var gs := Here(UniqueOk(s, xs), path, "uniqueItems");
    Then(path, errors, a, b, ItemsOk(s, xs), UniqueOk(s, xs), fs, gs);
    out := CheckCounts(s, "minItems", "maxItems", |xs|, path, b);
    Then(path, errors, b, out, ItemsOk(s, xs) && UniqueOk(s, xs), CountsOk(s, "minItems", "maxItems", |xs|),
         fs + gs, CountFailures(s, "minItems", "maxItems", |xs|, path));
  }

  method CheckKind(s: Json, v: Json, path: string, errors: seq<Failure>) returns (out: seq<Failure>)
    requires Supported(s)
    ensures Reports(path, errors, out, KindOk(s, v), KindFailures(s, v, path))
    decreases s, 3
  {
    match v {
      case Object(o) => out := ValidateObject(s, o, path, errors);
      case Array(xs) => out := ValidateArray(s, xs, path, errors);
      case Str(t) => out := CheckCounts(s, "minLength", "maxLength", |t|, path, errors);
      case Num(x) => out := CheckNumber(s, AsF64(x), path, errors);
      case _ => out := errors;
    }
  }

  /** `validate_value`: on a supported schema, failures are only appended, below `path`, and none is
      appended exactly when the value satisfies the schema. */
  method ValidateValue(s: Json, v: Json, path: string, errors: seq<Failure>) returns (out: seq<Failure>)
    requires Supported(s)
    ensures Reports(path, errors, out, Satisfies(s, v), Failures(s, v, path))
    decreases s, 4
  {
    var typed := MatchesType(s, v);
    if !typed {
      out := Check(false, path, "type", errors);
      return;
    }
    var a := Check(EnumOk(s, v), path, "enum", errors);
    var b := Check(ConstOk(s, v), path, "const", a);
    ghost var ab := Here(EnumOk(s, v), path, "enum") + Here(ConstOk(s, v), path, "const");
    Then(path, errors, a, b, EnumOk(s, v), ConstOk(s, v),
         Here(EnumOk(s, v), path, "enum"), Here(ConstOk(s, v), path, "const"));
    var c := CheckCombinators(s, v, path, b);
    Then(path, errors, b, c, EnumOk(s, v) && ConstOk(s, v), CombinatorsOk(s, v), ab, CombinatorFailures(s, v, path));
    out := CheckKind(s, v, path, c);
    Then(path, errors, c, out, EnumOk(s, v) && ConstOk(s, v) && CombinatorsOk(s, v), KindOk(s, v),
         ab + CombinatorFailures(s, v, path), KindFailures(s, v, path));
  }

  method IsValid(s: Json, v: Json) returns (ok: bool)
    requires Supported(s)
    ensures ok <==> Satisfies(s, v)
    decreases s, 5
  {
    var errors := ValidateValue(s, v, "", []);
    ok := errors == [];
  }

  // ----- The schema checker -------------------------------------------------------------------

  method SupportedList(s: Json, key: string) returns (ok: bool)
    ensures ok <==> ListKeywordOk(s, key)
    decreases s, 0
  {
    if Member(s, key).None? {
      return true;
    }
    if ArrayMember(s, key).None? {
      return false;
    }
    var xs := ArrayMember(s, key).value;
    for i := 0 to |xs|
      invariant forall j :: 0 <= j < i ==> Supported(xs[j])
    {
      var fine := ValidateSchema(xs[i]);
      if !fine {
        return false;
      }
    }
    ok := true;
  }

  method SupportedProperties(s: Json) returns (ok: bool)
    ensures ok <==> (Member(s, "properties").Some? ==>
                       && ObjectMember(s, "properties").Some?
                       && forall k :: k in ObjectMember(s, "properties").value ==>
                                        Supported(ObjectMember(s, "properties").value[k]))
    decreases s, 0
  {
    if Member(s, "properties").None? {
      return true;
    }
    if ObjectMember(s, "properties").None? {
      return false;
    }
    var ps := ObjectMember(s, "properties").value;
    var left := ps.Keys;
    while left != {}
      invariant left <= ps.Keys
      invariant forall k :: k in ps && k !in left ==> Supported(ps[k])
    {
      var k :| k in left;
      var fine := ValidateSchema(ps[k]);
      if !fine {
        return false;
      }
      left := left - {k};
    }
    ok := true;
  }

  method SupportedMember(s: Json, key: string, orBool: bool) returns (ok: bool)
    ensures ok <==> (Member(s, key).Some? ==> (orBool && Member(s, key).value.Bool?) || Supported(Member(s, key).value))
    decreases s, 0
  {
    if Member(s, key).None? || (orBool && Member(s, key).value.Bool?) {
      return true;
    }
    ok := ValidateSchema(Member(s, key).value);
  }

  method OnlyAllowedKeywords(members: map<string, Json>) returns (ok: bool)
    ensures ok <==> members.Keys <= ALLOWED
  {
    var left := members.Keys;
    while left != {}
      invariant left <= members.Keys && members.Keys - left <= ALLOWED
    {
      var k :| k in left;
      if k !in ALLOWED {
        return false;
      }
      left := left - {k};
    }
    ok := true;
  }

  /** Distinct strings, by a growing set of names. */
  method RequiredNames(r: Json) returns (ok: bool)
    ensures ok <==> RequiredKeywordOk(r)
  {
    if !r.Array? {
      return false;
    }
    var names: set<string> := {};
    for i := 0 to |r.items|
      invariant forall j :: 0 <= j < i ==> r.items[j].Str? && r.items[j].text in names
      invariant forall name :: name in names ==> Str(name) in r.items[..i]
      invariant Distinct(r.items[..i])
    {
      var item := r.items[i];
      assert r.items[..i + 1] == r.items[..i] + [item];
      if !item.Str? {
        return false;
      }
      if item.text in names {
        assert Str(item.text) in r.items[..i];
        return false;
      }
      names := names + {item.text};
    }
    assert r.items[..|r.items|] == r.items;
    ok := true;
  }

  method ScalarKeywords(s: Json) returns (ok: bool)
    ensures ok <==> ScalarsOk(s)
  {
    if Member(s, "required").Some? {
      var names := RequiredNames(Member(s, "required").value);
      if !names {
        return false;
      }
    }
    ok := && (Member(s, "type").Some? ==> TypeKeywordOk(Member(s, "type").value))
          && (Member(s, "enum").Some? ==> Member(s, "enum").value.Array?)
          && (forall k :: k in COUNTS && Member(s, k).Some? ==> CountBound(s, k).Some?)
          && (forall k :: k in BOUNDS && Member(s, k).Some? ==> NumberBound(s, k).Some?)
          && (Member(s, "uniqueItems").Some? ==> Member(s, "uniqueItems").value.Bool?);
  }

  /** `validate_schema` accepts exactly the supported schemas. */
  method ValidateSchema(s: Json) returns (ok: bool)
    ensures ok <==> Supported(s)
    decreases s, 2
  {
    if !s.Object? {
      return false;
    }
    var allowed := OnlyAllowedKeywords(s.members);
    var scalars := ScalarKeywords(s);
    if !allowed || !scalars {
      return false;
    }
    ok := SupportedSubschemas(s);
  }

  method SupportedSubschemas(s: Json) returns (ok: bool)
    ensures ok <==> SubschemasOk(s)
    decreases s, 1
  {
    var properties := SupportedProperties(s);
    var additional := SupportedMember(s, "additionalProperties", true);
    var items := SupportedMember(s, "items", false);
    var negated := SupportedMember(s, "not", false);
    var all := SupportedList(s, "allOf");
    var any := SupportedList(s, "anyOf");
    var one := SupportedList(s, "oneOf");
    ok := properties && additional && items && negated && all && any && one;
  }

  datatype Verdict = Valid | InvalidSchema | InvalidJson | Violations(failures: seq<Failure>)

  /** `validate_tool_arguments`, over the parsed arguments if they parse. */
  method ValidateToolArguments(schema: Json, arguments: Option<Json>) returns (r: Verdict)
    ensures r.InvalidSchema? <==> !Supported(schema)
    ensures r.InvalidJson? <==> Supported(schema) && arguments.None?
    ensures r.Valid? <==> Supported(schema) && arguments.Some? && Satisfies(schema, arguments.value)
    ensures r.Violations? ==> r.failures != []
    ensures r.Violations? ==> forall f :: f in r.failures <==> f in Failures(schema, arguments.value, "")
  {
    var fine := ValidateSchema(schema);
    if !fine {
      return InvalidSchema;
    }
    if arguments.None? {
      return InvalidJson;
    }
    var errors := ValidateValue(schema, arguments.value, "", []);
    assert errors[0..] == errors;
    r := if errors == [] then Valid else Violations(errors);
  }
}
