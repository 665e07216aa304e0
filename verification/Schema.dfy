/** The meaning of the supported JSON Schema keywords, and which schemas are supported:
    crates/tea-core/src/schema_validation.rs, values from crates/tea-protocol/src/json.rs. */
module Schema {
  import opened Wrappers

  datatype Number = Signed(i: int) | Unsigned(n: nat) | Float(r: real)

  datatype Json =
    | Null
    | Bool(b: bool)
    | Num(number: Number)
    | Str(text: string)
    | Array(items: seq<Json>)
    | Object(members: map<string, Json>)

  function Member(s: Json, key: string): Option<Json> {
    if s.Object? && key in s.members then Some(s.members[key]) else None
  }

  function ArrayMember(s: Json, key: string): Option<seq<Json>> {
    if Member(s, key).Some? && Member(s, key).value.Array? then Some(Member(s, key).value.items) else None
  }

  function ObjectMember(s: Json, key: string): Option<map<string, Json>> {
    if Member(s, key).Some? && Member(s, key).value.Object? then Some(Member(s, key).value.members) else None
  }

  // ----- Numbers as doubles -------------------------------------------------------------------

  const TWO_53: nat := 0x20_0000_0000_0000

  /** The gap between doubles at an integer's magnitude. */
  function Gap(n: nat): (g: nat)
    ensures g >= 1
  {
    if n < TWO_53 then 1 else 2 * Gap(n / 2)
  }

  /** Between the multiples `q` and `q + 1` of `g`: the nearest, on a tie the even one. */
  function Nearest(q: nat, r: nat, g: nat): nat {
    if 2 * r < g || (2 * r == g && q % 2 == 0) then q * g else (q + 1) * g
  }

  /** Integer to double. */
  function Rounded(n: nat): nat {
    Nearest(n / Gap(n), n % Gap(n), Gap(n))
  }

  function AsF64(x: Number): real {
    match x
    case Signed(i) => if i >= 0 then Rounded(i) as real else -(Rounded(-i) as real)
    case Unsigned(n) => Rounded(n) as real
    case Float(r) => r
  }

  // ----- The meaning of a schema --------------------------------------------------------------

  predicate TypeMatches(name: string, v: Json) {
    match v
    case Null => name == "null"
    case Bool(_) => name == "boolean"
    case Num(x) => name == "number" || (name == "integer" && !x.Float?)
    case Str(_) => name == "string"
    case Array(_) => name == "array"
    case Object(_) => name == "object"
  }

  predicate SupportedType(name: string) {
    name in {"null", "boolean", "integer", "number", "string", "array", "object"}
  }

  ghost predicate TypeOk(s: Json, v: Json) {
    match Member(s, "type")
    case None => true
    case Some(Str(name)) => TypeMatches(name, v)
    case Some(Array(names)) => exists i :: 0 <= i < |names| && names[i].Str? && TypeMatches(names[i].text, v)
    case Some(_) => false
  }

  predicate EnumOk(s: Json, v: Json) {
    ArrayMember(s, "enum").Some? ==> v in ArrayMember(s, "enum").value
  }

  predicate ConstOk(s: Json, v: Json) {
    Member(s, "const").Some? ==> v == Member(s, "const").value
  }

  ghost predicate AllOfOk(s: Json, v: Json)
    decreases s, 0
  {
    var xs := ArrayMember(s, "allOf");
    xs.Some? ==> forall i :: 0 <= i < |xs.value| ==> Satisfies(xs.value[i], v)
  }

  ghost predicate AnyOfOk(s: Json, v: Json)
    decreases s, 0
  {
    var xs := ArrayMember(s, "anyOf");
    xs.Some? ==> exists i :: 0 <= i < |xs.value| && Satisfies(xs.value[i], v)
  }

  ghost predicate OneOfOk(s: Json, v: Json)
    decreases s, 0
  {
    var xs := ArrayMember(s, "oneOf");
    xs.Some? ==>
      && (exists i :: 0 <= i < |xs.value| && Satisfies(xs.value[i], v))
      && (forall i, j :: 0 <= i < j < |xs.value| ==> !Satisfies(xs.value[i], v) || !Satisfies(xs.value[j], v))
  }

  ghost predicate NotOk(s: Json, v: Json)
    decreases s, 0
  {
    Member(s, "not").Some? ==> !Satisfies(Member(s, "not").value, v)
  }

  ghost predicate RequiredOk(s: Json, o: map<string, Json>) {
    var names := ArrayMember(s, "required");
    names.Some? ==> forall i :: 0 <= i < |names.value| && names.value[i].Str? ==> names.value[i].text in o
  }

  ghost predicate PropertiesOk(s: Json, o: map<string, Json>)
    decreases s, 0
  {
    var ps := ObjectMember(s, "properties");
    ps.Some? ==> forall k :: k in ps.value && k in o ==> Satisfies(ps.value[k], o[k])
  }

  predicate IsDeclared(s: Json, key: string) {
    ObjectMember(s, "properties").Some? && key in ObjectMember(s, "properties").value
  }

  ghost predicate AdditionalOk(s: Json, o: map<string, Json>)
    decreases s, 0
  {
    match Member(s, "additionalProperties")
    case Some(Bool(allowed)) => allowed || forall k :: k in o ==> IsDeclared(s, k)
    case Some(Object(m)) => forall k :: k in o && !IsDeclared(s, k) ==> Satisfies(Member(s, "additionalProperties").value, o[k])
    case _ => true
  }

  ghost predicate ItemsOk(s: Json, xs: seq<Json>)
    decreases s, 0
  {
    Member(s, "items").Some? ==> forall i :: 0 <= i < |xs| ==> Satisfies(Member(s, "items").value, xs[i])
  }

  predicate Distinct(xs: seq<Json>) {
    forall i, j :: 0 <= i < j < |xs| ==> xs[i] != xs[j]
  }

  predicate UniqueOk(s: Json, xs: seq<Json>) {
    Member(s, "uniqueItems") == Some(Bool(true)) ==> Distinct(xs)
  }

  function CountBound(s: Json, key: string): Option<nat> {
    var b := Member(s, key);
    if b.Some? && b.value.Num? && b.value.number.Unsigned? then Some(b.value.number.n) else None
  }

  predicate CountsOk(s: Json, least: string, most: string, n: nat) {
    && (CountBound(s, least).Some? ==> CountBound(s, least).value <= n)
    && (CountBound(s, most).Some? ==> n <= CountBound(s, most).value)
  }

  function NumberBound(s: Json, key: string): Option<real> {
    var b := Member(s, key);
    if b.Some? && b.value.Num? then Some(AsF64(b.value.number)) else None
  }

  predicate BoundsOk(s: Json, x: real) {
    && (NumberBound(s, "minimum").Some? ==> NumberBound(s, "minimum").value <= x)
    && (NumberBound(s, "maximum").Some? ==> x <= NumberBound(s, "maximum").value)
    && (NumberBound(s, "exclusiveMinimum").Some? ==> NumberBound(s, "exclusiveMinimum").value < x)
    && (NumberBound(s, "exclusiveMaximum").Some? ==> x < NumberBound(s, "exclusiveMaximum").value)
  }

  ghost predicate ObjectOk(s: Json, o: map<string, Json>)
    decreases s, 1
  {
    RequiredOk(s, o) && PropertiesOk(s, o) && AdditionalOk(s, o)
  }

  ghost predicate ArrayOk(s: Json, xs: seq<Json>)
    decreases s, 1
  {
    ItemsOk(s, xs) && UniqueOk(s, xs) && CountsOk(s, "minItems", "maxItems", |xs|)
  }

  ghost predicate CombinatorsOk(s: Json, v: Json)
    decreases s, 1
  {
    AllOfOk(s, v) && AnyOfOk(s, v) && OneOfOk(s, v) && NotOk(s, v)
  }

  ghost predicate KindOk(s: Json, v: Json)
    decreases s, 2
  {
    match v
    case Object(o) => ObjectOk(s, o)
    case Array(xs) => ArrayOk(s, xs)
    case Str(t) => CountsOk(s, "minLength", "maxLength", |t|)
    case Num(x) => BoundsOk(s, AsF64(x))
    case _ => true
  }

  /** The value satisfies every keyword of the schema. */
  ghost predicate Satisfies(s: Json, v: Json)
    decreases s, 3
  {
    TypeOk(s, v) && EnumOk(s, v) && ConstOk(s, v) && CombinatorsOk(s, v) && KindOk(s, v)
  }

  // ----- Supported schemas --------------------------------------------------------------------

  const ALLOWED: set<string> := {
    "$comment", "$id", "$schema", "additionalProperties", "allOf", "anyOf", "const", "default", "deprecated",
    "description", "enum", "examples", "exclusiveMaximum", "exclusiveMinimum", "items", "maxItems", "maxLength",
    "maximum", "minItems", "minLength", "minimum", "not", "oneOf", "properties", "required", "title", "type",
    "uniqueItems"
  }

  predicate TypeKeywordOk(t: Json) {
    match t
    case Str(name) => SupportedType(name)
    case Array(names) => names != [] && forall i :: 0 <= i < |names| ==> names[i].Str? && SupportedType(names[i].text)
    case _ => false
  }

  predicate RequiredKeywordOk(r: Json) {
    && r.Array? && (forall i :: 0 <= i < |r.items| ==> r.items[i].Str?) && Distinct(r.items)
  }

  /** The keywords whose values are not schemas are well formed. */
  predicate ScalarsOk(s: Json) {
    && (Member(s, "type").Some? ==> TypeKeywordOk(Member(s, "type").value))
    && (Member(s, "required").Some? ==> RequiredKeywordOk(Member(s, "required").value))
    && (Member(s, "enum").Some? ==> Member(s, "enum").value.Array?)
    && (forall k :: k in COUNTS && Member(s, k).Some? ==> CountBound(s, k).Some?)
    && (forall k :: k in BOUNDS && Member(s, k).Some? ==> NumberBound(s, k).Some?)
    && (Member(s, "uniqueItems").Some? ==> Member(s, "uniqueItems").value.Bool?)
  }

  const COUNTS: seq<string> := ["minItems", "maxItems", "minLength", "maxLength"]
  const BOUNDS: seq<string> := ["minimum", "maximum", "exclusiveMinimum", "exclusiveMaximum"]

  ghost predicate SubschemasOk(s: Json)
    decreases s, 1
  {
    && (Member(s, "properties").Some? ==>
          && ObjectMember(s, "properties").Some?
          && forall k :: k in ObjectMember(s, "properties").value ==> Supported(ObjectMember(s, "properties").value[k]))
    && (Member(s, "additionalProperties").Some? ==>
          Member(s, "additionalProperties").value.Bool? || Supported(Member(s, "additionalProperties").value))
    && (Member(s, "items").Some? ==> Supported(Member(s, "items").value))
    && (Member(s, "not").Some? ==> Supported(Member(s, "not").value))
    && ListKeywordOk(s, "allOf") && ListKeywordOk(s, "anyOf") && ListKeywordOk(s, "oneOf")
  }

  ghost predicate ListKeywordOk(s: Json, key: string)
    decreases s, 0
  {
    Member(s, key).Some? ==>
      ArrayMember(s, key).Some? &&
      forall i :: 0 <= i < |ArrayMember(s, key).value| ==> Supported(ArrayMember(s, key).value[i])
  }

  /** Every keyword is a supported one with a well-formed value, all the way down. */
  ghost predicate Supported(s: Json)
    decreases s, 2
  {
    s.Object? && s.members.Keys <= ALLOWED && ScalarsOk(s) && SubschemasOk(s)
  }
}
