/** What comparing integers as doubles does to schema bounds: crates/tea-core/src/schema_validation.rs
    compares, crates/tea-protocol/src/json.rs converts. */
module NumberBounds {
  import opened Wrappers
  import opened Schema

  // ----- Gaps between doubles -----------------------------------------------------------------

  lemma {:induction false} GapRange(n: nat)
    ensures n < TWO_53 * Gap(n)
    ensures Gap(n) > 1 ==> 2 * n >= TWO_53 * Gap(n)
  {
    if n < TWO_53 {
    } else {
      GapRange(n / 2);
    }
  }

  lemma {:induction false} GapGrows(n: nat, m: nat)
    requires n <= m
    ensures Gap(n) == Gap(m) || 2 * Gap(n) <= Gap(m)
  {
    if n < TWO_53 {
    } else {
      GapGrows(n / 2, m / 2);
    }
  }

  lemma Quotient(n: nat, g: nat)
    requires g > 0
    ensures n == (n / g) * g + n % g && 0 <= n % g < g
  {
  }

  lemma Times(a: nat, b: nat, g: nat)
    requires a <= b
    ensures a * g <= b * g
  {
  }

  lemma QuotientBelow(n: nat, g: nat, t: nat)
    requires g > 0
    ensures n < t * g ==> n / g < t
  {
    Quotient(n, g);
    if t <= n / g {
      Times(t, n / g, g);
    }
  }

  lemma QuotientAbove(n: nat, g: nat, t: nat)
    requires g > 0
    ensures t * g <= n ==> t <= n / g
  {
    Quotient(n, g);
    if n / g + 1 <= t {
      Times(n / g + 1, t, g);
      assert (n / g + 1) * g == (n / g) * g + g;
    }
  }

  /** Rounding stays between the two multiples of the gap around the integer. */
  lemma RoundedIsNear(n: nat)
    ensures (n / Gap(n)) * Gap(n) <= Rounded(n) <= (n / Gap(n) + 1) * Gap(n)
  {
    Times(n / Gap(n), n / Gap(n) + 1, Gap(n));
  }

  lemma RoundedRange(n: nat)
    ensures Rounded(n) <= TWO_53 * Gap(n)
    ensures Gap(n) > 1 ==> 2 * Rounded(n) >= TWO_53 * Gap(n)
  {
    var g := Gap(n);
    GapRange(n);
    RoundedIsNear(n);
    QuotientBelow(n, g, TWO_53);
    Times(n / g + 1, TWO_53, g);
    if g > 1 {
      QuotientAbove(n, g, TWO_53 / 2);
      Times(TWO_53 / 2, n / g, g);
    }
  }

  lemma NearestIsMonotone(q: nat, r: nat, q': nat, r': nat, g: nat)
    requires q < q' || (q == q' && r <= r')
    ensures Nearest(q, r, g) <= Nearest(q', r', g)
  {
    Times(q, q + 1, g);
    Times(q', q' + 1, g);
    if q < q' {
      Times(q + 1, q', g);
    }
  }

  lemma SameGapIsMonotone(n: nat, m: nat)
    requires n <= m && Gap(n) == Gap(m)
    ensures Rounded(n) <= Rounded(m)
  {
    ToGapIsMonotone(n, m, Gap(n));
  }

  lemma ToGapIsMonotone(n: nat, m: nat, g: nat)
    requires n <= m && g > 0
    ensures Nearest(n / g, n % g, g) <= Nearest(m / g, m % g, g)
  {
    DivisionIsMonotone(n, m, g);
    NearestIsMonotone(n / g, n % g, m / g, m % g, g);
  }

  lemma DivisionIsMonotone(n: nat, m: nat, g: nat)
    requires n <= m && g > 0
    ensures n / g < m / g || (n / g == m / g && n % g <= m % g)
  {
    var q, r := n / g, n % g;
    Quotient(n, g);
    QuotientAbove(m, g, q);
    Remainder(m, g, m / g, m % g);
    Remainder(n, g, q, r);
  }

  lemma Remainder(n: nat, g: nat, q: nat, r: nat)
    requires g > 0 && q == n / g && r == n % g
    ensures n == q * g + r
  {
  }

  /** Conversion to a double never reverses the order of two integers. */
  lemma RoundedIsMonotone(n: nat, m: nat)
    requires n <= m
    ensures Rounded(n) <= Rounded(m)
  {
    GapGrows(n, m);
    if Gap(n) == Gap(m) {
      SameGapIsMonotone(n, m);
    } else {
      RoundedRange(n);
      RoundedRange(m);
    }
  }

  lemma NearestIsExact(q: nat, r: nat, g: nat)
    requires r < g
    ensures Nearest(q, r, g) == q * g + r <==> r == 0
  {
    assert (q + 1) * g == q * g + g;
  }

  /** It is exact on the multiples of the gap, so up to two to the fifty-third. */
  lemma RoundedIsExact(n: nat)
    ensures Rounded(n) == n <==> n % Gap(n) == 0
    ensures n <= TWO_53 ==> Rounded(n) == n
  {
    Quotient(n, Gap(n));
    NearestIsExact(n / Gap(n), n % Gap(n), Gap(n));
    if n == TWO_53 {
      assert Gap(n / 2) == 1;
    }
  }

  // ----- When two integers become one double --------------------------------------------------

  predicate RoundsUp(n: nat) {
    var g := Gap(n);
    2 * (n % g) > g || (2 * (n % g) == g && (n / g) % 2 == 1)
  }

  /** Which multiple of its gap an integer is rounded to. */
  function Place(n: nat): nat {
    if RoundsUp(n) then n / Gap(n) + 1 else n / Gap(n)
  }

  lemma RoundedIsPlace(n: nat)
    ensures Rounded(n) == Place(n) * Gap(n)
  {
  }

  lemma PlaceRange(n: nat)
    ensures Place(n) <= TWO_53
    ensures Gap(n) > 1 ==> 2 * Place(n) >= TWO_53
  {
    GapRange(n);
    QuotientBelow(n, Gap(n), TWO_53);
    if Gap(n) > 1 {
      QuotientAbove(n, Gap(n), TWO_53 / 2);
    }
  }

  /** Two integers with the same gap, on the same side of the same middle, or either side of a
      multiple; or one rounded up to a power of two and the other down to it. */
  predicate Merges(n: nat, m: nat) {
    if Gap(n) == Gap(m) then
      || (n / Gap(n) == m / Gap(m) && RoundsUp(n) == RoundsUp(m))
      || (n / Gap(n) + 1 == m / Gap(m) && RoundsUp(n) && !RoundsUp(m))
    else
      && Gap(m) == 2 * Gap(n)
      && n / Gap(n) == TWO_53 - 1 && RoundsUp(n)
      && m / Gap(m) == TWO_53 / 2 && !RoundsUp(m)
  }

  lemma SameMultiple(p: nat, q: nat, g: nat)
    requires g > 0
    ensures p * g == q * g <==> p == q
  {
    if p < q {
      Times(p + 1, q, g);
      assert (p + 1) * g == p * g + g;
    }
    if q < p {
      Times(q + 1, p, g);
      assert (q + 1) * g == q * g + g;
    }
  }

  lemma SamePlace(n: nat, m: nat)
    requires n <= m && Gap(n) == Gap(m)
    ensures Place(n) == Place(m) <==> Merges(n, m)
  {
    DivisionIsMonotone(n, m, Gap(n));
  }

  lemma MergeAtPower(n: nat, m: nat)
    requires 2 * Gap(n) <= Gap(m)
    ensures Place(n) * Gap(n) == Place(m) * Gap(m) <==> Merges(n, m)
  {
    var g, h, p, q := Gap(n), Gap(m), Place(n), Place(m);
    PlaceRange(n);
    PlaceRange(m);
    PlacesMeet(g, h, p, q);
    QuotientBelow(n, g, TWO_53);
    GapRange(n);
    GapRange(m);
    QuotientAbove(m, h, TWO_53 / 2);
  }

  lemma PlacesMeet(g: nat, h: nat, p: nat, q: nat)
    requires 0 < 2 * g <= h && p <= TWO_53 && 2 * q >= TWO_53
    ensures p * g == q * h <==> h == 2 * g && p == TWO_53 && 2 * q == TWO_53
  {
    var half := TWO_53 / 2;
    Times(p, TWO_53, g);
    assert TWO_53 * g == half * (2 * g);
    Times(half, q, h);
    assert half * (2 * g) <= half * h;
    if p * g == q * h {
      SameMultiple(p, TWO_53, g);
      SameMultiple(q, half, h);
      assert half * (2 * g) == half * h;
    }
  }

  /** Exactly when two integers become the same double. */
  lemma RoundedAlike(n: nat, m: nat)
    requires n <= m
    ensures Rounded(n) == Rounded(m) <==> Merges(n, m)
  {
    RoundedIsPlace(n);
    RoundedIsPlace(m);
    GapGrows(n, m);
    if Gap(n) == Gap(m) {
      SamePlace(n, m);
      SameMultiple(Place(n), Place(m), Gap(n));
    } else {
      MergeAtPower(n, m);
    }
  }

  // ----- Bounds -------------------------------------------------------------------------------

  predicate IsInteger(x: Number) {
    !x.Float?
  }

  function IntegerOf(x: Number): int
    requires IsInteger(x)
  {
    if x.Signed? then x.i else x.n
  }

  function Magnitude(i: int): nat {
    if i < 0 then -i else i
  }

  /** Two integers that are compared as equal: of one sign, and merged. */
  predicate Confused(i: int, j: int) {
    && (i < 0 <==> j < 0)
    && if Magnitude(i) <= Magnitude(j) then Merges(Magnitude(i), Magnitude(j)) else Merges(Magnitude(j), Magnitude(i))
  }

  lemma PositiveStaysPositive(n: nat)
    ensures n > 0 ==> Rounded(n) > 0
  {
    RoundedIsExact(1);
    if n > 0 {
      RoundedIsMonotone(1, n);
    }
  }

  lemma EqualIffConfused(x: Number, y: Number)
    requires IsInteger(x) && IsInteger(y)
    ensures AsF64(x) == AsF64(y) <==> Confused(IntegerOf(x), IntegerOf(y))
  {
    var i, j := IntegerOf(x), IntegerOf(y);
    PositiveStaysPositive(Magnitude(i));
    PositiveStaysPositive(Magnitude(j));
    if Magnitude(i) <= Magnitude(j) {
      RoundedAlike(Magnitude(i), Magnitude(j));
    } else {
      RoundedAlike(Magnitude(j), Magnitude(i));
    }
  }

  lemma ConversionIsMonotone(x: Number, y: Number)
    requires IsInteger(x) && IsInteger(y) && IntegerOf(x) <= IntegerOf(y)
    ensures AsF64(x) <= AsF64(y)
  {
    var a, b := IntegerOf(x), IntegerOf(y);
    if a >= 0 {
      RoundedIsMonotone(a, b);
    } else if b < 0 {
      RoundedIsMonotone(-b, -a);
    }
  }

  /** Exactly what each bound keyword decides between integers: an inclusive bound is also met by a
      value confused with it, an exclusive one is not met by such a value, and nothing else differs
      from the comparison of the integers. */
  lemma IntegerBoundsExactly(x: Number, bound: Number)
    requires IsInteger(x) && IsInteger(bound)
    ensures var i, b := IntegerOf(x), IntegerOf(bound);
            && (AsF64(bound) <= AsF64(x) <==> b <= i || Confused(b, i))
            && (AsF64(x) <= AsF64(bound) <==> i <= b || Confused(b, i))
            && (AsF64(bound) < AsF64(x) <==> b < i && !Confused(b, i))
            && (AsF64(x) < AsF64(bound) <==> i < b && !Confused(b, i))
  {
    EqualIffConfused(bound, x);
    if IntegerOf(bound) <= IntegerOf(x) {
      ConversionIsMonotone(bound, x);
    }
    if IntegerOf(x) <= IntegerOf(bound) {
      ConversionIsMonotone(x, bound);
    }
  }

  /** The keyword is absent, not a number, or an integer. */
  predicate IsIntegerBound(s: Json, key: string) {
    NumberBound(s, key).Some? ==> IsInteger(Member(s, key).value.number)
  }

  /** How a bound keyword compares two integers. */
  predicate MetExactly(s: Json, key: string, i: int, inclusive: bool, lower: bool)
    requires IsIntegerBound(s, key)
  {
    NumberBound(s, key).Some? ==>
      var b := IntegerOf(Member(s, key).value.number);
      if inclusive then (if lower then b <= i else i <= b) || Confused(b, i)
      else (if lower then b < i else i < b) && !Confused(b, i)
  }

  lemma OneBound(s: Json, key: string, x: Number)
    requires IsInteger(x) && IsIntegerBound(s, key) && NumberBound(s, key).Some?
    ensures var b, i := NumberBound(s, key).value, IntegerOf(x);
            && (b <= AsF64(x) <==> MetExactly(s, key, i, true, true))
            && (AsF64(x) <= b <==> MetExactly(s, key, i, true, false))
            && (b < AsF64(x) <==> MetExactly(s, key, i, false, true))
            && (AsF64(x) < b <==> MetExactly(s, key, i, false, false))
  {
    IntegerBoundsExactly(x, Member(s, key).value.number);
  }

  /** The four bound keywords of a schema together, on an integer and integer bounds. */
  lemma SchemaBoundsExactly(s: Json, x: Number)
    requires IsInteger(x) && forall k :: 0 <= k < 4 ==> IsIntegerBound(s, BOUNDS[k])
    ensures IsIntegerBound(s, "minimum") && IsIntegerBound(s, "maximum")
    ensures IsIntegerBound(s, "exclusiveMinimum") && IsIntegerBound(s, "exclusiveMaximum")
    ensures BoundsOk(s, AsF64(x)) <==>
            && MetExactly(s, "minimum", IntegerOf(x), true, true)
            && MetExactly(s, "maximum", IntegerOf(x), true, false)
            && MetExactly(s, "exclusiveMinimum", IntegerOf(x), false, true)
            && MetExactly(s, "exclusiveMaximum", IntegerOf(x), false, false)
  {
    assert IsIntegerBound(s, BOUNDS[0]) && IsIntegerBound(s, BOUNDS[1]);
    assert IsIntegerBound(s, BOUNDS[2]) && IsIntegerBound(s, BOUNDS[3]);
    forall k | 0 <= k < 4 && NumberBound(s, BOUNDS[k]).Some?
      ensures var key := BOUNDS[k];
              && (NumberBound(s, key).value <= AsF64(x) <==> MetExactly(s, key, IntegerOf(x), true, true))
              && (AsF64(x) <= NumberBound(s, key).value <==> MetExactly(s, key, IntegerOf(x), true, false))
              && (NumberBound(s, key).value < AsF64(x) <==> MetExactly(s, key, IntegerOf(x), false, true))
              && (AsF64(x) < NumberBound(s, key).value <==> MetExactly(s, key, IntegerOf(x), false, false))
    {
      OneBound(s, BOUNDS[k], x);
    }
    assert BOUNDS[0] == "minimum" && BOUNDS[1] == "maximum";
    assert BOUNDS[2] == "exclusiveMinimum" && BOUNDS[3] == "exclusiveMaximum";
  }

  // ----- Floating-point bounds ----------------------------------------------------------------

  predicate IsIntegral(r: real) {
    r == r.Floor as real
  }

  /** Values a double can have: of small magnitude, or an integer that conversion leaves alone. */
  predicate IsDouble(r: real) {
    || -(TWO_53 as real) < r < TWO_53 as real
    || (IsIntegral(r) && Rounded(Magnitude(r.Floor)) == Magnitude(r.Floor))
  }

  /** An integer that is compared as equal to a double it differs from, or is equal to it. */
  predicate ConfusedWithDouble(i: int, r: real) {
    IsIntegral(r) && Confused(r.Floor, i)
  }

  lemma IntegralIsInteger(r: real)
    requires IsDouble(r) && IsIntegral(r)
    ensures AsF64(Signed(r.Floor)) == r
  {
    RoundedIsExact(Magnitude(r.Floor));
  }

  lemma LargeStaysLarge(i: int)
    ensures i >= TWO_53 ==> AsF64(Signed(i)) >= TWO_53 as real
    ensures i <= -(TWO_53 as int) ==> AsF64(Signed(i)) <= -(TWO_53 as real)
  {
    RoundedIsExact(TWO_53);
    if Magnitude(i) >= TWO_53 {
      RoundedIsMonotone(TWO_53, Magnitude(i));
    }
  }

  lemma SmallBoundIsExact(i: int, r: real)
    requires -(TWO_53 as real) < r < TWO_53 as real
    ensures r <= AsF64(Signed(i)) <==> r <= i as real
    ensures AsF64(Signed(i)) <= r <==> i as real <= r
  {
    LargeStaysLarge(i);
    if Magnitude(i) <= TWO_53 {
      RoundedIsExact(Magnitude(i));
    }
  }

  /** Exactly what the comparisons decide between an integer and a floating-point bound: the same as
      for an integer bound, on the integer the double is, if it is one; and no confusion otherwise. */
  lemma DoubleBoundsExactly(x: Number, r: real)
    requires IsInteger(x) && IsDouble(r)
    ensures var i := IntegerOf(x);
            && (r <= AsF64(x) <==> r <= i as real || ConfusedWithDouble(i, r))
            && (AsF64(x) <= r <==> i as real <= r || ConfusedWithDouble(i, r))
            && (r < AsF64(x) <==> r < i as real && !ConfusedWithDouble(i, r))
            && (AsF64(x) < r <==> i as real < r && !ConfusedWithDouble(i, r))
  {
    var i := IntegerOf(x);
    assert AsF64(x) == AsF64(Signed(i));
    if IsIntegral(r) {
      IntegralIsInteger(r);
      IntegerBoundsExactly(x, Signed(r.Floor));
    } else {
      SmallBoundIsExact(i, r);
    }
  }

  // ----- A value that is rejected -------------------------------------------------------------

  lemma FirstConfusion()
    ensures Confused(TWO_53, TWO_53 + 1)
    ensures AsF64(Unsigned(TWO_53 + 1)) == AsF64(Unsigned(TWO_53)) == TWO_53 as real
  {
    var n := TWO_53 + 1;
    assert n / 2 < TWO_53 && Gap(n / 2) == 1;
    assert Gap(n) == 2 && n / 2 == TWO_53 / 2 && n % 2 == 1;
    RoundedIsExact(TWO_53);
    EqualIffConfused(Unsigned(TWO_53), Unsigned(n));
  }

  /** A supported schema asks for more than 2^53, as an integer or as a double, and rejects the next
      integer. */
  lemma ExclusiveBoundCanOverReject(bound: Number)
    requires bound == Unsigned(TWO_53) || bound == Float(TWO_53 as real)
    ensures var s := Object(map["exclusiveMinimum" := Num(bound)]);
            Supported(s) && !Satisfies(s, Num(Unsigned(TWO_53 + 1)))
  {
    FirstConfusion();
    OneKeyword("exclusiveMinimum", Num(bound));
    var s := Object(map["exclusiveMinimum" := Num(bound)]);
    assert NumberBound(s, "exclusiveMinimum") == Some(TWO_53 as real);
    assert !BoundsOk(s, AsF64(Unsigned(TWO_53 + 1)));
  }

  lemma OneKeyword(key: string, v: Json)
    requires key == "exclusiveMinimum" && v.Num?
    ensures Supported(Object(map[key := v]))
  {
    var s := Object(map[key := v]);
    assert s.members.Keys == {key};
    assert key in ALLOWED;
    OnlyThisKeyword(s, key);
    assert |key| == 16 && |"properties"| == 10 && |"additionalProperties"| == 20 && |"items"| == 5 && |"not"| == 3;
    assert |"allOf"| == 5 && |"anyOf"| == 5 && |"oneOf"| == 5;
    AbsentList(s, "allOf");
    AbsentList(s, "anyOf");
    AbsentList(s, "oneOf");
    assert SubschemasOk(s);
  }

  lemma AbsentList(s: Json, key: string)
    requires Member(s, key).None?
    ensures ListKeywordOk(s, key)
  {
  }

  lemma OnlyThisKeyword(s: Json, key: string)
    requires key == "exclusiveMinimum" && s.Object? && s.members.Keys == {key} && s.members[key].Num?
    ensures ScalarsOk(s)
    ensures forall k :: k != key ==> Member(s, k).None?
  {
  }

  /** Below it no two integers are confused. */
  lemma SmallIntegersAreDistinct(i: int, j: int)
    requires Magnitude(i) <= TWO_53 && Magnitude(j) <= TWO_53
    ensures Confused(i, j) <==> i == j
  {
    EqualIffConfused(Signed(i), Signed(j));
    RoundedIsExact(Magnitude(i));
    RoundedIsExact(Magnitude(j));
  }
}
