/** UTF-8 as in section 4 of RFC 3629, on byte sequences. */
module Utf8 {

  type byte = x: int | 0 <= x < 256

  /** What the front of a byte sequence holds: one complete scalar of `len` bytes, the beginning
      of one that the sequence is too short to finish, or bytes no scalar starts with. */
  datatype Front = Scalar(len: nat) | Truncated | Malformed

  predicate Continuation(b: byte) {
    0x80 <= b <= 0xBF
  }

  /** Bytes in the scalar introduced by `lead`; zero when none is. */
  function Width(lead: byte): (n: nat)
    ensures n <= 4
  {
    if lead < 0x80 then 1
    else if 0xC2 <= lead <= 0xDF then 2
    else if 0xE0 <= lead <= 0xEF then 3
    else if 0xF0 <= lead <= 0xF4 then 4
    else 0
  }

  /** Whether `b` may follow `lead`; excludes overlong forms, surrogates and values above
      U+10FFFF. */
  predicate SecondByte(lead: byte, b: byte) {
    && Continuation(b)
    && (lead == 0xE0 ==> 0xA0 <= b)
    && (lead == 0xED ==> b <= 0x9F)
    && (lead == 0xF0 ==> 0x90 <= b)
    && (lead == 0xF4 ==> b <= 0x8F)
  }

  function First(s: seq<byte>): (f: Front)
    requires s != []
    ensures f.Scalar? ==> 1 <= f.len <= 4 && f.len <= |s|
  {
    var n := Width(s[0]);
    if n == 0 then Malformed
    else if n == 1 then Scalar(1)
    else if |s| < 2 then Truncated
    else if !SecondByte(s[0], s[1]) then Malformed
    else if n == 2 then Scalar(2)
    else if |s| < 3 then Truncated
    else if !Continuation(s[2]) then Malformed
    else if n == 3 then Scalar(3)
    else if |s| < 4 then Truncated
    else if !Continuation(s[3]) then Malformed
    else Scalar(4)
  }

  predicate Valid(s: seq<byte>) {
    s == [] || (First(s).Scalar? && Valid(s[First(s).len..]))
  }

  function CodePoint(s: seq<byte>): int
    requires s != [] && First(s).Scalar?
  {
    var a: int := s[0];
    match First(s).len
    case 1 => a
    case 2 => (a - 0xC0) * 0x40 + Payload(s[1])
    case 3 => (a - 0xE0) * 0x1000 + Payload(s[1]) * 0x40 + Payload(s[2])
    case _ => (a - 0xF0) * 0x40000 + Payload(s[1]) * 0x1000 + Payload(s[2]) * 0x40 + Payload(s[3])
  }

  function Payload(b: byte): int {
    b - 0x80
  }

  /** Rust's `str::is_char_boundary`. */
  predicate IsBoundary(s: seq<byte>, i: int) {
    i == 0 || i == |s| || (0 < i < |s| && !Continuation(s[i]))
  }

  /** Whatever the front settles, more bytes behind it do not unsettle. */
  lemma FirstIsStable(s: seq<byte>, t: seq<byte>)
    requires s != [] && !First(s).Truncated?
    ensures First(s + t) == First(s)
    ensures First(s).Scalar? ==> CodePoint(s + t) == CodePoint(s)
  {
  }

  lemma {:induction false} ValidConcat(s: seq<byte>, t: seq<byte>)
    requires Valid(s) && Valid(t)
    ensures Valid(s + t)
  {
    if s == [] {
      assert s + t == t;
    } else {
      var n := First(s).len;
      FirstIsStable(s, t);
      assert (s + t)[n..] == s[n..] + t;
      ValidConcat(s[n..], t);
    }
  }

  /** `[start, start + n)` is one scalar of `s`: both sides of it are valid, and only its first
      byte is not a continuation byte. */
  ghost predicate IsScalarAt(s: seq<byte>, start: nat, n: nat) {
    && start + n <= |s| && 1 <= n <= 4
    && Valid(s[..start]) && Valid(s[start..])
    && !Continuation(s[start])
    && (forall k :: start < k < start + n ==> Continuation(s[k]))
    && IsBoundary(s, start + n)
  }

  /** Every index of valid text lies in one scalar. */
  lemma {:induction false} Cover(s: seq<byte>, i: nat) returns (start: nat, n: nat)
    requires Valid(s) && i < |s|
    ensures start <= i < start + n && IsScalarAt(s, start, n)
  {
    var m := First(s).len;
    if i < m {
      start, n := 0, m;
      FrontScalar(s);
    } else {
      start, n := Cover(s[m..], i - m);
      ScalarShifts(s, m, start, n);
      start := m + start;
    }
  }

  lemma FrontScalar(s: seq<byte>)
    requires Valid(s) && s != []
    ensures IsScalarAt(s, 0, First(s).len)
  {
    assert s[..0] == [] && s[0..] == s;
    var rest := s[First(s).len..];
    if rest != [] {
      assert First(rest).Scalar?;
    }
  }

  lemma ScalarShifts(s: seq<byte>, m: nat, start: nat, n: nat)
    requires s != [] && First(s).Scalar? && m == First(s).len
    requires IsScalarAt(s[m..], start, n)
    ensures IsScalarAt(s, m + start, n)
  {
    PrefixShifts(s, m, start);
    assert s[m..][start..] == s[m + start..];
    forall k | m + start < k < m + start + n
      ensures Continuation(s[k])
    {
      assert s[k] == s[m..][k - m];
    }
  }

  lemma PrefixShifts(s: seq<byte>, m: nat, start: nat)
    requires s != [] && First(s).Scalar? && m == First(s).len
    requires start <= |s| - m && Valid(s[m..][..start])
    ensures Valid(s[..m + start])
  {
    assert s[..m + start] == s[..m] + s[m..][..start];
    FrontIsValid(s);
    ValidConcat(s[..m], s[m..][..start]);
  }

  lemma FrontIsValid(s: seq<byte>)
    requires s != [] && First(s).Scalar?
    ensures Valid(s[..First(s).len])
  {
    var t := s[..First(s).len];
    assert First(t) == First(s);
    assert t[First(t).len..] == [];
  }

  /** Cutting valid text at a boundary leaves valid text on both sides. */
  lemma BoundarySplits(s: seq<byte>, i: nat)
    requires Valid(s) && i <= |s| && IsBoundary(s, i)
    ensures Valid(s[..i]) && Valid(s[i..])
  {
    if i == |s| {
      assert s[..i] == s && s[i..] == [];
    } else {
      var start, n := Cover(s, i);
      assert s[..0] == [] && s[0..] == s;
      assert i == start;
    }
  }

  /** Every index has a boundary at most three bytes to either side. */
  lemma BoundaryIsNear(s: seq<byte>, i: nat)
    requires Valid(s) && i <= |s|
    ensures exists k :: 0 <= k <= i && i - k <= 3 && IsBoundary(s, k)
    ensures exists k :: i <= k <= |s| && k - i <= 3 && IsBoundary(s, k)
  {
    if i < |s| {
      var start, n := Cover(s, i);
      assert IsBoundary(s, start) && IsBoundary(s, start + n);
      if start == i {
        assert IsBoundary(s, i);
      }
    } else {
      assert IsBoundary(s, i);
    }
  }
}
