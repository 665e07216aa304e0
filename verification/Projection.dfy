/** Bounded, UTF-8-safe presentation of tool results: crates/tea-core/src/tool.rs. */
module Projection {
  import opened Wrappers
  import opened Utf8

  // ----- Text ---------------------------------------------------------------------------------

  /** The bytes of a 7-bit literal. */
  function Ascii(s: string): (b: seq<byte>)
    ensures |b| == |s| && IsAscii(b)
  {
    seq(|s|, i requires 0 <= i < |s| => s[i] as int % 0x80)
  }

  predicate IsAscii(b: seq<byte>) {
    forall i :: 0 <= i < |b| ==> b[i] < 0x80
  }

  const ELLIPSIS: seq<byte> := [0xE2, 0x80, 0xA6]

  /** The 19-byte marker that replaces the removed middle. */
  const MARKER: seq<byte> := ELLIPSIS + Ascii(" [truncated] ") + ELLIPSIS

  const REPEAT_NOTICE: seq<byte> :=
    Ascii("[repeated tool error omitted; see the earlier matching result]")

  const NEWLINE: seq<byte> := [0x0A]

  lemma {:induction false} AsciiIsValid(b: seq<byte>)
    requires IsAscii(b)
    ensures Valid(b)
  {
    if b == [] {
    } else {
      AsciiIsValid(b[1..]);
    }
  }

  lemma MarkerIsValid()
    ensures Valid(MARKER) && |MARKER| == 19
  {
    AsciiIsValid(Ascii(" [truncated] "));
    assert Valid(ELLIPSIS) by {
      assert First(ELLIPSIS) == Scalar(3) && ELLIPSIS[3..] == [];
    }
    ValidConcat3(ELLIPSIS, Ascii(" [truncated] "), ELLIPSIS);
  }

  lemma ValidConcat3(a: seq<byte>, b: seq<byte>, c: seq<byte>)
    requires Valid(a) && Valid(b) && Valid(c)
    ensures Valid(a + b + c)
  {
    ValidConcat(a, b);
    ValidConcat(a + b, c);
  }

  // ----- Truncation ---------------------------------------------------------------------------

  /** The last boundary at or before `end`. */
  function PrefixEnd(value: seq<byte>, end: nat): (e: nat)
    requires end <= |value|
    ensures e <= end && IsBoundary(value, e)
  {
    if IsBoundary(value, end) then end else PrefixEnd(value, end - 1)
  }

  /** The first boundary at or after `start`. */
  function SuffixStart(value: seq<byte>, start: nat): (b: nat)
    requires start <= |value|
    ensures start <= b <= |value| && IsBoundary(value, b)
    decreases |value| - start
  {
    if IsBoundary(value, start) then start else SuffixStart(value, start + 1)
  }

  method Utf8PrefixEnd(value: seq<byte>, limit: nat) returns (end: nat)
    ensures end == PrefixEnd(value, if limit < |value| then limit else |value|)
  {
    end := if limit < |value| then limit else |value|;
    ghost var from := end;
    while end > 0 && !IsBoundary(value, end)
      invariant end <= from <= |value|
      invariant PrefixEnd(value, from) == PrefixEnd(value, end)
    {
      end := end - 1;
    }
  }

  method Utf8SuffixStart(value: seq<byte>, limit: nat) returns (start: nat)
    ensures start == SuffixStart(value, if limit < |value| then |value| - limit else 0)
  {
    start := if limit < |value| then |value| - limit else 0;
    ghost var from := start;
    while start < |value| && !IsBoundary(value, start)
      invariant from <= start <= |value|
      invariant SuffixStart(value, from) == SuffixStart(value, start)
    {
      start := start + 1;
    }
  }

  function TruncateMiddle(value: seq<byte>, limit: nat): seq<byte> {
    TruncateAround(MARKER, value, limit)
  }

  function TruncateAround(marker: seq<byte>, value: seq<byte>, limit: nat): seq<byte> {
    if |value| <= limit then value
    else if limit <= |marker| then marker[..PrefixEnd(marker, limit)]
    else
      CutToFit(marker, value, (limit - |marker|) / 2, limit - |marker| - (limit - |marker|) / 2)
  }

  /** Keep at most the given number of bytes on either side of the marker. */
  function CutToFit(marker: seq<byte>, value: seq<byte>, prefixLimit: nat, suffixLimit: nat): seq<byte>
    requires prefixLimit + suffixLimit <= |value|
  {
    Cut(marker, value, PrefixEnd(value, prefixLimit), SuffixStart(value, |value| - suffixLimit))
  }

  /** `value` with the bytes from `p` to `q` replaced by the marker. */
  function Cut(marker: seq<byte>, value: seq<byte>, p: nat, q: nat): seq<byte>
    requires p <= |value| && q <= |value|
  {
    value[..p] + marker + value[q..]
  }

  /** In valid text the search for a boundary moves at most three bytes. */
  lemma SearchIsShort(value: seq<byte>, i: nat)
    requires Valid(value) && i <= |value|
    ensures i - PrefixEnd(value, i) <= 3
    ensures SuffixStart(value, i) - i <= 3
  {
    BoundaryIsNear(value, i);
    var k :| 0 <= k <= i && i - k <= 3 && IsBoundary(value, k);
    NoBoundarySkipped(value, i, k);
    var m :| i <= m <= |value| && m - i <= 3 && IsBoundary(value, m);
    NoBoundarySkipped(value, i, m);
  }

  /** The searches stop at the nearest boundary. */
  lemma {:induction false} NoBoundarySkipped(value: seq<byte>, i: nat, k: nat)
    requires i <= |value| && k <= |value| && IsBoundary(value, k)
    ensures k <= i ==> k <= PrefixEnd(value, i)
    ensures i <= k ==> SuffixStart(value, i) <= k
    decreases if k <= i then i - k else k - i
  {
    if k < i {
      NoBoundarySkipped(value, i - 1, k);
    } else if i < k {
      NoBoundarySkipped(value, i + 1, k);
    }
  }

  /** Truncation yields valid text within the limit; text that fits is untouched, and otherwise
      two disjoint ends of it surround the marker with at most six bytes to spare. */
  lemma TruncationIsBounded(value: seq<byte>, limit: nat)
    requires Valid(value)
    ensures Valid(TruncateMiddle(value, limit)) && |TruncateMiddle(value, limit)| <= limit
    ensures |value| <= limit ==> TruncateMiddle(value, limit) == value
    ensures |value| > limit && limit <= |MARKER| ==>
              TruncateMiddle(value, limit) <= MARKER && limit - |TruncateMiddle(value, limit)| <= 3
    ensures |value| > limit > |MARKER| ==>
              && limit - |TruncateMiddle(value, limit)| <= 6
              && exists p, q :: 0 <= p <= q <= |value|
                   && TruncateMiddle(value, limit) == Cut(MARKER, value, p, q)
  {
    MarkerIsValid();
    if |value| > limit {
      if limit <= |MARKER| {
        SearchIsShort(MARKER, limit);
        BoundarySplits(MARKER, PrefixEnd(MARKER, limit));
      } else {
        TruncationKeepsEnds(MARKER, value, limit);
      }
    }
  }

  lemma TruncationKeepsEnds(marker: seq<byte>, value: seq<byte>, limit: nat)
    requires Valid(marker) && Valid(value) && |value| > limit > |marker|
    ensures Valid(TruncateAround(marker, value, limit))
    ensures limit - 6 <= |TruncateAround(marker, value, limit)| <= limit
    ensures exists p, q :: 0 <= p <= q <= |value|
              && TruncateAround(marker, value, limit) == Cut(marker, value, p, q)
  {
    var a, b := TruncationIsCut(marker, value, limit);
    CutToFitKeepsEnds(marker, value, a, b);
  }

  lemma TruncationIsCut(marker: seq<byte>, value: seq<byte>, limit: nat) returns (a: nat, b: nat)
    requires |value| > limit > |marker|
    ensures a + b == limit - |marker|
    ensures TruncateAround(marker, value, limit) == CutToFit(marker, value, a, b)
  {
    a, b := (limit - |marker|) / 2, limit - |marker| - (limit - |marker|) / 2;
  }

  lemma CutToFitKeepsEnds(marker: seq<byte>, value: seq<byte>, prefixLimit: nat, suffixLimit: nat)
    requires Valid(marker) && Valid(value) && prefixLimit + suffixLimit <= |value|
    ensures var r := CutToFit(marker, value, prefixLimit, suffixLimit);
            && Valid(r)
            && prefixLimit + |marker| + suffixLimit - 6 <= |r| <= prefixLimit + |marker| + suffixLimit
            && exists p, q :: 0 <= p <= q <= |value| && r == Cut(marker, value, p, q)
  {
    var p, q := CutPoints(value, prefixLimit, |value| - suffixLimit);
    CutIsValid(marker, value, p, q);
  }

  lemma CutPoints(value: seq<byte>, before: nat, after: nat) returns (p: nat, q: nat)
    requires Valid(value) && before <= after <= |value|
    ensures p == PrefixEnd(value, before) && q == SuffixStart(value, after)
    ensures before - 3 <= p <= before && after <= q <= after + 3
  {
    p, q := PrefixEnd(value, before), SuffixStart(value, after);
    SearchIsShort(value, before);
    SearchIsShort(value, after);
  }

  lemma CutIsValid(marker: seq<byte>, value: seq<byte>, p: nat, q: nat)
    requires Valid(marker) && Valid(value) && p <= |value| && q <= |value|
    requires IsBoundary(value, p) && IsBoundary(value, q)
    ensures Valid(Cut(marker, value, p, q))
    ensures |Cut(marker, value, p, q)| == p + |marker| + |value| - q
  {
    BoundarySplits(value, p);
    BoundarySplits(value, q);
    ValidConcat3(value[..p], marker, value[q..]);
  }

  // ----- Projection ---------------------------------------------------------------------------

  datatype Disposition = Cancelled | InvalidArguments | Recoverable | Retryable | Fatal

  datatype Failure = Failure(disposition: Disposition, guidance: Option<seq<byte>>)

  datatype Policy = Policy(maxContent: nat, maxDetails: nat, maxTotal: nat, deduplicate: bool)

  /** One tool result; `fingerprint` is the hash of its error payload. */
  datatype RawResult = RawResult(content: seq<byte>, details: Option<seq<byte>>, isError: bool,
                                 failure: Option<Failure>, fingerprint: nat)

  predicate IsText(r: RawResult) {
    && Valid(r.content)
    && (r.details.Some? ==> Valid(r.details.value))
    && (r.failure.Some? && r.failure.value.guidance.Some? ==> Valid(r.failure.value.guidance.value))
  }

  /** `ToolResultProjectionPolicy::validate`. */
  predicate Accepts(p: Policy) {
    var longest := |Ascii("[tool error status: invalid_arguments]")|;
    !(p.maxContent < |MARKER| || p.maxDetails < |MARKER| || p.maxTotal < longest + 1 + |MARKER|)
  }

  function Status(f: Option<Failure>): (s: string)
    ensures |s| <= 17
  {
    if f.None? then "recoverable"
    else match f.value.disposition
         case Cancelled => "cancelled"
         case InvalidArguments => "invalid_arguments"
         case Recoverable => "recoverable"
         case Retryable => "retryable"
         case Fatal => "fatal"
  }

  function Header(f: Option<Failure>): seq<byte> {
    Ascii("[tool error status: ") + Ascii(Status(f)) + Ascii("]")
  }

  function AppendSection(output: seq<byte>, section: seq<byte>, totalLimit: nat): seq<byte> {
    var separator := if output == [] then [] else NEWLINE;
    var available := if totalLimit > |output| then totalLimit - |output| else 0;
    if section == [] || available <= |separator| then output
    else output + separator + TruncateMiddle(section, available - |separator|)
  }

  function Labelled(tag: string, body: seq<byte>, limit: nat): seq<byte>
  {
    Ascii(tag) + TruncateMiddle(body, limit) + Ascii("]")
  }

  predicate IsRepeat(r: RawResult, p: Policy, seen: set<nat>) {
    r.isError && p.deduplicate && r.fingerprint in seen
  }

  /** The text of a result, and the fingerprints seen once it has been projected. */
  function Project(r: RawResult, p: Policy, seen: set<nat>): (seq<byte>, set<nat>) {
    if IsRepeat(r, p, seen) then (REPEAT_NOTICE, seen)
    else (Sections(r, p), if r.isError then seen + {r.fingerprint} else seen)
  }

  function Preamble(r: RawResult, p: Policy): seq<byte> {
    if !r.isError then []
    else
      var status := AppendSection([], Header(r.failure), p.maxTotal);
      if r.failure.Some? && r.failure.value.guidance.Some?
      then AppendSection(status,
                         Labelled("[recovery guidance: ", r.failure.value.guidance.value, p.maxDetails),
                         p.maxTotal)
      else status
  }

  function Sections(r: RawResult, p: Policy): seq<byte> {
    var body := AppendSection(Preamble(r, p), TruncateMiddle(r.content, p.maxContent), p.maxTotal);
    if r.details.Some?
    then AppendSection(body,
                       Labelled("[tool details (serialized JSON): ", r.details.value, p.maxDetails),
                       p.maxTotal)
    else body
  }

  /** The source's statement sequence, on a growing string and a caller-owned set. */
  method ProjectToolResultAsText(r: RawResult, p: Policy, seen: set<nat>)
    returns (text: seq<byte>, isError: bool, seen': set<nat>)
    ensures (text, seen') == Project(r, p, seen)
    ensures isError == r.isError
  {
    seen' := seen;
    if r.isError && p.deduplicate && r.fingerprint in seen {
      return REPEAT_NOTICE, true, seen;
    }
    if r.isError {
      seen' := seen' + {r.fingerprint};
    }
    var projected: seq<byte> := [];
    if r.isError {
      projected := AppendSection(projected, Header(r.failure), p.maxTotal);
      if r.failure.Some? && r.failure.value.guidance.Some? {
        var guidance := Labelled("[recovery guidance: ", r.failure.value.guidance.value, p.maxDetails);
        projected := AppendSection(projected, guidance, p.maxTotal);
      }
    }
    projected := AppendSection(projected, TruncateMiddle(r.content, p.maxContent), p.maxTotal);
    if r.details.Some? {
      var details := Labelled("[tool details (serialized JSON): ", r.details.value, p.maxDetails);
      projected := AppendSection(projected, details, p.maxTotal);
    }
    text, isError := projected, r.isError;
  }

  /** A section never disturbs what is already there, and keeps text valid and within the limit. */
  lemma AppendIsBounded(output: seq<byte>, section: seq<byte>, totalLimit: nat)
    requires Valid(output) && Valid(section) && |output| <= totalLimit
    ensures output <= AppendSection(output, section, totalLimit)
    ensures Valid(AppendSection(output, section, totalLimit))
    ensures |AppendSection(output, section, totalLimit)| <= totalLimit
  {
    var separator := if output == [] then [] else NEWLINE;
    if section == [] || totalLimit - |output| <= |separator| {
      assert AppendSection(output, section, totalLimit) == output;
    } else {
      AppendUnfolds(output, section, totalLimit, separator);
      TruncationFits(section, totalLimit - |output| - |separator|);
      GluedIsBounded(output, separator, TruncateMiddle(section, totalLimit - |output| - |separator|), totalLimit);
    }
  }

  lemma AppendUnfolds(output: seq<byte>, section: seq<byte>, totalLimit: nat, separator: seq<byte>)
    requires separator == (if output == [] then [] else NEWLINE)
    requires section != [] && totalLimit - |output| > |separator|
    ensures AppendSection(output, section, totalLimit) ==
            output + separator + TruncateMiddle(section, totalLimit - |output| - |separator|)
  {
  }

  lemma GluedIsBounded(output: seq<byte>, separator: seq<byte>, body: seq<byte>, totalLimit: nat)
    requires Valid(output) && Valid(body) && (separator == [] || separator == NEWLINE)
    requires |output| + |separator| + |body| <= totalLimit
    ensures output <= output + separator + body && Valid(output + separator + body)
    ensures |output + separator + body| <= totalLimit
  {
    Glue(output, body);
    PrefixOfThree(output, separator, body);
  }

  lemma PrefixOfThree(a: seq<byte>, b: seq<byte>, c: seq<byte>)
    ensures a <= a + b + c
  {
  }

  lemma TruncationFits(value: seq<byte>, limit: nat)
    requires Valid(value)
    ensures Valid(TruncateMiddle(value, limit)) && |TruncateMiddle(value, limit)| <= limit
  {
    TruncationIsBounded(value, limit);
  }

  lemma Glue(output: seq<byte>, section: seq<byte>)
    requires Valid(output) && Valid(section)
    ensures Valid(output + [] + section) && Valid(output + NEWLINE + section)
  {
    AsciiIsValid([]);
    AsciiIsValid(NEWLINE);
    ValidConcat3(output, [], section);
    ValidConcat3(output, NEWLINE, section);
  }

  lemma LabelledIsValid(tag: string, body: seq<byte>, limit: nat)
    requires Valid(body)
    ensures Valid(Labelled(tag, body, limit))
  {
    TruncationIsBounded(body, limit);
    AsciiIsValid(Ascii(tag));
    AsciiIsValid(Ascii("]"));
    ValidConcat3(Ascii(tag), TruncateMiddle(body, limit), Ascii("]"));
  }

  lemma HeaderFits(f: Option<Failure>)
    ensures Valid(Header(f)) && 0 < |Header(f)| <= 38
  {
    AsciiIsValid(Header(f));
  }

  lemma PreambleIsBounded(r: RawResult, p: Policy)
    requires IsText(r) && Accepts(p)
    ensures Valid(Preamble(r, p)) && |Preamble(r, p)| <= p.maxTotal
    ensures r.isError ==> Header(r.failure) <= Preamble(r, p)
  {
    if r.isError {
      HeaderFits(r.failure);
      MarkerIsValid();
      var status := AppendSection([], Header(r.failure), p.maxTotal);
      assert status == Header(r.failure);
      if r.failure.Some? && r.failure.value.guidance.Some? {
        var guidance := r.failure.value.guidance.value;
        LabelledIsValid("[recovery guidance: ", guidance, p.maxDetails);
        AppendIsBounded(status, Labelled("[recovery guidance: ", guidance, p.maxDetails), p.maxTotal);
      }
    }
  }

  /** Under an accepted policy the assembled sections are valid text within the total, and an
      error's whole status header leads them. */
  lemma SectionsAreBounded(r: RawResult, p: Policy)
    requires IsText(r) && Accepts(p)
    ensures Valid(Sections(r, p)) && |Sections(r, p)| <= p.maxTotal
    ensures r.isError ==> Header(r.failure) <= Sections(r, p)
  {
    PreambleIsBounded(r, p);
    TruncationIsBounded(r.content, p.maxContent);
    var content := TruncateMiddle(r.content, p.maxContent);
    AppendIsBounded(Preamble(r, p), content, p.maxTotal);
    if r.details.Some? {
      var tag := "[tool details (serialized JSON): ";
      LabelledIsValid(tag, r.details.value, p.maxDetails);
      AppendIsBounded(AppendSection(Preamble(r, p), content, p.maxTotal),
                      Labelled(tag, r.details.value, p.maxDetails), p.maxTotal);
    }
  }

  /** A projected result exceeds an accepted policy's total exactly when it is a repeat and the
      total is below the 62-byte notice, which is not subject to the limit. */
  lemma ProjectionFits(r: RawResult, p: Policy, seen: set<nat>)
    requires IsText(r) && Accepts(p)
    ensures |Project(r, p, seen).0| <= p.maxTotal <==> !(IsRepeat(r, p, seen) && p.maxTotal < 62)
    ensures Valid(Project(r, p, seen).0)
    ensures r.isError && !IsRepeat(r, p, seen) ==> Header(r.failure) <= Project(r, p, seen).0
  {
    SectionsAreBounded(r, p);
    assert |REPEAT_NOTICE| == 62;
    AsciiIsValid(REPEAT_NOTICE);
  }

  /** The smallest accepted total really is below the notice. */
  lemma AcceptedTotalCanBeExceeded()
    ensures exists r: RawResult, p, seen ::
              IsText(r) && Accepts(p) && |Project(r, p, seen).0| > p.maxTotal
  {
    var r := RawResult([], None, true, None, 7);
    var p := Policy(19, 19, 58, true);
    MarkerIsValid();
    assert IsText(r) && Accepts(p);
    assert IsRepeat(r, p, {7});
    ProjectionFits(r, p, {7});
  }

  // ----- A whole context ----------------------------------------------------------------------

  function SeenAfter(rs: seq<RawResult>, p: Policy, seen: set<nat>): set<nat>
    decreases |rs|
  {
    if rs == [] then seen
    else Project(rs[|rs| - 1], p, SeenAfter(rs[..|rs| - 1], p, seen)).1
  }

  lemma {:induction false} SeenAreTheErrors(rs: seq<RawResult>, p: Policy)
    ensures SeenAfter(rs, p, {}) == set r | r in rs && r.isError :: r.fingerprint
  {
    if rs == [] {
    } else {
      var init, last := rs[..|rs| - 1], rs[|rs| - 1];
      SeenAreTheErrors(init, p);
      assert rs == init + [last];
    }
  }

  /** Projecting the results of a context in order, a result is replaced by the notice exactly
      when it is an error and an earlier error carries its fingerprint: the first of every group
      of matching errors is always shown. */
  lemma FirstErrorIsShown(rs: seq<RawResult>, p: Policy, i: nat)
    requires i < |rs| && p.deduplicate
    ensures IsRepeat(rs[i], p, SeenAfter(rs[..i], p, {})) <==>
            rs[i].isError
            && exists j :: 0 <= j < i && rs[j].isError && rs[j].fingerprint == rs[i].fingerprint
  {
    SeenAreTheErrors(rs[..i], p);
  }
}
