/** What a projected tool result shows: crates/tea-core/src/tool.rs.

    The sections are written out here as texts, apart from the functions that assemble them. */
module ProjectionContents {
  import opened Wrappers
  import opened Utf8
  import opened Projection

  // ----- Truncation keeps both ends -----------------------------------------------------------

  /** The removed middle leaves two ends that share the room evenly, up to a split character each. */
  lemma TruncationIsBalanced(value: seq<byte>, limit: nat) returns (p: nat, q: nat)
    requires Valid(value) && |value| > limit > 19
    ensures p <= q <= |value| && IsBoundary(value, p) && IsBoundary(value, q)
    ensures TruncateMiddle(value, limit) == value[..p] + MARKER + value[q..]
    ensures var front, back := (limit - 19) / 2, limit - 19 - (limit - 19) / 2;
            front - 3 <= p <= front && back - 3 <= |value| - q <= back
  {
    MarkerIsValid();
    p, q := BalancedAround(MARKER, value, limit);
  }

  lemma BalancedAround(marker: seq<byte>, value: seq<byte>, limit: nat) returns (p: nat, q: nat)
    requires Valid(value) && |value| > limit > |marker|
    ensures p <= q <= |value| && IsBoundary(value, p) && IsBoundary(value, q)
    ensures TruncateAround(marker, value, limit) == value[..p] + marker + value[q..]
    ensures var room := limit - |marker|;
            room / 2 - 3 <= p <= room / 2 && room - room / 2 - 3 <= |value| - q <= room - room / 2
  {
    var front, back := HalvesOf(limit - |marker|);
    AroundIsCut(marker, value, limit, front, back);
    p, q := FitPoints(marker, value, front, back);
  }

  lemma FitPoints(marker: seq<byte>, value: seq<byte>, front: nat, back: nat) returns (p: nat, q: nat)
    requires Valid(value) && front + back <= |value|
    ensures p <= q <= |value| && IsBoundary(value, p) && IsBoundary(value, q)
    ensures CutToFit(marker, value, front, back) == value[..p] + marker + value[q..]
    ensures front - 3 <= p <= front && back - 3 <= |value| - q <= back
  {
    p, q := CutPoints(value, front, |value| - back);
  }

  lemma HalvesOf(room: nat) returns (front: nat, back: nat)
    ensures front == room / 2 && back == room - room / 2 && front + back == room
  {
    front, back := room / 2, room - room / 2;
  }

  lemma AroundIsCut(marker: seq<byte>, value: seq<byte>, limit: nat, front: nat, back: nat)
    requires |value| > limit > |marker| && front == (limit - |marker|) / 2 && back == limit - |marker| - front
    ensures TruncateAround(marker, value, limit) == CutToFit(marker, value, front, back)
  {
  }

  lemma FittingIsKept(value: seq<byte>, limit: nat)
    requires |value| <= limit
    ensures TruncateMiddle(value, limit) == value
  {
  }

  /** A policy is accepted when each part has room for the marker, and the total for the longest status
      line, a newline and the marker. */
  lemma AcceptsExactly(p: Policy)
    ensures Accepts(p) <==> p.maxContent >= 19 && p.maxDetails >= 19 && p.maxTotal >= 58
  {
    MarkerIsValid();
    assert |"[tool error status: invalid_arguments]"| == 38;
  }

  // ----- The sections of a result -------------------------------------------------------------

  function StatusLine(f: Option<Failure>): string {
    if f.None? then "[tool error status: recoverable]"
    else match f.value.disposition
         case Cancelled => "[tool error status: cancelled]"
         case InvalidArguments => "[tool error status: invalid_arguments]"
         case Recoverable => "[tool error status: recoverable]"
         case Retryable => "[tool error status: retryable]"
         case Fatal => "[tool error status: fatal]"
  }

  lemma AsciiConcat(a: string, b: string)
    ensures Ascii(a + b) == Ascii(a) + Ascii(b)
  {
  }

  lemma HeaderIsStatusLine(f: Option<Failure>)
    ensures Header(f) == Ascii(StatusLine(f))
  {
    AsciiConcat("[tool error status: ", Status(f));
    AsciiConcat("[tool error status: " + Status(f), "]");
    StatusLineIs(f);
  }

  lemma StatusLineIs(f: Option<Failure>)
    ensures StatusLine(f) == "[tool error status: " + Status(f) + "]"
  {
    if f.Some? {
      match f.value.disposition
      case Cancelled => CancelledLine();
      case InvalidArguments => InvalidArgumentsLine();
      case Recoverable => RecoverableLine();
      case Retryable => RetryableLine();
      case Fatal => FatalLine();
    } else {
      RecoverableLine();
    }
  }

  lemma CancelledLine()
    ensures "[tool error status: cancelled]" == "[tool error status: " + "cancelled" + "]"
  {
  }

  lemma InvalidArgumentsLine()
    ensures "[tool error status: invalid_arguments]" == "[tool error status: " + "invalid_arguments" + "]"
  {
  }

  lemma RecoverableLine()
    ensures "[tool error status: recoverable]" == "[tool error status: " + "recoverable" + "]"
  {
  }

  lemma RetryableLine()
    ensures "[tool error status: retryable]" == "[tool error status: " + "retryable" + "]"
  {
  }

  lemma FatalLine()
    ensures "[tool error status: fatal]" == "[tool error status: " + "fatal" + "]"
  {
  }

  function Bracketed(opening: string, text: seq<byte>): seq<byte> {
    Ascii(opening) + text + Ascii("]")
  }

  function ErrorParts(r: RawResult, p: Policy): seq<seq<byte>> {
    if !r.isError then []
    else [Ascii(StatusLine(r.failure))] +
         (if r.failure.Some? && r.failure.value.guidance.Some?
          then [Bracketed("[recovery guidance: ", TruncateMiddle(r.failure.value.guidance.value, p.maxDetails))]
          else [])
  }

  function DetailParts(r: RawResult, p: Policy): seq<seq<byte>> {
    if r.details.None? then []
    else [Bracketed("[tool details (serialized JSON): ", TruncateMiddle(r.details.value, p.maxDetails))]
  }

  /** Status and guidance of an error, the content, the details: each cut to its own limit. */
  function Parts(r: RawResult, p: Policy): seq<seq<byte>> {
    ErrorParts(r, p) + [TruncateMiddle(r.content, p.maxContent)] + DetailParts(r, p)
  }

  /** The parts that are not empty, on lines of their own. */
  function Join(parts: seq<seq<byte>>): seq<byte> {
    if parts == [] then []
    else
      var before, last := Join(parts[..|parts| - 1]), parts[|parts| - 1];
      if last == [] then before else if before == [] then last else before + [0x0A] + last
  }

  // ----- Assembling ---------------------------------------------------------------------------

  /** Appending the parts one after another. */
  function Show(parts: seq<seq<byte>>, total: nat): seq<byte> {
    if parts == [] then [] else AppendSection(Show(parts[..|parts| - 1], total), parts[|parts| - 1], total)
  }

  lemma ShowPush(parts: seq<seq<byte>>, part: seq<byte>, total: nat)
    ensures Show(parts + [part], total) == AppendSection(Show(parts, total), part, total)
  {
    assert (parts + [part])[..|parts|] == parts;
  }

  lemma PreambleIsShown(r: RawResult, p: Policy)
    ensures Preamble(r, p) == Show(ErrorParts(r, p), p.maxTotal)
  {
    if r.isError {
      HeaderIsStatusLine(r.failure);
      var status := Ascii(StatusLine(r.failure));
      ShowPush([], status, p.maxTotal);
      assert [] + [status] == [status];
      if r.failure.Some? && r.failure.value.guidance.Some? {
        var guidance := Bracketed("[recovery guidance: ", TruncateMiddle(r.failure.value.guidance.value, p.maxDetails));
        ShowPush([status], guidance, p.maxTotal);
      } else {
        assert [status] + [] == [status];
      }
    }
  }

  lemma SectionsAreShown(r: RawResult, p: Policy)
    ensures Sections(r, p) == Show(Parts(r, p), p.maxTotal)
  {
    PreambleIsShown(r, p);
    var content := TruncateMiddle(r.content, p.maxContent);
    ShowPush(ErrorParts(r, p), content, p.maxTotal);
    if r.details.Some? {
      var details := Bracketed("[tool details (serialized JSON): ", TruncateMiddle(r.details.value, p.maxDetails));
      ShowPush(ErrorParts(r, p) + [content], details, p.maxTotal);
    } else {
      assert ErrorParts(r, p) + [content] + [] == ErrorParts(r, p) + [content];
    }
  }

  lemma JoinGrows(parts: seq<seq<byte>>)
    requires parts != []
    ensures |Join(parts[..|parts| - 1])| <= |Join(parts)|
  {
  }

  lemma AppendWhole(output: seq<byte>, part: seq<byte>, total: nat)
    requires |output| + |part| + (if output == [] then 0 else 1) <= total
    ensures AppendSection(output, part, total) ==
            if part == [] then output else if output == [] then part else output + [0x0A] + part
  {
    if part != [] {
      FittingIsKept(part, total - |output| - (if output == [] then 0 else 1));
      assert [] + [] + part == part;
    }
  }

  lemma AppendNothing(output: seq<byte>, total: nat)
    ensures AppendSection(output, [], total) == output
  {
  }

  /** Parts that fit together are all shown, whole. */
  lemma {:induction false} FittingPartsAreShown(parts: seq<seq<byte>>, total: nat)
    requires |Join(parts)| <= total
    ensures Show(parts, total) == Join(parts)
  {
    if parts == [] {
    } else {
      var last := parts[|parts| - 1];
      JoinGrows(parts);
      FittingPartsAreShown(parts[..|parts| - 1], total);
      if last == [] {
        AppendNothing(Join(parts[..|parts| - 1]), total);
      } else {
        AppendWhole(Join(parts[..|parts| - 1]), last, total);
      }
    }
  }

  lemma AppendKeeps(output: seq<byte>, part: seq<byte>, total: nat)
    ensures output <= AppendSection(output, part, total)
  {
  }

  /** Parts in front that fit together are shown whole, in order, whatever follows them. */
  lemma {:induction false} FrontPartsAreShown(parts: seq<seq<byte>>, total: nat, k: nat)
    requires k <= |parts| && |Join(parts[..k])| <= total
    ensures Join(parts[..k]) <= Show(parts, total)
    decreases |parts|
  {
    if k == |parts| {
      assert parts[..k] == parts;
      FittingPartsAreShown(parts, total);
    } else {
      var init := parts[..|parts| - 1];
      assert init[..k] == parts[..k];
      FrontPartsAreShown(init, total, k);
      AppendKeeps(Show(init, total), parts[|parts| - 1], total);
    }
  }

  // ----- The theorems -------------------------------------------------------------------------

  /** A result that is not a repeat shows its parts, each cut to its own limit and on its own line, if
      together they fit; and otherwise at least those in front that do, whole and in order. */
  lemma ResultIsShown(r: RawResult, p: Policy, seen: set<nat>)
    requires !IsRepeat(r, p, seen)
    ensures |Join(Parts(r, p))| <= p.maxTotal ==> Project(r, p, seen).0 == Join(Parts(r, p))
    ensures forall k :: 0 <= k <= |Parts(r, p)| && |Join(Parts(r, p)[..k])| <= p.maxTotal ==>
              Join(Parts(r, p)[..k]) <= Project(r, p, seen).0
  {
    SectionsAreShown(r, p);
    if |Join(Parts(r, p))| <= p.maxTotal {
      FittingPartsAreShown(Parts(r, p), p.maxTotal);
    }
    forall k | 0 <= k <= |Parts(r, p)| && |Join(Parts(r, p)[..k])| <= p.maxTotal
      ensures Join(Parts(r, p)[..k]) <= Project(r, p, seen).0
    {
      FrontPartsAreShown(Parts(r, p), p.maxTotal, k);
    }
  }

  /** The first part that does not fit whole is cut to what is left, if anything is. */
  lemma FirstCutPart(parts: seq<seq<byte>>, total: nat, k: nat)
    requires k < |parts| && |Join(parts[..k])| <= total < |Join(parts[..k + 1])|
    ensures var before := Join(parts[..k]);
            && (before == [] && total > 0 ==> Show(parts[..k + 1], total) == TruncateMiddle(parts[k], total))
            && (before != [] && total > |before| + 1 ==>
                  Show(parts[..k + 1], total) == before + [0x0A] + TruncateMiddle(parts[k], total - |before| - 1))
            && (before != [] && total <= |before| + 1 ==> Show(parts[..k + 1], total) == before)
  {
    ShowNext(parts, total, k);
    AppendCut(Join(parts[..k]), parts[k], total);
  }

  lemma ShowNext(parts: seq<seq<byte>>, total: nat, k: nat)
    requires k < |parts| && |Join(parts[..k])| <= total < |Join(parts[..k + 1])|
    ensures parts[k] != [] && Show(parts[..k + 1], total) == AppendSection(Join(parts[..k]), parts[k], total)
  {
    assert parts[..k + 1][..k] == parts[..k] && parts[..k + 1][k] == parts[k];
    FittingPartsAreShown(parts[..k], total);
  }

  lemma AppendCut(output: seq<byte>, part: seq<byte>, total: nat)
    requires part != [] && |output| <= total
    ensures output == [] && total > 0 ==> AppendSection(output, part, total) == TruncateMiddle(part, total)
    ensures output != [] && total > |output| + 1 ==>
              AppendSection(output, part, total) == output + [0x0A] + TruncateMiddle(part, total - |output| - 1)
    ensures output != [] && total <= |output| + 1 ==> AppendSection(output, part, total) == output
  {
    if output == [] {
      AppendFirst(part, total);
    } else if total > |output| + 1 {
      AppendUnfolds(output, part, total, NEWLINE);
    } else {
      AppendNoRoom(output, part, total);
    }
  }

  lemma AppendFirst(part: seq<byte>, total: nat)
    requires part != []
    ensures total > 0 ==> AppendSection([], part, total) == TruncateMiddle(part, total)
  {
    if total > 0 {
      AppendUnfolds([], part, total, []);
      FirstOfAll(TruncateMiddle(part, total));
    }
  }

  lemma FirstOfAll(b: seq<byte>)
    ensures [] + [] + b == b
  {
  }

  lemma AppendNoRoom(output: seq<byte>, part: seq<byte>, total: nat)
    requires output != [] && total <= |output| + 1
    ensures AppendSection(output, part, total) == output
  {
  }

  lemma JoinOne(part: seq<byte>)
    ensures Join([part]) == part
  {
    assert [part][..0] == [];
  }

  /** In particular a success without details whose content fits is its content, unchanged. */
  lemma PlainResultIsItsContent(r: RawResult, p: Policy, seen: set<nat>)
    requires !r.isError && r.details.None? && |r.content| <= p.maxContent && |r.content| <= p.maxTotal
    ensures Project(r, p, seen) == (r.content, seen)
  {
    FittingIsKept(r.content, p.maxContent);
    assert Parts(r, p) == [r.content];
    JoinOne(r.content);
    ResultIsShown(r, p, seen);
  }

  /** A repeat shows the notice, and nothing of the result. */
  lemma RepeatIsOmitted(r: RawResult, p: Policy, seen: set<nat>)
    requires r.isError && p.deduplicate && r.fingerprint in seen
    ensures Project(r, p, seen) == (Ascii("[repeated tool error omitted; see the earlier matching result]"), seen)
  {
  }
}
