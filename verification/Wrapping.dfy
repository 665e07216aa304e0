/** Display-width wrapping of raw text: crates/tea-agent/src/render.rs. Positions count scalars. */
module Wrapping {
  import opened Wrappers

  // ----- Characters ---------------------------------------------------------------------------

  predicate IsZeroWidth(c: char) {
    || c == '\U{200d}' || c == '\U{fe0e}' || c == '\U{fe0f}'
    || '\U{300}' <= c <= '\U{36f}' || '\U{1ab0}' <= c <= '\U{1aff}'
    || '\U{20d0}' <= c <= '\U{20ff}' || '\U{fe20}' <= c <= '\U{fe2f}'
  }

  predicate IsWide(c: char) {
    || '\U{1100}' <= c <= '\U{115f}' || '\U{2329}' <= c <= '\U{232a}' || '\U{2e80}' <= c <= '\U{a4cf}'
    || '\U{ac00}' <= c <= '\U{d7a3}' || '\U{f900}' <= c <= '\U{faff}' || '\U{fe10}' <= c <= '\U{fe19}'
    || '\U{fe30}' <= c <= '\U{fe6f}' || '\U{ff00}' <= c <= '\U{ff60}' || '\U{ffe0}' <= c <= '\U{ffe6}'
    || '\U{1f300}' <= c <= '\U{1faff}'
  }

  function CharWidth(c: char): nat {
    if IsZeroWidth(c) then 0 else if IsWide(c) then 2 else 1
  }

  /** The Unicode White_Space property. */
  predicate IsSpace(c: char) {
    || '\U{9}' <= c <= '\U{d}' || c == ' ' || c == '\U{85}' || c == '\U{a0}' || c == '\U{1680}'
    || '\U{2000}' <= c <= '\U{200a}' || c == '\U{2028}' || c == '\U{2029}' || c == '\U{202f}'
    || c == '\U{205f}' || c == '\U{3000}'
  }

  function DisplayWidth(s: string): nat {
    if s == [] then 0 else DisplayWidth(s[..|s| - 1]) + CharWidth(s[|s| - 1])
  }

  /** A row fits, or is one scalar that alone is too wide. */
  predicate Fits(row: string, width: nat) {
    DisplayWidth(row) <= width || |row| == 1
  }

  // ----- Where a row ends ---------------------------------------------------------------------

  /** How far a row that starts at `i` with `used` columns taken can reach. */
  function Reach(s: string, width: nat, used: nat, i: nat): (end: nat)
    requires i <= |s|
    ensures i <= end <= |s|
    decreases |s| - i
  {
    if i < |s| && used + CharWidth(s[i]) <= width then Reach(s, width, used + CharWidth(s[i]), i + 1) else i
  }

  /** The last space in `s[start..end]`. */
  function LastSpace(s: string, start: nat, end: nat): (r: Option<nat>)
    requires start <= end <= |s|
    ensures r.Some? ==> start <= r.value < end && IsSpace(s[r.value])
    ensures forall j :: (if r.Some? then r.value + 1 else start) <= j < end ==> !IsSpace(s[j])
  {
    if start == end then None
    else if IsSpace(s[end - 1]) then Some(end - 1)
    else LastSpace(s, start, end - 1)
  }

  /** The scan both wrappers share, from `start`; a scalar that does not fit is taken anyway. */
  method Scan(s: string, width: nat, start: nat) returns (end: nat, lastSpace: Option<nat>)
    requires start < |s|
    ensures end == AtLeastOne(s, width, start)
    ensures lastSpace == LastSpace(s, start, Reach(s, width, 0, start))
  {
    var used: nat := 0;
    end, lastSpace := start, None;
    while end < |s| && used + CharWidth(s[end]) <= width
      invariant start <= end <= |s|
      invariant Reach(s, width, used, end) == Reach(s, width, 0, start)
      invariant lastSpace == LastSpace(s, start, end)
    {
      used := used + CharWidth(s[end]);
      if IsSpace(s[end]) {
        lastSpace := Some(end);
      }
      end := end + 1;
    }
    if end == start {
      end := end + 1;
    }
  }

  function AtLeastOne(s: string, width: nat, start: nat): (end: nat)
    requires start < |s|
    ensures start < end <= |s|
  {
    var end := Reach(s, width, 0, start);
    if end == start then start + 1 else end
  }

  lemma {:induction false} ReachFits(s: string, width: nat, used: nat, start: nat, i: nat)
    requires start <= i <= |s| && used == DisplayWidth(s[start..i]) <= width
    ensures DisplayWidth(s[start..Reach(s, width, used, i)]) <= width
    ensures Reach(s, width, used, i) < |s| ==> DisplayWidth(s[start..Reach(s, width, used, i) + 1]) > width
    decreases |s| - i
  {
    if i == |s| {
    } else {
      OneWider(s, start, i);
      if used + CharWidth(s[i]) <= width {
        ReachFits(s, width, used + CharWidth(s[i]), start, i + 1);
      }
    }
  }

  lemma OneWider(s: string, start: nat, i: nat)
    requires start <= i < |s|
    ensures DisplayWidth(s[start..i + 1]) == DisplayWidth(s[start..i]) + CharWidth(s[i])
  {
    assert s[start..i + 1] == s[start..i] + [s[i]];
  }

  lemma {:induction false} PrefixIsNarrower(s: string, start: nat, i: nat, j: nat)
    requires start <= i <= j <= |s|
    ensures DisplayWidth(s[start..i]) <= DisplayWidth(s[start..j])
    decreases j - i
  {
    if i == j {
    } else {
      PrefixIsNarrower(s, start, i, j - 1);
      OneWider(s, start, j - 1);
    }
  }

  /** Whatever is cut off before the end of the scan fits. */
  lemma CutFits(s: string, width: nat, start: nat, cut: nat)
    requires start < |s| && start <= cut <= AtLeastOne(s, width, start)
    ensures Fits(s[start..cut], width)
  {
    var end := Reach(s, width, 0, start);
    assert DisplayWidth(s[start..start]) == 0;
    ReachFits(s, width, 0, start, start);
    if cut <= end {
      PrefixIsNarrower(s, start, cut, end);
    }
  }

  // ----- Raw text -----------------------------------------------------------------------------

  function TrimStart(s: string): (r: string)
    ensures |r| <= |s| && (r != [] ==> !IsSpace(r[0]))
  {
    if s != [] && IsSpace(s[0]) then TrimStart(s[1..]) else s
  }

  function TrimEnd(s: string): (r: string)
    ensures |r| <= |s| && r == s[..|r|]
    ensures r != [] ==> !IsSpace(r[|r| - 1])
    ensures forall i :: |r| <= i < |s| ==> IsSpace(s[i])
  {
    if s != [] && IsSpace(s[|s| - 1]) then TrimEnd(s[..|s| - 1]) else s
  }

  function RawCut(s: string, width: nat): (cut: nat)
    requires s != []
    ensures 0 < cut <= AtLeastOne(s, width, 0)
  {
    var end, space := AtLeastOne(s, width, 0), LastSpace(s, 0, Reach(s, width, 0, 0));
    if end < |s| && space.Some? && space.value > 0 then space.value else end
  }

  /** The rows of one trimmed line. */
  function WrapLine(s: string, width: nat): seq<string>
    decreases |s|
  {
    if s == [] then []
    else [TrimEnd(s[..RawCut(s, width)])] + WrapLine(TrimStart(s[RawCut(s, width)..]), width)
  }

  function SplitLines(text: string): (lines: seq<string>)
    ensures lines != []
  {
    if text == [] then [[]]
    else
      var lines, c := SplitLines(text[..|text| - 1]), text[|text| - 1];
      if c == '\n' then lines + [[]] else lines[..|lines| - 1] + [lines[|lines| - 1] + [c]]
  }

  function LineRows(line: string, width: nat): seq<string> {
    if line == [] then [[]] else WrapLine(TrimStart(line), width)
  }

  function WrapLines(lines: seq<string>, width: nat): seq<string> {
    if lines == [] then [] else WrapLines(lines[..|lines| - 1], width) + LineRows(lines[|lines| - 1], width)
  }

  function Wrapped(text: string, width: nat): seq<string> {
    if width == 0 then [] else WrapLines(SplitLines(text), width)
  }

  /** The two nested loops compute the recursive wrapping. */
  method WrapRawText(text: string, width: nat) returns (output: seq<string>)
    ensures output == Wrapped(text, width)
  {
    if width == 0 {
      return [];
    }
    var lines := SplitLines(text);
    output := [];
    for i := 0 to |lines|
      invariant output == WrapLines(lines[..i], width)
    {
      assert lines[..i + 1][..i] == lines[..i];
      var rows := WrapOneLine(lines[i], width);
      output := output + rows;
    }
    assert lines[..|lines|] == lines;
  }

  method WrapOneLine(line: string, width: nat) returns (rows: seq<string>)
    ensures rows == LineRows(line, width)
  {
    if line == [] {
      return [[]];
    }
    var remaining := TrimStart(line);
    rows := [];
    while remaining != []
      invariant rows + WrapLine(remaining, width) == LineRows(line, width)
      decreases |remaining|
    {
      var end, lastSpace := Scan(remaining, width, 0);
      var cut := if end < |remaining| && lastSpace.Some? && lastSpace.value > 0 then lastSpace.value else end;
      assert cut == RawCut(remaining, width);
      WrapLineUnfolds(remaining, width);
      Regroup(rows, [TrimEnd(remaining[..cut])], WrapLine(TrimStart(remaining[cut..]), width));
      rows := rows + [TrimEnd(remaining[..cut])];
      remaining := TrimStart(remaining[cut..]);
    }
  }

  lemma WrapLineUnfolds(s: string, width: nat)
    requires s != []
    ensures WrapLine(s, width) ==
            [TrimEnd(s[..RawCut(s, width)])] + WrapLine(TrimStart(s[RawCut(s, width)..]), width)
  {
  }

  lemma Regroup(a: seq<string>, b: seq<string>, c: seq<string>)
    ensures a + (b + c) == a + b + c
  {
  }

  // ----- What wrapping keeps ------------------------------------------------------------------

  /** The characters that are not white space, in order. */
  function Ink(s: string): string {
    if s == [] then [] else Ink(s[..|s| - 1]) + (if IsSpace(s[|s| - 1]) then [] else [s[|s| - 1]])
  }

  function Flatten(rows: seq<string>): string {
    if rows == [] then [] else Flatten(rows[..|rows| - 1]) + rows[|rows| - 1]
  }

  lemma {:induction false} InkAppend(a: string, b: string)
    ensures Ink(a + b) == Ink(a) + Ink(b)
  {
    if b == [] {
      assert a + b == a;
    } else {
      assert (a + b)[..|a + b| - 1] == a + b[..|b| - 1];
      InkAppend(a, b[..|b| - 1]);
    }
  }

  lemma {:induction false} SpaceHasNoInk(s: string)
    requires forall i :: 0 <= i < |s| ==> IsSpace(s[i])
    ensures Ink(s) == []
  {
    if s == [] {
    } else {
      SpaceHasNoInk(s[..|s| - 1]);
    }
  }

  lemma {:induction false} TrimStartKeepsInk(s: string)
    ensures Ink(TrimStart(s)) == Ink(s)
  {
    if s == [] || !IsSpace(s[0]) {
    } else {
      TrimStartKeepsInk(s[1..]);
      InkAppend(s[..1], s[1..]);
      SpaceHasNoInk(s[..1]);
      assert s == s[..1] + s[1..];
    }
  }

  lemma TrimEndKeepsInk(s: string)
    ensures Ink(TrimEnd(s)) == Ink(s)
  {
    var n := |TrimEnd(s)|;
    InkAppend(s[..n], s[n..]);
    SpaceHasNoInk(s[n..]);
    assert s == s[..n] + s[n..];
  }

  lemma {:induction false} FlattenAppend(a: seq<string>, b: seq<string>)
    ensures Flatten(a + b) == Flatten(a) + Flatten(b)
  {
    if b == [] {
      assert a + b == a;
    } else {
      assert (a + b)[..|a + b| - 1] == a + b[..|b| - 1];
      FlattenAppend(a, b[..|b| - 1]);
    }
  }

  lemma FlattenOne(row: string)
    ensures Flatten([row]) == row
  {
    assert [row][..0] == [];
  }

  lemma {:induction false} LineKeepsInk(s: string, width: nat)
    ensures Ink(Flatten(WrapLine(s, width))) == Ink(s)
    decreases |s|
  {
    if s == [] {
    } else {
      var cut := RawCut(s, width);
      LineKeepsInk(TrimStart(s[cut..]), width);
      WrapLineUnfolds(s, width);
      InkOfFirst(TrimEnd(s[..cut]), WrapLine(TrimStart(s[cut..]), width));
      InkAroundCut(s, cut);
    }
  }

  lemma InkOfFirst(row: string, rows: seq<string>)
    ensures Ink(Flatten([row] + rows)) == Ink(row) + Ink(Flatten(rows))
  {
    FlattenAppend([row], rows);
    FlattenOne(row);
    InkAppend(row, Flatten(rows));
  }

  lemma InkAroundCut(s: string, cut: nat)
    requires cut <= |s|
    ensures Ink(TrimEnd(s[..cut])) + Ink(TrimStart(s[cut..])) == Ink(s)
  {
    TrimEndKeepsInk(s[..cut]);
    TrimStartKeepsInk(s[cut..]);
    InkSplits(s, cut);
  }

  lemma InkSplits(s: string, cut: nat)
    requires cut <= |s|
    ensures Ink(s) == Ink(s[..cut]) + Ink(s[cut..])
  {
    assert s == s[..cut] + s[cut..];
    InkAppend(s[..cut], s[cut..]);
  }

  lemma LineRowsKeepInk(line: string, width: nat)
    ensures Ink(Flatten(LineRows(line, width))) == Ink(line)
  {
    if line == [] {
      FlattenOne([]);
    } else {
      LineKeepsInk(TrimStart(line), width);
      TrimStartKeepsInk(line);
    }
  }

  lemma {:induction false} LinesKeepInk(lines: seq<string>, width: nat)
    ensures Ink(Flatten(WrapLines(lines, width))) == Ink(Flatten(lines))
  {
    if lines == [] {
    } else {
      var init, last := lines[..|lines| - 1], lines[|lines| - 1];
      LinesKeepInk(init, width);
      LineRowsKeepInk(last, width);
      FlattenAppend(WrapLines(init, width), LineRows(last, width));
      InkAppend(Flatten(WrapLines(init, width)), Flatten(LineRows(last, width)));
      InkAppend(Flatten(init), last);
    }
  }

  lemma {:induction false} SplitKeepsInk(text: string)
    ensures Ink(Flatten(SplitLines(text))) == Ink(text)
  {
    if text == [] {
      FlattenOne([]);
    } else {
      var lines, c := SplitLines(text[..|text| - 1]), text[|text| - 1];
      SplitKeepsInk(text[..|text| - 1]);
      if c == '\n' {
        assert (lines + [[]])[..|lines|] == lines;
        assert Flatten(lines + [[]]) == Flatten(lines) + [] == Flatten(lines);
        assert IsSpace('\n');
      } else {
        LengthenLast(lines, c);
        InkAppend(Flatten(lines), [c]);
        assert Ink([c]) == if IsSpace(c) then [] else [c] by { assert [c][..0] == []; }
      }
    }
  }

  lemma LengthenLast(lines: seq<string>, c: char)
    requires lines != []
    ensures Flatten(lines[..|lines| - 1] + [lines[|lines| - 1] + [c]]) == Flatten(lines) + [c]
  {
    var init, last := lines[..|lines| - 1], lines[|lines| - 1];
    FlattenPush(init, last + [c]);
    assert Flatten(init) + (last + [c]) == Flatten(init) + last + [c];
  }

  lemma FlattenPush(rows: seq<string>, row: string)
    ensures Flatten(rows + [row]) == Flatten(rows) + row
  {
    assert (rows + [row])[..|rows|] == rows;
  }

  /** Wrapping neither loses, adds nor reorders a character that is not white space. */
  lemma WrappingKeepsInk(text: string, width: nat)
    requires width > 0
    ensures Ink(Flatten(Wrapped(text, width))) == Ink(text)
  {
    LinesKeepInk(SplitLines(text), width);
    SplitKeepsInk(text);
  }

  // ----- Rows ---------------------------------------------------------------------------------

  lemma {:induction false} TrimmedFits(s: string, n: nat, width: nat)
    requires n <= |s| && Fits(s, width)
    ensures Fits(s[..n], width)
  {
    PrefixIsNarrower(s, 0, n, |s|);
    assert s[0..n] == s[..n] && s[0..|s|] == s;
    if |s| == 1 && n == 0 {
      assert s[..n] == [];
    }
  }

  lemma {:induction false} LineRowsFit(s: string, width: nat)
    ensures forall i :: 0 <= i < |WrapLine(s, width)| ==> Fits(WrapLine(s, width)[i], width)
    decreases |s|
  {
    if s == [] {
    } else {
      var cut := RawCut(s, width);
      CutFits(s, width, 0, cut);
      assert s[0..cut] == s[..cut];
      TrimmedFits(s[..cut], |TrimEnd(s[..cut])|, width);
      LineRowsFit(TrimStart(s[cut..]), width);
    }
  }

  lemma {:induction false} LinesFit(lines: seq<string>, width: nat)
    ensures forall i :: 0 <= i < |WrapLines(lines, width)| ==> Fits(WrapLines(lines, width)[i], width)
  {
    if lines == [] {
    } else {
      LinesFit(lines[..|lines| - 1], width);
      LineRowsFit(TrimStart(lines[|lines| - 1]), width);
    }
  }

  /** Every row fits the width or is a single over-wide scalar. */
  lemma EveryRowFits(text: string, width: nat)
    ensures forall i :: 0 <= i < |Wrapped(text, width)| ==> Fits(Wrapped(text, width)[i], width)
  {
    LinesFit(SplitLines(text), width);
  }

  /** A row ends inside a word only when that word, from the start of the row, is too wide for it. */
  lemma WordIsSplitOnlyIfTooWide(s: string, width: nat)
    requires s != [] && !IsSpace(s[0])
    ensures var cut := RawCut(s, width);
            cut < |s| && !IsSpace(s[cut]) ==>
              DisplayWidth(s[..cut + 1]) > width && forall i :: 0 <= i < cut ==> !IsSpace(s[i])
  {
    var end := Reach(s, width, 0, 0);
    assert s[0..0] == [];
    ReachFits(s, width, 0, 0, 0);
    if end < |s| {
      assert s[0..end + 1] == s[..end + 1];
      if end == 0 {
        PrefixIsNarrower(s, 0, 1, |s|);
        TwoWider(s, width);
      }
    }
  }

  lemma TwoWider(s: string, width: nat)
    requires s != [] && DisplayWidth(s[..1]) > width
    ensures |s| > 1 ==> DisplayWidth(s[..2]) > width
  {
    if |s| > 1 {
      PrefixIsNarrower(s, 0, 1, 2);
      assert s[0..1] == s[..1] && s[0..2] == s[..2];
    }
  }

  // ----- Every row boundary -------------------------------------------------------------------

  predicate IsBlank(s: string) {
    forall i :: 0 <= i < |s| ==> IsSpace(s[i])
  }

  /** Rows with what was dropped after each of them put back. */
  function Weave(rows: seq<string>, gaps: seq<string>): string
    requires |rows| == |gaps|
  {
    if rows == [] then [] else rows[0] + gaps[0] + Weave(rows[1..], gaps[1..])
  }

  /** Where nothing was dropped between a row and the next, a word was split; then the row is all
      one word, and that word's next character would not have fitted. */
  predicate SplitsOnlyWideWords(rows: seq<string>, gaps: seq<string>, width: nat)
    requires |rows| == |gaps|
  {
    forall i :: 0 <= i < |rows| - 1 && gaps[i] == [] ==> IsWideWord(rows[i], rows[i + 1], width)
  }

  predicate IsWideWord(row: string, next: string, width: nat) {
    && next != [] && DisplayWidth(row + [next[0]]) > width
    && forall j :: 0 <= j < |row| ==> !IsSpace(row[j])
  }

  lemma {:induction false} TrimStartDropsBlanks(s: string)
    ensures var n := |s| - |TrimStart(s)|; TrimStart(s) == s[n..] && IsBlank(s[..n])
  {
    if s == [] || !IsSpace(s[0]) {
    } else {
      TrimStartDropsBlanks(s[1..]);
      var n := |s| - |TrimStart(s)|;
      assert s[1..][n - 1..] == s[n..] && s[..n] == [s[0]] + s[1..][..n - 1];
      BlankFirst(s[0], s[1..][..n - 1]);
    }
  }

  lemma BlankFirst(c: char, s: string)
    requires IsSpace(c) && IsBlank(s)
    ensures IsBlank([c] + s)
  {
  }

  /** The first row of a line starts where the line does. */
  lemma FirstRowStarts(s: string, width: nat)
    requires s != [] && !IsSpace(s[0])
    ensures WrapLine(s, width) != [] && WrapLine(s, width)[0] != [] && WrapLine(s, width)[0][0] == s[0]
  {
    TrimEndKeepsFirst(s[..RawCut(s, width)]);
    WrapLineUnfolds(s, width);
  }

  lemma TrimEndKeepsFirst(s: string)
    requires s != [] && !IsSpace(s[0])
    ensures TrimEnd(s) != [] && TrimEnd(s)[0] == s[0]
  {
    assert forall i :: |TrimEnd(s)| <= i < |s| ==> IsSpace(s[i]);
  }

  /** What the first cut drops. */
  function FirstGap(s: string, width: nat): string
    requires s != []
  {
    var cut := RawCut(s, width);
    s[|TrimEnd(s[..cut])|..|s| - |TrimStart(s[cut..])|]
  }

  lemma ThreeParts(s: string, n: nat, m: nat)
    requires n <= m <= |s|
    ensures s == s[..n] + s[n..m] + s[m..]
  {
  }

  lemma BlankBetween(s: string, n: nat, cut: nat, m: nat)
    requires n <= cut <= m <= |s|
    requires (forall i :: n <= i < cut ==> IsSpace(s[..cut][i])) && IsBlank(s[cut..][..m - cut])
    ensures IsBlank(s[n..m])
  {
    forall i | 0 <= i < m - n
      ensures IsSpace(s[n..m][i])
    {
      if n + i < cut {
        assert s[..cut][n + i] == s[n..m][i];
      } else {
        assert s[cut..][..m - cut][n + i - cut] == s[n..m][i];
      }
    }
  }

  lemma FirstGapIs(s: string, width: nat)
    requires s != []
    ensures var cut := RawCut(s, width);
            && IsBlank(FirstGap(s, width))
            && s == TrimEnd(s[..cut]) + FirstGap(s, width) + TrimStart(s[cut..])
            && (FirstGap(s, width) == [] ==> TrimEnd(s[..cut]) == s[..cut] && TrimStart(s[cut..]) == s[cut..])
  {
    var cut := RawCut(s, width);
    var n, m := |TrimEnd(s[..cut])|, |s| - |TrimStart(s[cut..])|;
    TrimStartDropsBlanks(s[cut..]);
    BlankBetween(s, n, cut, m);
    ThreeParts(s, n, m);
    assert s[..cut][..n] == s[..n] && s[cut..][m - cut..] == s[m..];
  }

  lemma FirstBreak(s: string, width: nat)
    requires s != [] && !IsSpace(s[0]) && FirstGap(s, width) == []
    requires TrimStart(s[RawCut(s, width)..]) != []
    ensures var cut := RawCut(s, width);
            IsWideWord(TrimEnd(s[..cut]), TrimStart(s[cut..]), width)
  {
    var cut := RawCut(s, width);
    FirstGapIs(s, width);
    WordIsSplitOnlyIfTooWide(s, width);
    assert s[..cut] + [s[cut]] == s[..cut + 1];
  }

  /** The rows are the line up to blanks between them, and break words only where they must. */
  predicate IsWoven(s: string, rows: seq<string>, gaps: seq<string>, width: nat) {
    && |gaps| == |rows| && Weave(rows, gaps) == s
    && (forall i :: 0 <= i < |gaps| ==> IsBlank(gaps[i]))
    && SplitsOnlyWideWords(rows, gaps, width)
  }

  lemma {:induction false} LineIsWoven(s: string, width: nat) returns (gaps: seq<string>)
    requires s == [] || !IsSpace(s[0])
    ensures IsWoven(s, WrapLine(s, width), gaps, width)
    decreases |s|
  {
    if s == [] {
      gaps := [];
    } else {
      var later := LineIsWoven(TrimStart(s[RawCut(s, width)..]), width);
      gaps := [FirstGap(s, width)] + later;
      WovenFirst(s, width, later);
    }
  }

  lemma WovenFirst(s: string, width: nat, later: seq<string>)
    requires s != [] && !IsSpace(s[0])
    requires var rest := TrimStart(s[RawCut(s, width)..]); IsWoven(rest, WrapLine(rest, width), later, width)
    ensures IsWoven(s, WrapLine(s, width), [FirstGap(s, width)] + later, width)
  {
    var row, rest := TrimEnd(s[..RawCut(s, width)]), TrimStart(s[RawCut(s, width)..]);
    FirstGapIs(s, width);
    WrapLineUnfolds(s, width);
    WeaveFirst(row, WrapLine(rest, width), FirstGap(s, width), later);
    BlankGaps(FirstGap(s, width), later);
    WovenOnward(s, width, rest, later);
  }

  lemma BlankGaps(gap: string, gaps: seq<string>)
    requires IsBlank(gap) && forall i :: 0 <= i < |gaps| ==> IsBlank(gaps[i])
    ensures forall i :: 0 <= i < |[gap] + gaps| ==> IsBlank(([gap] + gaps)[i])
  {
  }

  lemma WeaveFirst(row: string, rows: seq<string>, gap: string, gaps: seq<string>)
    requires |rows| == |gaps|
    ensures Weave([row] + rows, [gap] + gaps) == row + gap + Weave(rows, gaps)
  {
    assert ([row] + rows)[1..] == rows && ([gap] + gaps)[1..] == gaps;
  }

  lemma WovenOnward(s: string, width: nat, rest: string, later: seq<string>)
    requires s != [] && !IsSpace(s[0]) && rest == TrimStart(s[RawCut(s, width)..])
    requires |later| == |WrapLine(rest, width)| && SplitsOnlyWideWords(WrapLine(rest, width), later, width)
    ensures SplitsOnlyWideWords(WrapLine(s, width), [FirstGap(s, width)] + later, width)
  {
    var row, rows, gaps := TrimEnd(s[..RawCut(s, width)]), WrapLine(rest, width), [FirstGap(s, width)] + later;
    WrapLineUnfolds(s, width);
    if rest != [] {
      FirstRowStarts(rest, width);
      if FirstGap(s, width) == [] {
        FirstBreak(s, width);
        assert IsWideWord(row, rows[0], width);
      }
    }
    forall i | 0 <= i < |rows| && gaps[i] == []
      ensures IsWideWord(([row] + rows)[i], ([row] + rows)[i + 1], width)
    {
      if i > 0 {
        assert gaps[i] == later[i - 1] && ([row] + rows)[i] == rows[i - 1];
      }
    }
  }

  /** The rows stand together at `a`. */
  predicate StandsAt(all: seq<string>, a: nat, rows: seq<string>) {
    a + |rows| <= |all| && all[a..a + |rows|] == rows
  }

  lemma StandsInFront(x: seq<string>, y: seq<string>, a: nat, rows: seq<string>)
    requires StandsAt(x, a, rows)
    ensures StandsAt(x + y, a, rows)
  {
    assert (x + y)[a..a + |rows|] == x[a..a + |rows|];
  }

  lemma StandsBehind(x: seq<string>, y: seq<string>)
    ensures StandsAt(x + y, |x|, y)
  {
  }

  lemma {:induction false} RowsOfLine(lines: seq<string>, width: nat, k: nat)
    requires k < |lines|
    ensures StandsAt(WrapLines(lines, width), |WrapLines(lines[..k], width)|, LineRows(lines[k], width))
  {
    var n := |lines| - 1;
    var init := lines[..n];
    if k == n {
      StandsBehind(WrapLines(init, width), LineRows(lines[n], width));
    } else {
      RowsOfLine(init, width, k);
      assert init[..k] == lines[..k] && init[k] == lines[k];
      StandsInFront(WrapLines(init, width), LineRows(lines[n], width),
                    |WrapLines(lines[..k], width)|, LineRows(lines[k], width));
    }
  }

  lemma LineRowsAreWoven(line: string, width: nat) returns (gaps: seq<string>)
    ensures IsWoven(TrimStart(line), LineRows(line, width), gaps, width)
  {
    if line == [] {
      gaps := [[]];
      WeaveFirst([], [], [], []);
    } else {
      gaps := LineIsWoven(TrimStart(line), width);
    }
  }

  /** For every line of every text: its rows stand together in the output, they are the line up to
      the blanks dropped around them, and no row ends inside a word that could have been kept. */
  lemma EveryBreakIsJustified(text: string, width: nat, k: nat) returns (a: nat, gaps: seq<string>)
    requires width > 0 && k < |SplitLines(text)|
    ensures var line := SplitLines(text)[k];
            && StandsAt(Wrapped(text, width), a, LineRows(line, width))
            && IsWoven(TrimStart(line), LineRows(line, width), gaps, width)
  {
    a := |WrapLines(SplitLines(text)[..k], width)|;
    RowsOfLine(SplitLines(text), width, k);
    gaps := LineRowsAreWoven(SplitLines(text)[k], width);
  }

  // ----- How full a row is --------------------------------------------------------------------

  /** Where both wrappers cut a row that starts at `start`: at the last space scanned, if anything is
      left behind the scan and there is one, else at its end. */
  function SpaceOrEnd(s: string, width: nat, start: nat): (cut: nat)
    requires start < |s|
    ensures start <= cut <= AtLeastOne(s, width, start)
  {
    var space := LastSpace(s, start, Reach(s, width, 0, start));
    if AtLeastOne(s, width, start) < |s| && space.Some? then space.value else AtLeastOne(s, width, start)
  }

  /** The next word would have fitted too: the row could end at `e`, behind it. */
  ghost predicate FitsUpTo(s: string, width: nat, start: nat, cut: nat, e: nat) {
    && start <= cut < e <= |s| && (e == |s| || IsSpace(s[e])) && DisplayWidth(s[start..e]) <= width
    && exists j :: cut <= j < e && !IsSpace(s[j])
  }

  ghost predicate CouldTakeMore(s: string, width: nat, start: nat, cut: nat) {
    exists e :: FitsUpTo(s, width, start, cut, e)
  }

  lemma ReachIsLimit(s: string, width: nat, start: nat, e: nat)
    requires start <= e <= |s|
    ensures DisplayWidth(s[start..e]) <= width <==> e <= Reach(s, width, 0, start)
  {
    var end := Reach(s, width, 0, start);
    assert s[start..start] == [];
    ReachFits(s, width, 0, start, start);
    if e <= end {
      PrefixIsNarrower(s, start, e, end);
    } else {
      PrefixIsNarrower(s, start, end + 1, e);
    }
  }

  /** A row could have taken the next word exactly when the scan stopped right behind a word, at a
      space, with an earlier space to cut at: the exact fit is not noticed. */
  lemma RowIsFullUnless(s: string, width: nat, start: nat)
    requires start < |s|
    ensures var cut, end := SpaceOrEnd(s, width, start), Reach(s, width, 0, start);
            CouldTakeMore(s, width, start, cut) <==>
            cut < end < |s| && IsSpace(s[end]) && !IsSpace(s[end - 1])
  {
    var cut, end := SpaceOrEnd(s, width, start), Reach(s, width, 0, start);
    if cut < end < |s| && IsSpace(s[end]) && !IsSpace(s[end - 1]) {
      ReachIsLimit(s, width, start, end);
      assert FitsUpTo(s, width, start, cut, end);
    }
    if e :| FitsUpTo(s, width, start, cut, e) {
      ReachIsLimit(s, width, start, e);
      OnlyTheEnd(s, width, start, e);
    }
  }

  lemma OnlyTheEnd(s: string, width: nat, start: nat, e: nat)
    requires start < |s| && FitsUpTo(s, width, start, SpaceOrEnd(s, width, start), e)
    requires e <= Reach(s, width, 0, start)
    ensures var cut, end := SpaceOrEnd(s, width, start), Reach(s, width, 0, start);
            cut < end < |s| && e == end && !IsSpace(s[end - 1])
  {
    var cut, end := SpaceOrEnd(s, width, start), Reach(s, width, 0, start);
    var space := LastSpace(s, start, end);
    assert space.Some? && cut == space.value;
    assert forall j :: cut + 1 <= j < end ==> !IsSpace(s[j]);
    var j :| cut <= j < e && !IsSpace(s[j]);
  }

  /** The raw wrapper, whose lines start with a word, cuts there. */
  lemma RawCutIs(s: string, width: nat)
    requires s != [] && !IsSpace(s[0])
    ensures RawCut(s, width) == SpaceOrEnd(s, width, 0)
  {
  }

  /** At width 5 the first row is "ab", although "ab cd" fits. */
  lemma ShortRow(s: string)
    requires s == "ab cd ef"
    ensures RawCut(s, 5) == 2 && CouldTakeMore(s, 5, 0, 2)
  {
    assert s[0] == 'a' && s[1] == 'b' && s[2] == ' ' && s[3] == 'c' && s[4] == 'd' && s[5] == ' ';
    assert forall i :: 0 <= i < 6 ==> CharWidth(s[i]) == 1;
    assert Reach(s, 5, 5, 5) == 5;
    assert Reach(s, 5, 4, 4) == 5;
    assert Reach(s, 5, 3, 3) == 5;
    assert Reach(s, 5, 2, 2) == 5;
    assert Reach(s, 5, 1, 1) == 5;
    assert LastSpace(s, 0, 3) == Some(2);
    assert LastSpace(s, 0, 4) == Some(2);
    RowIsFullUnless(s, 5, 0);
    RawCutIs(s, 5);
  }

  // ----- Lines --------------------------------------------------------------------------------

  function JoinLines(lines: seq<string>): string
    requires lines != []
  {
    if |lines| == 1 then lines[0] else JoinLines(lines[..|lines| - 1]) + "\n" + lines[|lines| - 1]
  }

  predicate NoNewline(s: string) {
    forall i :: 0 <= i < |s| ==> s[i] != '\n'
  }

  lemma JoinPush(lines: seq<string>)
    requires lines != []
    ensures JoinLines(lines + [[]]) == JoinLines(lines) + "\n"
  {
    assert (lines + [[]])[..|lines|] == lines;
    assert JoinLines(lines) + "\n" + [] == JoinLines(lines) + "\n";
  }

  lemma JoinLengthen(lines: seq<string>, c: char)
    requires lines != []
    ensures JoinLines(lines[..|lines| - 1] + [lines[|lines| - 1] + [c]]) == JoinLines(lines) + [c]
  {
    var init, last := lines[..|lines| - 1], lines[|lines| - 1];
    LongerParts(init, last + [c]);
    if |lines| > 1 {
      PushCharacter(JoinLines(init) + "\n", last, c);
    }
  }

  lemma LongerParts(init: seq<string>, line: string)
    ensures var longer := init + [line]; longer[..|longer| - 1] == init && longer[|longer| - 1] == line
  {
  }

  lemma PushCharacter(a: string, b: string, c: char)
    ensures a + (b + [c]) == a + b + [c]
  {
  }

  /** The lines are the text between its newlines: they contain none, and joined by newlines they are
      the text. */
  lemma {:induction false} LinesAreTheText(text: string)
    ensures JoinLines(SplitLines(text)) == text
    ensures forall i :: 0 <= i < |SplitLines(text)| ==> NoNewline(SplitLines(text)[i])
  {
    if text == [] {
    } else {
      var init, c := text[..|text| - 1], text[|text| - 1];
      var lines := SplitLines(init);
      LinesAreTheText(init);
      assert text == init + [c];
      if c == '\n' {
        JoinPush(lines);
      } else {
        JoinLengthen(lines, c);
        NoNewlineLonger(lines, c);
      }
    }
  }

  lemma NoNewlineLonger(lines: seq<string>, c: char)
    requires lines != [] && c != '\n' && forall i :: 0 <= i < |lines| ==> NoNewline(lines[i])
    ensures var longer := lines[..|lines| - 1] + [lines[|lines| - 1] + [c]];
            forall i :: 0 <= i < |longer| ==> NoNewline(longer[i])
  {
    var last := lines[|lines| - 1];
    assert NoNewline(last + [c]);
  }

  lemma {:induction false} TrimStartOfBlank(s: string)
    ensures TrimStart(s) == [] <==> IsBlank(s)
  {
    if s == [] || !IsSpace(s[0]) {
    } else {
      TrimStartOfBlank(s[1..]);
      assert s == [s[0]] + s[1..];
    }
  }

  /** A row starts and ends with something visible. */
  predicate IsTrimmed(row: string) {
    row != [] && !IsSpace(row[0]) && !IsSpace(row[|row| - 1])
  }

  lemma {:induction false} RowsAreTrimmed(s: string, width: nat)
    requires s == [] || !IsSpace(s[0])
    ensures forall i :: 0 <= i < |WrapLine(s, width)| ==> IsTrimmed(WrapLine(s, width)[i])
    ensures s != [] ==> WrapLine(s, width) != []
    decreases |s|
  {
    if s == [] {
    } else {
      WrapLineUnfolds(s, width);
      FirstRowIsTrimmed(s, RawCut(s, width));
      RowsAreTrimmed(TrimStart(s[RawCut(s, width)..]), width);
    }
  }

  lemma FirstRowIsTrimmed(s: string, cut: nat)
    requires s != [] && !IsSpace(s[0]) && 0 < cut <= |s|
    ensures IsTrimmed(TrimEnd(s[..cut]))
  {
    TrimEndKeepsFirst(s[..cut]);
  }

  /** How many rows a line gets: an empty line one empty row, a line of blanks none, and any other at
      least one, all of them without blanks around them. */
  lemma RowsPerLine(line: string, width: nat)
    ensures line == [] ==> LineRows(line, width) == [[]]
    ensures line != [] && IsBlank(line) ==> LineRows(line, width) == []
    ensures !IsBlank(line) ==>
              LineRows(line, width) != [] &&
              forall i :: 0 <= i < |LineRows(line, width)| ==> IsTrimmed(LineRows(line, width)[i])
  {
    TrimStartOfBlank(line);
    RowsAreTrimmed(TrimStart(line), width);
  }
}
