/** Wrapping of styled lines: crates/tea-agent/src/render.rs. */
module StyledWrapping {
  import opened Wrappers
  import opened Wrapping

  datatype Style = Style(role: nat, bold: bool)

  datatype RenderLine = RenderLine(text: string, style: Style, styles: Option<seq<Style>>)

  datatype Cell = Cell(ch: char, style: Style)

  // ----- The cells of a line ------------------------------------------------------------------

  function StylesOf(line: RenderLine): seq<Style> {
    if line.styles.Some? then line.styles.value else seq(|line.text|, i => line.style)
  }

  /** Characters are paired with styles while both last. */
  function CellCount(line: RenderLine): nat {
    if |StylesOf(line)| < |line.text| then |StylesOf(line)| else |line.text|
  }

  function Cells(line: RenderLine): (cs: seq<Cell>)
    ensures |cs| == CellCount(line)
  {
    seq(CellCount(line), i requires 0 <= i < CellCount(line) => Cell(line.text[i], StylesOf(line)[i]))
  }

  function Chars(cs: seq<Cell>): (s: string)
    ensures |s| == |cs| && forall i :: 0 <= i < |cs| ==> s[i] == cs[i].ch
  {
    seq(|cs|, i requires 0 <= i < |cs| => cs[i].ch)
  }

  function RowStyles(cs: seq<Cell>): (s: seq<Style>)
    ensures |s| == |cs| && forall i :: 0 <= i < |cs| ==> s[i] == cs[i].style
  {
    seq(|cs|, i requires 0 <= i < |cs| => cs[i].style)
  }

  function Row(cs: seq<Cell>, style: Style): RenderLine {
    RenderLine(Chars(cs), style, Some(RowStyles(cs)))
  }

  lemma RowKeepsCells(cs: seq<Cell>, style: Style)
    ensures Cells(Row(cs, style)) == cs
  {
  }

  // ----- The wrapping -------------------------------------------------------------------------

  function Cut(s: string, width: nat, start: nat): (cut: nat)
    requires start < |s|
    ensures start <= cut <= AtLeastOne(s, width, start)
    ensures cut == start ==> IsSpace(s[start])
  {
    SpaceOrEnd(s, width, start)
  }

  function Next(s: string, width: nat, start: nat): (next: nat)
    requires start < |s|
    ensures start < next <= |s|
  {
    var cut := Cut(s, width, start);
    if cut > start && cut < |s| && IsSpace(s[cut]) then cut + 1 else if cut > start then cut else start + 1
  }

  function RowsFrom(cs: seq<Cell>, style: Style, width: nat, start: nat): seq<RenderLine>
    requires start <= |cs|
    decreases |cs| - start
  {
    if start == |cs| then []
    else [Row(cs[start..Cut(Chars(cs), width, start)], style)] +
         RowsFrom(cs, style, width, Next(Chars(cs), width, start))
  }

  function TrimCells(cs: seq<Cell>): seq<Cell> {
    if cs != [] && IsSpace(cs[0].ch) then TrimCells(cs[1..]) else cs
  }

  function Shown(line: RenderLine, preserveIndentation: bool): seq<Cell> {
    if preserveIndentation then Cells(line) else TrimCells(Cells(line))
  }

  function WrappedStyled(line: RenderLine, width: nat, preserveIndentation: bool): seq<RenderLine> {
    var cs := Shown(line, preserveIndentation);
    if width == 0 then []
    else if cs == [] then [RenderLine([], line.style, None)]
    else RowsFrom(cs, line.style, width, 0)
  }

  method DrainIndentation(cs: seq<Cell>) returns (rest: seq<Cell>)
    ensures rest == TrimCells(cs)
  {
    var trim := 0;
    while trim < |cs| && IsSpace(cs[trim].ch)
      invariant trim <= |cs| && TrimCells(cs[trim..]) == TrimCells(cs)
    {
      assert cs[trim..][1..] == cs[trim + 1..];
      trim := trim + 1;
    }
    rest := cs[trim..];
  }

  /** The loop over `start` computes the recursive wrapping. */
  method WrapStyledLine(line: RenderLine, width: nat, preserveIndentation: bool) returns (output: seq<RenderLine>)
    ensures output == WrappedStyled(line, width, preserveIndentation)
  {
    if width == 0 {
      return [];
    }
    var cs := Cells(line);
    if !preserveIndentation {
      cs := DrainIndentation(cs);
    }
    if cs == [] {
      return [RenderLine([], line.style, None)];
    }
    output := WrapCells(cs, line.style, width);
  }

  method WrapCells(cs: seq<Cell>, style: Style, width: nat) returns (output: seq<RenderLine>)
    ensures output == RowsFrom(cs, style, width, 0)
  {
    var s := Chars(cs);
    output := [];
    var start := 0;
    while start < |cs|
      invariant start <= |cs|
      invariant output + RowsFrom(cs, style, width, start) == RowsFrom(cs, style, width, 0)
      decreases |cs| - start
    {
      var end, lastSpace := Scan(s, width, start);
      var cut := if end < |cs| && lastSpace.Some? then lastSpace.value else end;
      var next := if cut > start && cut < |cs| && IsSpace(s[cut]) then cut + 1 else cut;
      if next < start + 1 {
        next := start + 1;
      }
      OneRow(cs, style, width, start, cut, next);
      output := output + [Row(cs[start..cut], style)];
      start := next;
    }
  }

  lemma OneRow(cs: seq<Cell>, style: Style, width: nat, start: nat, cut: nat, next: nat)
    requires start < |cs| && cut == Cut(Chars(cs), width, start) && next == Next(Chars(cs), width, start)
    ensures forall before: seq<RenderLine> ::
              before + [Row(cs[start..cut], style)] + RowsFrom(cs, style, width, next) ==
              before + RowsFrom(cs, style, width, start)
  {
  }

  // ----- What wrapping keeps ------------------------------------------------------------------

  /** The cells whose character is not white space, in order. */
  function StyledInk(cs: seq<Cell>): seq<Cell> {
    if cs == [] then []
    else StyledInk(cs[..|cs| - 1]) + (if IsSpace(cs[|cs| - 1].ch) then [] else [cs[|cs| - 1]])
  }

  function RowsInk(rows: seq<RenderLine>): seq<Cell> {
    if rows == [] then [] else StyledInk(Cells(rows[0])) + RowsInk(rows[1..])
  }

  lemma {:induction false} StyledInkAppend(a: seq<Cell>, b: seq<Cell>)
    ensures StyledInk(a + b) == StyledInk(a) + StyledInk(b)
  {
    if b == [] {
      assert a + b == a;
    } else {
      assert (a + b)[..|a + b| - 1] == a + b[..|b| - 1];
      StyledInkAppend(a, b[..|b| - 1]);
    }
  }

  lemma OneSpaceHasNoInk(c: Cell)
    requires IsSpace(c.ch)
    ensures StyledInk([c]) == []
  {
    assert [c][..0] == [];
  }

  /** Between a cut and the next start there is at most a space. */
  lemma GapHasNoInk(cs: seq<Cell>, width: nat, start: nat)
    requires start < |cs|
    ensures var cut, next := Cut(Chars(cs), width, start), Next(Chars(cs), width, start);
            cut <= next && StyledInk(cs[cut..next]) == []
  {
    var cut, next := Cut(Chars(cs), width, start), Next(Chars(cs), width, start);
    if cut < next {
      assert cs[cut..next] == [cs[cut]];
      OneSpaceHasNoInk(cs[cut]);
    }
  }

  lemma {:induction false} RowsFromKeepInk(cs: seq<Cell>, style: Style, width: nat, start: nat)
    requires start <= |cs|
    ensures RowsInk(RowsFrom(cs, style, width, start)) == StyledInk(cs[start..])
    decreases |cs| - start
  {
    if start == |cs| {
    } else {
      var cut, next := Cut(Chars(cs), width, start), Next(Chars(cs), width, start);
      RowsFromKeepInk(cs, style, width, next);
      GapHasNoInk(cs, width, start);
      RowKeepsCells(cs[start..cut], style);
      ThreeParts(cs, start, cut, next);
    }
  }

  lemma ThreeParts(cs: seq<Cell>, start: nat, cut: nat, next: nat)
    requires start <= cut <= next <= |cs| && StyledInk(cs[cut..next]) == []
    ensures StyledInk(cs[start..]) == StyledInk(cs[start..cut]) + StyledInk(cs[next..])
  {
    TwoParts(cs, start, cut);
    TwoParts(cs, cut, next);
  }

  lemma TwoParts(cs: seq<Cell>, start: nat, cut: nat)
    requires start <= cut <= |cs|
    ensures StyledInk(cs[start..]) == StyledInk(cs[start..cut]) + StyledInk(cs[cut..])
  {
    assert cs[start..] == cs[start..cut] + cs[cut..];
    StyledInkAppend(cs[start..cut], cs[cut..]);
  }

  lemma {:induction false} TrimKeepsInk(cs: seq<Cell>)
    ensures StyledInk(TrimCells(cs)) == StyledInk(cs)
  {
    if cs == [] || !IsSpace(cs[0].ch) {
    } else {
      TrimKeepsInk(cs[1..]);
      StyledInkAppend([cs[0]], cs[1..]);
      OneSpaceHasNoInk(cs[0]);
      assert cs == [cs[0]] + cs[1..];
    }
  }

  lemma EmptyRowInk(style: Style)
    ensures RowsInk([RenderLine([], style, None)]) == []
  {
    assert [RenderLine([], style, None)][1..] == [];
  }

  /** Every cell that shows something appears once, in order, with its own style. */
  lemma StyledWrappingKeepsInk(line: RenderLine, width: nat, preserveIndentation: bool)
    requires width > 0
    ensures RowsInk(WrappedStyled(line, width, preserveIndentation)) == StyledInk(Cells(line))
  {
    var cs := Shown(line, preserveIndentation);
    TrimKeepsInk(Cells(line));
    EmptyRowInk(line.style);
    RowsFromKeepInk(cs, line.style, width, 0);
    assert cs[0..] == cs;
  }

  // ----- Characters without a style -----------------------------------------------------------

  lemma {:induction false} CellsHaveTextInk(cs: seq<Cell>)
    ensures Chars(StyledInk(cs)) == Ink(Chars(cs))
  {
    if cs == [] {
    } else {
      var init, last := cs[..|cs| - 1], cs[|cs| - 1];
      CellsHaveTextInk(init);
      assert Chars(cs)[..|cs| - 1] == Chars(init);
      assert StyledInk(cs) == StyledInk(init) + if IsSpace(last.ch) then [] else [last];
    }
  }

  lemma {:induction false} NoInkIsSpace(s: string)
    ensures Ink(s) == [] <==> forall i :: 0 <= i < |s| ==> IsSpace(s[i])
  {
    if s == [] {
    } else {
      NoInkIsSpace(s[..|s| - 1]);
      assert s == s[..|s| - 1] + [s[|s| - 1]];
    }
  }

  /** The rows show the whole text exactly when no visible character lies past the last style. */
  lemma TextIsKeptIffStyled(line: RenderLine, width: nat, preserveIndentation: bool)
    requires width > 0
    ensures Chars(RowsInk(WrappedStyled(line, width, preserveIndentation))) == Ink(line.text) <==>
            forall i :: CellCount(line) <= i < |line.text| ==> IsSpace(line.text[i])
  {
    StyledWrappingKeepsInk(line, width, preserveIndentation);
    CellsHaveTextInk(Cells(line));
    assert Chars(Cells(line)) == line.text[..CellCount(line)];
    InkOfPrefix(line.text, CellCount(line));
  }

  lemma InkOfPrefix(s: string, n: nat)
    requires n <= |s|
    ensures Ink(s[..n]) == Ink(s) <==> forall i :: n <= i < |s| ==> IsSpace(s[i])
  {
    InkAppend(s[..n], s[n..]);
    assert s == s[..n] + s[n..];
    NoInkIsSpace(s[n..]);
    assert forall i :: n <= i < |s| ==> s[i] == s[n..][i - n];
    assert Ink(s) == Ink(s[..n]) ==> |Ink(s[n..])| == 0;
  }

  // ----- Rows ---------------------------------------------------------------------------------

  lemma {:induction false} RowsFromFit(cs: seq<Cell>, style: Style, width: nat, start: nat)
    requires start <= |cs|
    ensures forall i :: 0 <= i < |RowsFrom(cs, style, width, start)| ==>
              Fits(RowsFrom(cs, style, width, start)[i].text, width)
    decreases |cs| - start
  {
    if start == |cs| {
    } else {
      var cut := Cut(Chars(cs), width, start);
      CutFits(Chars(cs), width, start, cut);
      assert Chars(cs[start..cut]) == Chars(cs)[start..cut];
      RowsFromFit(cs, style, width, Next(Chars(cs), width, start));
    }
  }

  /** Every row fits the width or is a single over-wide scalar. */
  lemma EveryStyledRowFits(line: RenderLine, width: nat, preserveIndentation: bool)
    ensures forall i :: 0 <= i < |WrappedStyled(line, width, preserveIndentation)| ==>
              Fits(WrappedStyled(line, width, preserveIndentation)[i].text, width)
  {
    RowsFromFit(Shown(line, preserveIndentation), line.style, width, 0);
  }

  // ----- The rows are the line ----------------------------------------------------------------

  /** Rows with what was skipped after each of them put back. */
  function WeaveCells(rows: seq<RenderLine>, gaps: seq<seq<Cell>>): seq<Cell>
    requires |rows| == |gaps|
  {
    if rows == [] then [] else Cells(rows[0]) + gaps[0] + WeaveCells(rows[1..], gaps[1..])
  }

  /** Nothing, or a single space. */
  predicate IsSmallGap(gap: seq<Cell>) {
    gap == [] || (|gap| == 1 && IsSpace(gap[0].ch))
  }

  lemma WeaveCellsFirst(row: RenderLine, rows: seq<RenderLine>, gap: seq<Cell>, gaps: seq<seq<Cell>>)
    requires |rows| == |gaps|
    ensures WeaveCells([row] + rows, [gap] + gaps) == Cells(row) + gap + WeaveCells(rows, gaps)
  {
    assert ([row] + rows)[1..] == rows && ([gap] + gaps)[1..] == gaps;
  }

  lemma {:induction false} RowsAreWoven(cs: seq<Cell>, style: Style, width: nat, start: nat)
    returns (gaps: seq<seq<Cell>>)
    requires start <= |cs|
    ensures |gaps| == |RowsFrom(cs, style, width, start)|
    ensures WeaveCells(RowsFrom(cs, style, width, start), gaps) == cs[start..]
    ensures forall i :: 0 <= i < |gaps| ==> IsSmallGap(gaps[i])
    decreases |cs| - start
  {
    if start == |cs| {
      gaps := [];
    } else {
      var cut, next := Cut(Chars(cs), width, start), Next(Chars(cs), width, start);
      var later := RowsAreWoven(cs, style, width, next);
      gaps := [cs[cut..next]] + later;
      RowKeepsCells(cs[start..cut], style);
      WeaveCellsFirst(Row(cs[start..cut], style), RowsFrom(cs, style, width, next), cs[cut..next], later);
      ThreeSlices(cs, start, cut, next);
      SkipsOneSpace(cs, width, start);
    }
  }

  lemma ThreeSlices(cs: seq<Cell>, start: nat, cut: nat, next: nat)
    requires start <= cut <= next <= |cs|
    ensures cs[start..cut] + cs[cut..next] + cs[next..] == cs[start..]
  {
  }

  lemma SkipsOneSpace(cs: seq<Cell>, width: nat, start: nat)
    requires start < |cs|
    ensures var cut, next := Cut(Chars(cs), width, start), Next(Chars(cs), width, start);
            cut <= next && IsSmallGap(cs[cut..next])
  {
  }

  lemma {:induction false} TrimCellsDropsBlanks(cs: seq<Cell>)
    ensures |TrimCells(cs)| <= |cs|
    ensures var n := |cs| - |TrimCells(cs)|;
            && 0 <= n && TrimCells(cs) == cs[n..]
            && (forall i :: 0 <= i < n ==> IsSpace(cs[i].ch))
            && (n < |cs| ==> !IsSpace(cs[n].ch))
  {
    if cs == [] || !IsSpace(cs[0].ch) {
    } else {
      TrimCellsDropsBlanks(cs[1..]);
      assert cs == [cs[0]] + cs[1..];
    }
  }

  /** The rows of a styled line, with at most one space skipped after each, are the line's cells; its
      leading blanks are there exactly if indentation is preserved. */
  lemma StyledLineIsWoven(line: RenderLine, width: nat, preserveIndentation: bool)
    returns (rows: seq<RenderLine>, gaps: seq<seq<Cell>>, indent: nat)
    requires width > 0
    ensures rows == WrappedStyled(line, width, preserveIndentation) && |gaps| == |rows|
    ensures forall i :: 0 <= i < |gaps| ==> IsSmallGap(gaps[i])
    ensures indent <= CellCount(line) && WeaveCells(rows, gaps) == Cells(line)[indent..]
    ensures forall i :: 0 <= i < indent ==> IsSpace(Cells(line)[i].ch)
    ensures if preserveIndentation then indent == 0
            else indent == CellCount(line) || !IsSpace(Cells(line)[indent].ch)
  {
    rows := WrappedStyled(line, width, preserveIndentation);
    indent := ShownIs(line, preserveIndentation);
    gaps := ShownIsWoven(Shown(line, preserveIndentation), line.style, width);
  }

  lemma ShownIs(line: RenderLine, preserveIndentation: bool) returns (indent: nat)
    ensures indent <= CellCount(line) && Shown(line, preserveIndentation) == Cells(line)[indent..]
    ensures forall i :: 0 <= i < indent ==> IsSpace(Cells(line)[i].ch)
    ensures if preserveIndentation then indent == 0
            else indent == CellCount(line) || !IsSpace(Cells(line)[indent].ch)
  {
    TrimCellsDropsBlanks(Cells(line));
    indent := if preserveIndentation then 0 else |Cells(line)| - |TrimCells(Cells(line))|;
  }

  lemma ShownIsWoven(cs: seq<Cell>, style: Style, width: nat) returns (gaps: seq<seq<Cell>>)
    ensures var rows := if cs == [] then [RenderLine([], style, None)] else RowsFrom(cs, style, width, 0);
            |gaps| == |rows| && WeaveCells(rows, gaps) == cs
    ensures forall i :: 0 <= i < |gaps| ==> IsSmallGap(gaps[i])
  {
    if cs == [] {
      gaps := [[]];
      WeaveCellsFirst(RenderLine([], style, None), [], [], []);
    } else {
      gaps := RowsAreWoven(cs, style, width, 0);
      assert cs[0..] == cs;
    }
  }
}
