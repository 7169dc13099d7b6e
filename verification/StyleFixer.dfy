/** Trailing-whitespace and tab checking of check-style-clang-format.py, on the
    lines of one file and on the files of a tree. */
module StyleFixer {
  import opened PyText

  const CLANG_FORMAT_GUARD_ON := "// clang-format on"
  const CLANG_FORMAT_GUARD_OFF := "// clang-format off"

  predicate IsOn(l: string) { Strip(l) == CLANG_FORMAT_GUARD_ON }
  predicate IsOff(l: string) { Strip(l) == CLANG_FORMAT_GUARD_OFF }
  predicate IsGuard(l: string) { IsOn(l) || IsOff(l) }

  // ---------------------------------------------------------------- what is checked

  /** Some "off" guard at or before line i is not followed by an "on" guard up to i. */
  ghost predicate Disabled(lines: seq<string>, i: int) {
    exists j | 0 <= j <= i && j < |lines| :: IsOff(lines[j]) && OnFree(lines, j, i)
  }

  ghost predicate OnFree(lines: seq<string>, j: int, i: int) {
    forall k | 0 <= j < k <= i && k < |lines| :: !IsOn(lines[k])
  }

  /** Line i is subject to the tab check: enabled, or itself a guard. */
  ghost predicate Checked(lines: seq<string>, i: nat)
    requires i < |lines|
  {
    IsGuard(lines[i]) || !Disabled(lines, i)
  }

  ghost predicate HasTabs(lines: seq<string>) {
    exists i | 0 <= i < |lines| :: Checked(lines, i) && '\t' in lines[i]
  }

  ghost function TabFixed(lines: seq<string>, i: nat): string
    requires i < |lines|
  {
    if Checked(lines, i) then ExpandTabs(lines[i], 0) else lines[i]
  }

  /** The file after the tab fix. */
  ghost function FixTabs(lines: seq<string>): seq<string> {
    seq(|lines|, i requires 0 <= i < |lines| => TabFixed(lines, i))
  }

  function WsFixed(l: string): string { Rstrip(l) + "\n" }

  ghost predicate HasWs(lines: seq<string>) {
    exists i | 0 <= i < |lines| :: WsFixed(lines[i]) != lines[i]
  }

  /** The file after the trailing-whitespace fix. */
  function FixWs(lines: seq<string>): seq<string> {
    seq(|lines|, i requires 0 <= i < |lines| => WsFixed(lines[i]))
  }

  // ---------------------------------------------------------------- the tab fix

  lemma GuardsAreSolid()
    ensures Solid(CLANG_FORMAT_GUARD_ON) && '\t' !in CLANG_FORMAT_GUARD_ON
    ensures Solid(CLANG_FORMAT_GUARD_OFF) && '\t' !in CLANG_FORMAT_GUARD_OFF
  {
  }

  /** Guards stay guards; the converse fails, see GuardCreation. */
  lemma GuardSurvives(l: string)
    ensures IsOn(l) ==> IsOn(ExpandTabs(l, 0))
    ensures IsOff(l) ==> IsOff(ExpandTabs(l, 0))
  {
    GuardsAreSolid();
    if IsGuard(l) {
      ExpandKeepsStripped(l);
    }
  }

  /** Where the fixing pass was disabled, a pass over its output is disabled too:
      a new guard can only appear on a line that was enabled. */
  lemma DisabledStaysDisabled(lines: seq<string>, i: nat)
    requires i < |lines| && Disabled(lines, i)
    ensures Disabled(FixTabs(lines), i)
  {
    var fixed := FixTabs(lines);
    var j :| 0 <= j <= i && IsOff(lines[j]) && OnFree(lines, j, i);
    GuardSurvives(lines[j]);
    assert Checked(lines, j);
    forall k | j < k <= i ensures !IsOn(fixed[k]) {
      assert OnFree(lines, j, k);
      assert Disabled(lines, k);
      if IsGuard(lines[k]) {
        assert IsOff(lines[k]);
        GuardSurvives(lines[k]);
      }
    }
    assert OnFree(fixed, j, i);
  }

  /** The tab fix leaves nothing for the tab check. */
  lemma TabFixLeavesNoTabs(lines: seq<string>)
    ensures !HasTabs(FixTabs(lines))
  {
    var fixed := FixTabs(lines);
    forall i | 0 <= i < |fixed| ensures !(Checked(fixed, i) && '\t' in fixed[i]) {
      if Checked(lines, i) {
        ExpandHasNoTab(lines[i], 0);
      } else {
        DisabledStaysDisabled(lines, i);
      }
    }
  }

  lemma NoTabsNothingToFix(lines: seq<string>)
    requires !HasTabs(lines)
    ensures FixTabs(lines) == lines
  {
    forall i | 0 <= i < |lines| ensures FixTabs(lines)[i] == lines[i] {
      if Checked(lines, i) {
        ExpandKeepsTabFree(lines[i], 0);
      }
    }
  }

  lemma TabFixIdempotent(lines: seq<string>)
    ensures FixTabs(FixTabs(lines)) == FixTabs(lines)
  {
    TabFixLeavesNoTabs(lines);
    NoTabsNothingToFix(FixTabs(lines));
  }

  /** The same last column, and the same text but for blanks and tabs. */
  ghost predicate SameLayout(l: string, m: string) {
    Column(l, 0) == Column(m, 0) && Squeeze(l) == Squeeze(m)
  }

  lemma ExpandKeepsLayout(l: string)
    ensures SameLayout(l, ExpandTabs(l, 0))
  {
    ExpandKeepsColumn(l, 0);
    ExpandKeepsText(l, 0);
  }

  /** The tab fix keeps the layout: every line ends in the column it ended in and has
      the same text but for blanks and tabs; a line that is not checked is not touched. */
  lemma TabFixKeepsLayout(lines: seq<string>)
    ensures |FixTabs(lines)| == |lines|
    ensures forall i | 0 <= i < |lines| ::
              && SameLayout(lines[i], FixTabs(lines)[i])
              && (!Checked(lines, i) ==> FixTabs(lines)[i] == lines[i])
    ensures forall i, before, after | 0 <= i < |lines| && Checked(lines, i) && lines[i] == before + after ::
              FixTabs(lines)[i] == ExpandTabs(before, 0) + ExpandTabs(after, Column(ExpandTabs(before, 0), 0))
  {
    forall i | 0 <= i < |lines|
      ensures SameLayout(lines[i], FixTabs(lines)[i])
    {
      ExpandKeepsLayout(lines[i]);
    }
    forall i, before, after | 0 <= i < |lines| && Checked(lines, i) && lines[i] == before + after
      ensures FixTabs(lines)[i] == ExpandTabs(before, 0) + ExpandTabs(after, Column(ExpandTabs(before, 0), 0))
    {
      ExpandKeepsPlaces(before, after, 0);
    }
  }

  // ---------------------------------------------------------------- the whitespace fix

  lemma WsFixedIsClean(l: string)
    ensures WsFixed(WsFixed(l)) == WsFixed(l)
  {
    var tail := RstripParts(l);
    RstripIgnores(Rstrip(l), "\n");
    RstripIgnores(Rstrip(l), tail);
  }

  /** The whitespace fix cuts off exactly the white space at the end of a line and
      ends it with a newline. */
  lemma WsFixKeepsText(l: string) returns (text: string, tail: string)
    ensures l == text + tail && AllSpace(tail) && (text != "" ==> !IsSpace(text[|text| - 1]))
    ensures WsFixed(l) == text + "\n"
  {
    tail := RstripParts(l);
    text := Rstrip(l);
  }

  lemma WsFixLeavesNoWs(lines: seq<string>)
    ensures !HasWs(FixWs(lines))
  {
    forall i | 0 <= i < |lines| ensures WsFixed(FixWs(lines)[i]) == FixWs(lines)[i] {
      WsFixedIsClean(lines[i]);
    }
  }

  lemma NoWsNothingToFix(lines: seq<string>)
    requires !HasWs(lines)
    ensures FixWs(lines) == lines
  {
  }

  /** A text that ends in a character other than white space still does. */
  lemma ExpandKeepsEnd(r: string)
    requires r == "" || !IsSpace(r[|r| - 1])
    ensures Rstrip(ExpandTabs(r, 0)) == ExpandTabs(r, 0)
  {
    if r != "" {
      var front, last := r[..|r| - 1], [r[|r| - 1]];
      assert r == front + last;
      ExpandConcat(front, last, 0);
      ExpandKeepsTabFree(last, Column(front, 0));
      RstripSolid(ExpandTabs(front, 0), r[|r| - 1]);
    }
  }

  lemma RstripSolid(x: string, c: char)
    requires !IsSpace(c)
    ensures Rstrip(x + [c]) == x + [c]
  {
  }

  /** Expanding the tabs of a line that ends cleanly leaves it ending cleanly. */
  lemma ExpandKeepsClean(l: string)
    requires WsFixed(l) == l
    ensures WsFixed(ExpandTabs(l, 0)) == ExpandTabs(l, 0)
  {
    var r := Rstrip(l);
    var tail := RstripParts(l);
    ExpandConcat(r, "\n", 0);
    ExpandKeepsTabFree("\n", Column(r, 0));
    RstripIgnores(ExpandTabs(r, 0), "\n");
    ExpandKeepsEnd(r);
  }

  /** The order of check_style: the tab fix keeps what the whitespace fix achieved. */
  lemma TabFixKeepsClean(lines: seq<string>)
    requires !HasWs(lines)
    ensures !HasWs(FixTabs(lines))
  {
    forall i | 0 <= i < |lines| ensures WsFixed(FixTabs(lines)[i]) == FixTabs(lines)[i] {
      ExpandKeepsClean(lines[i]);
    }
  }

  // ---------------------------------------------------------------- lines stay lines

  lemma WsFixedIsTextLine(l: string)
    requires TextLine(l)
    ensures TextLine(WsFixed(l))
  {
    var tail := RstripParts(l);
    var r := Rstrip(l);
    forall i | 0 <= i < |r| ensures r[i] != '\n' && r[i] != '\r' {
      assert r[i] == l[i];
      if i < |l| - 1 {
        assert l[..|l| - 1][i] == l[i];
      }
    }
    assert WsFixed(l)[..|WsFixed(l)| - 1] == r;
  }

  lemma WsFixKeepsLines(lines: seq<string>)
    requires TextLines(lines)
    ensures TextLines(FixWs(lines))
  {
    forall i | 0 <= i < |lines| ensures TextLine(FixWs(lines)[i]) {
      WsFixedIsTextLine(lines[i]);
    }
  }

  lemma ExpandedIsTextLine(l: string)
    requires TextLine(l)
    ensures TextLine(ExpandTabs(l, 0))
    ensures l[|l| - 1] == '\n' ==> ExpandTabs(l, 0)[|ExpandTabs(l, 0)| - 1] == '\n'
  {
    var body, last := l[..|l| - 1], [l[|l| - 1]];
    var e := ExpandTabs(l, 0);
    assert l == body + last;
    ExpandAddsOnlyBlanks(l, 0, '\r');
    ExpandLength(l, 0);
    if l[|l| - 1] == '\n' {
      ExpandConcat(body, last, 0);
      ExpandKeepsTabFree(last, Column(body, 0));
      ExpandAddsOnlyBlanks(body, 0, '\n');
      assert e[..|e| - 1] == ExpandTabs(body, 0);
    } else {
      assert '\n' !in l;
      ExpandAddsOnlyBlanks(l, 0, '\n');
    }
  }

  lemma TabFixKeepsLines(lines: seq<string>)
    requires TextLines(lines)
    ensures TextLines(FixTabs(lines))
  {
    var fixed := FixTabs(lines);
    forall i | 0 <= i < |lines|
      ensures TextLine(fixed[i])
      ensures lines[i][|lines[i]| - 1] == '\n' ==> fixed[i][|fixed[i]| - 1] == '\n'
    {
      ExpandedIsTextLine(lines[i]);
    }
  }

  // ---------------------------------------------------------------- whole files

  ghost predicate FileHasWs(raw: string) { HasWs(ReadLines(raw)) }
  ghost predicate FileHasTabs(raw: string) { HasTabs(ReadLines(raw)) }

  /** The contents a fix run leaves behind: rewritten only if there was something to fix. */
  ghost function WsFixedFile(raw: string): string {
    if FileHasWs(raw) then Join(FixWs(ReadLines(raw))) else raw
  }

  ghost function TabFixedFile(raw: string): string {
    if FileHasTabs(raw) then Join(FixTabs(ReadLines(raw))) else raw
  }

  lemma ReadWsFixed(raw: string)
    ensures ReadLines(WsFixedFile(raw)) == FixWs(ReadLines(raw))
  {
    ReadIsTextLines(raw);
    if FileHasWs(raw) {
      WsFixKeepsLines(ReadLines(raw));
      WriteThenRead(FixWs(ReadLines(raw)));
    } else {
      NoWsNothingToFix(ReadLines(raw));
    }
  }

  lemma ReadTabFixed(raw: string)
    ensures ReadLines(TabFixedFile(raw)) == FixTabs(ReadLines(raw))
  {
    ReadIsTextLines(raw);
    if FileHasTabs(raw) {
      TabFixKeepsLines(ReadLines(raw));
      WriteThenRead(FixTabs(ReadLines(raw)));
    } else {
      NoTabsNothingToFix(ReadLines(raw));
    }
  }

  /** Fix, then check again: the tab checker accepts what the tab fixer wrote,
      the line count is unchanged and fixing again changes nothing. */
  lemma TabFixThenCheck(raw: string)
    ensures !FileHasTabs(TabFixedFile(raw))
    ensures |ReadLines(TabFixedFile(raw))| == |ReadLines(raw)|
    ensures TabFixedFile(TabFixedFile(raw)) == TabFixedFile(raw)
  {
    ReadTabFixed(raw);
    TabFixLeavesNoTabs(ReadLines(raw));
  }

  /** The tab fix keeps the layout of a file. */
  lemma TabFixKeepsFileLayout(raw: string, i: nat)
    requires i < |ReadLines(raw)|
    ensures |ReadLines(TabFixedFile(raw))| == |ReadLines(raw)|
    ensures SameLayout(ReadLines(raw)[i], ReadLines(TabFixedFile(raw))[i])
  {
    ReadTabFixed(raw);
    TabFixKeepsLayout(ReadLines(raw));
  }

  lemma WsFixThenCheck(raw: string)
    ensures !FileHasWs(WsFixedFile(raw))
    ensures |ReadLines(WsFixedFile(raw))| == |ReadLines(raw)|
    ensures WsFixedFile(WsFixedFile(raw)) == WsFixedFile(raw)
  {
    ReadWsFixed(raw);
    WsFixLeavesNoWs(ReadLines(raw));
  }

  lemma TabFixKeepsCleanFile(raw: string)
    requires !FileHasWs(raw)
    ensures !FileHasWs(TabFixedFile(raw))
  {
    ReadTabFixed(raw);
    TabFixKeepsClean(ReadLines(raw));
  }

  /** In check_style's order both checkers accept the result. */
  lemma BothFixesThenBothChecks(raw: string)
    ensures !FileHasWs(TabFixedFile(WsFixedFile(raw)))
    ensures !FileHasTabs(TabFixedFile(WsFixedFile(raw)))
    ensures |ReadLines(TabFixedFile(WsFixedFile(raw)))| == |ReadLines(raw)|
  {
    ReadWsFixed(raw);
    WsFixLeavesNoWs(ReadLines(raw));
    TabFixThenCheck(WsFixedFile(raw));
    ReadTabFixed(WsFixedFile(raw));
    TabFixKeepsClean(FixWs(ReadLines(raw)));
  }
}
