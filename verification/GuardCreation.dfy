/** When the tab fix turns an ordinary line into a clang-format guard. */
module GuardCreation {
  import opened PyText
  import opened StyleFixer

  // ---------------------------------------------------------------- the text between the margins

  function Margin(s: string): string {
    if s != "" && IsSpace(s[0]) then [s[0]] + Margin(s[1..]) else ""
  }

  /** The column in which the text of a line begins. */
  function Indent(s: string): nat { Column(Margin(s), 0) }

  lemma {:induction false} MarginIs(head: string, t: string)
    requires AllSpace(head) && t != "" && !IsSpace(t[0])
    ensures Margin(head + t) == head
  {
    if head == "" {
      assert head + t == t;
    } else {
      assert (head + t)[1..] == head[1..] + t;
      MarginIs(head[1..], t);
    }
  }

  lemma {:induction false} LstripFirst(s: string)
    ensures Lstrip(s) != "" ==> !IsSpace(Lstrip(s)[0])
  {
    if s != "" && IsSpace(s[0]) {
      LstripFirst(s[1..]);
    }
  }

  lemma StripSolid(s: string)
    ensures Strip(s) != "" ==> Solid(Strip(s))
  {
    var tail := RstripParts(s);
    var head := LstripParts(Rstrip(s));
    LstripFirst(Rstrip(s));
    if Strip(s) != "" {
      assert Rstrip(s)[|Rstrip(s)| - 1] == Strip(s)[|Strip(s)| - 1];
    }
  }

  lemma BlankStrip(s: string)
    requires AllSpace(s)
    ensures Strip(s) == ""
  {
    RstripIgnores("", s);
    assert "" + s == s;
  }

  lemma ExpandSolid(t: string, col: nat)
    requires Solid(t)
    ensures Solid(ExpandTabs(t, col))
  {
    var front, last := t[..|t| - 1], [t[|t| - 1]];
    assert t == front + last;
    assert t[0] != '\t' && t[|t| - 1] != '\t';
    ExpandConcat(front, last, col);
    ExpandKeepsTabFree(last, Column(front, col));
  }

  /** Expansion and stripping commute, but for the column the text begins in. */
  lemma StripExpanded(s: string)
    ensures Strip(ExpandTabs(s, 0)) == ExpandTabs(Strip(s), Indent(s))
  {
    var head, tail := StripParts(s);
    var t := Strip(s);
    if t == "" {
      assert s == head + tail;
      ExpandKeepsSpace(s, 0);
      BlankStrip(ExpandTabs(s, 0));
    } else {
      StripSolid(s);
      assert head + t + tail == head + (t + tail);
      MarginIs(head, t + tail);
      ExpandConcat(head + t, tail, 0);
      ExpandConcat(head, t, 0);
      ExpandKeepsSpace(head, 0);
      ExpandKeepsSpace(tail, Column(head + t, 0));
      ExpandSolid(t, Column(head, 0));
      StripPadded(ExpandTabs(head, 0), ExpandTabs(t, Column(head, 0)), ExpandTabs(tail, Column(head + t, 0)));
    }
  }

  // ---------------------------------------------------------------- tabs for blanks

  /** `t` is `g` with tabs for some of its blanks, every tab one column before a tab
      stop when `t` begins in column `col`. */
  predicate Tabbed(t: string, g: string, col: nat) {
    |t| == |g| &&
    forall i | 0 <= i < |t| :: t[i] == g[i] || (g[i] == ' ' && t[i] == '\t' && (col + i) % TAB_SIZE == TAB_SIZE - 1)
  }

  /** A line of text without tabs, line ends or two blanks in a row. */
  predicate SingleSpaced(g: string) {
    && (forall i | 0 <= i < |g| :: g[i] != '\t' && g[i] != '\n' && g[i] != '\r')
    && (forall i | 0 <= i < |g| - 1 :: g[i] == ' ' ==> g[i + 1] != ' ')
    && (g != "" ==> g[|g| - 1] != ' ')
  }

  lemma TabbedStep(t: string, g: string, col: nat)
    requires t != "" && g != ""
    ensures Tabbed(t, g, col) <==>
              && (t[0] == g[0] || (g[0] == ' ' && t[0] == '\t' && col % TAB_SIZE == TAB_SIZE - 1))
              && Tabbed(t[1..], g[1..], col + 1)
  {
    if Tabbed(t, g, col) {
      assert forall i | 0 <= i < |t| - 1 :: t[1..][i] == t[i + 1] && g[1..][i] == g[i + 1];
    }
    if Tabbed(t[1..], g[1..], col + 1) {
      assert forall i | 1 <= i < |t| :: t[i] == t[1..][i - 1] && g[i] == g[1..][i - 1];
    }
  }

  lemma SingleSpacedTail(g: string)
    requires SingleSpaced(g) && g != ""
    ensures SingleSpaced(g[1..])
  {
  }

  lemma SameHead(c: char, s: string, g: string)
    requires g != ""
    ensures [c] + s == g <==> c == g[0] && s == g[1..]
  {
    assert g == [g[0]] + g[1..];
    assert ([c] + s)[0] == c && ([c] + s)[1..] == s;
  }

  lemma {:induction false} ExpandsToIff(t: string, g: string, col: nat)
    requires SingleSpaced(g)
    ensures ExpandTabs(t, col) == g <==> Tabbed(t, g, col)
  {
    if t == "" || g == "" {
      ExpandLength(t, col);
    } else if t[0] == '\t' {
      FirstTab(t, g, col);
      if col % TAB_SIZE == TAB_SIZE - 1 {
        ExpandsToIff(t[1..], g[1..], col + 1);
        SingleSpacedTail(g);
      }
      TabbedStep(t, g, col);
    } else {
      SingleSpacedTail(g);
      ExpandsToIff(t[1..], g[1..], col + 1);
      TabbedStep(t, g, col);
      SameHead(t[0], ExpandTabs(t[1..], NextColumn(t[0], col)), g);
    }
  }

  /** A tab becomes one blank exactly in the column before a tab stop. */
  lemma FirstTab(t: string, g: string, col: nat)
    requires t != "" && t[0] == '\t' && SingleSpaced(g) && g != ""
    ensures ExpandTabs(t, col) == g <==>
              col % TAB_SIZE == TAB_SIZE - 1 && g[0] == ' ' && ExpandTabs(t[1..], col + 1) == g[1..]
  {
    var rest := ExpandTabs(t[1..], col + TAB_SIZE - col % TAB_SIZE);
    var width := TAB_SIZE - col % TAB_SIZE;
    assert ExpandTabs(t, col) == Spaces(width) + rest;
    if width == 1 {
      assert Spaces(1) == [' '];
      SameHead(' ', rest, g);
    } else {
      assert (Spaces(width) + rest)[0] == ' ' && (Spaces(width) + rest)[1] == ' ';
    }
  }

  lemma GuardsAreSingleSpaced()
    ensures SingleSpaced(CLANG_FORMAT_GUARD_ON) && SingleSpaced(CLANG_FORMAT_GUARD_OFF)
  {
  }

  // ---------------------------------------------------------------- guards made by the fix

  /** What a line must be for its expansion to be a guard. */
  lemma ExpandsToGuardIff(l: string)
    ensures IsOn(ExpandTabs(l, 0)) <==> Tabbed(Strip(l), CLANG_FORMAT_GUARD_ON, Indent(l))
    ensures IsOff(ExpandTabs(l, 0)) <==> Tabbed(Strip(l), CLANG_FORMAT_GUARD_OFF, Indent(l))
  {
    GuardsAreSingleSpaced();
    StripExpanded(l);
    ExpandsToIff(Strip(l), CLANG_FORMAT_GUARD_ON, Indent(l));
    ExpandsToIff(Strip(l), CLANG_FORMAT_GUARD_OFF, Indent(l));
  }

  /** The fix makes a guard of an ordinary line exactly when its text is that of a
      guard with a tab for at least one inner blank, each tab in the column before a
      tab stop. */
  lemma NewGuardIff(l: string)
    ensures !IsGuard(l) && IsGuard(ExpandTabs(l, 0)) <==>
              '\t' in Strip(l) &&
              (Tabbed(Strip(l), CLANG_FORMAT_GUARD_ON, Indent(l)) || Tabbed(Strip(l), CLANG_FORMAT_GUARD_OFF, Indent(l)))
  {
    ExpandsToGuardIff(l);
    GuardsAreSolid();
    TabFreeTabbed(Strip(l), CLANG_FORMAT_GUARD_ON, Indent(l));
    TabFreeTabbed(Strip(l), CLANG_FORMAT_GUARD_OFF, Indent(l));
  }

  lemma TabFreeTabbed(t: string, g: string, col: nat)
    requires '\t' !in g
    ensures Tabbed(t, g, col) && '\t' !in t ==> t == g
  {
  }

  predicate Plain(s: string) { forall i | 0 <= i < |s| :: s[i] != '\t' && s[i] != '\n' && s[i] != '\r' }

  lemma StripLine(p: string, rest: string)
    requires Solid(p + rest)
    ensures Strip(p + (rest + "\n")) == p + rest
  {
    StripPadded("", p + rest, "\n");
    assert "" + (p + rest) + "\n" == p + (rest + "\n");
  }

  lemma ExpandTail(rest: string, col: nat)
    requires Plain(rest) && col % TAB_SIZE == 3
    ensures ExpandTabs("\t" + rest + "\n", col) == " " + rest + "\n"
  {
    var text := "\t" + rest + "\n";
    assert text[1..] == rest + "\n";
    ExpandKeepsTabFree(rest + "\n", col + 1);
    assert Spaces(1) == " ";
  }

  /** A tab one column before a tab stop becomes a single blank. */
  lemma TabBecomesBlank(p: string, rest: string)
    requires Plain(p) && Plain(rest) && |p| % TAB_SIZE == 3
    ensures ExpandTabs(p + ("\t" + rest + "\n"), 0) == p + (" " + rest + "\n")
  {
    ColumnOfPlain(p, 0);
    ExpandKeepsTabFree(p, 0);
    ExpandTail(rest, |p|);
    ExpandConcat(p, "\t" + rest + "\n", 0);
  }

  /** The fix can turn an ordinary line into a guard, so that the next pass runs
      under other guards than the fixing pass did. */
  lemma FixCanCreateGuard()
    ensures !IsGuard("// clang-format" + ("\t" + "off" + "\n"))
    ensures IsOff(ExpandTabs("// clang-format" + ("\t" + "off" + "\n"), 0))
  {
    TabBecomesBlank("// clang-format", "off");
    StripLine("// clang-format", "\t" + "off");
    StripLine("// clang-format", " " + "off");
    assert ("// clang-format" + ("\t" + "off"))[15] == '\t';
    assert CLANG_FORMAT_GUARD_OFF[15] != '\t' && CLANG_FORMAT_GUARD_ON[15] != '\t';
    assert "// clang-format" + (" " + "off") == CLANG_FORMAT_GUARD_OFF;
  }

  lemma {:induction false} ColumnOfPlain(s: string, col: nat)
    requires Plain(s)
    ensures Column(s, col) == col + |s|
  {
    if s != "" {
      ColumnOfPlain(s[1..], col + 1);
    }
  }
}
