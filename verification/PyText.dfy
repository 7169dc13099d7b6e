/** The Python string and text-file operations the style checker is built on. */
module PyText {

  /** The characters str.strip() removes. */
  predicate IsSpace(c: char) {
    var n := c as int;
    9 <= n <= 13 || 28 <= n <= 32 || n == 0x85 || n == 0xA0 || n == 0x1680 || 0x2000 <= n <= 0x200A ||
    n == 0x2028 || n == 0x2029 || n == 0x202F || n == 0x205F || n == 0x3000
  }

  predicate AllSpace(s: string) { forall i | 0 <= i < |s| :: IsSpace(s[i]) }

  function Lstrip(s: string): string {
    if s != "" && IsSpace(s[0]) then Lstrip(s[1..]) else s
  }

  function Rstrip(s: string): string {
    if s != "" && IsSpace(s[|s| - 1]) then Rstrip(s[..|s| - 1]) else s
  }

  function Strip(s: string): string { Lstrip(Rstrip(s)) }

  const TAB_SIZE: nat := 4

  function Spaces(n: nat): string { seq(n, _ => ' ') }

  /** str.expandtabs(TAB_SIZE) of a piece that starts in column `col`. */
  function ExpandTabs(s: string, col: nat): string {
    if s == "" then ""
    else if s[0] == '\t' then Spaces(TAB_SIZE - col % TAB_SIZE) + ExpandTabs(s[1..], col + TAB_SIZE - col % TAB_SIZE)
    else [s[0]] + ExpandTabs(s[1..], NextColumn(s[0], col))
  }

  /** A tab moves to the next tab stop. */
  function NextColumn(c: char, col: nat): (next: nat)
    ensures c == '\t' ==> col < next <= col + 4 && next % 4 == 0
    ensures c == '\n' || c == '\r' ==> next == 0
    ensures c != '\t' && c != '\n' && c != '\r' ==> next == col + 1
  {
    if c == '\n' || c == '\r' then 0 else if c == '\t' then col + TAB_SIZE - col % TAB_SIZE else col + 1
  }

  function Column(s: string, col: nat): nat {
    if s == "" then col else Column(s[1..], NextColumn(s[0], col))
  }

  // ---------------------------------------------------------------- stripping

  lemma {:induction false} RstripParts(s: string) returns (tail: string)
    ensures s == Rstrip(s) + tail && AllSpace(tail)
    ensures Rstrip(s) != "" ==> !IsSpace(Rstrip(s)[|Rstrip(s)| - 1])
  {
    if s != "" && IsSpace(s[|s| - 1]) {
      var t := RstripParts(s[..|s| - 1]);
      tail := t + [s[|s| - 1]];
      AppendLast(s, Rstrip(s), t);
    } else {
      tail := "";
    }
  }

  lemma AppendLast(s: string, r: string, t: string)
    requires s != "" && s[..|s| - 1] == r + t
    ensures s == r + (t + [s[|s| - 1]])
  {
    assert s == s[..|s| - 1] + [s[|s| - 1]];
  }

  lemma {:induction false} LstripParts(s: string) returns (head: string)
    ensures s == head + Lstrip(s) && AllSpace(head)
  {
    if s != "" && IsSpace(s[0]) {
      var t := LstripParts(s[1..]);
      head := [s[0]] + t;
    } else {
      head := "";
    }
  }

  lemma {:induction false} RstripIgnores(s: string, tail: string)
    requires AllSpace(tail)
    ensures Rstrip(s + tail) == Rstrip(s)
  {
    if tail == "" {
      assert s + tail == s;
    } else {
      var front := tail[..|tail| - 1];
      assert (s + tail)[..|s + tail| - 1] == s + front;
      RstripIgnores(s, front);
    }
  }

  lemma {:induction false} LstripIgnores(head: string, s: string)
    requires AllSpace(head) && s != "" && !IsSpace(s[0])
    ensures Lstrip(head + s) == s
  {
    if head == "" {
      assert head + s == s;
    } else {
      assert (head + s)[1..] == head[1..] + s;
      LstripIgnores(head[1..], s);
    }
  }

  predicate Solid(g: string) { g != "" && !IsSpace(g[0]) && !IsSpace(g[|g| - 1]) }

  /** Strip finds exactly the solid part of a padded string. */
  lemma StripPadded(head: string, g: string, tail: string)
    requires AllSpace(head) && AllSpace(tail) && Solid(g)
    ensures Strip(head + g + tail) == g
  {
    RstripIgnores(head + g, tail);
    assert Rstrip(head + g) == head + g;
    LstripIgnores(head, g);
  }

  lemma StripParts(s: string) returns (head: string, tail: string)
    ensures s == head + Strip(s) + tail && AllSpace(head) && AllSpace(tail)
  {
    tail := RstripParts(s);
    head := LstripParts(Rstrip(s));
  }

  // ---------------------------------------------------------------- tabs

  lemma {:induction false} ExpandConcat(s: string, t: string, col: nat)
    ensures ExpandTabs(s + t, col) == ExpandTabs(s, col) + ExpandTabs(t, Column(s, col))
  {
    if s == "" {
      assert s + t == t;
    } else {
      assert (s + t)[1..] == s[1..] + t;
      ExpandConcat(s[1..], t, NextColumn(s[0], col));
    }
  }

  lemma {:induction false} ExpandHasNoTab(s: string, col: nat)
    ensures '\t' !in ExpandTabs(s, col)
  {
    if s != "" {
      ExpandHasNoTab(s[1..], NextColumn(s[0], col));
    }
  }

  lemma {:induction false} ExpandKeepsTabFree(s: string, col: nat)
    requires '\t' !in s
    ensures ExpandTabs(s, col) == s
  {
    if s != "" {
      ExpandKeepsTabFree(s[1..], NextColumn(s[0], col));
    }
  }

  lemma {:induction false} ExpandKeepsSpace(s: string, col: nat)
    requires AllSpace(s)
    ensures AllSpace(ExpandTabs(s, col))
  {
    if s != "" {
      ExpandKeepsSpace(s[1..], NextColumn(s[0], col));
    }
  }

  /** Expansion writes no character other than blanks that the line did not have. */
  lemma {:induction false} ExpandAddsOnlyBlanks(s: string, col: nat, c: char)
    requires c !in s && c != ' '
    ensures c !in ExpandTabs(s, col)
  {
    if s != "" {
      ExpandAddsOnlyBlanks(s[1..], NextColumn(s[0], col), c);
    }
  }

  lemma {:induction false} ExpandLength(s: string, col: nat)
    ensures |ExpandTabs(s, col)| >= |s|
  {
    if s != "" {
      ExpandLength(s[1..], NextColumn(s[0], col));
    }
  }

  lemma {:induction false} ColumnConcat(s: string, t: string, col: nat)
    ensures Column(s + t, col) == Column(t, Column(s, col))
  {
    if s == "" {
      assert s + t == t;
    } else {
      assert (s + t)[1..] == s[1..] + t;
      ColumnConcat(s[1..], t, NextColumn(s[0], col));
    }
  }

  lemma {:induction false} SpacesColumn(n: nat, col: nat)
    ensures Column(Spaces(n), col) == col + n
  {
    if n > 0 {
      assert Spaces(n)[1..] == Spaces(n - 1);
      SpacesColumn(n - 1, col + 1);
    }
  }

  /** Expansion keeps columns: a text ends where it ended, so with ExpandConcat every
      character stays in the column it had. */
  lemma {:induction false} ExpandKeepsColumn(s: string, col: nat)
    ensures Column(ExpandTabs(s, col), col) == Column(s, col)
  {
    if s != "" {
      var next := NextColumn(s[0], col);
      ExpandKeepsColumn(s[1..], next);
      if s[0] == '\t' {
        SpacesColumn(next - col, col);
        ColumnConcat(Spaces(next - col), ExpandTabs(s[1..], next), col);
      } else {
        ColumnConcat([s[0]], ExpandTabs(s[1..], next), col);
        assert Column([s[0]], col) == next by { assert [s[0]][1..] == ""; }
      }
    }
  }

  /** The text without its blanks and tabs. */
  function Squeeze(s: string): string {
    if s == "" then ""
    else (if s[0] == ' ' || s[0] == '\t' then "" else [s[0]]) + Squeeze(s[1..])
  }

  lemma {:induction false} SqueezeConcat(s: string, t: string)
    ensures Squeeze(s + t) == Squeeze(s) + Squeeze(t)
  {
    if s == "" {
      assert s + t == t;
    } else {
      assert (s + t)[1..] == s[1..] + t;
      SqueezeConcat(s[1..], t);
    }
  }

  lemma {:induction false} SqueezeSpaces(n: nat)
    ensures Squeeze(Spaces(n)) == ""
  {
    if n > 0 {
      assert Spaces(n)[1..] == Spaces(n - 1);
      SqueezeSpaces(n - 1);
    }
  }

  /** Expansion changes nothing but blanks and tabs. */
  lemma {:induction false} ExpandKeepsText(s: string, col: nat)
    ensures Squeeze(ExpandTabs(s, col)) == Squeeze(s)
  {
    if s != "" {
      var next := NextColumn(s[0], col);
      ExpandKeepsText(s[1..], next);
      if s[0] == '\t' {
        SqueezeSpaces(next - col);
        SqueezeConcat(Spaces(next - col), ExpandTabs(s[1..], next));
      } else {
        assert ExpandTabs(s, col)[1..] == ExpandTabs(s[1..], next);
      }
    }
  }

  /** What is wherever in a line stays in its column. */
  lemma ExpandKeepsPlaces(before: string, after: string, col: nat)
    ensures ExpandTabs(before + after, col) == ExpandTabs(before, col) + ExpandTabs(after, Column(before, col))
    ensures Column(ExpandTabs(before, col), col) == Column(before, col)
  {
    ExpandConcat(before, after, col);
    ExpandKeepsColumn(before, col);
  }

  /** A solid, tab-free text between margins survives expansion. */
  lemma ExpandKeepsStripped(s: string)
    requires Solid(Strip(s)) && '\t' !in Strip(s)
    ensures Strip(ExpandTabs(s, 0)) == Strip(s)
  {
    var head, tail := StripParts(s);
    var g := Strip(s);
    ExpandConcat(head + g, tail, 0);
    ExpandConcat(head, g, 0);
    ExpandKeepsTabFree(g, Column(head, 0));
    ExpandKeepsSpace(head, 0);
    ExpandKeepsSpace(tail, Column(head + g, 0));
    StripPadded(ExpandTabs(head, 0), g, ExpandTabs(tail, Column(head + g, 0)));
  }

  // ---------------------------------------------------------------- text files

  /** Reading in text mode turns "\r\n" and "\r" into "\n". */
  function UniversalNewlines(s: string): string {
    if s == "" then ""
    else if s[0] == '\r' then
      "\n" + UniversalNewlines(if |s| > 1 && s[1] == '\n' then s[2..] else s[1..])
    else [s[0]] + UniversalNewlines(s[1..])
  }

  /** The length of the first line of a non-empty text, its newline included. */
  function LineLength(s: string): (n: nat)
    requires s != ""
    ensures 0 < n <= |s|
    ensures '\n' !in s[..n - 1] && (n < |s| ==> s[n - 1] == '\n')
  {
    if s[0] == '\n' || |s| == 1 then 1
    else
      var m := LineLength(s[1..]);
      assert s[..m] == [s[0]] + s[1..][..m - 1];
      1 + m
  }

  function SplitLines(s: string): seq<string> {
    if s == "" then [] else [s[..LineLength(s)]] + SplitLines(s[LineLength(s)..])
  }

  function Join(lines: seq<string>): string {
    if lines == [] then "" else lines[0] + Join(lines[1..])
  }

  function ReadLines(raw: string): seq<string> { SplitLines(UniversalNewlines(raw)) }

  /** As readlines() returns them: not empty, "\n" only at the end, and there in
      every line but perhaps the last; no "\r". */
  predicate TextLine(l: string) { l != "" && '\n' !in l[..|l| - 1] && '\r' !in l }

  predicate TextLines(lines: seq<string>) {
    && (forall i | 0 <= i < |lines| :: TextLine(lines[i]))
    && (forall i | 0 <= i < |lines| - 1 :: lines[i][|lines[i]| - 1] == '\n')
  }

  lemma {:induction false} NoReturns(s: string)
    ensures '\r' !in UniversalNewlines(s)
    decreases |s|
  {
    if s != "" {
      NoReturns(if s[0] == '\r' && |s| > 1 && s[1] == '\n' then s[2..] else s[1..]);
    }
  }

  lemma {:induction false} NewlinesUniversalAlready(s: string)
    requires '\r' !in s
    ensures UniversalNewlines(s) == s
  {
    if s != "" {
      NewlinesUniversalAlready(s[1..]);
    }
  }

  lemma {:induction false} SplitIsTextLines(s: string)
    requires '\r' !in s
    ensures TextLines(SplitLines(s))
    decreases |s|
  {
    if s != "" {
      var n := LineLength(s);
      SplitIsTextLines(s[n..]);
      assert s[..n][..n - 1] == s[..n - 1];
      var rest := SplitLines(s[n..]);
      var lines := SplitLines(s);
      assert forall i | 0 < i < |lines| :: lines[i] == rest[i - 1];
    }
  }

  lemma ReadIsTextLines(raw: string)
    ensures TextLines(ReadLines(raw))
  {
    NoReturns(raw);
    SplitIsTextLines(UniversalNewlines(raw));
  }

  lemma {:induction false} FirstLine(l: string, rest: string)
    requires TextLine(l) && (rest == "" || l[|l| - 1] == '\n')
    ensures LineLength(l + rest) == |l|
  {
    if |l| == 1 {
    } else {
      assert l[0] == l[..|l| - 1][0];
      assert (l + rest)[1..] == l[1..] + rest;
      assert l[1..][..|l[1..]| - 1] == l[..|l| - 1][1..];
      FirstLine(l[1..], rest);
    }
  }

  lemma SplitFirst(l: string, rest: string)
    requires TextLine(l) && (rest == "" || l[|l| - 1] == '\n')
    ensures SplitLines(l + rest) == [l] + SplitLines(rest)
  {
    FirstLine(l, rest);
    assert (l + rest)[..|l|] == l && (l + rest)[|l|..] == rest;
  }

  lemma TextLinesTail(lines: seq<string>)
    requires TextLines(lines) && lines != []
    ensures TextLines(lines[1..]) && TextLine(lines[0])
    ensures |lines| > 1 ==> lines[0][|lines[0]| - 1] == '\n'
  {
  }

  lemma {:induction false} SplitJoin(lines: seq<string>)
    requires TextLines(lines)
    ensures SplitLines(Join(lines)) == lines && '\r' !in Join(lines)
  {
    if lines != [] {
      TextLinesTail(lines);
      SplitJoin(lines[1..]);
      SplitFirst(lines[0], Join(lines[1..]));
      assert [lines[0]] + lines[1..] == lines;
    }
  }

  /** What is written is what is read back. */
  lemma WriteThenRead(lines: seq<string>)
    requires TextLines(lines)
    ensures ReadLines(Join(lines)) == lines
  {
    SplitJoin(lines);
    NewlinesUniversalAlready(Join(lines));
  }

  lemma {:induction false} JoinConcat(a: seq<string>, b: seq<string>)
    ensures Join(a + b) == Join(a) + Join(b)
  {
    if a == [] {
      assert a + b == b;
    } else {
      assert (a + b)[1..] == a[1..] + b;
      JoinConcat(a[1..], b);
    }
  }

  /** Splitting loses nothing. */
  lemma {:induction false} JoinSplit(s: string)
    ensures Join(SplitLines(s)) == s
    decreases |s|
  {
    if s != "" {
      JoinSplit(s[LineLength(s)..]);
    }
  }
}
