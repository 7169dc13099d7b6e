/** The checkers as the script runs them: loops over the lines of a file, over
    the files of a list, and check_style over both lists. */
module StyleChecker {
  import opened PyText
  import opened StyleFixer

  /** One pass over the guards: what the flag clang_format_enabled records. */
  lemma DisabledStep(lines: seq<string>, i: nat)
    requires i < |lines|
    ensures Disabled(lines, i) <==> IsOff(lines[i]) || (!IsOn(lines[i]) && Disabled(lines, i - 1))
  {
  }

  /** Every listed file replaced by its fixed contents. */
  ghost function Fixed(files: map<string, string>, names: seq<string>, fix: string -> string): map<string, string> {
    map name | name in files :: if name in names then fix(files[name]) else files[name]
  }

  ghost function WsFixer(): string -> string { (raw: string) => WsFixedFile(raw) }
  ghost function TabFixer(): string -> string { (raw: string) => TabFixedFile(raw) }

  ghost function WsIn(): string -> bool { (raw: string) => FileHasWs(raw) }
  ghost function TabsIn(): string -> bool { (raw: string) => FileHasTabs(raw) }

  ghost predicate Any(files: map<string, string>, names: seq<string>, bad: string -> bool) {
    exists name | name in names && name in files :: bad(files[name])
  }

  /** Where the loop over the listed files stands after some of them. */
  ghost predicate Visited(before: map<string, string>, files: map<string, string>, names: seq<string>, fix: bool,
                          fixer: string -> string, bad: string -> bool, found: bool)
  {
    files == (if fix then Fixed(before, names, fixer) else before) && (found <==> Any(before, names, bad))
  }

  /** A file listed twice is harmless: once fixed it has nothing to fix. */
  lemma VisitNext(before: map<string, string>, files: map<string, string>, names: seq<string>, name: string, fix: bool,
                  fixer: string -> string, bad: string -> bool, found: bool)
    requires Visited(before, files, names, fix, fixer, bad, found) && name in before
    requires forall raw :: fixer(fixer(raw)) == fixer(raw) && !bad(fixer(raw))
    ensures Visited(before, if fix then files[name := fixer(files[name])] else files, names + [name], fix, fixer, bad,
                    found || bad(files[name]))
  {
  }

  /** clang-format, which is not part of this model: which contents it accepts and what
      it makes of those it does not. */
  datatype ClangFormat = ClangFormat(accepts: string -> bool, format: string -> string)

  /** What find_files_to_check_style returns, and the checks that are enabled. */
  datatype Lists = Lists(formatting: seq<string>, whitespace: seq<string>, tabs: seq<string>) {
    predicate Exist(files: map<string, string>) {
      && (forall name | name in formatting :: name in files)
      && (forall name | name in whitespace :: name in files)
      && (forall name | name in tabs :: name in files)
    }
  }

  datatype Enabled = Enabled(formatting: bool, whitespace: bool, tabs: bool)

  /** The listed files formatted, one after the other. */
  ghost function Formatted(files: map<string, string>, names: seq<string>, clang: ClangFormat): map<string, string> {
    if names == [] then files
    else
      var before, name := Formatted(files, names[..|names| - 1], clang), names[|names| - 1];
      if name in before && !clang.accepts(before[name]) then before[name := clang.format(before[name])] else before
  }

  ghost predicate WellFormatted(files: map<string, string>, names: seq<string>, clang: ClangFormat) {
    forall name | name in names && name in files :: clang.accepts(files[name])
  }

  /** The first i lines fixed, the others still as they were. */
  ghost predicate FixedUpTo(lines: seq<string>, fixed: seq<string>, fileLines: seq<string>, i: nat) {
    && |fileLines| == |lines| == |fixed| && i <= |lines|
    && (forall k | 0 <= k < i :: fileLines[k] == fixed[k])
    && (forall k | i <= k < |lines| :: fileLines[k] == lines[k])
  }

  lemma FixOne(lines: seq<string>, fixed: seq<string>, fileLines: seq<string>, i: nat, line: string)
    requires FixedUpTo(lines, fixed, fileLines, i) && i < |lines| && line == fixed[i]
    ensures FixedUpTo(lines, fixed, fileLines[i := line], i + 1)
    ensures line == fileLines[i] ==> FixedUpTo(lines, fixed, fileLines, i + 1)
  {
  }

  ghost predicate TabsUpTo(lines: seq<string>, i: nat)
    requires i <= |lines|
  {
    exists k | 0 <= k < i :: Checked(lines, k) && '\t' in lines[k]
  }

  lemma TabsStep(lines: seq<string>, i: nat)
    requires i < |lines|
    ensures TabsUpTo(lines, i + 1) <==> TabsUpTo(lines, i) || (Checked(lines, i) && '\t' in lines[i])
    ensures TabsUpTo(lines, i + 1) ==> HasTabs(lines)
  {
  }

  lemma FormattedStep(files: map<string, string>, names: seq<string>, name: string, clang: ClangFormat)
    requires name in files
    ensures Formatted(files, names + [name], clang) ==
            var before := Formatted(files, names, clang);
            if name in before && !clang.accepts(before[name]) then before[name := clang.format(before[name])] else before
    ensures WellFormatted(files, names + [name], clang) <==> WellFormatted(files, names, clang) && clang.accepts(files[name])
  {
    assert (names + [name])[..|names|] == names;
    assert name in names + [name];
  }

  class Tree {
    var files: map<string, string>

    /** The loop of check_trailing_whitespace_file, with its early exit. */
    static method CheckWhitespaceLines(lines: seq<string>, fix: bool)
      returns (hasTrailingWhitespace: bool, fileLines: seq<string>)
      ensures hasTrailingWhitespace <==> HasWs(lines)
      ensures fix ==> fileLines == FixWs(lines)
    {
      fileLines := lines;
      hasTrailingWhitespace := false;
      for i := 0 to |lines|
        invariant |fileLines| == |lines| && (!fix ==> !hasTrailingWhitespace)
        invariant hasTrailingWhitespace <==> exists k | 0 <= k < i :: WsFixed(lines[k]) != lines[k]
        invariant fix ==> FixedUpTo(lines, FixWs(lines), fileLines, i)
        invariant !fix ==> fileLines == lines
      {
        var lineFixed := Rstrip(fileLines[i]) + "\n";
        if fix {
          FixOne(lines, FixWs(lines), fileLines, i, lineFixed);
        }
        if lineFixed != fileLines[i] {
          hasTrailingWhitespace := true;
          if !fix {
            break;
          }
          fileLines := fileLines[i := lineFixed];
        }
      }
    }

    /** Early exit when only checking; rewritten only when fixing and needed. */
    method CheckTrailingWhitespaceFile(filename: string, fix: bool) returns (hasTrailingWhitespace: bool)
      requires filename in files
      modifies this
      ensures hasTrailingWhitespace <==> FileHasWs(old(files[filename]))
      ensures files == if fix then old(files)[filename := WsFixedFile(old(files[filename]))] else old(files)
    {
      var fileLines;
      hasTrailingWhitespace, fileLines := CheckWhitespaceLines(ReadLines(files[filename]), fix);
      if fix && hasTrailingWhitespace {
        files := files[filename := Join(fileLines)];
      }
    }

    /** The body of the loop over the lines: the guard state after the line,
        whether the line has a tab to report, and the line as fixed. */
    static method CheckTabsLine(ghost lines: seq<string>, ghost i: nat, line: string, enabled: bool)
      returns (clangFormatEnabled: bool, hasTab: bool, lineFixed: string)
      requires i < |lines| && line == lines[i] && (enabled <==> !Disabled(lines, i - 1))
      ensures clangFormatEnabled <==> !Disabled(lines, i)
      ensures hasTab <==> Checked(lines, i) && '\t' in lines[i]
      ensures lineFixed == TabFixed(lines, i)
      ensures !hasTab ==> lineFixed == line
      ensures '\t' in lineFixed ==> lineFixed == line && !Checked(lines, i)
      ensures SameLayout(line, lineFixed)
    {
      ExpandKeepsLayout(line);
      ExpandHasNoTab(line, 0);
      DisabledStep(lines, i);
      clangFormatEnabled, hasTab, lineFixed := enabled, false, line;
      var lineStripped := Strip(line);
      if lineStripped == CLANG_FORMAT_GUARD_ON {
        clangFormatEnabled := true;
      } else if lineStripped == CLANG_FORMAT_GUARD_OFF {
        clangFormatEnabled := false;
      }
      if !clangFormatEnabled && lineStripped != CLANG_FORMAT_GUARD_ON && lineStripped != CLANG_FORMAT_GUARD_OFF {
        return;
      }
      if '\t' in line {
        hasTab := true;
        lineFixed := ExpandTabs(line, 0);
      } else {
        ExpandKeepsTabFree(line, 0);
      }
    }

    /** The loop of check_tabs_file: the flag, and the lines as fixed so far. */
    static method CheckTabsLines(lines: seq<string>, fix: bool) returns (hasTabs: bool, fileLines: seq<string>)
      ensures hasTabs <==> HasTabs(lines)
      ensures fix ==> fileLines == FixTabs(lines)
    {
      hasTabs := false;
      fileLines := lines;
      var clangFormatEnabled := true;
      for i := 0 to |lines|
        invariant clangFormatEnabled <==> !Disabled(lines, i - 1)
        invariant hasTabs <==> TabsUpTo(lines, i)
        invariant |fileLines| == |lines| && (!fix ==> !hasTabs)
        invariant fix ==> FixedUpTo(lines, FixTabs(lines), fileLines, i)
        invariant !fix ==> fileLines == lines
      {
        var hasTab, lineFixed;
        clangFormatEnabled, hasTab, lineFixed := CheckTabsLine(lines, i, fileLines[i], clangFormatEnabled);
        TabsStep(lines, i);
        if fix {
          FixOne(lines, FixTabs(lines), fileLines, i, lineFixed);
        }
        if hasTab {
          hasTabs := true;
          if !fix {
            break;
          }
          fileLines := fileLines[i := lineFixed];
        }
      }
    }

    method CheckTabsFile(filename: string, fix: bool) returns (hasTabs: bool)
      requires filename in files
      modifies this
      ensures hasTabs <==> FileHasTabs(old(files[filename]))
      ensures files == if fix then old(files)[filename := TabFixedFile(old(files[filename]))] else old(files)
    {
      var fileLines;
      hasTabs, fileLines := CheckTabsLines(ReadLines(files[filename]), fix);
      if fix && hasTabs {
        files := files[filename := Join(fileLines)];
      }
    }

    method CheckTrailingWhitespace(filenames: seq<string>, fix: bool) returns (successful: bool)
      requires forall name | name in filenames :: name in files
      modifies this
      ensures files == if fix then Fixed(old(files), filenames, WsFixer()) else old(files)
      ensures successful <==> fix || !Any(old(files), filenames, WsIn())
    {
      var filesWithWhitespace := [];
      for i := 0 to |filenames|
        invariant Visited(old(files), files, filenames[..i], fix, WsFixer(), WsIn(), filesWithWhitespace != [])
      {
        WsFixerIdempotent();
        VisitNext(old(files), files, filenames[..i], filenames[i], fix, WsFixer(), WsIn(), filesWithWhitespace != []);
        assert filenames[..i + 1] == filenames[..i] + [filenames[i]];
        var hasWhitespace := CheckTrailingWhitespaceFile(filenames[i], fix);
        if hasWhitespace {
          filesWithWhitespace := filesWithWhitespace + [filenames[i]];
        }
      }
      assert filenames[..|filenames|] == filenames;
      successful := if filesWithWhitespace == [] then true else fix;
    }

    method CheckTabs(filenames: seq<string>, fix: bool) returns (successful: bool)
      requires forall name | name in filenames :: name in files
      modifies this
      ensures files == if fix then Fixed(old(files), filenames, TabFixer()) else old(files)
      ensures successful <==> fix || !Any(old(files), filenames, TabsIn())
    {
      var filesWithTabs := [];
      for i := 0 to |filenames|
        invariant Visited(old(files), files, filenames[..i], fix, TabFixer(), TabsIn(), filesWithTabs != [])
      {
        TabFixerIdempotent();
        VisitNext(old(files), files, filenames[..i], filenames[i], fix, TabFixer(), TabsIn(), filesWithTabs != []);
        assert filenames[..i + 1] == filenames[..i] + [filenames[i]];
        var hasTabs := CheckTabsFile(filenames[i], fix);
        if hasTabs {
          filesWithTabs := filesWithTabs + [filenames[i]];
        }
      }
      assert filenames[..|filenames|] == filenames;
      successful := if filesWithTabs == [] then true else fix;
    }

    /** check_formatting, with clang-format as it may be. */
    method CheckFormatting(filenames: seq<string>, clang: ClangFormat, fix: bool) returns (successful: bool)
      requires forall name | name in filenames :: name in files
      modifies this
      ensures files == if fix then Formatted(old(files), filenames, clang) else old(files)
      ensures successful <==> fix || WellFormatted(old(files), filenames, clang)
    {
      var filesNotFormatted := [];
      for i := 0 to |filenames|
        invariant files == if fix then Formatted(old(files), filenames[..i], clang) else old(files)
        invariant files.Keys == old(files).Keys
        invariant !fix ==> (filesNotFormatted == [] <==> WellFormatted(old(files), filenames[..i], clang))
      {
        assert filenames[..i + 1] == filenames[..i] + [filenames[i]];
        FormattedStep(old(files), filenames[..i], filenames[i], clang);
        if !clang.accepts(files[filenames[i]]) {
          filesNotFormatted := filesNotFormatted + [filenames[i]];
          if fix {
            files := files[filenames[i] := clang.format(files[filenames[i]])];
          }
        }
      }
      assert filenames[..|filenames|] == filenames;
      successful := if filesNotFormatted == [] then true else fix;
    }

    /** check_style; the result is the exit status. */
    method CheckStyle(lists: Lists, enabled: Enabled, clang: ClangFormat, fix: bool) returns (status: int)
      requires lists.Exist(files)
      modifies this
      ensures status == 0 || status == 1
      ensures files == if fix then StyleFixed(old(files), lists, enabled, clang) else old(files)
      ensures status == 0 <==> fix || Clean(old(files), lists, enabled, clang)
    {
      var formattingSuccessful, whitespaceSuccessful, tabsSuccessful := true, true, true;
      if enabled.formatting {
        formattingSuccessful := CheckFormatting(lists.formatting, clang, fix);
        FormattedKeys(old(files), lists.formatting, clang);
      }
      if enabled.whitespace {
        whitespaceSuccessful := CheckTrailingWhitespace(lists.whitespace, fix);
      }
      if enabled.tabs {
        tabsSuccessful := CheckTabs(lists.tabs, fix);
      }
      status := if formattingSuccessful && whitespaceSuccessful && tabsSuccessful then 0 else 1;
    }

    /** A fix run followed by a check run: the check writes nothing and finds nothing
        but what clang-format may dislike in the result. */
    method FixThenCheck(lists: Lists, enabled: Enabled, clang: ClangFormat) returns (fixStatus: int, checkStatus: int)
      requires lists.Exist(files)
      modifies this
      ensures files == StyleFixed(old(files), lists, enabled, clang)
      ensures fixStatus == 0
      ensures checkStatus == 0 <==> (enabled.formatting ==> WellFormatted(files, lists.formatting, clang))
    {
      fixStatus := CheckStyle(lists, enabled, clang, true);
      FixedTreeIsClean(old(files), lists, enabled, clang);
      StyleFixedKeys(old(files), lists, enabled, clang);
      checkStatus := CheckStyle(lists, enabled, clang, false);
    }
  }

  lemma WsFixerIdempotent()
    ensures forall raw :: WsFixer()(WsFixer()(raw)) == WsFixer()(raw) && !WsIn()(WsFixer()(raw))
  {
    forall raw ensures WsFixer()(WsFixer()(raw)) == WsFixer()(raw) && !WsIn()(WsFixer()(raw)) {
      WsFixThenCheck(raw);
    }
  }

  lemma TabFixerIdempotent()
    ensures forall raw :: TabFixer()(TabFixer()(raw)) == TabFixer()(raw) && !TabsIn()(TabFixer()(raw))
  {
    forall raw ensures TabFixer()(TabFixer()(raw)) == TabFixer()(raw) && !TabsIn()(TabFixer()(raw)) {
      TabFixThenCheck(raw);
    }
  }

  lemma {:induction false} FormattedKeys(files: map<string, string>, names: seq<string>, clang: ClangFormat)
    ensures Formatted(files, names, clang).Keys == files.Keys
  {
    if names != [] {
      FormattedKeys(files, names[..|names| - 1], clang);
    }
  }

  /** The tree after the formatting step. */
  ghost function AfterFormatting(files: map<string, string>, lists: Lists, enabled: Enabled, clang: ClangFormat): map<string, string> {
    if enabled.formatting then Formatted(files, lists.formatting, clang) else files
  }

  /** The tree after the whitespace and tab steps. */
  ghost function AfterFixes(files: map<string, string>, lists: Lists, enabled: Enabled): map<string, string> {
    var first := if enabled.whitespace then Fixed(files, lists.whitespace, WsFixer()) else files;
    if enabled.tabs then Fixed(first, lists.tabs, TabFixer()) else first
  }

  ghost function StyleFixed(files: map<string, string>, lists: Lists, enabled: Enabled, clang: ClangFormat): map<string, string> {
    AfterFixes(AfterFormatting(files, lists, enabled, clang), lists, enabled)
  }

  ghost predicate CleanLines(files: map<string, string>, lists: Lists, enabled: Enabled) {
    && (enabled.whitespace ==> !Any(files, lists.whitespace, WsIn()))
    && (enabled.tabs ==> !Any(files, lists.tabs, TabsIn()))
  }

  ghost predicate Clean(files: map<string, string>, lists: Lists, enabled: Enabled, clang: ClangFormat) {
    (enabled.formatting ==> WellFormatted(files, lists.formatting, clang)) && CleanLines(files, lists, enabled)
  }

  lemma StyleFixedKeys(files: map<string, string>, lists: Lists, enabled: Enabled, clang: ClangFormat)
    ensures StyleFixed(files, lists, enabled, clang).Keys == files.Keys
  {
    FormattedKeys(files, lists.formatting, clang);
  }

  /** Whatever the lists of files and however they overlap, the whitespace and tab
      fixes leave a tree that both their checks accept. */
  lemma FixesLeaveCleanLines(files: map<string, string>, lists: Lists, enabled: Enabled)
    ensures CleanLines(AfterFixes(files, lists, enabled), lists, enabled)
  {
    var first := if enabled.whitespace then Fixed(files, lists.whitespace, WsFixer()) else files;
    var after := AfterFixes(files, lists, enabled);
    forall name | name in files
      ensures enabled.whitespace && name in lists.whitespace ==> !FileHasWs(after[name])
      ensures enabled.tabs && name in lists.tabs ==> !FileHasTabs(after[name])
    {
      WsFixThenCheck(files[name]);
      TabFixThenCheck(first[name]);
      if enabled.whitespace && name in lists.whitespace {
        TabFixKeepsCleanFile(first[name]);
      }
    }
  }

  lemma FixedTreeIsClean(files: map<string, string>, lists: Lists, enabled: Enabled, clang: ClangFormat)
    ensures CleanLines(StyleFixed(files, lists, enabled, clang), lists, enabled)
  {
    FixesLeaveCleanLines(AfterFormatting(files, lists, enabled, clang), lists, enabled);
  }

  lemma CleanIsFixed(files: map<string, string>, names: seq<string>, fixer: string -> string, bad: string -> bool)
    requires !Any(files, names, bad) && forall raw | !bad(raw) :: fixer(raw) == raw
    ensures Fixed(files, names, fixer) == files
  {
    forall name | name in files ensures Fixed(files, names, fixer)[name] == files[name] {
      assert name in names ==> !bad(files[name]);
    }
  }

  lemma CleanLinesAreFixed(files: map<string, string>, lists: Lists, enabled: Enabled)
    requires CleanLines(files, lists, enabled)
    ensures AfterFixes(files, lists, enabled) == files
  {
    forall raw ensures !WsIn()(raw) ==> WsFixer()(raw) == raw {}
    forall raw ensures !TabsIn()(raw) ==> TabFixer()(raw) == raw {}
    if enabled.whitespace {
      CleanIsFixed(files, lists.whitespace, WsFixer(), WsIn());
    }
    if enabled.tabs {
      CleanIsFixed(files, lists.tabs, TabFixer(), TabsIn());
    }
  }

  lemma {:induction false} WellFormattedIsFixed(files: map<string, string>, names: seq<string>, clang: ClangFormat)
    requires WellFormatted(files, names, clang) && forall name | name in names :: name in files
    ensures Formatted(files, names, clang) == files
  {
    if names != [] {
      var front, last := names[..|names| - 1], names[|names| - 1];
      assert last in names;
      WellFormattedIsFixed(files, front, clang);
    }
  }

  /** Fixing again changes nothing, provided clang-format has nothing more to say; the
      whitespace and tab fixes by themselves are idempotent on every tree. */
  lemma StyleFixIdempotent(files: map<string, string>, lists: Lists, enabled: Enabled, clang: ClangFormat)
    requires lists.Exist(files)
    requires enabled.formatting ==> WellFormatted(StyleFixed(files, lists, enabled, clang), lists.formatting, clang)
    ensures StyleFixed(StyleFixed(files, lists, enabled, clang), lists, enabled, clang) ==
            StyleFixed(files, lists, enabled, clang)
  {
    var after := StyleFixed(files, lists, enabled, clang);
    StyleFixedKeys(files, lists, enabled, clang);
    if enabled.formatting {
      WellFormattedIsFixed(after, lists.formatting, clang);
    }
    FixedTreeIsClean(files, lists, enabled, clang);
    CleanLinesAreFixed(after, lists, enabled);
  }
}
