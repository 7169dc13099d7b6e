/** What reading a text file gives, whatever its line ends are. */
module LineEndings {
  import opened PyText

  datatype Ending = LF | CR | CRLF

  function Code(e: Ending): string {
    match e
    case LF => "\n"
    case CR => "\r"
    case CRLF => "\r\n"
  }

  datatype RawLine = RawLine(text: string, ending: Ending)

  predicate Unbroken(text: string) { '\n' !in text && '\r' !in text }

  /** A file with line ends of any kind, and a last line without one. */
  function RawText(lines: seq<RawLine>, last: string): string {
    if lines == [] then last else lines[0].text + (Code(lines[0].ending) + RawText(lines[1..], last))
  }

  /** The same file with "\n" for every line end. */
  function LfText(lines: seq<RawLine>, last: string): string {
    if lines == [] then last else (lines[0].text + "\n") + LfText(lines[1..], last)
  }

  function Lines(lines: seq<RawLine>, last: string): seq<string> {
    if lines == [] then (if last == "" then [] else [last]) else [lines[0].text + "\n"] + Lines(lines[1..], last)
  }

  /** Texts without line ends in them, and no two line ends that read as one. */
  predicate Unambiguous(lines: seq<RawLine>) {
    lines == [] ||
    (Unbroken(lines[0].text) && Unambiguous(lines[1..]) &&
     (|lines| > 1 && lines[0].ending == CR ==> lines[1] != RawLine("", LF)))
  }

  lemma NormalizeEnding(ending: Ending, rest: string)
    requires ending == CR ==> rest == "" || rest[0] != '\n'
    ensures UniversalNewlines(Code(ending) + rest) == "\n" + UniversalNewlines(rest)
  {
    var s := Code(ending) + rest;
    assert ending == CRLF ==> s[2..] == rest;
    assert ending != CRLF ==> s[1..] == rest;
  }

  lemma {:induction false} NormalizeText(text: string, rest: string)
    requires Unbroken(text)
    ensures UniversalNewlines(text + rest) == text + UniversalNewlines(rest)
  {
    if text == "" {
      assert text + rest == rest;
    } else {
      assert (text + rest)[1..] == text[1..] + rest;
      NormalizeText(text[1..], rest);
    }
  }

  lemma RawTextStart(lines: seq<RawLine>, last: string)
    requires Unambiguous(lines) && Unbroken(last) && (lines != [] ==> lines[0] != RawLine("", LF))
    ensures RawText(lines, last) == "" || RawText(lines, last)[0] != '\n'
  {
    if lines != [] && lines[0].text != "" {
      assert RawText(lines, last)[0] == lines[0].text[0];
    }
  }

  lemma {:induction false} Normalize(lines: seq<RawLine>, last: string)
    requires Unambiguous(lines) && Unbroken(last)
    ensures UniversalNewlines(RawText(lines, last)) == LfText(lines, last)
  {
    if lines == [] {
      NewlinesUniversalAlready(last);
    } else {
      var rest := RawText(lines[1..], last);
      if lines[0].ending == CR {
        RawTextStart(lines[1..], last);
      }
      Normalize(lines[1..], last);
      NormalizeEnding(lines[0].ending, rest);
      NormalizeText(lines[0].text, Code(lines[0].ending) + rest);
      Regroup(lines[0].text, "\n", LfText(lines[1..], last));
    }
  }

  lemma Regroup(x: string, y: string, z: string)
    ensures x + (y + z) == (x + y) + z
  {
  }

  lemma {:induction false} Split(lines: seq<RawLine>, last: string)
    requires Unambiguous(lines) && Unbroken(last)
    ensures SplitLines(LfText(lines, last)) == Lines(lines, last)
  {
    if lines == [] {
      if last != "" {
        SplitFirst(last, "");
        assert last + "" == last;
      }
    } else {
      Split(lines[1..], last);
      SplitFirst(lines[0].text + "\n", LfText(lines[1..], last));
    }
  }

  /** Reading gives the lines of the file, each ended by "\n" whatever ended it. */
  lemma ReadAnyEndings(lines: seq<RawLine>, last: string)
    requires Unambiguous(lines) && Unbroken(last)
    ensures ReadLines(RawText(lines, last)) == Lines(lines, last)
  {
    Normalize(lines, last);
    Split(lines, last);
  }
}
