/** A text as its lines, each with the line end it has: `str.splitlines` with and without its ends. */
module PythonLines {
  import opened Text
  import opened PythonText

  datatype Line = Line(content: string, ending: string)

  predicate NoBreak(t: string) { forall i | 0 <= i < |t| :: !IsBreak(t[i]) }

  /** The text up to its first line end. */
  function Content(t: string): (c: string)
    ensures c <= t && NoBreak(c) && (|c| < |t| ==> IsBreak(t[|c|]))
  {
    if t == "" || IsBreak(t[0]) then "" else [t[0]] + Content(t[1..])
  }

  /** `splitlines(keepends=True)`. */
  function Lines(t: string): seq<Line>
    decreases |t|
  {
    if t == "" then []
    else
      var content := Content(t);
      var rest := t[|content|..];
      if rest == "" then [Line(content, "")]
      else [Line(content, rest[..BreakLength(rest)])] + Lines(rest[BreakLength(rest)..])
  }

  function Flat(lines: seq<Line>): string {
    if lines == [] then "" else lines[0].content + lines[0].ending + Flat(lines[1..])
  }

  function Contents(lines: seq<Line>): (contents: seq<string>)
    ensures |contents| == |lines| && forall i | 0 <= i < |lines| :: contents[i] == lines[i].content
  {
    if lines == [] then [] else [lines[0].content] + Contents(lines[1..])
  }

  predicate IsEnding(e: string) { e == "" || (|e| == 1 && IsBreak(e[0])) || e == "\r\n" }

  /** A line as it can stand ahead of others: its end is one, and all of one. */
  predicate Stands(line: Line, next: string) {
    && NoBreak(line.content) && IsEnding(line.ending)
    && (line.ending == "" ==> line.content != "" && next == "")
    && (line.ending == "\r" ==> next == "" || next[0] != '\n')
  }

  predicate Kept(lines: seq<Line>) {
    lines != [] ==> Stands(lines[0], Flat(lines[1..])) && Kept(lines[1..])
  }

  lemma ContentFound(content: string, rest: string)
    requires NoBreak(content) && (rest != "" ==> IsBreak(rest[0]))
    ensures Content(content + rest) == content
  {
    if content == "" {
      assert content + rest == rest;
    } else {
      ContentFound(content[1..], rest);
      assert (content + rest)[1..] == content[1..] + rest;
    }
  }

  lemma FirstLine(line: Line, next: string)
    requires Stands(line, next)
    ensures Lines(line.content + line.ending + next) == [line] + Lines(next)
  {
    var t := line.content + line.ending + next;
    var rest := line.ending + next;
    assert t == line.content + rest;
    ContentFound(line.content, rest);
    assert t[|line.content|..] == rest;
    if line.ending != "" {
      var n := |line.ending|;
      assert rest[..n] == line.ending && rest[n..] == next;
      EndingLength(line, next);
    } else {
      assert next == "" && rest == "";
    }
  }

  lemma EndingLength(line: Line, next: string)
    requires Stands(line, next) && line.ending != ""
    ensures var rest := line.ending + next; IsBreak(rest[0]) && BreakLength(rest) == |line.ending|
  {
    var rest := line.ending + next;
    if |line.ending| == 1 {
      assert rest[0] == line.ending[0];
      assert line.ending[0] == '\r' ==> line.ending == "\r";
      assert |rest| >= 2 ==> rest[1] == next[0];
    } else {
      assert rest[0] == '\r' && rest[1] == '\n';
    }
  }

  /** Lines that stand are the lines of the text they make. */
  lemma {:induction false} KeptLines(lines: seq<Line>)
    requires Kept(lines)
    ensures Lines(Flat(lines)) == lines
  {
    hide Lines, Stands;
    if lines == [] {
      NoLines();
    } else {
      FirstLine(lines[0], Flat(lines[1..]));
      KeptLines(lines[1..]);
    }
  }

  lemma NoLines()
    ensures Lines("") == [] && Kept([]) && Flat([]) == ""
  {
  }

  lemma LastLine(t: string)
    requires t != "" && Content(t) == t
    ensures Kept(Lines(t)) && Flat(Lines(t)) == t
  {
    assert t[|t|..] == "";
    var lines := [Line(t, "")];
    assert Lines(t) == lines && lines[1..] == [] && Flat([]) == "";
    assert t + "" + "" == t;
  }

  lemma KeptFirst(line: Line, rest: seq<Line>)
    requires Stands(line, Flat(rest)) && Kept(rest)
    ensures Kept([line] + rest) && Flat([line] + rest) == line.content + line.ending + Flat(rest)
  {
    hide Stands;
    assert ([line] + rest)[1..] == rest;
  }

  lemma NextLine(t: string)
    requires t != "" && |Content(t)| < |t|
    ensures var rest := t[|Content(t)|..];
            Lines(t) == [Line(Content(t), rest[..BreakLength(rest)])] + Lines(rest[BreakLength(rest)..])
  {
  }

  /** A text is its lines, and they stand. */
  lemma {:induction false} LinesKept(t: string)
    ensures Kept(Lines(t)) && Flat(Lines(t)) == t
    decreases |t|
  {
    hide Lines, Content, BreakLength, Flat, Kept, Stands;
    if t == "" {
      NoLines();
    } else if Content(t) == t {
      LastLine(t);
    } else {
      var content := Content(t);
      var rest := t[|content|..];
      var n := BreakLength(rest);
      LinesKept(rest[n..]);
      LineStands(content, rest);
      NextLine(t);
      KeptFirst(Line(content, rest[..n]), Lines(rest[n..]));
    }
  }

  lemma LineStands(content: string, rest: string)
    requires rest != "" && IsBreak(rest[0]) && NoBreak(content)
    ensures Stands(Line(content, rest[..BreakLength(rest)]), rest[BreakLength(rest)..])
  {
    var n := BreakLength(rest);
    if n == 2 {
      assert rest[0] == '\r' && rest[1] == '\n';
      assert rest[..2] == "\r\n";
    } else if rest[..1] == "\r" && |rest| >= 2 {
      assert rest[0] == '\r';
      assert rest[..2] == [rest[0], rest[1]];
    }
  }

  lemma {:induction false} SplitLinesAre(t: string)
    ensures SplitLines(t) == Contents(Lines(t))
    decreases |t|
  {
    if t != "" {
      if IsBreak(t[0]) {
        assert Content(t) == "" && t[0..] == t;
        SplitLinesAre(t[BreakLength(t)..]);
        assert Lines(t)[1..] == Lines(t[BreakLength(t)..]);
      } else {
        SplitLinesAre(t[1..]);
        LeadLine(t);
      }
    }
  }

  lemma LeadLine(t: string)
    requires t != "" && !IsBreak(t[0])
    ensures var rest := Lines(t[1..]);
            Contents(Lines(t)) == if rest == [] then [t] else Lead(t[0], Contents(rest))
  {
    var behind := t[1..];
    var content := Content(behind);
    assert Content(t) == [t[0]] + content;
    assert t[|content| + 1..] == behind[|content|..];
    if behind == "" {
      assert content == "" && t == [t[0]];
      assert Content(t) == t && t[|t|..] == "";
      assert Lines(t) == [Line(t, "")] && Lines(t)[1..] == [];
      assert Contents([Line(t, "")]) == [t];
    } else {
      hide Lines, Content;
    }
  }

  /** No line `splitlines` gives has a line end in it. */
  lemma {:induction false} LinesClean(lines: seq<Line>, i: nat)
    requires Kept(lines) && i < |lines|
    ensures NoBreak(lines[i].content)
  {
    if i > 0 {
      LinesClean(lines[1..], i - 1);
    }
  }

  /** The text with one line's content changed. */
  function Changed(lines: seq<Line>, k: nat, content: string): seq<Line>
    requires k < |lines|
  {
    lines[k := lines[k].(content := content)]
  }

  /** A line's content changed changes no other line, nor any line's end. */
  lemma {:induction false} ChangedKept(lines: seq<Line>, k: nat, content: string)
    requires Kept(lines) && k < |lines| && content != "" && NoBreak(content)
    ensures Kept(Changed(lines, k, content))
    ensures var f, n := Flat(lines), Flat(Changed(lines, k, content));
            f != "" && n != "" && (n[0] == '\n' ==> f[0] == '\n')
  {
    var changed := Changed(lines, k, content);
    if k == 0 {
      assert changed[1..] == lines[1..];
    } else {
      ChangedKept(lines[1..], k - 1, content);
      assert changed[1..] == Changed(lines[1..], k - 1, content);
      assert changed[0] == lines[0];
      assert lines[0].ending != "";
    }
  }

  // ----- Universal newlines

  /** What reading a file as text makes of its line ends. */
  function Universal(t: string): string
    decreases |t|
  {
    if t == "" then ""
    else if t[0] == '\r' then ['\n'] + Universal(t[BreakLength(t)..])
    else [t[0]] + Universal(t[1..])
  }

  lemma NoneSplit(t: string)
    ensures SplitLines(t) == [] <==> t == ""
  {
  }

  /** Reading line ends as newlines changes no line. */
  lemma {:induction false} UniversalLines(t: string)
    ensures SplitLines(Universal(t)) == SplitLines(t) && (Universal(t) == "" <==> t == "")
    decreases |t|
  {
    if t != "" {
      var step := if t[0] == '\r' then BreakLength(t) else 1;
      UniversalLines(t[step..]);
      var u := Universal(t);
      assert u[1..] == Universal(t[step..]);
      hide SplitLines;
      if IsBreak(t[0]) {
        assert BreakLength(u) == 1;
        assert t[0] != '\r' ==> BreakLength(t) == 1;
        BreakSplit(t);
        BreakSplit(u);
      } else {
        assert u[0] == t[0];
        WithinSplit(t);
        WithinSplit(u);
        assert u == [u[0]] + u[1..] && t == [t[0]] + t[1..];
        assert SplitLines(t[1..]) == [] <==> t[1..] == "" by { NoneSplit(t[1..]); }
      }
    }
  }
}
