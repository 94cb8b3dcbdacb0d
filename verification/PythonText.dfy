/** What Python's string methods call blank and what they call the end of a line. */
module PythonText {
  import opened Text

  /** `str.isspace`, which is also what `\s` matches. */
  predicate IsSpace(c: char) {
    var n := c as int;
    9 <= n <= 13 || 28 <= n <= 32 || n == 0x85 || n == 0xA0 || n == 0x1680 || 0x2000 <= n <= 0x200A
    || n == 0x2028 || n == 0x2029 || n == 0x202F || n == 0x205F || n == 0x3000
  }

  predicate Blank(t: string) { forall i | 0 <= i < |t| :: IsSpace(t[i]) }

  /** `str.lstrip`. */
  function Skip(t: string): (r: string)
    ensures |r| <= |t| && (r != "" ==> !IsSpace(r[0]))
  {
    if t == "" || !IsSpace(t[0]) then t else Skip(t[1..])
  }

  lemma {:induction false} SkipIs(t: string)
    ensures t[|t| - |Skip(t)|..] == Skip(t) && Blank(t[..|t| - |Skip(t)|])
  {
    if t != "" && IsSpace(t[0]) {
      var r := Skip(t[1..]);
      SkipIs(t[1..]);
      assert t[..|t| - |r|] == [t[0]] + t[1..][..|t| - 1 - |r|];
    }
  }

  /** `str.rstrip`. */
  function Trim(t: string): (r: string)
    ensures r <= t && Blank(t[|r|..]) && (r != "" ==> !IsSpace(r[|r| - 1]))
  {
    if t == "" || !IsSpace(t[|t| - 1]) then t
    else
      var r := Trim(t[..|t| - 1]);
      assert t[|r|..] == t[..|t| - 1][|r|..] + [t[|t| - 1]];
      r
  }

  function Strip(t: string): string { Trim(Skip(t)) }

  /** What `str.splitlines` breaks a line on. */
  predicate IsBreak(c: char) {
    var n := c as int;
    10 <= n <= 13 || 28 <= n <= 30 || n == 0x85 || n == 0x2028 || n == 0x2029
  }

  /** How long the line end at the front of `t` is: a carriage return and a line feed are one. */
  function BreakLength(t: string): (n: nat)
    requires t != "" && IsBreak(t[0])
    ensures 1 <= n <= |t|
  {
    if "\r\n" <= t then 2 else 1
  }

  /** `str.splitlines`. */
  function SplitLines(t: string): (lines: seq<string>)
    ensures t != "" ==> lines != []
    decreases |t|
  {
    if t == "" then []
    else if IsBreak(t[0]) then [""] + SplitLines(t[BreakLength(t)..])
    else
      var rest := SplitLines(t[1..]);
      if rest == [] then [t] else Lead(t[0], rest)
  }

  lemma BreakSplit(t: string)
    requires t != "" && IsBreak(t[0])
    ensures SplitLines(t) == [""] + SplitLines(t[BreakLength(t)..])
  {
  }

  lemma WithinSplit(t: string)
    requires t != "" && !IsBreak(t[0])
    ensures SplitLines(t) == if SplitLines(t[1..]) == [] then [t] else Lead(t[0], SplitLines(t[1..]))
  {
  }
}
