/**
 JSON as Python's `json` writes it with `ensure_ascii` and reads it back, after sections 5 to 7 of
 RFC 8259. A Python string is a sequence of code points, lone surrogates among them; a serialized
 text is printable ASCII.
 */
module Json {
  import opened Text
  import JsonNumbers

  type Code = c: int | 0 <= c < 0x11_0000
  type PyStr = seq<Code>

  datatype Member = Member(key: PyStr, value: JsonValue)

  datatype JsonValue =
    | Null
    | Bool(truth: bool)
    | Int(number: int)
    | Float(value: JsonNumbers.Float)
    | Str(text: PyStr)
    | Arr(items: seq<JsonValue>)
    | Obj(members: seq<Member>)

  /** Which characters inside strings are written as escapes though JSON would not ask it. */
  datatype Hiding = Nothing | CommentClose | Angles

  /** One spelling: its separators and what it hides. */
  datatype Style = Style(comma: string, colon: string, hiding: Hiding)

  const SPACED := Style(", ", ": ", Nothing)
  const TIGHT := Style(",", ":", Nothing)

  // ----- Strings

  function HexDigit(n: nat): (c: char)
    requires n < 16
  {
    if n < 10 then (48 + n) as char else (87 + n) as char
  }

  /** The value of one hexadecimal digit, either case. */
  function HexValue(c: char): (n: Option<nat>)
    ensures n.Some? ==> n.value < 16
  {
    if '0' <= c <= '9' then Some(c as int - 48)
    else if 'a' <= c <= 'f' then Some(c as int - 87)
    else if 'A' <= c <= 'F' then Some(c as int - 55)
    else None
  }

  function Hex4(n: nat): (s: string)
    requires n < 0x1_0000
    ensures |s| == 4
  {
    [HexDigit(n / 4096), HexDigit(n / 256 % 16), HexDigit(n / 16 % 16), HexDigit(n % 16)]
  }

  /** The code unit the first four characters spell. */
  function ReadHex4(t: string): (n: Option<nat>)
    ensures n.Some? ==> n.value < 0x1_0000 && |t| >= 4
  {
    if |t| < 4 then None
    else
      var a, b, c, d := HexValue(t[0]), HexValue(t[1]), HexValue(t[2]), HexValue(t[3]);
      if a.Some? && b.Some? && c.Some? && d.Some? then
        Some(4096 * a.value + 256 * b.value + 16 * c.value + d.value)
      else None
  }

  lemma HexDigitRead(n: nat)
    requires n < 16
    ensures HexValue(HexDigit(n)) == Some(n)
    ensures IsPlain(HexDigit(n)) && HexDigit(n) != '<' && HexDigit(n) != '>' && HexDigit(n) != '-'
  {
  }

  lemma Hex4Read(n: nat, rest: string)
    requires n < 0x1_0000
    ensures ReadHex4(Hex4(n) + rest) == Some(n)
  {
    HexDigitRead(n / 4096);
    HexDigitRead(n / 256 % 16);
    HexDigitRead(n / 16 % 16);
    HexDigitRead(n % 16);
    assert n == 4096 * (n / 4096) + 256 * (n / 256 % 16) + 16 * (n / 16 % 16) + n % 16 by {
      assert n / 16 / 16 == n / 256;
      assert n / 256 / 16 == n / 4096;
    }
  }

  /** A printable ASCII character a string may hold as itself: neither a quote nor a backslash. */
  predicate IsPlain(c: char) { ' ' <= c <= '~' && c != '"' && c != '\\' }

  predicate High(c: int) { 0xD800 <= c < 0xDC00 }
  predicate Low(c: int) { 0xDC00 <= c < 0xE000 }

  function U(n: nat): string
    requires n < 0x1_0000
  {
    ['\\', 'u'] + Hex4(n)
  }

  /** The surrogates a code point past sixteen bits is written as. */
  function HighOf(c: Code): (high: nat)
    requires c >= 0x1_0000
    ensures High(high) && high < 0x1_0000
  {
    assert (c - 0x1_0000) / 1024 < 1024;
    0xD800 + (c - 0x1_0000) / 1024
  }

  function LowOf(c: Code): (low: nat)
    requires c >= 0x1_0000
    ensures Low(low) && low < 0x1_0000
  {
    0xDC00 + (c - 0x1_0000) % 1024
  }

  /** How one code point is written, escaped though it need not be where it is `hidden`. */
  function SpellCode(c: Code, hidden: bool): (s: string)
    ensures |s| >= 1
  {
    if c == 0x22 then ['\\', '"']
    else if c == 0x5C then ['\\', '\\']
    else if c == 0x0A then ['\\', 'n']
    else if c == 0x0D then ['\\', 'r']
    else if c == 0x09 then ['\\', 't']
    else if c == 0x0C then ['\\', 'f']
    else if c == 0x08 then ['\\', 'b']
    else if 0x20 <= c <= 0x7E && !hidden then [c as char]
    else if c < 0x1_0000 then U(c)
    else U(HighOf(c)) + U(LowOf(c))
  }

  /** Whether the code point at `i` is one a spelling hides. */
  predicate Hidden(s: PyStr, i: nat, hiding: Hiding)
    requires i < |s|
  {
    match hiding
    case Nothing => false
    case CommentClose => i >= 2 && s[i] == 0x3E && s[i - 1] == 0x2D && s[i - 2] == 0x2D
    case Angles => s[i] == 0x3C || s[i] == 0x3E
  }

  /** The spelling of `s` from `i` on. */
  function SpellCodes(s: PyStr, i: nat, hiding: Hiding): string
    requires i <= |s|
    decreases |s| - i
  {
    if i == |s| then "" else SpellCode(s[i], Hidden(s, i, hiding)) + SpellCodes(s, i + 1, hiding)
  }

  function SpellStr(s: PyStr, hiding: Hiding): string {
    ['"'] + SpellCodes(s, 0, hiding) + ['"']
  }

  /** One escape, from behind its backslash: the code point it stands for and what follows it. */
  function ReadEscape(t: string): (r: Option<(Code, string)>)
    ensures r.Some? ==> |r.value.1| < |t|
  {
    if t == "" then None
    else
      match t[0]
      case '"' => Some((0x22, t[1..]))
      case '\\' => Some((0x5C, t[1..]))
      case '/' => Some((0x2F, t[1..]))
      case 'b' => Some((0x08, t[1..]))
      case 'f' => Some((0x0C, t[1..]))
      case 'n' => Some((0x0A, t[1..]))
      case 'r' => Some((0x0D, t[1..]))
      case 't' => Some((0x09, t[1..]))
      case 'u' =>
        var unit := ReadHex4(t[1..]);
        if unit.None? then None
        else if High(unit.value) && |t| >= 11 && t[5] == '\\' && t[6] == 'u' then
          var low := ReadHex4(t[7..]);
          if low.None? then None
          else if Low(low.value) then
            Some((0x1_0000 + (unit.value - 0xD800) * 1024 + (low.value - 0xDC00), t[11..]))
          else Some((unit.value, t[5..]))
        else Some((unit.value, t[5..]))
      case _ => None
  }

  /** A string from behind its opening quote: its code points and what follows its closing one. */
  function ReadStr(t: string): (r: Option<(PyStr, string)>)
    ensures r.Some? ==> |r.value.1| < |t|
    decreases |t|
  {
    if t == "" then None
    else if t[0] == '"' then Some(([], t[1..]))
    else if t[0] == '\\' then
      var escape := ReadEscape(t[1..]);
      if escape.None? then None
      else
        var rest := ReadStr(escape.value.1);
        if rest.None? then None else Some(([escape.value.0] + rest.value.0, rest.value.1))
    else if t[0] < ' ' then None
    else
      var rest := ReadStr(t[1..]);
      if rest.None? then None else Some(([t[0] as int] + rest.value.0, rest.value.1))
  }

  /** The one character a high and a low surrogate spell side by side. */
  function Combined(high: int, low: int): (c: Code)
    requires High(high) && Low(low)
    ensures c >= 0x1_0000
  {
    0x1_0000 + (high - 0xD800) * 1024 + (low - 0xDC00)
  }

  /** Whether a high surrogate stands at `i` with a low one right behind it. */
  predicate SplitPair(s: PyStr, i: nat) { i + 1 < |s| && High(s[i]) && Low(s[i + 1]) }

  /** `s` from `i` on as reading its spelling gives it back: surrogates side by side come back as one character. */
  function Merged(s: PyStr, i: nat): (m: PyStr)
    requires i <= |s|
    ensures |m| <= |s| - i
    decreases |s| - i
  {
    if i == |s| then []
    else if SplitPair(s, i) then [Combined(s[i], s[i + 1])] + Merged(s, i + 2)
    else [s[i]] + Merged(s, i + 1)
  }

  /** No surrogates side by side: what a string decoded from UTF-8, or read back from JSON, always is. */
  predicate Unsplit(s: PyStr) { forall i: nat | i < |s| :: !SplitPair(s, i) }

  lemma {:induction false} MergedUnsplit(s: PyStr, i: nat)
    requires i <= |s|
    ensures (forall j: nat | i <= j < |s| :: !SplitPair(s, j)) <==> Merged(s, i) == s[i..]
    decreases |s| - i
  {
    if i < |s| {
      if SplitPair(s, i) {
        assert |Merged(s, i)| < |s[i..]|;
      } else {
        MergedUnsplit(s, i + 1);
        assert s[i..] == [s[i]] + s[i + 1..];
        assert Merged(s, i)[1..] == Merged(s, i + 1);
      }
    }
  }

  lemma ReadU(n: nat, more: string)
    requires n < 0x1_0000
    ensures (U(n) + more)[0] == '\\' && (U(n) + more)[1..] == ['u'] + Hex4(n) + more
    ensures (['u'] + Hex4(n) + more)[0] == 'u'
    ensures (['u'] + Hex4(n) + more)[1..] == Hex4(n) + more && (['u'] + Hex4(n) + more)[5..] == more
    ensures ReadHex4((['u'] + Hex4(n) + more)[1..]) == Some(n)
  {
    Hex4Read(n, more);
    assert (['u'] + Hex4(n) + more)[1..] == Hex4(n) + more;
    assert (['u'] + Hex4(n) + more)[5..] == more;
    assert (U(n) + more)[1..] == ['u'] + Hex4(n) + more;
  }

  /** One unit written as an escape, behind which no low surrogate is escaped, reads back alone. */
  lemma ReadUAlone(n: nat, more: string)
    requires n < 0x1_0000
    requires High(n) && |more| >= 6 && more[0] == '\\' && more[1] == 'u' ==>
               ReadHex4(more[2..]).Some? && !Low(ReadHex4(more[2..]).value)
    ensures ReadEscape((U(n) + more)[1..]) == Some((n, more))
  {
    ReadU(n, more);
    var t := ['u'] + Hex4(n) + more;
    assert forall k | 5 <= k < |t| :: t[k] == more[k - 5];
    if |more| >= 6 {
      assert t[7..] == more[2..];
    }
  }

  lemma ReadUPair(high: nat, low: nat, more: string)
    requires High(high) && Low(low)
    ensures ReadEscape((U(high) + (U(low) + more))[1..]) == Some((Combined(high, low), more))
  {
    hide Hex4, ReadHex4, U;
    var behind := U(low) + more;
    ReadU(high, behind);
    ReadU(low, more);
    var t := ['u'] + Hex4(high) + behind;
    PairTail(t, behind, more, low);
  }

  /** Where a second escape stands behind the first, and what is behind both. */
  lemma PairTail(t: string, behind: string, more: string, low: nat)
    requires low < 0x1_0000 && behind == U(low) + more && |t| == 5 + |behind| && t[5..] == behind
    ensures |t| >= 11 && t[5] == '\\' && t[6] == 'u' && t[7..] == Hex4(low) + more && t[11..] == more
    ensures ReadHex4(t[7..]) == Some(low)
  {
    hide ReadHex4;
    ReadU(low, more);
    assert t[7..] == behind[2..] && t[11..] == behind[6..];
    assert behind[2..] == behind[1..][1..] && behind[6..] == behind[1..][5..];
  }

  lemma PairSpelled(c: Code)
    requires c >= 0x1_0000
    ensures Combined(HighOf(c), LowOf(c)) == c
  {
  }

  /** What a spelled code point begins with: never an escaped low surrogate, unless it is one. */
  lemma SpelledBegins(c: Code, hidden: bool, more: string)
    ensures var t := SpellCode(c, hidden) + more;
            |t| >= 6 && t[0] == '\\' && t[1] == 'u' ==>
              ReadHex4(t[2..]).Some? && (Low(ReadHex4(t[2..]).value) <==> Low(c))
  {
    hide ReadHex4, Hex4, HighOf, LowOf;
    var t := SpellCode(c, hidden) + more;
    if |t| >= 6 && t[0] == '\\' && t[1] == 'u' {
      if c < 0x1_0000 {
        assert SpellCode(c, hidden) == U(c);
        ReadU(c, more);
        assert t[2..] == t[1..][1..];
      } else {
        assert t == U(HighOf(c)) + (U(LowOf(c)) + more);
        ReadU(HighOf(c), U(LowOf(c)) + more);
        assert t[2..] == t[1..][1..];
      }
    }
  }

  /** `c` ahead of what reading the rest gives. */
  function Ahead(c: Code, rest: Option<(PyStr, string)>): Option<(PyStr, string)> {
    if rest.None? then None else Some(([c] + rest.value.0, rest.value.1))
  }

  predicate ShortEscape(c: Code) {
    c == 0x22 || c == 0x5C || c == 0x0A || c == 0x0D || c == 0x09 || c == 0x0C || c == 0x08
  }

  lemma ReadShort(c: Code, hidden: bool, more: string)
    requires ShortEscape(c)
    ensures ReadStr(SpellCode(c, hidden) + more) == Ahead(c, ReadStr(more))
  {
    var spelled := SpellCode(c, hidden);
    var t := spelled + more;
    assert |spelled| == 2 && t[0] == '\\';
    assert t[1..] == [spelled[1]] + more;
    assert ([spelled[1]] + more)[1..] == more;
    assert ReadEscape(t[1..]) == Some((c, more));
  }

  lemma ReadPlain(c: Code, more: string)
    requires 0x20 <= c <= 0x7E && !ShortEscape(c)
    ensures ReadStr([c as char] + more) == Ahead(c, ReadStr(more))
  {
    var t := [c as char] + more;
    assert t[1..] == more;
  }

  lemma ReadLong(c: Code, more: string)
    requires c < 0x1_0000
    requires High(c) && |more| >= 6 && more[0] == '\\' && more[1] == 'u' ==>
               ReadHex4(more[2..]).Some? && !Low(ReadHex4(more[2..]).value)
    ensures ReadStr(U(c) + more) == Ahead(c, ReadStr(more))
  {
    ReadUAlone(c, more);
    assert (U(c) + more)[0] == '\\';
  }

  lemma ReadPair(high: int, low: int, more: string)
    requires High(high) && Low(low)
    ensures ReadStr(U(high) + (U(low) + more)) == Ahead(Combined(high, low), ReadStr(more))
  {
    ReadUPair(high, low, more);
    assert (U(high) + (U(low) + more))[0] == '\\';
  }

  lemma WideSpelled(c: Code, hidden: bool)
    requires c >= 0x1_0000
    ensures SpellCode(c, hidden) == U(HighOf(c)) + U(LowOf(c))
  {
    hide U, HighOf, LowOf;
  }

  lemma ReadWide(c: Code, hidden: bool, more: string)
    requires c >= 0x1_0000
    ensures ReadStr(SpellCode(c, hidden) + more) == Ahead(c, ReadStr(more))
  {
    hide *;
    PairSpelled(c);
    WideSpelled(c, hidden);
    var high, low := U(HighOf(c)), U(LowOf(c));
    ReadPair(HighOf(c), LowOf(c), more);
    assert high + low + more == high + (low + more);
  }

  /** One code point read off the front of a text that spells it. */
  lemma ReadOne(c: Code, hidden: bool, more: string)
    requires High(c) && |more| >= 6 && more[0] == '\\' && more[1] == 'u' ==>
               ReadHex4(more[2..]).Some? && !Low(ReadHex4(more[2..]).value)
    ensures ReadStr(SpellCode(c, hidden) + more) == Ahead(c, ReadStr(more))
  {
    hide ReadStr, ReadHex4, Hex4;
    if ShortEscape(c) {
      ReadShort(c, hidden, more);
    } else if 0x20 <= c <= 0x7E && !hidden {
      ReadPlain(c, more);
    } else if c < 0x1_0000 {
      ReadLong(c, more);
    } else {
      ReadWide(c, hidden, more);
    }
  }

  lemma SpelledSurrogate(c: Code, hidden: bool)
    requires High(c) || Low(c)
    ensures SpellCode(c, hidden) == U(c)
  {
  }

  /** The spelling from `i` on, one code point off its front. */
  lemma SpellFirst(s: PyStr, i: nat, hiding: Hiding, behind: string)
    requires i < |s|
    ensures SpellCodes(s, i, hiding) + behind
         == SpellCode(s[i], Hidden(s, i, hiding)) + (SpellCodes(s, i + 1, hiding) + behind)
  {
  }

  lemma NoLowBehind(s: PyStr, i: nat, hiding: Hiding, rest: string)
    requires i < |s| && !SplitPair(s, i)
    ensures var more := SpellCodes(s, i + 1, hiding) + (['"'] + rest);
            High(s[i]) && |more| >= 6 && more[0] == '\\' && more[1] == 'u' ==>
              ReadHex4(more[2..]).Some? && !Low(ReadHex4(more[2..]).value)
  {
    var close := ['"'] + rest;
    if i + 1 < |s| {
      SpellFirst(s, i + 1, hiding, close);
      SpelledBegins(s[i + 1], Hidden(s, i + 1, hiding), SpellCodes(s, i + 2, hiding) + close);
    } else {
      assert "" + close == close;
    }
  }

  lemma CloseRead(s: PyStr, hiding: Hiding, rest: string)
    ensures ReadStr(SpellCodes(s, |s|, hiding) + (['"'] + rest)) == Some(([], rest))
  {
    assert SpellCodes(s, |s|, hiding) + (['"'] + rest) == ['"'] + rest;
    assert (['"'] + rest)[1..] == rest;
  }

  /**
   Reading a spelled string, whatever is hidden in it and whatever follows it, gives it back with surrogates
   merged.
   */
  lemma {:induction false} SpellCodesRead(s: PyStr, i: nat, hiding: Hiding, rest: string)
    requires i <= |s|
    ensures ReadStr(SpellCodes(s, i, hiding) + (['"'] + rest)) == Some((Merged(s, i), rest))
    decreases |s| - i
  {
    hide SpellCode, SpellCodes, ReadStr;
    var close := ['"'] + rest;
    if i == |s| {
      CloseRead(s, hiding, rest);
    } else if SplitPair(s, i) {
      SpellCodesRead(s, i + 2, hiding, rest);
      SpellFirst(s, i, hiding, close);
      SpellFirst(s, i + 1, hiding, close);
      SpelledSurrogate(s[i], Hidden(s, i, hiding));
      SpelledSurrogate(s[i + 1], Hidden(s, i + 1, hiding));
      ReadPair(s[i], s[i + 1], SpellCodes(s, i + 2, hiding) + close);
    } else {
      SpellCodesRead(s, i + 1, hiding, rest);
      SpellFirst(s, i, hiding, close);
      NoLowBehind(s, i, hiding, rest);
      ReadOne(s[i], Hidden(s, i, hiding), SpellCodes(s, i + 1, hiding) + close);
    }
  }

  /** The code points of a text whose characters are Unicode scalar values: no surrogate among them. */
  function Codes(s: string): (codes: PyStr)
    ensures |codes| == |s| && Unsplit(codes)
  {
    seq(|s|, i requires 0 <= i < |s| => s[i] as int)
  }
}
