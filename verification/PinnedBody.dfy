/**
 The comment body a pinned state is written as, and the one shape of body that is taken for one. The
 recognizer is the whole-comment pattern as a scanner: each of its loops is possessive, so it reads the
 body once and never gives anything back.
 */
module PinnedBody {
  import opened Text
  import opened PythonText
  import opened Threads
  import opened Decimal
  import opened JsonNumbers
  import opened Json
  import opened JsonText

  const OPENING := "<!--orchestrator-state"
  const ORDINARY := "<!--orchestrator-comment-->"
  const CLOSE := "-->"
  const ESCAPED_CLOSE := "--\\u003e"

  const ESCAPED := Style(", ", ": ", CommentClose)

  // ----- Writing

  /** `str.replace` of the comment's terminator by its escape. */
  function Replaced(t: string): string {
    if t == "" then ""
    else if CLOSE <= t then ESCAPED_CLOSE + Replaced(t[3..])
    else [t[0]] + Replaced(t[1..])
  }

  function Wrapped(payload: string): string { OPENING + " " + payload + CLOSE }

  /** The body a record is written as: escaped, unless that alone puts it past what a comment holds. */
  function Body(v: JsonValue, escapedInFull: bool): string {
    var payload := Spelling(v, SPACED);
    var escaped := Wrapped(Replaced(payload));
    if escapedInFull || |escaped| <= MAX_BODY then escaped else Wrapped(payload)
  }

  // ----- Recognizing

  predicate Closes(t: string) { CLOSE <= t && Blank(t[3..]) }

  /** Whether `t` ends on the ordinary comment's marker and blanks. */
  predicate EndsOrdinary(t: string) {
    t != "" && ((ORDINARY <= t && Blank(t[|ORDINARY|..])) || EndsOrdinary(t[1..]))
  }

  /** What follows a JSON string, from behind its opening quote; none where it is never closed. */
  function StringEnd(t: string): (r: Option<string>)
    ensures r.Some? ==> |r.value| < |t|
  {
    if t == "" then None
    else if t[0] == '"' then Some(t[1..])
    else if t[0] == '\\' then (if |t| < 2 then None else StringEnd(t[2..]))
    else StringEnd(t[1..])
  }

  /** What is left once every closed string, and whatever plain text stands around those, is passed. */
  function TextEnd(t: string): (r: string)
    ensures |r| <= |t|
    decreases |t|
  {
    if t == "" then t
    else if t[0] == '"' then
      var behind := StringEnd(t[1..]);
      if behind.None? then t else TextEnd(behind.value)
    else if ORDINARY <= t || Closes(t) then t
    else TextEnd(t[1..])
  }

  /** What is left behind a string cut open, from behind its quote. */
  function OpenEnd(t: string): (r: string)
    ensures |r| <= |t|
    decreases |t|
  {
    if t == "" || Closes(t) || t[0] == '"' then t
    else if t[0] == '\\' then (if |t| >= 2 && !Closes(t[1..]) then OpenEnd(t[2..]) else t)
    else OpenEnd(t[1..])
  }

  /** What is left behind the payload, a backslash an escape was cut at taken with it. */
  function PayloadEnd(t: string): (r: string)
    ensures |r| <= |t|
  {
    var r := TextEnd(t);
    if r != "" && r[0] == '"' then OpenedEnd(r[1..]) else r
  }

  function OpenedEnd(t: string): (r: string)
    ensures |r| <= |t|
  {
    var open := OpenEnd(t);
    if open != "" && open[0] == '\\' && Closes(open[1..]) then open[1..] else open
  }

  /** The payload of a body that is a state comment, whatever the payload is. */
  function Recognized(body: string): (payload: Option<string>) {
    var start := Skip(body);
    if OPENING <= start then Payload(start[|OPENING|..]) else None
  }

  /** The payload behind the opening marker. */
  function Payload(behind: string): (payload: Option<string>) {
    var t := Skip(behind);
    if |t| == |behind| || EndsOrdinary(t) then None
    else
      var rest := PayloadEnd(t);
      if Closes(rest) then Some(t[..|t| - |rest|]) else None
  }

  // ----- The recognizer over a body written here

  /** What every rest of a written body ends with: the terminator, and no blank behind it. */
  predicate Closed(t: string) { |t| >= 3 && t[|t| - 3..] == CLOSE }

  lemma ClosesOnce(t: string)
    requires Closed(t)
    ensures Closes(t) <==> t == CLOSE
  {
    if |t| > 3 {
      assert t[|t| - 3..][2] == '>';
      assert t[3..][|t| - 4] == '>';
    } else {
      assert t[0..] == t;
    }
  }

  /** Text between strings in which nothing opens a string or a marker. */
  predicate Bare(t: string) { forall i | 0 <= i < |t| :: t[i] != '"' && t[i] != '<' }

  lemma {:induction false} BareSkipped(bare: string, more: string)
    requires Bare(bare) && Closed(more)
    ensures TextEnd(bare + more) == TextEnd(more)
  {
    if bare == "" {
      assert bare + more == more;
    } else {
      var t := bare + more;
      assert t[1..] == bare[1..] + more;
      assert t[|t| - 3..] == more[|more| - 3..];
      ClosesOnce(t);
      BareSkipped(bare[1..], more);
    }
  }

  /** Text in which nothing closes the string it stands in. */
  predicate Within(t: string) { forall i | 0 <= i < |t| :: t[i] != '"' && t[i] != '\\' }

  lemma {:induction false} WithinSkipped(within: string, more: string)
    requires Within(within)
    ensures StringEnd(within + more) == StringEnd(more)
  {
    if within == "" {
      assert within + more == more;
    } else {
      assert (within + more)[1..] == within[1..] + more;
      WithinSkipped(within[1..], more);
    }
  }

  lemma EscapeSkipped(marked: char, within: string, more: string)
    requires Within(within)
    ensures StringEnd((['\\', marked] + within) + more) == StringEnd(more)
  {
    var t := (['\\', marked] + within) + more;
    assert t[2..] == within + more;
    WithinSkipped(within, more);
  }

  lemma UnitSkipped(n: nat, more: string)
    requires n < 0x1_0000
    ensures StringEnd(U(n) + more) == StringEnd(more)
  {
    EscapeSkipped('u', Hex4(n), more);
    assert ['\\', 'u'] + Hex4(n) == U(n);
  }

  lemma CodeSkipped(c: Code, hidden: bool, more: string)
    ensures StringEnd(SpellCode(c, hidden) + more) == StringEnd(more)
  {
    var spelled := SpellCode(c, hidden);
    if ShortEscape(c) {
      EscapeSkipped(spelled[1], "", more);
      assert ['\\', spelled[1]] + "" == spelled;
    } else if 0x20 <= c <= 0x7E && !hidden {
      WithinSkipped(spelled, more);
    } else if c < 0x1_0000 {
      UnitSkipped(c, more);
    } else {
      var high, low := HighOf(c), LowOf(c);
      assert spelled + more == U(high) + (U(low) + more);
      UnitSkipped(high, U(low) + more);
      UnitSkipped(low, more);
    }
  }

  lemma {:induction false} CodesSkipped(s: PyStr, i: nat, hiding: Hiding, more: string)
    requires i <= |s|
    ensures StringEnd(SpellCodes(s, i, hiding) + (['"'] + more)) == Some(more)
    decreases |s| - i
  {
    var close := ['"'] + more;
    if i == |s| {
      assert "" + close == close && close[1..] == more;
    } else {
      SpellFirst(s, i, hiding, close);
      CodeSkipped(s[i], Hidden(s, i, hiding), SpellCodes(s, i + 1, hiding) + close);
      CodesSkipped(s, i + 1, hiding, more);
    }
  }

  lemma StringSkipped(s: PyStr, hiding: Hiding, more: string)
    requires Closed(more)
    ensures TextEnd(SpellStr(s, hiding) + more) == TextEnd(more)
  {
    var t := SpellStr(s, hiding) + more;
    assert t == ['"'] + (SpellCodes(s, 0, hiding) + (['"'] + more));
    assert t[1..] == SpellCodes(s, 0, hiding) + (['"'] + more);
    CodesSkipped(s, 0, hiding, more);
  }

  /** A bracketed run is passed over where what stands in the brackets is. */
  lemma BracketsSkipped(open: char, inner: string, close: char, more: string)
    requires open != '"' && open != '<' && close != '"' && close != '<' && Closed(more)
    requires TextEnd(inner + ([close] + more)) == TextEnd([close] + more)
    ensures TextEnd([open] + inner + [close] + more) == TextEnd(more)
  {
    hide TextEnd;
    var behind := inner + ([close] + more);
    assert [open] + inner + [close] + more == [open] + behind;
    BareSkipped([open], behind);
    BareSkipped([close], more);
  }

  predicate IsScalar(v: JsonValue) { v.Null? || v.Bool? || v.Int? || v.Float? }

  /** A constant or a number is spelled with letters, digits, signs and points, and not with a dash at its end. */
  lemma ScalarSpelled(v: JsonValue, style: Style)
    requires IsScalar(v)
    ensures var t := Spelling(v, style);
            t != "" && t[|t| - 1] != '-' && forall i | 0 <= i < |t| :: FloatChar(t[i])
  {
    match v
    case Int(n) =>
      IntSpelled(n);
      WholeSpelled(SpellInt(n));
    case Float(f) => FloatSpelled(f);
    case _ =>
  }

  lemma ScalarSkipped(v: JsonValue, style: Style, more: string)
    requires IsScalar(v) && Closed(more)
    ensures TextEnd(Spelling(v, style) + more) == TextEnd(more)
  {
    hide TextEnd, Spelling;
    ScalarSpelled(v, style);
    BareSkipped(Spelling(v, style), more);
  }

  lemma ClosedBehind(t: string, more: string)
    requires Closed(more)
    ensures Closed(t + more)
  {
    assert (t + more)[|t + more| - 3..] == more[|more| - 3..];
  }

  lemma SpellingIs(v: JsonValue, style: Style)
    ensures v.Str? ==> Spelling(v, style) == SpellStr(v.text, style.hiding)
    ensures v.Arr? ==> Spelling(v, style) == ['['] + SpellItems(v.items, style) + [']']
    ensures v.Obj? ==> Spelling(v, style) == ['{'] + SpellMembers(v.members, style) + ['}']
  {
  }

  /** The scanner passes over a spelled value, whatever its strings hold. */
  lemma {:induction false} ValueSkipped(v: JsonValue, style: Style, more: string)
    requires Separated(style) && Closed(more)
    ensures TextEnd(Spelling(v, style) + more) == TextEnd(more)
    decreases v, 1
  {
    hide TextEnd, Spelling, Closed, SpellItems, SpellMembers;
    SpellingIs(v, style);
    match v
    case Str(s) => StringSkipped(s, style.hiding, more);
    case Arr(items) =>
      ClosedBehind("]", more);
      ItemsSkipped(items, style, "]" + more);
      BracketsSkipped('[', SpellItems(items, style), ']', more);
    case Obj(members) =>
      ClosedBehind("}", more);
      MembersSkipped(members, style, "}" + more);
      BracketsSkipped('{', SpellMembers(members, style), '}', more);
    case _ => ScalarSkipped(v, style, more);
  }

  /** A separator and what follows it, behind something passed over. */
  lemma SeparatorSkipped(separator: string, behind: string, more: string)
    requires separator == "," || separator == ", " || separator == ":" || separator == ": "
    requires Closed(more)
    ensures TextEnd(separator + (behind + more)) == TextEnd(behind + more)
    ensures Closed(separator + (behind + more))
  {
    BareSkipped(separator, behind + more);
  }

  lemma {:induction false} ItemsSkipped(items: seq<JsonValue>, style: Style, more: string)
    requires Separated(style) && Closed(more)
    ensures TextEnd(SpellItems(items, style) + more) == TextEnd(more)
    decreases items, 0
  {
    hide TextEnd, Spelling;
    if items == [] {
      assert "" + more == more;
    } else if |items| == 1 {
      assert SpellItems(items, style) == Spelling(items[0], style);
      ValueSkipped(items[0], style, more);
    } else {
      var behind := SpellItems(items[1..], style) + more;
      assert SpellItems(items, style) + more == Spelling(items[0], style) + (style.comma + behind);
      SeparatorSkipped(style.comma, SpellItems(items[1..], style), more);
      ValueSkipped(items[0], style, style.comma + behind);
      ItemsSkipped(items[1..], style, more);
    }
  }

  lemma {:induction false} MembersSkipped(members: seq<Member>, style: Style, more: string)
    requires Separated(style) && Closed(more)
    ensures TextEnd(SpellMembers(members, style) + more) == TextEnd(more)
    decreases members, 0
  {
    hide TextEnd, SpellMember;
    if members == [] {
      assert "" + more == more;
    } else if |members| == 1 {
      assert SpellMembers(members, style) == SpellMember(members[0], style);
      MemberSkipped(members[0], style, more);
    } else {
      var behind := SpellMembers(members[1..], style) + more;
      assert SpellMembers(members, style) + more == SpellMember(members[0], style) + (style.comma + behind);
      SeparatorSkipped(style.comma, SpellMembers(members[1..], style), more);
      MemberSkipped(members[0], style, style.comma + behind);
      MembersSkipped(members[1..], style, more);
    }
  }

  lemma {:induction false} MemberSkipped(m: Member, style: Style, more: string)
    requires Separated(style) && Closed(more)
    ensures TextEnd(SpellMember(m, style) + more) == TextEnd(more)
    decreases m, 0
  {
    hide TextEnd, Spelling;
    var behind := Spelling(m.value, style) + more;
    assert SpellMember(m, style) + more == SpellStr(m.key, style.hiding) + (style.colon + behind);
    SeparatorSkipped(style.colon, Spelling(m.value, style), more);
    StringSkipped(m.key, style.hiding, style.colon + behind);
    ValueSkipped(m.value, style, more);
  }

  /** A body ending on a brace and the terminator does not end on the ordinary marker. */
  lemma {:induction false} NotOrdinary(t: string)
    requires Closed(t) && |t| >= 4 && t[|t| - 4] != 't'
    ensures !EndsOrdinary(t)
  {
    if ORDINARY <= t && Blank(t[|ORDINARY|..]) {
      if |t| > |ORDINARY| {
        assert IsSpace(t[|ORDINARY|..][|t| - 1 - |ORDINARY|]);
        assert t[|t| - 3..][2] == '>';
      } else {
        assert t == ORDINARY;
      }
    }
    if |t| > 4 {
      assert t[1..][|t| - 4..] == t[|t| - 3..];
      NotOrdinary(t[1..]);
    } else {
      assert |t[1..]| == 3 && |t[2..]| == 2 && |t[3..]| == 1;
    }
  }

  lemma WrappedOpens(payload: string)
    requires payload != "" && !IsSpace(payload[0])
    ensures var body := Wrapped(payload);
            var behind := body[|OPENING|..];
            Skip(body) == body && OPENING <= body && behind == " " + (payload + CLOSE)
            && Skip(behind) == payload + CLOSE
  {
    var body := Wrapped(payload);
    assert body[0] == '<';
    var behind := body[|OPENING|..];
    assert behind == " " + (payload + CLOSE);
    assert behind[1..] == payload + CLOSE;
    assert (payload + CLOSE)[0] == payload[0];
    assert Skip(payload + CLOSE) == payload + CLOSE;
  }

  lemma SpellingEnds(members: seq<Member>, style: Style)
    ensures var payload := Spelling(Obj(members), style);
            |payload| >= 2 && payload[0] == '{' && payload[|payload| - 1] == '}'
  {
  }

  lemma EndFound(t: string)
    requires TextEnd(t) == TextEnd(CLOSE)
    ensures PayloadEnd(t) == CLOSE && Closes(CLOSE)
  {
    assert CLOSE[3..] == "" && Closes(CLOSE);
  }

  /** A payload closed by its brace that the scanner passes over is recognized whole. */
  lemma PayloadRecognized(payload: string)
    requires |payload| >= 2 && payload[0] == '{' && payload[|payload| - 1] == '}'
    requires TextEnd(payload + CLOSE) == TextEnd(CLOSE)
    ensures Recognized(Wrapped(payload)) == Some(payload)
  {
    hide EndsOrdinary, TextEnd, PayloadEnd, Skip, Payload;
    WrappedOpens(payload);
    PayloadFound(payload);
  }

  lemma BraceClosed(payload: string)
    requires payload != "" && payload[|payload| - 1] == '}'
    ensures var t := payload + CLOSE; Closed(t) && |t| >= 4 && t[|t| - 4] == '}' && t[..|t| - 3] == payload
  {
  }

  lemma PayloadFound(payload: string)
    requires |payload| >= 2 && payload[0] == '{' && payload[|payload| - 1] == '}'
    requires TextEnd(payload + CLOSE) == TextEnd(CLOSE)
    requires Skip(" " + (payload + CLOSE)) == payload + CLOSE
    ensures Payload(" " + (payload + CLOSE)) == Some(payload)
  {
    hide EndsOrdinary, TextEnd, PayloadEnd, Skip, Closes;
    var t := payload + CLOSE;
    assert !EndsOrdinary(t) by {
      BraceClosed(payload);
      NotOrdinary(t);
    }
    assert PayloadEnd(t) == CLOSE && Closes(CLOSE) by {
      EndFound(t);
    }
    assert |CLOSE| == 3 && |" " + t| == |t| + 1;
    assert t[..|t| - 3] == payload;
  }

  /** Either rendering of an object is recognized, with exactly the serialized payload as its group. */
  lemma ObjectRecognized(members: seq<Member>, style: Style)
    requires Separated(style)
    ensures Recognized(Wrapped(Spelling(Obj(members), style))) == Some(Spelling(Obj(members), style))
  {
    hide TextEnd, Recognized;
    SpellingEnds(members, style);
    assert Closed(CLOSE);
    ValueSkipped(Obj(members), style, CLOSE);
    PayloadRecognized(Spelling(Obj(members), style));
  }

  // ----- The escape is a spelling

  /** How a text reads with the terminators in it escaped, `dashes` of which stand right ahead of it. */
  function Marked(t: string, dashes: nat): string {
    if t == "" then ""
    else if t[0] == '>' && dashes == 2 then "\\u003e" + Marked(t[1..], 0)
    else [t[0]] + Marked(t[1..], NextDashes(t[0], dashes))
  }

  function NextDashes(c: char, dashes: nat): nat {
    if c != '-' then 0 else if dashes >= 2 then 2 else dashes + 1
  }

  function Dashes(n: nat): string
    requires n <= 2
  {
    if n == 0 then "" else if n == 1 then "-" else "--"
  }

  lemma ReplacedEmpty(dashes: nat)
    requires dashes <= 2
    ensures Replaced(Dashes(dashes)) == Dashes(dashes) && Marked("", dashes) == ""
  {
    assert "--"[1..] == "-" && "-"[1..] == "";
    assert Replaced("") == "" && Replaced("-") == "-";
  }

  lemma ReplacedClose(more: string)
    ensures Replaced(Dashes(2) + (['>'] + more)) == Dashes(2) + ("\\u003e" + Replaced(more))
  {
    var t := Dashes(2) + (['>'] + more);
    assert CLOSE <= t && t[3..] == more;
  }

  /** A third dash in a row leaves two that count. */
  lemma ReplacedDash(more: string, dashes: nat)
    requires dashes <= 2
    ensures Replaced(Dashes(dashes) + (['-'] + more))
         == (if dashes == 2 then "-" else "") + Replaced(Dashes(NextDashes('-', dashes)) + more)
  {
    var t := Dashes(dashes) + (['-'] + more);
    if dashes == 2 {
      assert t[2] == '-' && t[1..] == Dashes(2) + more;
    } else {
      assert t == Dashes(dashes + 1) + more;
      assert "" + Replaced(t) == Replaced(t);
    }
  }

  predicate NoClose(t: string) { |t| >= 3 ==> t[0] != '-' || t[1] != '-' || t[2] != '>' }

  lemma ReplacedPlain(c: char, more: string)
    requires NoClose([c] + more)
    ensures Replaced([c] + more) == [c] + Replaced(more)
  {
    var t := [c] + more;
    assert t[1..] == more;
  }

  lemma ReplacedOther(c: char, more: string, dashes: nat)
    requires dashes <= 2 && c != '-' && (c == '>' ==> dashes < 2)
    ensures Replaced(Dashes(dashes) + ([c] + more)) == Dashes(dashes) + ([c] + Replaced(more))
  {
    hide Replaced;
    ReplacedPlain(c, more);
    var t := [c] + more;
    if dashes == 0 {
      assert Dashes(0) + t == t;
    } else {
      ReplacedPlain('-', t);
      if dashes == 1 {
        assert Dashes(1) + t == ['-'] + t;
      } else {
        ReplacedPlain('-', ['-'] + t);
        assert Dashes(2) + t == ['-'] + (['-'] + t);
      }
    }
  }

  lemma MarkedStep(c: char, more: string, dashes: nat)
    ensures Marked([c] + more, dashes)
         == if c == '>' && dashes == 2 then "\\u003e" + Marked(more, 0)
            else [c] + Marked(more, NextDashes(c, dashes))
  {
    assert ([c] + more)[1..] == more;
  }

  lemma {:induction false} ReplacedMarked(t: string, dashes: nat)
    requires dashes <= 2
    ensures Replaced(Dashes(dashes) + t) == Dashes(dashes) + Marked(t, dashes)
    decreases |t|
  {
    hide Replaced, Marked;
    if t == "" {
      ReplacedEmpty(dashes);
      assert Dashes(dashes) + t == Dashes(dashes);
    } else {
      var c, more := t[0], t[1..];
      assert t == [c] + more;
      MarkedStep(c, more, dashes);
      ReplacedMarked(more, if c == '-' then NextDashes(c, dashes) else 0);
      assert Dashes(0) + more == more && Dashes(0) + Marked(more, 0) == Marked(more, 0);
      if c == '-' {
        ReplacedDash(more, dashes);
      } else if c == '>' && dashes == 2 {
        ReplacedClose(more);
      } else {
        ReplacedOther(c, more, dashes);
      }
    }
  }

  /** Text with no terminator to finish and none begun at its end. */
  predicate Calm(t: string) {
    t != "" && t[|t| - 1] != '-' && forall i | 0 <= i < |t| :: t[i] != '>'
  }

  lemma {:induction false} CalmMarked(calm: string, more: string, dashes: nat)
    requires Calm(calm)
    ensures Marked(calm + more, dashes) == calm + Marked(more, 0)
  {
    var t := calm + more;
    if |calm| == 1 {
      assert t[1..] == more;
    } else {
      assert t[1..] == calm[1..] + more;
      CalmMarked(calm[1..], more, NextDashes(calm[0], dashes));
    }
  }

  /** How many dashes stand right ahead of `i`, two at most counted. */
  function DashesBefore(s: PyStr, i: nat): nat
    requires i <= |s|
  {
    if i == 0 || s[i - 1] != 0x2D then 0 else if i == 1 || s[i - 2] != 0x2D then 1 else 2
  }

  lemma EscapedClose()
    ensures SpellCode(0x3E, true) == "\\u003e" && SpellCode(0x3E, false) == ">" && SpellCode(0x2D, false) == "-"
  {
    assert 0x3E / 4096 == 0 && 0x3E / 256 % 16 == 0 && 0x3E / 16 % 16 == 3 && 0x3E % 16 == 14;
  }

  /** A code point no part of a terminator, spelled and marked. */
  lemma CalmCode(s: PyStr, i: nat, more: string)
    requires i < |s| && s[i] != 0x2D && s[i] != 0x3E
    ensures Marked(SpellCode(s[i], false) + more, DashesBefore(s, i))
         == SpellCode(s[i], Hidden(s, i, CommentClose)) + Marked(more, DashesBefore(s, i + 1))
  {
    CalmMarked(SpellCode(s[i], false), more, DashesBefore(s, i));
  }

  lemma CodeMarked(s: PyStr, i: nat, more: string)
    requires i < |s|
    ensures Marked(SpellCode(s[i], false) + more, DashesBefore(s, i))
         == SpellCode(s[i], Hidden(s, i, CommentClose)) + Marked(more, DashesBefore(s, i + 1))
  {
    hide Marked, SpellCode;
    EscapedClose();
    if s[i] == 0x2D {
      MarkedStep('-', more, DashesBefore(s, i));
    } else if s[i] == 0x3E {
      MarkedStep('>', more, DashesBefore(s, i));
    } else {
      CalmCode(s, i, more);
    }
  }

  lemma {:induction false} CodesMarked(s: PyStr, i: nat, more: string)
    requires i <= |s|
    ensures Marked(SpellCodes(s, i, Nothing) + (['"'] + more), DashesBefore(s, i))
         == SpellCodes(s, i, CommentClose) + (['"'] + Marked(more, 0))
    decreases |s| - i
  {
    hide Marked;
    var close := ['"'] + more;
    if i == |s| {
      assert "" + close == close;
      CalmMarked(['"'], more, DashesBefore(s, i));
    } else {
      SpellFirst(s, i, Nothing, close);
      SpellFirst(s, i, CommentClose, ['"'] + Marked(more, 0));
      CodeMarked(s, i, SpellCodes(s, i + 1, Nothing) + close);
      CodesMarked(s, i + 1, more);
    }
  }

  lemma StringMarked(s: PyStr, more: string)
    ensures Marked(SpellStr(s, Nothing) + more, 0) == SpellStr(s, CommentClose) + Marked(more, 0)
  {
    hide Marked;
    var inner := SpellCodes(s, 0, Nothing) + (['"'] + more);
    assert SpellStr(s, Nothing) + more == ['"'] + inner;
    CalmMarked(['"'], inner, 0);
    CodesMarked(s, 0, more);
  }

  lemma BracketsMarked(open: char, inner: string, escaped: string, close: char, more: string)
    requires open != '-' && open != '>' && close != '-' && close != '>'
    requires Marked(inner + ([close] + more), 0) == escaped + Marked([close] + more, 0)
    ensures Marked([open] + inner + [close] + more, 0) == [open] + escaped + [close] + Marked(more, 0)
  {
    hide Marked;
    assert [open] + inner + [close] + more == [open] + (inner + ([close] + more));
    CalmMarked([open], inner + ([close] + more), 0);
    CalmMarked([close], more, 0);
  }

  lemma ScalarMarked(v: JsonValue, more: string)
    requires IsScalar(v)
    ensures Marked(Spelling(v, SPACED) + more, 0) == Spelling(v, ESCAPED) + Marked(more, 0)
  {
    assert Spelling(v, SPACED) == Spelling(v, ESCAPED);
    hide Marked, Spelling;
    ScalarSpelled(v, SPACED);
    CalmMarked(Spelling(v, SPACED), more, 0);
  }

  /** Escaping a serialized value's terminators is spelling it with them hidden. */
  lemma {:induction false} ValueMarked(v: JsonValue, more: string)
    ensures Marked(Spelling(v, SPACED) + more, 0) == Spelling(v, ESCAPED) + Marked(more, 0)
    decreases v, 1
  {
    hide Marked, Spelling, SpellItems, SpellMembers;
    SpellingIs(v, SPACED);
    SpellingIs(v, ESCAPED);
    match v
    case Str(s) => StringMarked(s, more);
    case Arr(items) =>
      ItemsMarked(items, "]" + more);
      BracketsMarked('[', SpellItems(items, SPACED), SpellItems(items, ESCAPED), ']', more);
    case Obj(members) =>
      MembersMarked(members, "}" + more);
      BracketsMarked('{', SpellMembers(members, SPACED), SpellMembers(members, ESCAPED), '}', more);
    case _ => ScalarMarked(v, more);
  }

  lemma {:induction false} ItemsMarked(items: seq<JsonValue>, more: string)
    ensures Marked(SpellItems(items, SPACED) + more, 0) == SpellItems(items, ESCAPED) + Marked(more, 0)
    decreases items, 0
  {
    hide Marked, Spelling;
    if items == [] {
      assert "" + more == more;
    } else if |items| == 1 {
      assert SpellItems(items, SPACED) == Spelling(items[0], SPACED);
      assert SpellItems(items, ESCAPED) == Spelling(items[0], ESCAPED);
      ValueMarked(items[0], more);
    } else {
      var behind := SpellItems(items[1..], SPACED) + more;
      assert SpellItems(items, SPACED) + more == Spelling(items[0], SPACED) + (", " + behind);
      ValueMarked(items[0], ", " + behind);
      CalmMarked(", ", behind, 0);
      ItemsMarked(items[1..], more);
    }
  }

  lemma {:induction false} MembersMarked(members: seq<Member>, more: string)
    ensures Marked(SpellMembers(members, SPACED) + more, 0) == SpellMembers(members, ESCAPED) + Marked(more, 0)
    decreases members, 0
  {
    hide Marked, SpellMember;
    if members == [] {
      assert "" + more == more;
    } else if |members| == 1 {
      assert SpellMembers(members, SPACED) == SpellMember(members[0], SPACED);
      assert SpellMembers(members, ESCAPED) == SpellMember(members[0], ESCAPED);
      MemberMarked(members[0], more);
    } else {
      var behind := SpellMembers(members[1..], SPACED) + more;
      assert SpellMembers(members, SPACED) + more == SpellMember(members[0], SPACED) + (", " + behind);
      MemberMarked(members[0], ", " + behind);
      CalmMarked(", ", behind, 0);
      MembersMarked(members[1..], more);
    }
  }

  lemma {:induction false} MemberMarked(m: Member, more: string)
    ensures Marked(SpellMember(m, SPACED) + more, 0) == SpellMember(m, ESCAPED) + Marked(more, 0)
    decreases m, 0
  {
    hide Marked, Spelling;
    var behind := Spelling(m.value, SPACED) + more;
    assert SpellMember(m, SPACED) + more == SpellStr(m.key, Nothing) + (": " + behind);
    StringMarked(m.key, ": " + behind);
    CalmMarked(": ", behind, 0);
    ValueMarked(m.value, more);
  }

  /** Replacing the terminator in a serialized value spells the same value with every terminator hidden. */
  lemma ReplacedIsSpelling(v: JsonValue)
    ensures Replaced(Spelling(v, SPACED)) == Spelling(v, ESCAPED)
  {
    var t := Spelling(v, SPACED);
    ReplacedMarked(t, 0);
    assert Dashes(0) + t == t && Dashes(0) + Marked(t, 0) == Marked(t, 0);
    ValueMarked(v, "");
    assert t + "" == t && Marked("", 0) == "";
  }

  // ----- What a written body is to the next reader

  /** Where a terminator stands, character by character. */
  predicate CloseAt(t: string, at: int) {
    0 <= at && at + 2 < |t| && t[at] == '-' && t[at + 1] == '-' && t[at + 2] == '>'
  }

  lemma CloseAtOccurs(t: string, at: int)
    ensures OccursAt(t, CLOSE, at) <==> CloseAt(t, at)
  {
    if 0 <= at <= |t| - 3 {
      var three := t[at..at + 3];
      assert three[0] == t[at] && three[1] == t[at + 1] && three[2] == t[at + 2];
      assert |CLOSE| == 3;
      if CloseAt(t, at) {
        assert three == CLOSE;
      }
    }
  }

  /** A marked text holds no terminator, not even one begun ahead of it. */
  lemma DashesClear(dashes: nat, at: int)
    requires dashes <= 2
    ensures !CloseAt(Dashes(dashes) + Marked("", dashes), at)
  {
  }

  lemma DashesMore(dashes: nat)
    requires dashes < 2
    ensures Dashes(dashes + 1) == Dashes(dashes) + ['-']
  {
  }

  lemma DashesLength(dashes: nat)
    requires dashes <= 2
    ensures |Dashes(dashes)| == dashes
  {
  }

  lemma CloseAhead(head: string, more: string, at: int)
    requires at >= |head|
    ensures CloseAt(head + more, at) <==> CloseAt(more, at - |head|)
  {
  }

  lemma HeadClear(c: char, dashes: nat, marked: string, at: int)
    requires dashes <= 2 && c != '-' && !(c == '>' && dashes == 2) && at <= dashes
    ensures !CloseAt(Dashes(dashes) + [c] + marked, at)
  {
    assert (Dashes(dashes) + [c] + marked)[dashes] == c;
  }

  lemma EscapeClear(marked: string, at: int)
    requires at < 8
    ensures !CloseAt("--\\u003e" + marked, at)
  {
    var t := "--\\u003e" + marked;
    assert t[2] == '\\' && t[3] == 'u' && t[4] == '0' && t[5] == '0' && t[6] == '3' && t[7] == 'e';
  }

  lemma EscapedAhead(marked: string, at: int)
    requires !CloseAt(Dashes(0) + marked, at - 8)
    ensures !CloseAt(Dashes(2) + ("\\u003e" + marked), at)
  {
    hide CloseAt;
    assert Dashes(2) + ("\\u003e" + marked) == "--\\u003e" + marked && Dashes(0) + marked == marked;
    if at >= 8 {
      CloseAhead("--\\u003e", marked, at);
    } else {
      EscapeClear(marked, at);
    }
  }

  lemma OtherAhead(c: char, dashes: nat, marked: string, at: int)
    requires dashes <= 2 && c != '-' && !(c == '>' && dashes == 2) && !CloseAt(Dashes(0) + marked, at - dashes - 1)
    ensures !CloseAt(Dashes(dashes) + ([c] + marked), at)
  {
    hide CloseAt, Dashes;
    var head := Dashes(dashes) + [c];
    DashesLength(dashes);
    assert Dashes(dashes) + ([c] + marked) == head + marked;
    assert Dashes(0) + marked == marked by { DashesLength(0); }
    if at > dashes {
      CloseAhead(head, marked, at);
    } else {
      HeadClear(c, dashes, marked, at);
    }
  }

  lemma ThirdDash(marked: string, at: int)
    requires !CloseAt(Dashes(2) + marked, at - 1)
    ensures !CloseAt(Dashes(2) + (['-'] + marked), at)
  {
    assert Dashes(2) + (['-'] + marked) == ['-'] + (Dashes(2) + marked);
  }

  lemma {:induction false} MarkedNowhere(t: string, dashes: nat, at: int)
    requires dashes <= 2
    ensures !CloseAt(Dashes(dashes) + Marked(t, dashes), at)
    decreases |t|
  {
    hide Marked, Dashes, CloseAt;
    if t == "" {
      DashesClear(dashes, at);
    } else {
      var c, more := t[0], t[1..];
      assert t == [c] + more;
      MarkedStep(c, more, dashes);
      if c == '>' && dashes == 2 {
        MarkedNowhere(more, 0, at - 8);
        EscapedAhead(Marked(more, 0), at);
      } else if c != '-' {
        MarkedNowhere(more, 0, at - dashes - 1);
        OtherAhead(c, dashes, Marked(more, 0), at);
      } else if dashes == 2 {
        MarkedNowhere(more, 2, at - 1);
        ThirdDash(Marked(more, 2), at);
      } else {
        MarkedNowhere(more, dashes + 1, at);
        assert Dashes(dashes) + (['-'] + Marked(more, dashes + 1)) == Dashes(dashes + 1) + Marked(more, dashes + 1) by {
          DashesMore(dashes);
        }
      }
    }
  }

  lemma OpeningPlain()
    ensures '>' !in OPENING + " " && |OPENING + " "| == 23
  {
  }

  lemma WrappedAt(opening: string, payload: string, at: int)
    requires '>' !in opening && opening != "" && opening[|opening| - 1] == ' '
    requires |payload| >= 2 && payload[0] == '{' && payload[|payload| - 1] == '}'
    requires !CloseAt(payload, at - |opening|)
    ensures CloseAt(opening + payload + CLOSE, at) <==> at == |opening| + |payload|
  {
    var body := opening + payload + CLOSE;
    var start, end := |opening|, |opening| + |payload|;
    assert body[end] == '-' && body[end + 1] == '-' && body[end + 2] == '>' && |body| == end + 3;
    assert body[end - 1] == '}' && body[start] == '{' && body[start - 1] == ' ';
    assert forall k | 0 <= k < start :: body[k] == opening[k];
    assert forall k | start <= k < end :: body[k] == payload[k - start];
    if start <= at && at + 2 < end {
      assert body[at] == payload[at - start] && body[at + 1] == payload[at + 1 - start];
      assert body[at + 2] == payload[at + 2 - start];
    }
  }

  lemma WrappedNowhere(payload: string, at: int)
    requires |payload| >= 2 && payload[0] == '{' && payload[|payload| - 1] == '}'
    requires forall k :: !CloseAt(payload, k)
    ensures CloseAt(Wrapped(payload), at) <==> at == |Wrapped(payload)| - 3
  {
    hide CloseAt;
    OpeningPlain();
    WrappedAt(OPENING + " ", payload, at);
    assert |CLOSE| == 3;
  }

  /**
   The escaped rendering of an object holds the comment's terminator at its end and nowhere else, whatever its
   strings hold.
   */
  lemma ClosedOnlyAtItsEnd(members: seq<Member>, at: int)
    ensures var body := Body(Obj(members), true); OccursAt(body, CLOSE, at) <==> at == |body| - 3
  {
    var payload := Spelling(Obj(members), SPACED);
    var escaped := Replaced(payload);
    ReplacedIsSpelling(Obj(members));
    SpellingEnds(members, ESCAPED);
    forall k ensures !CloseAt(escaped, k) {
      ReplacedMarked(payload, 0);
      MarkedNowhere(payload, 0, k);
      assert Dashes(0) + payload == payload;
    }
    WrappedNowhere(escaped, at);
    CloseAtOccurs(Wrapped(escaped), at);
  }

  /**
   Which of its two renderings a record is written in: the serialized value with its terminators hidden, where that
   fits.
   */
  lemma BodyRendering(v: JsonValue, escapedInFull: bool)
    ensures Body(v, escapedInFull)
         == if escapedInFull || |Wrapped(Spelling(v, ESCAPED))| <= 65536 then Wrapped(Spelling(v, ESCAPED))
            else Wrapped(Spelling(v, SPACED))
  {
    ReplacedIsSpelling(v);
  }

  /** What the comment a record was written as decodes to for the next reader. */
  function Decoded(body: string): Option<JsonValue> {
    match Recognized(body)
    case None => None
    case Some(payload) => Loads(payload)
  }

  lemma BodyDecoded(members: seq<Member>, escapedInFull: bool)
    requires Convertible(Obj(members))
    ensures Recognized(Body(Obj(members), escapedInFull)).Some?
    ensures Decoded(Body(Obj(members), escapedInFull)) == Some(MergedValue(Obj(members)))
  {
    hide Recognized, Loads, Wrapped;
    var style := if escapedInFull || |Wrapped(Spelling(Obj(members), ESCAPED))| <= MAX_BODY then ESCAPED else SPACED;
    BodyRendering(Obj(members), escapedInFull);
    ObjectRecognized(members, style);
    LoadsSpelling(Obj(members), style);
  }

  /**
   Either rendering of an object decodes back to the very object, whatever terminators, markers, quotes and
   backslashes its strings hold, exactly where no string in it has a low surrogate right behind a high one.
   */
  lemma BodyReadsBack(members: seq<Member>, escapedInFull: bool)
    requires Convertible(Obj(members))
    ensures Decoded(Body(Obj(members), escapedInFull)) == Some(Obj(members)) <==> UnsplitValue(Obj(members))
  {
    hide Decoded, Body;
    BodyDecoded(members, escapedInFull);
    MergedIsSame(Obj(members));
  }

  // ----- Ordinary comments

  lemma OrdinaryItself()
    ensures EndsOrdinary(ORDINARY)
  {
    assert ORDINARY[|ORDINARY|..] == "";
  }

  lemma OrdinaryBehind(c: char, t: string)
    requires EndsOrdinary(t)
    ensures EndsOrdinary([c] + t)
  {
    assert ([c] + t)[1..] == t;
  }

  lemma {:induction false} OrdinaryEnds(text: string)
    ensures EndsOrdinary(text + ORDINARY)
  {
    hide EndsOrdinary;
    if text == "" {
      OrdinaryItself();
      assert text + ORDINARY == ORDINARY;
    } else {
      OrdinaryEnds(text[1..]);
      OrdinaryBehind(text[0], text[1..] + ORDINARY);
      assert text + ORDINARY == [text[0]] + (text[1..] + ORDINARY);
    }
  }

  /** Blanks skipped off a text that ends on the ordinary marker leave a text that ends on it. */
  lemma {:induction false} SkipOrdinary(text: string) returns (rest: string)
    ensures Skip(text + ORDINARY) == rest + ORDINARY
  {
    var t := text + ORDINARY;
    if text == "" || !IsSpace(text[0]) {
      assert t[0] == if text == "" then '<' else text[0];
      return text;
    }
    assert t[1..] == text[1..] + ORDINARY;
    rest := SkipOrdinary(text[1..]);
  }

  lemma OpeningShort(text: string)
    requires |text| < |OPENING|
    ensures !(OPENING <= text + ORDINARY)
  {
    var t := text + ORDINARY;
    assert t[|text|] == ORDINARY[0];
    if text == "" {
      assert t[18] != OPENING[18];
    } else {
      assert t[|text|] != OPENING[|text|];
    }
  }

  lemma OpeningAhead(text: string)
    requires OPENING <= text + ORDINARY
    ensures |text| >= |OPENING| && (text + ORDINARY)[|OPENING|..] == text[|OPENING|..] + ORDINARY
  {
    if |text| < |OPENING| {
      OpeningShort(text);
    }
  }

  /** A comment posted with the ordinary marker at its end is no record, whatever its text opens on. */
  lemma OrdinaryNeverRecognized(text: string)
    ensures Recognized(text + "<!--orchestrator-comment-->").None?
  {
    hide EndsOrdinary, Skip, PayloadEnd;
    var rest := SkipOrdinary(text);
    if OPENING <= rest + ORDINARY {
      OpeningAhead(rest);
      var behind := rest[|OPENING|..];
      var inner := SkipOrdinary(behind);
      OrdinaryEnds(inner);
    }
  }

  lemma OpenEndStep(t: string)
    ensures OpenEnd(t) == t
         || (|t| >= 1 && OpenEnd(t) == OpenEnd(t[1..]))
         || (|t| >= 2 && OpenEnd(t) == OpenEnd(t[2..]))
  {
    hide Closes;
  }

  lemma {:induction false} OpenEndBehind(t: string)
    ensures t[|t| - |OpenEnd(t)|..] == OpenEnd(t)
    decreases |t|
  {
    hide OpenEnd;
    OpenEndStep(t);
    var r := OpenEnd(t);
    if r != t {
      var step := if |t| >= 1 && r == OpenEnd(t[1..]) then 1 else 2;
      OpenEndBehind(t[step..]);
      assert t[step..][|t| - step - |r|..] == t[|t| - |r|..];
    }
  }

  lemma {:induction false} StringEndSuffix(t: string)
    requires StringEnd(t).Some?
    ensures t[|t| - |StringEnd(t).value|..] == StringEnd(t).value
  {
    if t[0] == '\\' {
      StringEndSuffix(t[2..]);
    } else if t[0] != '"' {
      StringEndSuffix(t[1..]);
    }
  }

  lemma {:induction false} TextEndSuffix(t: string)
    ensures t[|t| - |TextEnd(t)|..] == TextEnd(t)
    decreases |t|
  {
    hide StringEnd, Closes;
    if t != "" && t[0] == '"' {
      if StringEnd(t[1..]).Some? {
        StringEndSuffix(t[1..]);
        TextEndSuffix(StringEnd(t[1..]).value);
      }
    } else if t != "" && !(ORDINARY <= t || Closes(t)) {
      TextEndSuffix(t[1..]);
    }
  }

  lemma PayloadEndBehind(t: string)
    ensures t[|t| - |PayloadEnd(t)|..] == PayloadEnd(t)
  {
    TextEndSuffix(t);
    hide Closes, OpenEnd, TextEnd;
    var r := TextEnd(t);
    if r != "" && r[0] == '"' {
      OpenEndBehind(r[1..]);
      var open := OpenEnd(r[1..]);
      assert r[1..] == t[|t| - |r[1..]|..];
      assert open == t[|t| - |open|..];
    }
  }

  lemma PayloadIsWhole(marked: string) returns (between: string, behind: string)
    requires Payload(marked).Some?
    ensures Blank(between) && between != "" && Blank(behind)
    ensures marked == between + (Payload(marked).value + (CLOSE + behind))
  {
    hide EndsOrdinary, PayloadEnd, Skip;
    var t := Skip(marked);
    var rest := PayloadEnd(t);
    PayloadEndBehind(t);
    SkipIs(marked);
    between := marked[..|marked| - |t|];
    behind := rest[3..];
    assert rest == CLOSE + behind;
    assert marked == between + t && t == t[..|t| - |rest|] + rest;
  }

  /** What a recognized body is: the marker, blanks, its payload, the terminator, and blanks around the whole. */
  lemma RecognizedIsWhole(body: string) returns (ahead: string, between: string, behind: string)
    requires Recognized(body).Some?
    ensures Blank(ahead) && Blank(between) && between != "" && Blank(behind)
    ensures body == ahead + (OPENING + (between + (Recognized(body).value + (CLOSE + behind))))
  {
    hide Payload, Skip;
    var start := Skip(body);
    SkipIs(body);
    ahead := body[..|body| - |start|];
    between, behind := PayloadIsWhole(start[|OPENING|..]);
    assert start == OPENING + start[|OPENING|..];
    assert body == ahead + start;
  }

  // ----- A record cut short

  lemma OnlyClose(q: string)
    ensures Closed(q + CLOSE) && (Closes(q + CLOSE) <==> q == "")
  {
    hide Closes;
    var t := q + CLOSE;
    assert t[|t| - 3..] == CLOSE;
    ClosesOnce(t);
    assert q == "" ==> t == CLOSE;
  }

  /** A string nothing closes runs to the terminator, short of it by a backslash at most. */
  lemma {:induction false} OpenRuns(q: string)
    requires StringEnd(q + CLOSE).None?
    ensures OpenEnd(q + CLOSE) == CLOSE || OpenEnd(q + CLOSE) == "\\" + CLOSE
    decreases |q|
  {
    hide Closes;
    var t := q + CLOSE;
    OnlyClose(q);
    if q == "" {
      assert t == CLOSE;
    } else {
      assert t[1..] == q[1..] + CLOSE;
      OnlyClose(q[1..]);
      if q[0] != '\\' {
        OpenRuns(q[1..]);
      } else if |q| == 1 {
        assert t == "\\" + CLOSE;
      } else {
        assert t[2..] == q[2..] + CLOSE;
        OpenRuns(q[2..]);
      }
    }
  }

  lemma OpenCut(q: string)
    requires StringEnd(q + CLOSE).None?
    ensures OpenedEnd(q + CLOSE) == CLOSE
  {
    hide OpenEnd, StringEnd;
    OpenRuns(q);
    OnlyClose("");
    assert "" + CLOSE == CLOSE && ("\\" + CLOSE)[1..] == CLOSE;
  }

  lemma TerminatorOpen()
    ensures StringEnd(CLOSE).None? && StringEnd("\\" + CLOSE).None?
  {
    assert CLOSE[1..] == "->" && "->"[1..] == ">" && ">"[1..] == "" && StringEnd(">").None?;
    assert ("\\" + CLOSE)[2..] == "->";
  }

  /** A string closed within a text is closed there whatever stands behind the text. */
  lemma {:induction false} ClosedWithin(cut: string, rest: string) returns (k: nat)
    requires StringEnd(cut + CLOSE).Some?
    ensures k <= |cut| && StringEnd(cut + CLOSE) == Some(cut[k..] + CLOSE)
    ensures StringEnd(cut + (rest + CLOSE)) == Some(cut[k..] + (rest + CLOSE))
    decreases |cut|
  {
    var t, whole := cut + CLOSE, cut + (rest + CLOSE);
    TerminatorOpen();
    assert cut != "" by { assert cut == "" ==> t == CLOSE; }
    assert cut != "\\";
    assert t[1..] == cut[1..] + CLOSE && whole[1..] == cut[1..] + (rest + CLOSE);
    if cut[0] == '"' {
      return 1;
    }
    var step := if cut[0] == '\\' then 2 else 1;
    assert t[step..] == cut[step..] + CLOSE && whole[step..] == cut[step..] + (rest + CLOSE);
    var behind := ClosedWithin(cut[step..], rest);
    k := behind + step;
    assert cut[step..][behind..] == cut[k..];
  }

  lemma {:induction false} OrdinaryWithin(t: string, k: nat)
    requires k <= |t|
    ensures EndsOrdinary(t[k..]) ==> EndsOrdinary(t)
  {
    if k > 0 {
      assert t[1..][k - 1..] == t[k..];
      OrdinaryWithin(t[1..], k - 1);
    } else {
      assert t[0..] == t;
    }
  }

  /** The ordinary marker stands at the front of a cut text only where it does of the whole one, or as all of it. */
  lemma OrdinaryCut(cut: string, rest: string)
    requires ORDINARY <= cut + CLOSE
    ensures ORDINARY <= cut + (rest + CLOSE) || cut + CLOSE == ORDINARY
  {
    var t := cut + CLOSE;
    assert t[|ORDINARY| - 1] == '>';
    if |cut| >= |ORDINARY| {
      assert cut[..|ORDINARY|] == (cut + CLOSE)[..|ORDINARY|];
      assert (cut + (rest + CLOSE))[..|ORDINARY|] == cut[..|ORDINARY|];
    }
  }

  lemma PlainPassed(cut: string, rest: string)
    requires cut != "" && cut[0] != '"'
    requires TextEnd(cut + (rest + CLOSE)) == CLOSE && !EndsOrdinary(cut + CLOSE)
    ensures TextEnd(cut[1..] + (rest + CLOSE)) == CLOSE && !EndsOrdinary(cut[1..] + CLOSE)
    ensures PayloadEnd(cut + CLOSE) == PayloadEnd(cut[1..] + CLOSE)
  {
    hide StringEnd, EndsOrdinary, Closes, OpenedEnd;
    var t, whole := cut + CLOSE, cut + (rest + CLOSE);
    assert t[1..] == cut[1..] + CLOSE && whole[1..] == cut[1..] + (rest + CLOSE);
    OnlyClose(cut);
    OnlyClose(cut + rest);
    assert whole == (cut + rest) + CLOSE;
    if ORDINARY <= t {
      OrdinaryCut(cut, rest);
      OrdinaryItself();
    }
    OrdinaryWithin(t, 1);
  }

  /** A text the scanner passes over, cut anywhere, it takes up to the terminator put behind. */
  lemma {:induction false} CutPassed(cut: string, rest: string)
    requires TextEnd(cut + (rest + CLOSE)) == CLOSE && !EndsOrdinary(cut + CLOSE)
    ensures PayloadEnd(cut + CLOSE) == CLOSE
    decreases |cut|
  {
    hide StringEnd, EndsOrdinary, Closes, OpenedEnd;
    var t, whole := cut + CLOSE, cut + (rest + CLOSE);
    if cut == "" {
      assert t == CLOSE;
      OnlyClose(cut);
    } else if cut[0] != '"' {
      PlainPassed(cut, rest);
      CutPassed(cut[1..], rest);
    } else {
      assert t[1..] == cut[1..] + CLOSE && whole[1..] == cut[1..] + (rest + CLOSE);
      if StringEnd(t[1..]).None? {
        OpenCut(cut[1..]);
      } else {
        var k := ClosedWithin(cut[1..], rest);
        assert cut[1..][k..] == cut[k + 1..] && t[k + 1..] == cut[k + 1..] + CLOSE;
        OrdinaryWithin(t, k + 1);
        CutPassed(cut[k + 1..], rest);
      }
    }
  }

  lemma SpellingOpens(v: JsonValue, style: Style)
    ensures var t := Spelling(v, style); t == "" || !IsSpace(t[0])
  {
  }

  /**
   A record's body cut short anywhere in its payload and closed is recognized, whatever the strings of it quote,
   unless what the cut leaves ends on the ordinary marker.
   */
  lemma CutRecognized(v: JsonValue, style: Style, cut: string)
    requires Separated(style) && cut <= Spelling(v, style)
    ensures Recognized(OPENING + (" " + (cut + CLOSE))) == if EndsOrdinary(cut + CLOSE) then None else Some(cut)
  {
    hide EndsOrdinary, TextEnd, PayloadEnd, Closes, Spelling;
    var whole := Spelling(v, style);
    var rest := whole[|cut|..];
    assert whole == cut + rest && whole + CLOSE == cut + (rest + CLOSE);
    OnlyClose("");
    assert "" + CLOSE == CLOSE;
    ValueSkipped(v, style, CLOSE);
    assert TextEnd(CLOSE) == CLOSE by { ClosedEnds(); }
    if !EndsOrdinary(cut + CLOSE) {
      CutPassed(cut, rest);
    }
    SpellingOpens(v, style);
    CutOpens(cut);
  }

  lemma ClosedEnds()
    ensures TextEnd(CLOSE) == CLOSE
  {
    assert CLOSE[3..] == "";
  }

  lemma SkipOne(t: string)
    requires t != "" && !IsSpace(t[0])
    ensures Skip(t) == t && Skip(" " + t) == t
  {
    assert (" " + t)[1..] == t;
  }

  lemma Behind(head: string, tail: string)
    ensures head <= head + tail && (head + tail)[|head|..] == tail
    ensures head != "" ==> (head + tail)[0] == head[0]
  {
  }

  lemma CutOpens(cut: string)
    requires cut == "" || !IsSpace(cut[0])
    ensures var body := OPENING + (" " + (cut + CLOSE));
            Skip(body) == body && OPENING <= body
            && body[|OPENING|..] == " " + (cut + CLOSE) && Skip(" " + (cut + CLOSE)) == cut + CLOSE
  {
    hide Skip;
    assert !IsSpace('<') && !IsSpace('-');
    hide IsSpace;
    var tail := cut + CLOSE;
    assert tail[0] == if cut == "" then '-' else cut[0];
    SkipOne(tail);
    Behind(OPENING, " " + tail);
    SkipOne(OPENING + (" " + tail));
  }
}
