/** JSON values as texts: `json.dumps` of one, `json.loads` of a text, and what reading a spelling gives back. */
module JsonText {
  import opened Text
  import opened Decimal
  import opened Json
  import opened JsonNumbers

  // ----- Writing

  function Spelling(v: JsonValue, style: Style): (t: string)
    ensures |t| >= 1
  {
    match v
    case Null => "null"
    case Bool(b) => if b then "true" else "false"
    case Int(n) => SpellInt(n)
    case Float(f) => FloatText(f)
    case Str(s) => SpellStr(s, style.hiding)
    case Arr(items) => ['['] + SpellItems(items, style) + [']']
    case Obj(members) => ['{'] + SpellMembers(members, style) + ['}']
  }

  function SpellItems(items: seq<JsonValue>, style: Style): string {
    if items == [] then ""
    else Spelling(items[0], style) + (if |items| == 1 then "" else style.comma + SpellItems(items[1..], style))
  }

  function SpellMember(m: Member, style: Style): string {
    SpellStr(m.key, style.hiding) + style.colon + Spelling(m.value, style)
  }

  function SpellMembers(members: seq<Member>, style: Style): string {
    if members == [] then ""
    else SpellMember(members[0], style)
         + (if |members| == 1 then "" else style.comma + SpellMembers(members[1..], style))
  }

  // ----- Reading

  predicate IsWs(c: char) { c == ' ' || c == '\t' || c == '\n' || c == '\r' }

  function SkipWs(t: string): (r: string)
    ensures |r| <= |t|
  {
    if t != "" && IsWs(t[0]) then SkipWs(t[1..]) else t
  }

  /** A number, and what follows it: an integer too long for Python to convert is none. */
  function ReadNumber(t: string): (r: Option<(JsonValue, string)>)
    ensures r.Some? ==> |r.value.1| < |t|
  {
    match NumberAt(t)
    case None => None
    case Some((p, rest)) =>
      if IsFloat(p) then Some((Float(FloatOf(p)), rest))
      else if |Unsigned(p.whole)| > MAX_DIGITS then None
      else Some((Int(IntOf(p.whole)), rest))
  }

  /** The constants JSON has no spelling for and Python's decoder takes. */
  function ReadConstant(t: string): (r: Option<(JsonValue, string)>)
    ensures r.Some? ==> |r.value.1| < |t|
  {
    if "NaN" <= t then Some((Float(NaN), t[3..]))
    else if "Infinity" <= t then Some((Float(Infinity(false)), t[8..]))
    else if "-Infinity" <= t then Some((Float(Infinity(true)), t[9..]))
    else None
  }

  function ReadValue(t: string): (r: Option<(JsonValue, string)>)
    ensures r.Some? ==> |r.value.1| < |t|
    decreases |t|, 0
  {
    if t == "" then None
    else if t[0] == '"' then
      var s := ReadStr(t[1..]);
      if s.None? then None else Some((Str(s.value.0), s.value.1))
    else if t[0] == '[' then
      var behind := SkipWs(t[1..]);
      if behind != "" && behind[0] == ']' then Some((Arr([]), behind[1..]))
      else
        var items := ReadItems(behind);
        if items.None? then None else Some((Arr(items.value.0), items.value.1))
    else if t[0] == '{' then
      var behind := SkipWs(t[1..]);
      if behind != "" && behind[0] == '}' then Some((Obj([]), behind[1..]))
      else
        var members := ReadMembers(behind);
        if members.None? then None else Some((Obj(members.value.0), members.value.1))
    else if "null" <= t then Some((Null, t[4..]))
    else if "true" <= t then Some((Bool(true), t[4..]))
    else if "false" <= t then Some((Bool(false), t[5..]))
    else
      var number := ReadNumber(t);
      if number.Some? then number else ReadConstant(t)
  }

  function ReadItems(t: string): (r: Option<(seq<JsonValue>, string)>)
    ensures r.Some? ==> |r.value.1| < |t|
    decreases |t|, 1
  {
    var v := ReadValue(t);
    if v.None? then None
    else
      var rest := SkipWs(v.value.1);
      if rest == "" then None
      else if rest[0] == ']' then Some(([v.value.0], rest[1..]))
      else if rest[0] == ',' then
        var more := ReadItems(SkipWs(rest[1..]));
        if more.None? then None else Some(([v.value.0] + more.value.0, more.value.1))
      else None
  }

  function ReadMember(t: string): (r: Option<(Member, string)>)
    ensures r.Some? ==> |r.value.1| < |t|
    decreases |t|, 1
  {
    if t == "" || t[0] != '"' then None
    else
      var key := ReadStr(t[1..]);
      if key.None? then None
      else
        var colon := SkipWs(key.value.1);
        if colon == "" || colon[0] != ':' then None
        else
          var v := ReadValue(SkipWs(colon[1..]));
          if v.None? then None else Some((Member(key.value.0, v.value.0), v.value.1))
  }

  function ReadMembers(t: string): (r: Option<(seq<Member>, string)>)
    ensures r.Some? ==> |r.value.1| < |t|
    decreases |t|, 2
  {
    var m := ReadMember(t);
    if m.None? then None
    else
      var rest := SkipWs(m.value.1);
      if rest == "" then None
      else if rest[0] == '}' then Some(([m.value.0], rest[1..]))
      else if rest[0] == ',' then
        var more := ReadMembers(SkipWs(rest[1..]));
        if more.None? then None else Some(([m.value.0] + more.value.0, more.value.1))
      else None
  }

  /** `json.loads`: one value and nothing but blanks around it. */
  function Loads(t: string): Option<JsonValue> {
    var v := ReadValue(SkipWs(t));
    if v.Some? && SkipWs(v.value.1) == "" then Some(v.value.0) else None
  }

  // ----- What reading a spelling gives back

  function MergedValue(v: JsonValue): JsonValue {
    match v
    case Str(s) => Str(Merged(s, 0))
    case Arr(items) => Arr(MergedItems(items))
    case Obj(members) => Obj(MergedMembers(members))
    case _ => v
  }

  function MergedItems(items: seq<JsonValue>): seq<JsonValue> {
    if items == [] then [] else [MergedValue(items[0])] + MergedItems(items[1..])
  }

  function MergedMembers(members: seq<Member>): seq<Member> {
    if members == [] then []
    else [MergedMember(members[0])] + MergedMembers(members[1..])
  }

  function MergedMember(m: Member): Member {
    Member(Merged(m.key, 0), MergedValue(m.value))
  }

  /** Every integer in `v` is one Python converts. */
  predicate Convertible(v: JsonValue) {
    match v
    case Int(n) => Fits(n)
    case Arr(items) => forall i | 0 <= i < |items| :: Convertible(items[i])
    case Obj(members) => forall i | 0 <= i < |members| :: Convertible(members[i].value)
    case _ => true
  }

  /** The separators `dumps` is given here: blanks may follow a comma or a colon, and nothing else stands in them. */
  predicate Separated(style: Style) {
    (style.comma == "," || style.comma == ", ") && (style.colon == ":" || style.colon == ": ")
  }

  lemma StrRead(s: PyStr, hiding: Hiding, rest: string)
    ensures var t := SpellStr(s, hiding) + rest;
            t[0] == '"' && ReadStr(t[1..]) == Some((Merged(s, 0), rest))
  {
    SpellCodesRead(s, 0, hiding, rest);
    var inner := SpellCodes(s, 0, hiding);
    assert ['"'] + inner + ['"'] + rest == ['"'] + (inner + (['"'] + rest));
    assert (['"'] + (inner + (['"'] + rest)))[1..] == inner + (['"'] + rest);
  }

  /** What a spelled value begins with: never a blank, a closing bracket or brace, or a digit of anything else. */
  lemma Begins(v: JsonValue, style: Style)
    ensures var c := Spelling(v, style)[0]; !IsWs(c) && c != ']' && c != '}'
  {
    match v
    case Int(n) => IntSpelled(n);
    case Float(f) => FloatSpelled(f);
    case _ =>
  }

  lemma SkipSeparator(mark: char, separator: string, t: string)
    requires !IsWs(mark) && (separator == [mark] || separator == [mark, ' '])
    requires t != "" && !IsWs(t[0])
    ensures (separator + t)[0] == mark && SkipWs((separator + t)[1..]) == t
  {
    if separator == [mark] {
      assert (separator + t)[1..] == t;
    } else {
      assert (separator + t)[1..] == [' '] + t;
      assert ([' '] + t)[1..] == t;
    }
  }

  lemma LiteralRead(v: JsonValue, style: Style, rest: string)
    requires v.Null? || v.Bool?
    ensures ReadValue(Spelling(v, style) + rest) == Some((v, rest))
  {
    var t := Spelling(v, style) + rest;
    assert Spelling(v, style) <= t && t[|Spelling(v, style)|..] == rest;
    assert t[0] == Spelling(v, style)[0];
  }

  /** Where `t` begins with a digit or a minus sign, the value read is a number, or a negative infinity. */
  lemma NumberTold(t: string)
    requires t != "" && (IsDigit(t[0]) || t[0] == '-')
    ensures ReadValue(t) == if ReadNumber(t).Some? then ReadNumber(t) else ReadConstant(t)
  {
    hide ReadNumber, ReadConstant;
    assert "null"[0] == 'n' && "true"[0] == 't' && "false"[0] == 'f';
  }

  lemma IntRead(n: int, rest: string)
    requires EndsNumber(rest) && Fits(n)
    ensures ReadValue(SpellInt(n) + rest) == Some((Int(n), rest))
  {
    hide NumberAt, IsLiteral;
    IntSpelled(n);
    var p := Parts(SpellInt(n), "", "");
    assert p.Text() == SpellInt(n);
    NumberJoined(SpellInt(n), rest);
    NumberTold(SpellInt(n) + rest);
    NumberRead(p, rest);
  }

  lemma NumberJoined(spelled: string, rest: string)
    requires spelled != ""
    ensures (spelled + rest)[0] == spelled[0]
  {
  }

  lemma FiniteRead(p: FloatParts, rest: string)
    requires EndsNumber(rest)
    ensures ReadValue(p.Text() + rest) == Some((Float(Finite(p)), rest))
  {
    hide NumberAt, IsLiteral, Overflows;
    FloatSpelled(Finite(p));
    NumberJoined(p.Text(), rest);
    NumberTold(p.Text() + rest);
    NumberRead(p, rest);
  }

  /**
   A literal is read as an integer where it has neither fraction nor exponent, of no more digits than Python converts,
   and else as a float: the literal, or an infinity where it is worth more than any float.
   */
  lemma ReadAsWorth(p: Parts, rest: string)
    requires IsLiteral(p) && EndsNumber(rest)
    ensures p.fraction == "" && p.exponent == "" && |Unsigned(p.whole)| > 4300 ==> ReadNumber(p.Text() + rest).None?
    ensures p.fraction == "" && p.exponent == "" && |Unsigned(p.whole)| <= 4300 ==>
              var n := Value(Unsigned(p.whole));
              ReadNumber(p.Text() + rest) == Some((Int(if p.whole[0] == '-' then 0 - n else n), rest))
    ensures p.fraction != "" || p.exponent != "" ==>
              var past := Magnitude(p) >= (Power(2, 1024) - Power(2, 970)) as real;
              var read := ReadNumber(p.Text() + rest);
              && read.Some? && read.value.1 == rest && read.value.0.Float?
              && var float := read.value.0.value;
                 if past then float == Infinity(p.whole[0] == '-') else float.Finite? && float.parts == p
  {
    hide NumberAt, Overflows, Magnitude, Power, IsLiteral;
    NumberRead(p, rest);
    OverflowsExactly(p);
  }

  /** What begins as no other value does, and is no number, is read as a constant. */
  lemma ConstantTold(t: string)
    requires |t| >= 2 && t[0] in "NI-" && !IsDigit(t[1])
    ensures ReadValue(t) == ReadConstant(t)
  {
    hide ReadConstant, ReadNumber;
    assert "null"[0] == 'n' && "true"[0] == 't' && "false"[0] == 'f';
    NoNumber(t);
  }

  lemma NaNRead(rest: string)
    ensures ReadValue("NaN" + rest) == Some((Float(NaN), rest))
  {
    hide ReadValue;
    var t := "NaN" + rest;
    ConstantTold(t);
    assert "NaN" <= t && t[3..] == rest;
  }

  lemma InfinityRead(rest: string)
    ensures ReadValue("Infinity" + rest) == Some((Float(Infinity(false)), rest))
  {
    hide ReadValue;
    var t := "Infinity" + rest;
    ConstantTold(t);
    assert "Infinity" <= t && t[8..] == rest && t[0] == 'I';
  }

  lemma NegativeInfinityRead(rest: string)
    ensures ReadValue("-Infinity" + rest) == Some((Float(Infinity(true)), rest))
  {
    hide ReadValue;
    var t := "-Infinity" + rest;
    ConstantTold(t);
    assert "-Infinity" <= t && t[9..] == rest && t[0] == '-';
  }

  /** Neither infinity is a number, and neither is taken for another literal. */
  lemma ConstantRead(f: Float, rest: string)
    requires !f.Finite?
    ensures ReadValue(FloatText(f) + rest) == Some((Float(f), rest))
  {
    hide ReadValue;
    if f.NaN? {
      NaNRead(rest);
    } else if f.negative {
      NegativeInfinityRead(rest);
    } else {
      InfinityRead(rest);
    }
  }

  lemma NoNumber(t: string)
    requires |t| >= 2 && !IsDigit(t[0]) && (t[0] == '-' ==> !IsDigit(t[1]))
    ensures ReadNumber(t).None?
  {
  }

  lemma FloatRead(f: Float, rest: string)
    requires EndsNumber(rest)
    ensures ReadValue(FloatText(f) + rest) == Some((Float(f), rest))
  {
    hide ReadValue;
    match f
    case Finite(p) => FiniteRead(p, rest);
    case _ => ConstantRead(f, rest);
  }

  lemma StringRead(s: PyStr, style: Style, rest: string)
    ensures ReadValue(SpellStr(s, style.hiding) + rest) == Some((Str(Merged(s, 0)), rest))
  {
    StrRead(s, style.hiding, rest);
  }

  lemma ArrayTold(behind: string)
    requires behind != "" && !IsWs(behind[0])
    ensures ReadValue(['['] + behind) ==
              if behind[0] == ']' then Some((Arr([]), behind[1..]))
              else if ReadItems(behind).None? then None
              else Some((Arr(ReadItems(behind).value.0), ReadItems(behind).value.1))
  {
    hide ReadItems;
    assert (['['] + behind)[1..] == behind;
  }

  lemma ObjectTold(behind: string)
    requires behind != "" && !IsWs(behind[0])
    ensures ReadValue(['{'] + behind) ==
              if behind[0] == '}' then Some((Obj([]), behind[1..]))
              else if ReadMembers(behind).None? then None
              else Some((Obj(ReadMembers(behind).value.0), ReadMembers(behind).value.1))
  {
    hide ReadMembers;
    assert (['{'] + behind)[1..] == behind;
  }

  lemma ArrayRead(items: seq<JsonValue>, style: Style, rest: string)
    requires Separated(style)
    requires items != [] ==>
               ReadItems(SpellItems(items, style) + ([']'] + rest)) == Some((MergedItems(items), rest))
    ensures ReadValue(Spelling(Arr(items), style) + rest) == Some((Arr(MergedItems(items)), rest))
  {
    hide ReadItems, ReadValue;
    var behind := SpellItems(items, style) + ([']'] + rest);
    assert Spelling(Arr(items), style) + rest == ['['] + behind;
    if items == [] {
      assert behind == [']'] + rest;
    } else {
      Begins(items[0], style);
      assert behind[0] == Spelling(items[0], style)[0];
    }
    ArrayTold(behind);
  }

  lemma MembersBegin(members: seq<Member>, style: Style, behind: string)
    requires members != []
    ensures ['"'] <= SpellMembers(members, style) + behind
  {
    assert ['"'] <= SpellMember(members[0], style);
  }

  lemma ObjectRead(members: seq<Member>, style: Style, rest: string)
    requires Separated(style)
    requires members != [] ==>
               ReadMembers(SpellMembers(members, style) + (['}'] + rest)) == Some((MergedMembers(members), rest))
    ensures ReadValue(Spelling(Obj(members), style) + rest) == Some((Obj(MergedMembers(members)), rest))
  {
    hide ReadMembers, SpellMember, ReadValue;
    var behind := SpellMembers(members, style) + (['}'] + rest);
    assert Spelling(Obj(members), style) + rest == ['{'] + behind;
    if members == [] {
      assert behind == ['}'] + rest;
    } else {
      MembersBegin(members, style, ['}'] + rest);
    }
    ObjectTold(behind);
  }

  lemma {:induction false} ValueRead(v: JsonValue, style: Style, rest: string)
    requires Separated(style) && Convertible(v) && EndsNumber(rest)
    ensures ReadValue(Spelling(v, style) + rest) == Some((MergedValue(v), rest))
    decreases v, 1
  {
    match v
    case Null => LiteralRead(v, style, rest);
    case Bool(_) => LiteralRead(v, style, rest);
    case Int(n) => IntRead(n, rest);
    case Float(f) => FloatRead(f, rest);
    case Str(s) => StringRead(s, style, rest);
    case Arr(items) =>
      if items != [] {
        ItemsRead(items, style, rest);
      }
      ArrayRead(items, style, rest);
    case Obj(members) =>
      if members != [] {
        MembersRead(members, style, rest);
      }
      ObjectRead(members, style, rest);
  }

  lemma {:induction false} ItemsRead(items: seq<JsonValue>, style: Style, rest: string)
    requires Separated(style) && items != [] && forall i | 0 <= i < |items| :: Convertible(items[i])
    ensures ReadItems(SpellItems(items, style) + ([']'] + rest)) == Some((MergedItems(items), rest))
    decreases items, 0
  {
    hide ReadValue, Spelling, MergedValue;
    var close := [']'] + rest;
    var t := SpellItems(items, style) + close;
    if |items| == 1 {
      assert items[1..] == [];
      assert t == Spelling(items[0], style) + close;
      ValueRead(items[0], style, close);
      assert close[1..] == rest && SkipWs(close) == close;
      assert close[0] == ']';
      assert MergedItems(items) == [MergedValue(items[0])];
      assert ReadItems(t) == Some(([MergedValue(items[0])], rest));
    } else {
      var more := SpellItems(items[1..], style) + close;
      assert t == Spelling(items[0], style) + (style.comma + more);
      ValueRead(items[0], style, style.comma + more);
      Begins(items[1], style);
      assert more[0] == Spelling(items[1], style)[0];
      SkipSeparator(',', style.comma, more);
      ItemsRead(items[1..], style, rest);
    }
  }

  lemma {:induction false} MembersRead(members: seq<Member>, style: Style, rest: string)
    requires Separated(style) && members != [] && forall i | 0 <= i < |members| :: Convertible(members[i].value)
    ensures ReadMembers(SpellMembers(members, style) + (['}'] + rest)) == Some((MergedMembers(members), rest))
    decreases members, 0
  {
    hide ReadMember, ReadValue, SpellMember, MergedMember;
    var close := ['}'] + rest;
    if |members| == 1 {
      assert members[1..] == [];
      assert SpellMembers(members, style) + close == SpellMember(members[0], style) + close;
      MemberRead(members[0], style, close);
      assert close[1..] == rest && SkipWs(close) == close;
      assert close[0] == '}';
      assert MergedMembers(members) == [MergedMember(members[0])];
      assert ReadMembers(SpellMembers(members, style) + close) == Some(([MergedMember(members[0])], rest));
    } else {
      var more := SpellMembers(members[1..], style) + close;
      assert SpellMembers(members, style) + close == SpellMember(members[0], style) + (style.comma + more);
      MemberRead(members[0], style, style.comma + more);
      MembersBegin(members[1..], style, close);
      SkipSeparator(',', style.comma, more);
      MembersRead(members[1..], style, rest);
    }
  }

  lemma KeyRead(m: Member, style: Style, behind: string)
    requires Separated(style)
    ensures ReadMember(SpellMember(m, style) + behind)
         == (var v := ReadValue(Spelling(m.value, style) + behind);
             if v.None? then None else Some((Member(Merged(m.key, 0), v.value.0), v.value.1)))
  {
    hide ReadValue, Spelling;
    var value := Spelling(m.value, style) + behind;
    var t := SpellStr(m.key, style.hiding) + (style.colon + value);
    assert SpellMember(m, style) + behind == t;
    StrRead(m.key, style.hiding, style.colon + value);
    var colon := style.colon + value;
    assert colon[0] == ':';
    Begins(m.value, style);
    assert value[0] == Spelling(m.value, style)[0];
    SkipSeparator(':', style.colon, value);
  }

  lemma {:induction false} MemberRead(m: Member, style: Style, behind: string)
    requires Separated(style) && Convertible(m.value) && EndsNumber(behind)
    ensures ReadMember(SpellMember(m, style) + behind) == Some((MergedMember(m), behind))
    decreases m, 0
  {
    KeyRead(m, style, behind);
    ValueRead(m.value, style, behind);
  }

  /** Reading the text `dumps` writes gives the value back, surrogates side by side merged, whatever the style hides. */
  lemma LoadsSpelling(v: JsonValue, style: Style)
    requires Separated(style) && Convertible(v)
    ensures Loads(Spelling(v, style)) == Some(MergedValue(v))
  {
    Begins(v, style);
    assert Spelling(v, style) + "" == Spelling(v, style);
    ValueRead(v, style, "");
  }

  /** No string in `v` has surrogates side by side: what any value read from JSON is. */
  predicate UnsplitValue(v: JsonValue) {
    match v
    case Str(s) => Unsplit(s)
    case Arr(items) => forall i | 0 <= i < |items| :: UnsplitValue(items[i])
    case Obj(members) => forall i | 0 <= i < |members| :: Unsplit(members[i].key) && UnsplitValue(members[i].value)
    case _ => true
  }

  lemma {:induction false} MergedIsSame(v: JsonValue)
    ensures UnsplitValue(v) <==> MergedValue(v) == v
    decreases v, 1
  {
    match v
    case Str(s) =>
      MergedUnsplit(s, 0);
      assert s[0..] == s;
    case Arr(items) => MergedItemsSame(items);
    case Obj(members) => MergedMembersSame(members);
    case _ =>
  }

  lemma {:induction false} MergedItemsSame(items: seq<JsonValue>)
    ensures (forall i | 0 <= i < |items| :: UnsplitValue(items[i])) <==> MergedItems(items) == items
    decreases items, 0
  {
    if items != [] {
      MergedIsSame(items[0]);
      MergedItemsSame(items[1..]);
      assert items == [items[0]] + items[1..];
      assert MergedItems(items)[1..] == MergedItems(items[1..]);
      assert forall i | 1 <= i < |items| :: items[i] == items[1..][i - 1];
    }
  }

  lemma {:induction false} MergedMembersSame(members: seq<Member>)
    ensures (forall i | 0 <= i < |members| :: Unsplit(members[i].key) && UnsplitValue(members[i].value))
            <==> MergedMembers(members) == members
    decreases members, 0
  {
    if members != [] {
      var first := members[0];
      MergedUnsplit(first.key, 0);
      assert first.key[0..] == first.key;
      MergedIsSame(first.value);
      MergedMembersSame(members[1..]);
      assert members == [first] + members[1..];
      assert MergedMembers(members)[1..] == MergedMembers(members[1..]);
      assert forall i | 1 <= i < |members| :: members[i] == members[1..][i - 1];
    }
  }

  // ----- What spells alike

  lemma {:induction false} CodesMerged(s: PyStr, i: nat)
    requires i <= |s|
    ensures SpellCodes(Merged(s, i), 0, Nothing) == SpellCodes(s, i, Nothing)
    decreases |s| - i
  {
    hide SpellCode;
    if i < |s| {
      var step := if SplitPair(s, i) then 2 else 1;
      CodesMerged(s, i + step);
      var m := Merged(s, i);
      FirstSpelled(m[0], Merged(s, i + step));
      assert m == [m[0]] + Merged(s, i + step);
      if step == 2 {
        PairIsOne(s[i], s[i + 1]);
      }
    }
  }

  lemma FirstSpelled(c: Code, rest: PyStr)
    ensures SpellCodes([c] + rest, 0, Nothing) == SpellCode(c, false) + SpellCodes(rest, 0, Nothing)
  {
    LaterSpelled(c, rest, 0);
  }

  lemma {:induction false} LaterSpelled(c: Code, rest: PyStr, i: nat)
    requires i <= |rest|
    ensures SpellCodes([c] + rest, i + 1, Nothing) == SpellCodes(rest, i, Nothing)
    decreases |rest| - i
  {
    hide SpellCode;
    if i < |rest| {
      assert ([c] + rest)[i + 1] == rest[i];
      LaterSpelled(c, rest, i + 1);
    }
  }

  lemma PairParts(high: Code, low: Code)
    requires High(high) && Low(low)
    ensures HighOf(Combined(high, low)) == high && LowOf(Combined(high, low)) == low
  {
    var c := Combined(high, low);
    assert (c - 0x1_0000) / 1024 == high - 0xD800 && (c - 0x1_0000) % 1024 == low - 0xDC00;
  }

  /** Two surrogates side by side are spelled as the one character they make. */
  lemma PairIsOne(high: Code, low: Code)
    requires High(high) && Low(low)
    ensures SpellCode(Combined(high, low), false) == SpellCode(high, false) + SpellCode(low, false)
  {
    hide SpellCode, HighOf, LowOf, U, Combined;
    var c := Combined(high, low);
    PairParts(high, low);
    WideSpelled(c, false);
    SpelledSurrogate(high, false);
    SpelledSurrogate(low, false);
  }

  lemma {:induction false} ValueMerged(v: JsonValue, style: Style)
    requires style.hiding == Nothing
    ensures Spelling(MergedValue(v), style) == Spelling(v, style)
    decreases v, 1
  {
    match v
    case Str(s) => CodesMerged(s, 0);
    case Arr(items) => ItemsMerged(items, style);
    case Obj(members) => MembersMerged(members, style);
    case _ =>
  }

  lemma {:induction false} ItemsMerged(items: seq<JsonValue>, style: Style)
    requires style.hiding == Nothing
    ensures |MergedItems(items)| == |items| && SpellItems(MergedItems(items), style) == SpellItems(items, style)
    decreases items, 0
  {
    if items != [] {
      ValueMerged(items[0], style);
      ItemsMerged(items[1..], style);
      assert MergedItems(items)[1..] == MergedItems(items[1..]);
    }
  }

  lemma {:induction false} MembersMerged(members: seq<Member>, style: Style)
    requires style.hiding == Nothing
    ensures |MergedMembers(members)| == |members|
    ensures SpellMembers(MergedMembers(members), style) == SpellMembers(members, style)
    decreases members, 0
  {
    if members != [] {
      CodesMerged(members[0].key, 0);
      ValueMerged(members[0].value, style);
      MembersMerged(members[1..], style);
      assert MergedMembers(members)[1..] == MergedMembers(members[1..]);
    }
  }

  /** Two values are spelled alike exactly where they merge to one value. */
  lemma SpelledOnce(a: JsonValue, b: JsonValue, style: Style)
    requires Separated(style) && style.hiding == Nothing && Convertible(a) && Convertible(b)
    ensures Spelling(a, style) == Spelling(b, style) <==> MergedValue(a) == MergedValue(b)
  {
    hide Spelling, MergedValue, Loads;
    LoadsSpelling(a, style);
    LoadsSpelling(b, style);
    ValueMerged(a, style);
    ValueMerged(b, style);
  }

  /** A high and a low surrogate side by side, which come back as the one character they make. */
  lemma SplitPairReadsOtherwise(s: PyStr)
    requires |s| == 2 && s[0] == 0xD800 && s[1] == 0xDC00
    ensures Loads(Spelling(Str(s), SPACED)) == Some(Str([0x1_0000]))
    ensures Loads(Spelling(Str(s), SPACED)) != Some(Str(s))
  {
    hide Loads, Spelling;
    LoadsSpelling(Str(s), SPACED);
    assert SplitPair(s, 0) && Merged(s, 2) == [];
    assert Merged(s, 0) == [0x1_0000];
  }

  /** A value reads back exactly where, and only where, no string in it has surrogates side by side. */
  lemma RoundTrip(v: JsonValue, style: Style)
    requires Separated(style) && Convertible(v)
    ensures Loads(Spelling(v, style)) == Some(v) <==> UnsplitValue(v)
  {
    LoadsSpelling(v, style);
    MergedIsSame(v);
  }

  // ----- What reading can give

  /** Whether a text begins with the escape of a low surrogate. */
  predicate BeginsLow(t: string) {
    |t| >= 6 && t[0] == '\\' && t[1] == 'u' && ReadHex4(t[2..]).Some? && Low(ReadHex4(t[2..]).value)
  }

  /** A string read has no low surrogate right behind a high one: side by side they were read as one character. */
  lemma {:induction false} ReadStrUnsplit(t: string)
    requires ReadStr(t).Some?
    ensures Unsplit(ReadStr(t).value.0)
    ensures var s := ReadStr(t).value.0; s != [] && Low(s[0]) ==> BeginsLow(t)
    decreases |t|
  {
    if t[0] != '"' {
      var escaped := t[0] == '\\';
      var behind := if escaped then ReadEscape(t[1..]).value.1 else t[1..];
      if escaped {
        assert ['\\'] + t[1..] == t;
      }
      ReadStrUnsplit(behind);
      var s, rest := ReadStr(t).value.0, ReadStr(behind).value.0;
      assert s == [s[0]] + rest;
      assert !escaped ==> !High(s[0]) && !Low(s[0]);
      forall i: nat | i < |s| ensures !SplitPair(s, i) {
        if i > 0 {
          assert !SplitPair(rest, i - 1);
        }
      }
    }
  }

  predicate UnsplitMember(m: Member) { Unsplit(m.key) && UnsplitValue(m.value) }

  lemma {:induction false} ReadValueUnsplit(t: string)
    requires ReadValue(t).Some?
    ensures UnsplitValue(ReadValue(t).value.0)
    decreases |t|, 0
  {
    if t[0] == '"' {
      ReadStrUnsplit(t[1..]);
    } else if t[0] == '[' {
      if ReadItems(SkipWs(t[1..])).Some? {
        ReadItemsUnsplit(SkipWs(t[1..]));
      }
    } else if t[0] == '{' {
      if ReadMembers(SkipWs(t[1..])).Some? {
        ReadMembersUnsplit(SkipWs(t[1..]));
      }
    }
  }

  lemma {:induction false} ReadItemsUnsplit(t: string)
    requires ReadItems(t).Some?
    ensures forall i | 0 <= i < |ReadItems(t).value.0| :: UnsplitValue(ReadItems(t).value.0[i])
    decreases |t|, 1
  {
    ReadValueUnsplit(t);
    var rest := SkipWs(ReadValue(t).value.1);
    if rest[0] == ',' {
      ReadItemsUnsplit(SkipWs(rest[1..]));
    }
  }

  lemma {:induction false} ReadMembersUnsplit(t: string)
    requires ReadMembers(t).Some?
    ensures forall i | 0 <= i < |ReadMembers(t).value.0| :: UnsplitMember(ReadMembers(t).value.0[i])
    decreases |t|, 2
  {
    ReadMemberUnsplit(t);
    var rest := SkipWs(ReadMember(t).value.1);
    if rest[0] == ',' {
      ReadMembersUnsplit(SkipWs(rest[1..]));
    }
  }

  lemma {:induction false} ReadMemberUnsplit(t: string)
    requires ReadMember(t).Some?
    ensures UnsplitMember(ReadMember(t).value.0)
    decreases |t|, 1
  {
    ReadStrUnsplit(t[1..]);
    var colon := SkipWs(ReadStr(t[1..]).value.1);
    ReadValueUnsplit(SkipWs(colon[1..]));
  }

  /** Whatever text a value was read from, no string in it has surrogates side by side. */
  lemma LoadsUnsplit(t: string)
    requires Loads(t).Some?
    ensures UnsplitValue(Loads(t).value)
  {
    ReadValueUnsplit(SkipWs(t));
  }
}
