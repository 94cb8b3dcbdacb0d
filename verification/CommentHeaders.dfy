/**
 The hidden headers self-proving comments end with: named fields, each a run of characters of one class
 behind a literal that begins outside that class, closed by the comment's terminator. The scanner reads what
 the header patterns match, from the leftmost place they match at.
 */
module CommentHeaders {
  import opened Text
  import opened Decimal
  import opened VerificationEvidence
  import opened VerificationPayloads
  import JsonNumbers

  function Marker(): string { RESERVED + "comment-->" }
  const SEPARATOR := "\n\n"
  const END := "-->"

  /** Wording a reader sees and no reader here looks at. The published wording carries no angle bracket. */
  type Prose = s: string | NoAngles(s)

  datatype Class = TokenClass | DigitClass | HexClass | LetterClass

  predicate InClass(c: char, k: Class) {
    match k
    case TokenClass => IsNameChar(c)
    case DigitClass => IsDigit(c)
    case HexClass => IsHex(c)
    case LetterClass => 'a' <= c <= 'z' || c == '-'
  }

  predicate AllIn(s: string, k: Class) { forall i | 0 <= i < |s| :: InClass(s[i], k) }

  datatype Field = Field(lead: string, kind: Class)

  /** The longest run of one class a text begins with. */
  function Run(t: string, k: Class): (run: string)
    ensures run <= t && AllIn(run, k)
  {
    if t != "" && InClass(t[0], k) then [t[0]] + Run(t[1..], k) else ""
  }

  /** What a text begins with, field by field, and what follows; none where it is not that. */
  function Fields(spec: seq<Field>, t: string): Option<(seq<string>, string)> {
    if spec == [] then Some(([], t))
    else if !(spec[0].lead <= t) then None
    else
      var behind := t[|spec[0].lead|..];
      var value := Run(behind, spec[0].kind);
      if value == "" then None
      else
        var rest := Fields(spec[1..], behind[|value|..]);
        if rest.None? then None else Some(([value] + rest.value.0, rest.value.1))
  }

  /** The values of the header `t` begins with. */
  function HeaderAt(spec: seq<Field>, t: string): Option<seq<string>> {
    var fields := Fields(spec, t);
    if fields.Some? && END <= fields.value.1 then Some(fields.value.0) else None
  }

  /** The leftmost header in `t`: where it stands, and its values. */
  function Claimed(spec: seq<Field>, t: string): (claim: Option<(nat, seq<string>)>)
    ensures claim.Some? ==> claim.value.0 <= |t|
  {
    var here := HeaderAt(spec, t);
    if here.Some? then Some((0, here.value))
    else if t == "" then None
    else
      var later := Claimed(spec, t[1..]);
      if later.None? then None else Some((later.value.0 + 1, later.value.1))
  }

  function Written(spec: seq<Field>, values: seq<string>): string
    requires |spec| == |values|
  {
    if spec == [] then "" else spec[0].lead + (values[0] + Written(spec[1..], values[1..]))
  }

  /** A header pattern the scanner need not go back in: each literal begins outside the class ahead of it. */
  predicate Parts(spec: seq<Field>) {
    && (forall i | 0 <= i < |spec| :: spec[i].lead != "")
    && (forall i | 0 <= i < |spec| - 1 :: !InClass(spec[i + 1].lead[0], spec[i].kind))
  }

  /** A colon is in no field, so leads that begin with one part the fields. */
  lemma ColonParts(spec: seq<Field>)
    requires forall i | 0 <= i < |spec| :: spec[i].lead != "" && (i > 0 ==> spec[i].lead[0] == ':')
    ensures Parts(spec)
  {
  }

  predicate Carries(spec: seq<Field>, values: seq<string>) {
    |spec| == |values| && forall i | 0 <= i < |spec| :: values[i] != "" && AllIn(values[i], spec[i].kind)
  }

  lemma PartsTogether(spec: seq<Field>, more: seq<Field>)
    requires Parts(spec) && Parts(more) && spec != [] && more != []
    requires !InClass(more[0].lead[0], spec[|spec| - 1].kind)
    ensures Parts(spec + more)
  {
    hide InClass;
    forall i | 0 <= i < |spec + more| - 1 ensures !InClass((spec + more)[i + 1].lead[0], (spec + more)[i].kind) {
      assert (spec + more)[i + 1] == if i + 1 < |spec| then spec[i + 1] else more[i + 1 - |spec|];
    }
  }

  lemma CarriesTogether(spec: seq<Field>, values: seq<string>, moreSpec: seq<Field>, moreValues: seq<string>)
    requires Carries(spec, values) && Carries(moreSpec, moreValues)
    ensures Carries(spec + moreSpec, values + moreValues)
  {
    hide AllIn;
  }

  lemma {:induction false} RunRead(run: string, rest: string, k: Class)
    requires AllIn(run, k) && (rest != "" ==> !InClass(rest[0], k))
    ensures Run(run + rest, k) == run
  {
    if run == "" {
      assert run + rest == rest;
    } else {
      RunRead(run[1..], rest, k);
      assert (run + rest)[1..] == run[1..] + rest;
    }
  }

  lemma FieldsStep(spec: seq<Field>, value: string, more: string)
    requires spec != [] && value != "" && Run(value + more, spec[0].kind) == value
    ensures Fields(spec, spec[0].lead + (value + more))
         == (var rest := Fields(spec[1..], more);
             if rest.None? then None else Some(([value] + rest.value.0, rest.value.1)))
  {
    hide Run;
    assert (spec[0].lead + (value + more))[|spec[0].lead|..] == value + more;
    assert (value + more)[|value|..] == more;
  }

  lemma WrittenStep(spec: seq<Field>, values: seq<string>, rest: string)
    requires spec != [] && |spec| == |values|
    ensures Written(spec, values) + rest == spec[0].lead + (values[0] + (Written(spec[1..], values[1..]) + rest))
  {
  }

  lemma NextBegins(spec: seq<Field>, values: seq<string>, rest: string)
    requires Parts(spec) && |spec| == |values| && spec != []
    requires rest != "" ==> !InClass(rest[0], spec[|spec| - 1].kind)
    ensures var more := Written(spec[1..], values[1..]) + rest; more != "" ==> !InClass(more[0], spec[0].kind)
  {
    hide InClass;
    if |spec| > 1 {
      assert (Written(spec[1..], values[1..]) + rest)[0] == spec[1].lead[0];
    }
  }

  /** A written header reads back as its fields, whatever follows that its last field could not run into. */
  lemma {:induction false} FieldsRead(spec: seq<Field>, values: seq<string>, rest: string)
    requires Parts(spec) && Carries(spec, values)
    requires spec != [] && rest != "" ==> !InClass(rest[0], spec[|spec| - 1].kind)
    ensures Fields(spec, Written(spec, values) + rest) == Some((values, rest))
  {
    hide InClass, Fields, Written, Run, Parts;
    if spec == [] {
      NoFields(rest);
      assert values == [];
    } else {
      var more := Written(spec[1..], values[1..]) + rest;
      WrittenStep(spec, values, rest);
      NextBegins(spec, values, rest);
      RunRead(values[0], more, spec[0].kind);
      FieldsStep(spec, values[0], more);
      PartsBehind(spec);
      FieldsRead(spec[1..], values[1..], rest);
      assert values == [values[0]] + values[1..];
    }
  }

  lemma NoFields(rest: string)
    ensures Fields([], Written([], []) + rest) == Some(([], rest))
  {
    assert "" + rest == rest;
  }

  lemma PartsBehind(spec: seq<Field>)
    requires Parts(spec) && spec != []
    ensures Parts(spec[1..])
  {
    hide InClass;
  }

  /** Where the header pattern begins nowhere ahead of a written header, that header is the one claimed. */
  lemma {:induction false} ClaimedBehind(spec: seq<Field>, values: seq<string>, ahead: string, rest: string)
    requires Parts(spec) && Carries(spec, values) && spec != []
    requires !InClass('-', spec[|spec| - 1].kind)
    requires forall i | 0 <= i < |ahead| :: !(spec[0].lead <= (ahead + (Written(spec, values) + (END + rest)))[i..])
    ensures Claimed(spec, ahead + (Written(spec, values) + (END + rest))) == Some((|ahead|, values))
  {
    hide InClass, Fields, Written;
    var header := Written(spec, values) + (END + rest);
    var t := ahead + header;
    if ahead == "" {
      assert t == header;
      assert END[0] == '-';
      FieldsRead(spec, values, END + rest);
    } else {
      var next := ahead[1..] + header;
      assert t[1..] == next;
      assert HeaderAt(spec, t).None? by {
        assert t[0..] == t;
        LeadNeeded(spec, t);
      }
      forall i | 0 <= i < |ahead[1..]| ensures !(spec[0].lead <= next[i..]) {
        assert next[i..] == t[i + 1..];
      }
      ClaimedBehind(spec, values, ahead[1..], rest);
    }
  }

  lemma LeadNeeded(spec: seq<Field>, t: string)
    requires spec != [] && !(spec[0].lead <= t)
    ensures HeaderAt(spec, t).None?
  {
  }

  // ----- Identity fields

  /** `[1-9][0-9]*`, of a number Python spells at all. */
  predicate IsCount(n: int) { n >= 1 && JsonNumbers.Fits(n) }

  predicate IsObjectId(s: string) { (|s| == 40 || |s| == 64) && AllHex(s) }

  predicate IsTokenText(s: string, most: nat) { 1 <= |s| <= most && AllIn(s, TokenClass) }

  /** `int` of a run of digits; none of more than Python converts. */
  function CountOf(digits: string): (n: Option<nat>)
    requires AllIn(digits, DigitClass)
  {
    if |digits| > JsonNumbers.MAX_DIGITS then None else Some(Value(digits))
  }

  lemma CountRead(n: int)
    requires IsCount(n)
    ensures Spell(n) != "" && AllIn(Spell(n), DigitClass) && CountOf(Spell(n)) == Some(n)
  {
  }

  // ----- Where our markers stand in a body

  /** `lead` begins nowhere in `ahead`, whatever follows it. */
  ghost predicate Clear(ahead: string, t: string, lead: string) {
    forall i | 0 <= i < |ahead| :: !(lead <= (ahead + t)[i..])
  }

  lemma ClearOfAngles(ahead: string, t: string, lead: string)
    requires '<' !in ahead && lead != "" && lead[0] == '<'
    ensures Clear(ahead, t, lead)
  {
    forall i | 0 <= i < |ahead| ensures !(lead <= (ahead + t)[i..]) {
      assert (ahead + t)[i..][0] == ahead[i];
    }
  }

  /** Nothing a reserved marker opens begins in a text that holds none and is set off by a blank line. */
  lemma ClearOfReserved(text: string, t: string, lead: string)
    requires !Contains(text, RESERVED) && RESERVED <= lead
    ensures Clear(text + SEPARATOR, t, lead)
  {
    var ahead := text + SEPARATOR;
    var whole := ahead + t;
    forall i | 0 <= i < |ahead| ensures !(lead <= whole[i..]) {
      if lead <= whole[i..] {
        ReservedAt(text, t, i, lead);
      }
    }
  }

  lemma ReservedAt(text: string, t: string, i: nat, lead: string)
    requires i < |text| + 2 && RESERVED <= lead && lead <= (text + SEPARATOR + t)[i..]
    ensures Contains(text, RESERVED)
  {
    var whole := text + SEPARATOR + t;
    var there := whole[i..];
    assert there[..|RESERVED|] == RESERVED;
    assert forall k | 0 <= k < |RESERVED| :: whole[i + k] == RESERVED[k] && RESERVED[k] != '\n';
    forall j | i <= j < i + |RESERVED| ensures whole[j] != '\n' {
      assert whole[j] == RESERVED[j - i];
    }
    assert whole[|text|] == '\n' && whole[|text| + 1] == '\n';
    if i + |RESERVED| <= |text| {
      assert text[i..i + |RESERVED|] == there[..|RESERVED|];
      assert OccursAt(text, RESERVED, i);
    } else {
      assert false;
    }
  }

  lemma ClearTogether(a: string, b: string, t: string, lead: string)
    requires Clear(a, b + t, lead) && Clear(b, t, lead)
    ensures Clear(a + b, t, lead)
  {
    var whole := a + b + t;
    assert whole == a + (b + t);
    forall i | 0 <= i < |a + b| ensures !(lead <= whole[i..]) {
      if i >= |a| {
        assert whole[i..] == (b + t)[i - |a|..];
      }
    }
  }

  /** No place in `t` is one where `lead` begins. */
  ghost predicate Nowhere(t: string, lead: string) { forall i | 0 <= i <= |t| :: !(lead <= t[i..]) }

  lemma ContainsSomewhere(t: string, lead: string)
    ensures Contains(t, lead) <==> !Nowhere(t, lead)
  {
    if Contains(t, lead) {
      var at :| 0 <= at <= |t| - |lead| && OccursAt(t, lead, at);
      assert t[at..][..|lead|] == lead;
    }
    if !Nowhere(t, lead) {
      var i :| 0 <= i <= |t| && lead <= t[i..];
      assert t[i..][..|lead|] == t[i..i + |lead|];
      assert OccursAt(t, lead, i);
    }
  }

  lemma NowhereBehind(ahead: string, t: string, lead: string)
    requires Clear(ahead, t, lead) && Nowhere(t, lead)
    ensures Nowhere(ahead + t, lead)
  {
    var whole := ahead + t;
    forall i | 0 <= i <= |whole| ensures !(lead <= whole[i..]) {
      if i >= |ahead| {
        assert whole[i..] == t[i - |ahead|..];
      }
    }
  }

  // ----- Receipts

  /** A header's opening, up to and with the colon behind its receipt: the text claims are looked up by. */
  function ScopeOf(lead: string, receipt: string): string { lead + (receipt + ":") }

  lemma {:induction false} WrittenNoAngle(spec: seq<Field>, values: seq<string>)
    requires Carries(spec, values) && forall i | 0 <= i < |spec| :: '<' !in spec[i].lead
    ensures '<' !in Written(spec, values)
  {
    if spec != [] {
      assert '<' !in values[0] by {
        assert !IsNameChar('<') && !IsDigit('<') && !IsHex('<');
      }
      hide InClass;
      WrittenNoAngle(spec[1..], values[1..]);
    }
  }

  /** A header pattern whose receipt is its first field. */
  predicate ReceiptFirst(spec: seq<Field>) {
    && |spec| >= 2 && spec[1].lead != "" && spec[1].lead[0] == ':'
    && forall i | 1 <= i < |spec| :: '<' !in spec[i].lead
  }

  lemma ReceiptHeader(spec: seq<Field>, values: seq<string>) returns (rest: string)
    requires ReceiptFirst(spec) && Carries(spec, values)
    ensures Written(spec, values) + END == spec[0].lead + (values[0] + (":" + rest)) && '<' !in rest
  {
    hide InClass, Written;
    WrittenNoAngle(spec[1..], values[1..]);
    WrittenStep(spec, values, END);
    WrittenStep(spec[1..], values[1..], END);
    var behind := Written(spec[1..], values[1..]) + END;
    assert behind[0] == ':';
    rest := behind[1..];
    assert behind == ":" + rest;
    assert '<' !in behind;
  }

  /** The colon ends a receipt, so a longer one that begins alike opens no header of the shorter. */
  lemma ReceiptCloses(lead: string, a: string, b: string, rest: string)
    requires ':' !in a && ':' !in b
    ensures ScopeOf(lead, a) <= lead + (b + (":" + rest)) <==> a == b
  {
    var s, t := ScopeOf(lead, a), lead + (b + (":" + rest));
    if a == b {
      assert s == t[..|s|];
    }
    if s <= t {
      var more := t[|s|..];
      assert t == s + more;
      assert t[|lead|..] == a + ([':'] + more);
      assert t[|lead|..] == b + ([':'] + rest);
      BeforeFound(a, ':', more);
      BeforeFound(b, ':', rest);
    }
  }

  /**
   Nothing behind a header's first character begins a scope: neither its fields nor the marker that closes the
   body.
   */
  lemma NowhereBehindHeader(fields: string, scope: string)
    requires '<' !in fields && |scope| > |RESERVED| && scope[0] == '<' && scope[|RESERVED|] != Marker()[|RESERVED|]
    ensures Nowhere(fields + (SEPARATOR + Marker()), scope)
  {
    hide Clear, Nowhere;
    assert Marker()[0] == RESERVED[0] == '<';
    var tail := Marker()[1..];
    assert Marker() == "<" + tail;
    NowhereNoAngle(tail, scope);
    MarkerNoScope(scope);
    ClearOne(tail, scope);
    NowhereBehind("<", tail, scope);
    assert '<' !in fields + SEPARATOR;
    ClearOfAngles(fields + SEPARATOR, Marker(), scope);
    NowhereBehind(fields + SEPARATOR, Marker(), scope);
    assert fields + SEPARATOR + Marker() == fields + (SEPARATOR + Marker());
  }

  lemma NowhereNoAngle(t: string, scope: string)
    requires '<' !in t && scope != "" && scope[0] == '<'
    ensures Nowhere(t, scope)
  {
    forall i | 0 <= i <= |t| ensures !(scope <= t[i..]) {
      if i < |t| {
        assert t[i..][0] == t[i];
      }
    }
  }

  lemma MarkerNoScope(scope: string)
    requires |scope| > |RESERVED| && scope[|RESERVED|] != Marker()[|RESERVED|]
    ensures !(scope <= Marker())
    ensures '<' !in Marker()[1..]
  {
    assert Marker()[1..] == RESERVED[1..] + "comment-->";
  }

  lemma ClearOne(tail: string, scope: string)
    requires !(scope <= "<" + tail)
    ensures Clear("<", tail, scope)
  {
    assert ("<" + tail)[0..] == "<" + tail;
  }

  /** The header a body closes with is the one claimed, where its pattern begins nowhere ahead of it. */
  lemma ClaimedClear(spec: seq<Field>, values: seq<string>, ahead: string, rest: string)
    requires Parts(spec) && Carries(spec, values) && spec != [] && !InClass('-', spec[|spec| - 1].kind)
    requires Clear(ahead, Written(spec, values) + (END + rest), spec[0].lead)
    ensures Claimed(spec, ahead + (Written(spec, values) + (END + rest))) == Some((|ahead|, values))
  {
    hide Parts, Carries, Claimed, Written, InClass;
    ClaimedBehind(spec, values, ahead, rest);
  }

  lemma ScopeRegrouped(lead: string, receipt: string, rest: string, tail: string)
    ensures (lead + (receipt + (":" + rest))) + tail == lead + (receipt + (":" + (rest + tail)))
  {
  }

  /** A scope stands in a body exactly where it opens the body's own header. */
  lemma ScopeStands(ahead: string, header: string, scope: string)
    requires header != "" && '<' !in header[1..]
    requires |scope| > |RESERVED| && scope[0] == '<' && scope[|RESERVED|] != Marker()[|RESERVED|]
    requires Clear(ahead, header + (SEPARATOR + Marker()), scope)
    ensures Contains(ahead + (header + (SEPARATOR + Marker())), scope) <==> scope <= header + (SEPARATOR + Marker())
  {
    hide Clear, Nowhere;
    var t := header + (SEPARATOR + Marker());
    ContainsSomewhere(ahead + t, scope);
    if scope <= t {
      SomewhereBehind(ahead, t, scope);
    } else {
      NowhereBehindHeader(header[1..], scope);
      assert t == [header[0]] + (header[1..] + (SEPARATOR + Marker()));
      ClearFirst([header[0]], header[1..] + (SEPARATOR + Marker()), scope);
      NowhereBehind([header[0]], header[1..] + (SEPARATOR + Marker()), scope);
      NowhereBehind(ahead, t, scope);
    }
  }

  lemma ClearFirst(first: string, tail: string, scope: string)
    requires |first| == 1 && !(scope <= first + tail)
    ensures Clear(first, tail, scope)
  {
    assert (first + tail)[0..] == first + tail;
  }

  lemma SomewhereBehind(ahead: string, t: string, scope: string)
    requires scope <= t
    ensures !Nowhere(ahead + t, scope)
  {
    assert (ahead + t)[|ahead|..] == t;
  }

  /** A header of six fields, end to end. */
  lemma WrittenSix(spec: seq<Field>, values: seq<string>, rest: string)
    requires |spec| == 6 && |values| == 6
    ensures Written(spec, values) + rest
         == spec[0].lead + (values[0] + (spec[1].lead + (values[1] + (spec[2].lead + (values[2]
            + (spec[3].lead + (values[3] + (spec[4].lead + (values[4] + (spec[5].lead + (values[5] + rest)))))))))))
  {
    hide Written;
    WrittenStep(spec, values, rest);
    WrittenStep(spec[1..], values[1..], rest);
    WrittenStep(spec[2..], values[2..], rest);
    WrittenStep(spec[3..], values[3..], rest);
    WrittenStep(spec[4..], values[4..], rest);
    WrittenStep(spec[5..], values[5..], rest);
    WrittenNone(spec[6..], values[6..]);
    assert "" + rest == rest;
  }

  /** Two runs of fields are written one behind the other. */
  lemma {:induction false} WrittenTogether(a: seq<Field>, x: seq<string>, b: seq<Field>, y: seq<string>)
    requires |a| == |x| && |b| == |y|
    ensures Written(a + b, x + y) == Written(a, x) + Written(b, y)
  {
    if a == [] {
      assert a + b == b && x + y == y;
    } else {
      assert (a + b)[1..] == a[1..] + b && (x + y)[1..] == x[1..] + y;
      WrittenTogether(a[1..], x[1..], b, y);
    }
  }

  lemma WrittenNone(spec: seq<Field>, values: seq<string>)
    requires |spec| == |values| == 0
    ensures Written(spec, values) == ""
  {
  }

  /** A token of at most `most` characters, a count and a commit, as the patterns that take them spell them. */
  lemma CarriedSpelled(token: string, most: nat, count: int, commit: string)
    ensures IsTokenText(token, most) <==>
              && 1 <= |token| <= most
              && forall i | 0 <= i < |token| ::
                   || 'A' <= token[i] <= 'Z' || 'a' <= token[i] <= 'z' || '0' <= token[i] <= '9'
                   || token[i] == '_' || token[i] == '.' || token[i] == '-'
    ensures IsCount(count) <==> count >= 1 && |Spell(count)| <= 4300
    ensures IsObjectId(commit) <==>
              && (|commit| == 40 || |commit| == 64)
              && forall i | 0 <= i < |commit| :: '0' <= commit[i] <= '9' || 'a' <= commit[i] <= 'f'
  {
    hide Spell;
  }

  lemma MarkerSpelled()
    ensures Marker() == "<!--orchestrator-comment-->" && SEPARATOR == "\n\n" && END == "-->"
  {
  }
}
