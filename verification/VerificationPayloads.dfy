/**
 The hidden payload an artifact's evidence travels in: one JSON object on one line, with both angle brackets
 escaped. Nothing else that decodes to the same commands is taken for their payload.
 */
module VerificationPayloads {
  import opened Text
  import opened Decimal
  import opened Json
  import opened JsonNumbers
  import opened JsonText
  import opened VerificationEvidence

  predicate IsHex(c: char) { '0' <= c <= '9' || 'a' <= c <= 'f' }

  predicate AllHex(s: string) { forall i | 0 <= i < |s| :: IsHex(s[i]) }

  /** A digest spelled as SHA-256's is: sixty-four lower-case hexadecimal digits. Nothing else about it is used. */
  type Digest = f: string -> string | forall s :: HexOf(f, s)
    witness ZeroDigest

  predicate HexOf(f: string -> string, s: string) { |f(s)| == 64 && AllHex(f(s)) }

  lemma DigestIs(digest: Digest, s: string)
    ensures |digest(s)| == 64 && AllHex(digest(s)) && digest(s) != ""
  {
    assert HexOf(digest, s);
  }

  function ZeroDigest(s: string): (digest: string)
    ensures |digest| == 64 && AllHex(digest)
  {
    seq(64, i => '0')
  }

  const HIDDEN := Style(",", ":", Angles)

  const VERSION := "version"
  const CONTENT := "content"
  const COMMANDS := "commands"
  const COMMAND := "command"
  const EXIT_STATUS := "exit_status"
  const OUTPUT := "output"
  const PAYLOAD_VERSION := 1

  function Revision(commands: seq<Command>, digest: Digest): string { digest(RenderCommands(commands)) }

  /** Statuses of no more digits than Python converts: what evidence with a revision has. */
  predicate Convertibles(commands: seq<Command>) { forall i | 0 <= i < |commands| :: Fits(commands[i].status) }

  // ----- Encoding

  function Entry(c: Command): JsonValue {
    Obj([Member(Codes(COMMAND), Str(Codes(c.command))),
         Member(Codes(EXIT_STATUS), Int(c.status)),
         Member(Codes(OUTPUT), Str(Codes(c.output)))])
  }

  function Entries(commands: seq<Command>): (r: seq<JsonValue>)
    ensures |r| == |commands| && forall i | 0 <= i < |r| :: r[i] == Entry(commands[i])
  {
    if commands == [] then [] else [Entry(commands[0])] + Entries(commands[1..])
  }

  function Payload(commands: seq<Command>, revision: string): JsonValue {
    Obj([Member(Codes(VERSION), Int(PAYLOAD_VERSION)),
         Member(Codes(CONTENT), Str(Codes(revision))),
         Member(Codes(COMMANDS), Arr(Entries(commands)))])
  }

  /** `str.translate` of the angle brackets into their escapes. */
  function Translated(t: string): string {
    if t == "" then ""
    else (if t[0] == '<' then "\\u003c" else if t[0] == '>' then "\\u003e" else [t[0]]) + Translated(t[1..])
  }

  /** The payload commands are carried in; none where the evidence has no revision to name. */
  function Encode(commands: seq<Command>, digest: Digest): Option<string> {
    if !Convertibles(commands) then None
    else Some(Translated(Spelling(Payload(commands, Revision(commands, digest)), TIGHT)))
  }

  // ----- Decoding

  /** A text UTF-8 can carry; none where a surrogate stands in it, which leaves evidence without a revision. */
  function TextOf(codes: PyStr): (s: Option<string>)
    ensures s.Some? ==> Codes(s.value) == codes
  {
    if codes == [] then Some("")
    else if High(codes[0]) || Low(codes[0]) then None
    else
      var rest := TextOf(codes[1..]);
      if rest.None? then None
      else
        var s := [codes[0] as char] + rest.value;
        assert Codes(s)[1..] == Codes(rest.value);
        Some(s)
  }

  /** `dict.get` over the pairs a decoder met: the last under the key. */
  function GetLast(members: seq<Member>, key: string): Option<JsonValue> {
    if members == [] then None
    else if members[|members| - 1].key == Codes(key) then Some(members[|members| - 1].value)
    else GetLast(members[..|members| - 1], key)
  }

  /**
   Whether the version may be one Python calls equal to the one written: it calls `true` equal to 1, and a float.
   Which float is left to the respelling, which refuses every one of them.
   */
  predicate VersionRead(v: Option<JsonValue>) {
    v == Some(Int(PAYLOAD_VERSION)) || v == Some(Bool(true)) || (v.Some? && v.value.Float?)
  }

  /** One listed command, through the evidence model's own refusals. */
  function CommandIn(entry: JsonValue): (c: Option<Command>)
    ensures c.Some? ==> Accepted(c.value)
  {
    if !entry.Obj? then None
    else
      var command, status, output :=
        GetLast(entry.members, COMMAND), GetLast(entry.members, EXIT_STATUS), GetLast(entry.members, OUTPUT);
      if command.Some? && command.value.Str? && status.Some? && status.value.Int? && output.Some? && output.value.Str?
      then
        var commandText, outputText := TextOf(command.value.text), TextOf(output.value.text);
        if commandText.None? || outputText.None? then None
        else
          var c := Command(commandText.value, status.value.number, outputText.value);
          if Accepted(c) then Some(c) else None
      else None
  }

  function CommandsIn(items: seq<JsonValue>): (commands: Option<seq<Command>>)
    ensures commands.Some? ==> |commands.value| == |items| && AllAccepted(commands.value)
  {
    if items == [] then Some([])
    else
      var first, rest := CommandIn(items[0]), CommandsIn(items[1..]);
      if first.None? || rest.None? then None else Some([first.value] + rest.value)
  }

  /** The commands a payload carries, or none for any payload but the one spelling of them. */
  function Decode(payload: string, digest: Digest): Option<seq<Command>> {
    match Loads(payload)
    case Some(Obj(members)) =>
      var listed := GetLast(members, COMMANDS);
      if !VersionRead(GetLast(members, VERSION)) || listed.None? || !listed.value.Arr? then None
      else
        var commands := CommandsIn(listed.value.items);
        if commands.None? || Encode(commands.value, digest) != Some(payload) then None else commands
    case _ => None
  }

  // ----- The translation is a spelling

  lemma {:induction false} TranslatedConcat(a: string, b: string)
    ensures Translated(a + b) == Translated(a) + Translated(b)
  {
    if a == "" {
      assert a + b == b;
    } else {
      TranslatedConcat(a[1..], b);
      assert (a + b)[1..] == a[1..] + b && (a + b)[0] == a[0];
    }
  }

  predicate NoAngles(t: string) { forall i | 0 <= i < |t| :: t[i] != '<' && t[i] != '>' }

  lemma {:induction false} TranslatedSame(t: string)
    requires NoAngles(t)
    ensures Translated(t) == t
  {
    if t != "" {
      TranslatedSame(t[1..]);
    }
  }

  lemma CodeNoAngles(c: Code)
    ensures NoAngles(SpellCode(c, c == 0x3C || c == 0x3E))
    ensures c != 0x3C && c != 0x3E ==> NoAngles(SpellCode(c, false))
  {
    if c < 0x1_0000 {
    } else {
      PairSpelled(c);
    }
  }

  lemma CodeTranslated(c: Code)
    ensures Translated(SpellCode(c, false)) == SpellCode(c, c == 0x3C || c == 0x3E)
  {
    if c == 0x3C || c == 0x3E {
      assert "<"[1..] == "" && ">"[1..] == "";
      assert Translated("") == "";
    } else {
      CodeNoAngles(c);
      TranslatedSame(SpellCode(c, false));
    }
  }

  lemma {:induction false} CodesTranslated(s: PyStr, i: nat)
    requires i <= |s|
    ensures Translated(SpellCodes(s, i, Nothing)) == SpellCodes(s, i, Angles)
    ensures NoAngles(SpellCodes(s, i, Angles))
    decreases |s| - i
  {
    hide Translated, SpellCode;
    if i < |s| {
      CodesTranslated(s, i + 1);
      CodeTranslated(s[i]);
      CodeNoAngles(s[i]);
      TranslatedConcat(SpellCode(s[i], false), SpellCodes(s, i + 1, Nothing));
    } else {
      TranslatedSame("");
    }
  }

  lemma StringTranslated(s: PyStr)
    ensures Translated(SpellStr(s, Nothing)) == SpellStr(s, Angles) && NoAngles(SpellStr(s, Angles))
  {
    hide Translated;
    CodesTranslated(s, 0);
    TranslatedSame(['"']);
    TranslatedConcat(['"'] + SpellCodes(s, 0, Nothing), ['"']);
    TranslatedConcat(['"'], SpellCodes(s, 0, Nothing));
  }

  lemma TranslatedBetween(open: string, inner: string, close: string)
    requires NoAngles(open) && NoAngles(close)
    ensures Translated(open + inner + close) == open + Translated(inner) + close
  {
    hide Translated;
    TranslatedConcat(open + inner, close);
    TranslatedConcat(open, inner);
    TranslatedSame(open);
    TranslatedSame(close);
  }

  lemma ScalarTranslated(v: JsonValue)
    requires v.Null? || v.Bool? || v.Int? || v.Float?
    ensures Translated(Spelling(v, TIGHT)) == Spelling(v, HIDDEN) && NoAngles(Spelling(v, HIDDEN))
  {
    hide Translated, FloatText, SpellInt;
    match v
    case Int(n) =>
      IntSpelled(n);
      WholeSpelled(SpellInt(n));
      TranslatedSame(SpellInt(n));
    case Float(f) =>
      FloatSpelled(f);
      TranslatedSame(FloatText(f));
    case Null =>
      assert "null" == Spelling(v, TIGHT) && NoAngles("null");
      TranslatedSame("null");
    case Bool(b) =>
      assert NoAngles("true") && NoAngles("false");
      TranslatedSame("true");
      TranslatedSame("false");
  }

  /** Translating the angle brackets out of a serialized value is spelling it with them hidden. */
  lemma {:induction false} ValueTranslated(v: JsonValue)
    ensures Translated(Spelling(v, TIGHT)) == Spelling(v, HIDDEN) && NoAngles(Spelling(v, HIDDEN))
    decreases v, 1
  {
    hide Translated;
    match v
    case Str(s) => StringTranslated(s);
    case Arr(items) =>
      ItemsTranslated(items);
      TranslatedBetween("[", SpellItems(items, TIGHT), "]");
    case Obj(members) =>
      MembersTranslated(members);
      TranslatedBetween("{", SpellMembers(members, TIGHT), "}");
    case _ => ScalarTranslated(v);
  }

  lemma {:induction false} ItemsTranslated(items: seq<JsonValue>)
    ensures Translated(SpellItems(items, TIGHT)) == SpellItems(items, HIDDEN) && NoAngles(SpellItems(items, HIDDEN))
    decreases items, 0
  {
    hide Translated, Spelling;
    if items == [] {
      TranslatedSame("");
    } else {
      ValueTranslated(items[0]);
      var first := Spelling(items[0], TIGHT);
      if |items| == 1 {
        assert first + "" == first;
      } else {
        ItemsTranslated(items[1..]);
        TranslatedConcat(first, "," + SpellItems(items[1..], TIGHT));
        TranslatedConcat(",", SpellItems(items[1..], TIGHT));
        TranslatedSame(",");
      }
    }
  }

  lemma {:induction false} MembersTranslated(members: seq<Member>)
    ensures Translated(SpellMembers(members, TIGHT)) == SpellMembers(members, HIDDEN)
    ensures NoAngles(SpellMembers(members, HIDDEN))
    decreases members, 0
  {
    hide Translated, SpellMember;
    if members == [] {
      TranslatedSame("");
    } else {
      MemberTranslated(members[0]);
      var first := SpellMember(members[0], TIGHT);
      if |members| == 1 {
        assert first + "" == first;
      } else {
        MembersTranslated(members[1..]);
        TranslatedConcat(first, "," + SpellMembers(members[1..], TIGHT));
        TranslatedConcat(",", SpellMembers(members[1..], TIGHT));
        TranslatedSame(",");
      }
    }
  }

  lemma {:induction false} MemberTranslated(m: Member)
    ensures Translated(SpellMember(m, TIGHT)) == SpellMember(m, HIDDEN) && NoAngles(SpellMember(m, HIDDEN))
    decreases m, 0
  {
    hide Translated, Spelling, SpellStr;
    StringTranslated(m.key);
    ValueTranslated(m.value);
    TranslatedConcat(SpellStr(m.key, Nothing) + ":", Spelling(m.value, TIGHT));
    TranslatedConcat(SpellStr(m.key, Nothing), ":");
    TranslatedSame(":");
  }

  // ----- Round trips

  lemma {:induction false} TextOfCodes(s: string)
    ensures TextOf(Codes(s)) == Some(s)
  {
    if s != "" {
      TextOfCodes(s[1..]);
      assert s == [s[0]] + s[1..];
      assert !High(s[0] as int) && !Low(s[0] as int);
      assert Codes(s)[1..] == Codes(s[1..]);
      assert Codes(s)[0] == s[0] as int;
    }
  }

  lemma EncodeIs(commands: seq<Command>, digest: Digest)
    requires Convertibles(commands)
    ensures Encode(commands, digest) == Some(Spelling(Payload(commands, Revision(commands, digest)), HIDDEN))
  {
    hide Translated, Spelling;
    ValueTranslated(Payload(commands, Revision(commands, digest)));
  }

  lemma KeysApart()
    ensures Codes(COMMAND) != Codes(EXIT_STATUS) && Codes(COMMAND) != Codes(OUTPUT)
    ensures Codes(EXIT_STATUS) != Codes(OUTPUT) && Codes(VERSION) != Codes(CONTENT)
    ensures Codes(VERSION) != Codes(COMMANDS) && Codes(CONTENT) != Codes(COMMANDS)
  {
    assert |Codes(COMMAND)| == 7 && |Codes(EXIT_STATUS)| == 11 && |Codes(OUTPUT)| == 6;
    assert |Codes(VERSION)| == 7 && |Codes(CONTENT)| == 7 && |Codes(COMMANDS)| == 8;
    assert Codes(VERSION)[0] == 'v' as int && Codes(CONTENT)[0] == 'c' as int;
  }

  lemma GetThird(members: seq<Member>, key: string, other: string, last: string)
    requires |members| == 3 && members[0].key == Codes(key) && members[1].key == Codes(other)
    requires members[2].key == Codes(last)
    requires Codes(key) != Codes(other) && Codes(key) != Codes(last) && Codes(other) != Codes(last)
    ensures GetLast(members, key) == Some(members[0].value)
    ensures GetLast(members, other) == Some(members[1].value)
    ensures GetLast(members, last) == Some(members[2].value)
  {
    hide Codes;
    var two := members[..2];
    assert two[..1] == members[..1] && members[..1][0] == members[0];
    assert GetLast(members, other) == GetLast(two, other);
    assert GetLast(members, key) == GetLast(two, key) == GetLast(members[..1], key);
  }

  lemma EntryRead(c: Command)
    requires Accepted(c)
    ensures CommandIn(Entry(c)) == Some(c)
  {
    hide Accepted, TextOf, GetLast;
    KeysApart();
    GetThird(Entry(c).members, COMMAND, EXIT_STATUS, OUTPUT);
    TextOfCodes(c.command);
    TextOfCodes(c.output);
  }

  lemma NoEntries()
    ensures CommandsIn(Entries([])) == Some([])
  {
  }

  lemma EntriesStep(commands: seq<Command>)
    requires commands != []
    ensures CommandsIn(Entries(commands))
         == (var first, rest := CommandIn(Entry(commands[0])), CommandsIn(Entries(commands[1..]));
             if first.None? || rest.None? then None else Some([first.value] + rest.value))
  {
    hide CommandIn, Entry;
    assert Entries(commands)[1..] == Entries(commands[1..]);
  }

  lemma {:induction false} EntriesRead(commands: seq<Command>)
    requires AllAccepted(commands)
    ensures CommandsIn(Entries(commands)) == Some(commands)
  {
    hide Accepted, CommandIn, Entry, CommandsIn, Entries;
    if commands == [] {
      NoEntries();
    } else {
      EntryRead(commands[0]);
      EntriesRead(commands[1..]);
      EntriesStep(commands);
      assert commands == [commands[0]] + commands[1..];
    }
  }

  lemma EntryPlain(c: Command)
    requires Fits(c.status)
    ensures Convertible(Entry(c)) && UnsplitValue(Entry(c))
  {
    hide Fits, Codes;
  }

  lemma PayloadPlain(commands: seq<Command>, revision: string)
    requires Convertibles(commands)
    ensures Convertible(Payload(commands, revision)) && UnsplitValue(Payload(commands, revision))
  {
    hide Fits, Entry, Codes;
    forall i | 0 <= i < |commands|
      ensures Convertible(Entries(commands)[i]) && UnsplitValue(Entries(commands)[i])
    {
      EntryPlain(commands[i]);
    }
    assert Fits(1) by { FitsOne(); }
    assert Convertible(Arr(Entries(commands))) && UnsplitValue(Arr(Entries(commands)));
  }

  lemma FitsOne()
    ensures Fits(PAYLOAD_VERSION)
  {
    assert |Spell(1)| == 1;
  }

  /** Decoding what was encoded gives the commands back, in order, repeats and all. */
  lemma DecodeEncode(commands: seq<Command>, digest: Digest)
    requires AllAccepted(commands) && Convertibles(commands)
    ensures Decode(Encode(commands, digest).value, digest) == Some(commands)
  {
    hide Spelling, Loads, CommandsIn, GetLast, Convertible, UnsplitValue, Accepted, Encode, MergedValue;
    var v := Payload(commands, Revision(commands, digest));
    EncodeIs(commands, digest);
    PayloadPlain(commands, Revision(commands, digest));
    LoadsSpelling(v, HIDDEN);
    MergedIsSame(v);
    KeysApart();
    GetThird(v.members, VERSION, CONTENT, COMMANDS);
    EntriesRead(commands);
  }

  /** A payload decodes to commands exactly where every one is accepted and it is the payload they encode to. */
  lemma DecodesExactly(payload: string, commands: seq<Command>, digest: Digest)
    ensures Decode(payload, digest) == Some(commands)
       <==> AllAccepted(commands) && Encode(commands, digest) == Some(payload)
  {
    hide Accepted, Loads, Spelling, Translated;
    if AllAccepted(commands) && Encode(commands, digest) == Some(payload) {
      DecodeEncode(commands, digest);
    }
  }

  /** So two payloads that decode alike are one, and evidence that encodes alike is one. */
  lemma EncodeInjective(a: seq<Command>, b: seq<Command>, digest: Digest)
    requires AllAccepted(a) && AllAccepted(b) && Convertibles(a) && Convertibles(b)
    ensures Encode(a, digest) == Encode(b, digest) <==> a == b
  {
    hide Encode, Decode, Accepted;
    DecodeEncode(a, digest);
    DecodeEncode(b, digest);
  }

  /** No angle bracket stands in a payload: nothing in it ends its comment or opens another. */
  lemma PayloadSafe(commands: seq<Command>, digest: Digest)
    requires Convertibles(commands)
    ensures NoAngles(Encode(commands, digest).value)
  {
    hide Encode, Spelling;
    EncodeIs(commands, digest);
    ValueTranslated(Payload(commands, Revision(commands, digest)));
  }
}
