/**
 What the holds on one issue key leave on its claim file, and what a reader takes from it.

 The file is its real text, of `key=value` lines. Part of a line may be all that lands of it, and taking
 that part away again may fail, so what is written next can be run into remains.
 */
module ClaimRecords {
  import opened Text
  import opened Decimal

  const HOLDER := "holder"
  const RELEASED := "released"
  const RETIRING := "retiring-cycle"

  predicate IsToken(t: string) {
    |t| == 32 && forall i | 0 <= i < 32 :: t[i] in "0123456789abcdef"
  }

  /** What a process signs with: drawn once at import, so a token is a process. */
  type Token = t: string | IsToken(t) witness seq(32, _ => '0')

  function Line(key: string, value: string): string { key + "=" + value }

  function HolderLine(token: Token): string { Line(HOLDER, token) }
  function ReleasedLine(moment: nat): string { Line(RELEASED, Spell(moment)) }
  function RetiringLine(cycle: int): string { Line(RETIRING, SpellInt(cycle)) }

  /** A record as it is written: its line and the line end that makes it whole. */
  function Record(line: string): string { line + ['\n'] }

  /** The last hold's leavings as the next reader finds them. */
  datatype Left = Left(fields: map<string, string>, unfinished: bool) {
    function Get(key: string): string {
      if key in fields then fields[key] else ""
    }

    /** When the hold that left this ended, read by `reader` at `now`; None where it was the reader's own. */
    function EndedElsewhere(reader: Token, now: nat): Option<nat> {
      var holder := Get(HOLDER);
      if holder == reader then None
      else
        var released := Get(RELEASED);
        if holder != "" && IsDecimal(released) && !unfinished then Some(Value(released)) else Some(now)
    }

    /** Whether the file tells of a hold signed and not yet stamped. */
    predicate Standing() {
      Get(HOLDER) != "" && RELEASED !in fields
    }
  }

  function FieldsOf(lines: seq<string>): map<string, string>
    decreases |lines|
  {
    if lines == [] then map[]
    else
      var last := lines[|lines| - 1];
      FieldsOf(lines[..|lines| - 1])[Before(last, '=') := After(last, '=')]
  }

  function Read(text: string): Left {
    var pieces := Split(text, '\n');
    Left(FieldsOf(pieces[..|pieces| - 1]), pieces[|pieces| - 1] != "")
  }

  /** `claim_notes.noted_retirement` over the text a contender read. */
  function NotedRetirement(text: string): Option<nat> {
    var left := Read(text);
    var noted := left.Get(RETIRING);
    if left.Standing() && IsDecimal(noted) then Some(Value(noted)) else None
  }

  // ----- What a signed file can say, whatever was torn on it

  /** A hold as its file can describe it: who signed, the cycles it noted whole, when it let go. */
  datatype Hold = Hold(token: Token, notes: seq<int>, ended: Option<nat>)

  /** A whole line a hold's writes can spell: no second signature, no stamp but its own, no note it did not write. */
  ghost predicate SpelledBy(line: string, hold: Hold) {
    && Before(line, '=') != HOLDER
    && (Before(line, '=') == RELEASED && IsDecimal(After(line, '='))
        ==> hold.ended == Some(Value(After(line, '='))))
    && (Before(line, '=') == RETIRING && IsDecimal(After(line, '='))
        ==> Value(After(line, '=')) in hold.notes)
  }

  /** The whole lines of `text` are the signature of `hold` and what its writes can spell. */
  ghost predicate DescribedLines(text: string, hold: Hold) {
    var lines := Split(text, '\n');
    && |lines| >= 2
    && lines[0] == HolderLine(hold.token)
    && forall i | 1 <= i < |lines| - 1 :: SpelledBy(lines[i], hold)
  }

  /** Remains on the file: some run of cut records, every one of which began with `r`. */
  predicate Remains(tail: string) {
    tail != "" ==> tail[0] == 'r'
  }

  ghost predicate Describes(text: string, hold: Hold) {
    && DescribedLines(text, hold)
    && Remains(Split(text, '\n')[|Split(text, '\n')| - 1])
  }

  /** A file no hold signed whole: it holds no whole line at all. */
  predicate Unsigned(text: string) { '\n' !in text }

  lemma UnsignedRead(text: string)
    requires Unsigned(text)
    ensures Read(text).fields == map[]
  {
    SplitWhole(text, '\n');
    assert [text][..0] == [];
  }

  lemma {:induction false} FieldsOfLines(lines: seq<string>, hold: Hold)
    requires |lines| >= 1 && lines[0] == HolderLine(hold.token)
    requires forall i | 1 <= i < |lines| :: SpelledBy(lines[i], hold)
    ensures var fields := FieldsOf(lines);
            && HOLDER in fields && fields[HOLDER] == hold.token
            && (RELEASED in fields && IsDecimal(fields[RELEASED]) ==> hold.ended == Some(Value(fields[RELEASED])))
            && (RETIRING in fields && IsDecimal(fields[RETIRING]) ==> Value(fields[RETIRING]) in hold.notes)
    decreases |lines|
  {
    var front := lines[..|lines| - 1];
    if |lines| == 1 {
      PartitionAt(HOLDER, hold.token, '=');
      assert front == [];
      assert lines[0] == HOLDER + ['='] + hold.token;
    } else {
      FieldsOfLines(front, hold);
    }
  }

  /** What a reader takes from a signed file: its signer, no stamp but the hold's own, no note but one it wrote. */
  lemma DescribedRead(text: string, hold: Hold)
    requires DescribedLines(text, hold)
    ensures var left := Read(text);
            && left.Get(HOLDER) == hold.token
            && (IsDecimal(left.Get(RELEASED)) ==> hold.ended == Some(Value(left.Get(RELEASED))))
            && (IsDecimal(left.Get(RETIRING)) ==> Value(left.Get(RETIRING)) in hold.notes)
  {
    var lines := Split(text, '\n');
    FieldsOfLines(lines[..|lines| - 1], hold);
  }

  // ----- Writes keep the description

  /** A record run into remains is a line no reader takes for a stamp or a note. */
  lemma RunTogether(tail: string, key: string, value: string, hold: Hold)
    requires tail != "" && tail[0] == 'r'
    requires key == RELEASED || key == RETIRING
    ensures SpelledBy(tail + Line(key, value), hold)
  {
    var line := tail + Line(key, value);
    if '=' in tail {
      BeforeAfter(tail, '=');
      var head, rest := Before(tail, '='), After(tail, '=');
      assert line == head + ['='] + (rest + Line(key, value));
      PartitionAt(head, rest + Line(key, value), '=');
      assert (rest + Line(key, value))[|rest| + |key|] == '=';
      assert head[..1] == tail[..1] || head == "";
    } else {
      assert line == (tail + key) + ['='] + value;
      PartitionAt(tail + key, value, '=');
      NotAKey(tail, key);
    }
    HeadKept(line, '=');
  }

  lemma HeadKept(line: string, d: char)
    requires line != "" && line[0] == 'r'
    ensures Before(line, d) != HOLDER
  {
    if Before(line, d) != "" {
      assert Before(line, d)[0] == 'r';
    }
  }

  /** No key of ours is another with something ahead of it. */
  lemma NotAKey(tail: string, key: string)
    requires tail != "" && (key == RELEASED || key == RETIRING)
    ensures tail + key != RELEASED && tail + key != RETIRING
  {
    var whole := tail + key;
    assert whole[|whole| - 1] == key[|key| - 1];
    assert RELEASED[|RELEASED| - 1] == 'd' && RETIRING[|RETIRING| - 1] == 'e';
  }

  /** One more record landing whole: a note it may name from now on, or the stamp of its release. */
  lemma WholeLanded(text: string, hold: Hold, key: string, value: string, after: Hold)
    requires Describes(text, hold) && after.token == hold.token
    requires '\n' !in value && (key == RELEASED || key == RETIRING)
    requires forall c | c in hold.notes :: c in after.notes
    requires hold.ended.Some? ==> after.ended == hold.ended
    requires SpelledBy(Line(key, value), after)
    ensures Describes(text + Record(Line(key, value)), after)
  {
    var lines := Split(text, '\n');
    var tail := lines[|lines| - 1];
    var line := Line(key, value);
    assert '\n' !in line by { KeyWhole(key); }
    SplitLineAdded(text, line, '\n');
    var added := Split(text + Record(line), '\n');
    assert added == lines[..|lines| - 1] + [tail + line, []];
    if tail != "" {
      RunTogether(tail, key, value, after);
    } else {
      assert tail + line == line;
    }
  }

  lemma KeyWhole(key: string)
    requires key == HOLDER || key == RELEASED || key == RETIRING
    ensures '\n' !in key && key != ""
  {
  }

  /** Part of a record landing, the cut back failed: remains, whatever the file held. */
  lemma TornLanded(text: string, hold: Hold, key: string, value: string, n: nat, after: Hold)
    requires Describes(text, hold) && after.token == hold.token
    requires forall c | c in hold.notes :: c in after.notes
    requires hold.ended.Some? ==> after.ended == hold.ended
    requires '\n' !in value && (key == RELEASED || key == RETIRING)
    requires n <= |Line(key, value)|
    ensures Describes(text + Line(key, value)[..n], after)
  {
    KeyWhole(key);
    var part := Line(key, value)[..n];
    SplitTailAdded(text, part, '\n');
    assert part != "" ==> part[0] == key[0];
  }

  lemma SignatureLanded(hold: Hold)
    ensures Describes(Record(HolderLine(hold.token)), hold)
  {
    TokenWhole(hold.token);
    SplitLineAdded("", HolderLine(hold.token), '\n');
    assert Split("", '\n') == [""];
    assert "" + Record(HolderLine(hold.token)) == Record(HolderLine(hold.token));
    assert [""][..0] == [];
  }

  lemma TokenWhole(token: Token)
    ensures '\n' !in HolderLine(token) && '=' !in token
  {
    assert forall i | 0 <= i < 32 :: token[i] != '\n' && token[i] != '=';
  }

  /** However short a read falls of a described file, it shows whole lines of that file and no other. */
  lemma PrefixDescribed(text: string, hold: Hold, n: nat)
    requires DescribedLines(text, hold) && n <= |text|
    ensures Unsigned(text[..n]) || DescribedLines(text[..n], hold)
  {
    var p, q := Split(text[..n], '\n'), Split(text[n..], '\n');
    assert text == text[..n] + text[n..];
    SplitConcat(text[..n], text[n..], '\n');
    if |p| == 1 {
      SingleWhole(text[..n], '\n');
    } else {
      assert forall i | 0 <= i < |p| - 1 :: Glue(p, q)[i] == p[i];
    }
  }

  lemma {:induction false} SingleWhole<T>(s: seq<T>, d: T)
    requires |Split(s, d)| == 1
    ensures d !in s
  {
    if s != [] {
      SingleWhole(s[1..], d);
    }
  }

  // ----- A hold nothing was torn under reads back exactly

  /** The file of a hold whose every write landed whole, before it let go. */
  function CleanText(token: Token, notes: seq<int>): string
    decreases |notes|
  {
    if notes == [] then Record(HolderLine(token))
    else CleanText(token, notes[..|notes| - 1]) + Record(RetiringLine(notes[|notes| - 1]))
  }

  lemma FieldAdded(lines: seq<string>, key: string, value: string)
    requires '=' !in key
    ensures FieldsOf(lines + [Line(key, value)]) == FieldsOf(lines)[key := value]
  {
    assert (lines + [Line(key, value)])[..|lines|] == lines;
    assert Line(key, value) == key + ['='] + value;
    PartitionAt(key, value, '=');
  }

  lemma KeysApart()
    ensures HOLDER != RELEASED && HOLDER != RETIRING && RELEASED != RETIRING
    ensures '=' !in HOLDER && '=' !in RELEASED && '=' !in RETIRING
  {
    assert HOLDER[0] == 'h' && RELEASED[2] == 'l' && RETIRING[2] == 't';
  }

  lemma WholeLineRead(text: string, key: string, value: string)
    requires Split(text, '\n')[|Split(text, '\n')| - 1] == ""
    requires key in {HOLDER, RELEASED, RETIRING} && '\n' !in value
    ensures Read(text + Record(Line(key, value))) == Left(Read(text).fields[key := value], false)
    ensures var lines := Split(text + Record(Line(key, value)), '\n'); lines[|lines| - 1] == ""
  {
    hide Split, FieldsOf;
    KeysApart();
    var lines := Split(text, '\n');
    var line := Line(key, value);
    assert '\n' !in line by { KeyWhole(key); }
    SplitLineAdded(text, line, '\n');
    assert "" + line == line;
    var added := Split(text + Record(line), '\n');
    assert added == lines[..|lines| - 1] + [line, ""];
    assert added[..|added| - 1] == lines[..|lines| - 1] + [line];
    FieldAdded(lines[..|lines| - 1], key, value);
  }

  lemma EmptyRead()
    ensures Split("", '\n') == [""] && Read("") == Left(map[], false)
  {
    assert [""][..0] == [];
  }

  lemma CleanTextIs(token: Token, notes: seq<int>)
    ensures CleanText(token, notes) ==
              if notes == [] then Record(HolderLine(token))
              else CleanText(token, notes[..|notes| - 1]) + Record(RetiringLine(notes[|notes| - 1]))
  {
  }

  lemma SpelledLine(cycle: int)
    ensures '\n' !in SpellInt(cycle)
  {
    SpellIntDecimal(cycle);
  }

  lemma RetiringIsKey()
    ensures RETIRING in {HOLDER, RELEASED, RETIRING}
  {
  }

  lemma RetiringPut(left: Left, value: string)
    ensures var noted := Left(left.fields[RETIRING := value], false);
            && noted.Get(HOLDER) == left.Get(HOLDER) && noted.Get(RETIRING) == value
            && (RELEASED in noted.fields <==> RELEASED in left.fields)
  {
    KeysApart();
  }

  /** One more whole note changes what is noted and nothing else. */
  lemma NotedRead(text: string, cycle: int)
    requires Split(text, '\n')[|Split(text, '\n')| - 1] == ""
    ensures var noted := text + Record(RetiringLine(cycle));
            && Split(noted, '\n')[|Split(noted, '\n')| - 1] == "" && !Read(noted).unfinished
            && Read(noted).Get(HOLDER) == Read(text).Get(HOLDER)
            && (RELEASED in Read(noted).fields <==> RELEASED in Read(text).fields)
            && Read(noted).Get(RETIRING) == SpellInt(cycle)
  {
    hide Split, Read, Record, Line, Left.Get, SpellInt;
    SpelledLine(cycle);
    RetiringIsKey();
    WholeLineRead(text, RETIRING, SpellInt(cycle));
    RetiringPut(Read(text), SpellInt(cycle));
  }

  lemma {:induction false} CleanRead(token: Token, notes: seq<int>)
    ensures var text := CleanText(token, notes);
            && Split(text, '\n')[|Split(text, '\n')| - 1] == ""
            && Read(text).Get(HOLDER) == token && RELEASED !in Read(text).fields && !Read(text).unfinished
            && (if notes == [] then RETIRING !in Read(text).fields
                else Read(text).Get(RETIRING) == SpellInt(notes[|notes| - 1]))
    decreases |notes|
  {
    hide Split, Read, CleanText;
    CleanTextIs(token, notes);
    if notes == [] {
      EmptyRead();
      KeysApart();
      TokenWhole(token);
      WholeLineRead("", HOLDER, token);
      assert "" + Record(HolderLine(token)) == Record(HolderLine(token));
    } else {
      CleanRead(token, notes[..|notes| - 1]);
      NotedRead(CleanText(token, notes[..|notes| - 1]), notes[|notes| - 1]);
    }
  }

  /** A contender reads the latest whole note of a standing hold. */
  lemma CleanNoteReadsBack(token: Token, notes: seq<int>, cycle: nat)
    ensures NotedRetirement(CleanText(token, notes + [cycle])) == Some(cycle)
  {
    CleanRead(token, notes + [cycle]);
    assert (notes + [cycle])[|notes + [cycle]| - 1] == cycle;
    SpellIntDecimal(cycle);
  }

  /** A hold with nothing noted, or one whose release is stamped, tells a contender of no cycle. */
  lemma NothingNoted(token: Token, notes: seq<int>, moment: nat)
    ensures NotedRetirement(CleanText(token, [])) == None
    ensures NotedRetirement(CleanText(token, notes) + Record(ReleasedLine(moment))) == None
  {
    CleanRead(token, []);
    assert !IsDecimal("");
    CleanRead(token, notes);
    assert '\n' !in Spell(moment);
    WholeLineRead(CleanText(token, notes), RELEASED, Spell(moment));
  }

  /** A hold that let go whole is found by another process as ending at its own stamp, and by its own as nothing. */
  lemma CleanReleaseReadsBack(token: Token, notes: seq<int>, moment: nat, reader: Token, now: nat)
    ensures var left := Read(CleanText(token, notes) + Record(ReleasedLine(moment)));
            left.EndedElsewhere(reader, now) == if reader == token then None else Some(moment)
    ensures Read(CleanText(token, notes)).EndedElsewhere(reader, now) == if reader == token then None else Some(now)
  {
    CleanRead(token, notes);
    assert '\n' !in Spell(moment);
    WholeLineRead(CleanText(token, notes), RELEASED, Spell(moment));
  }
}
