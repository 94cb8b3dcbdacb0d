/**
 A `.env` as two owners read it: the configuration, which loads it into an environment, and a setup, which
 reads and edits one setting of its text. They share no code, only the format.
 */
module DotenvText {
  import opened Text
  import opened PythonText
  import opened PythonLines

  // ----- Stripping

  lemma {:induction false} SkipAhead(blank: string, t: string)
    requires Blank(blank)
    ensures Skip(blank + t) == Skip(t)
  {
    if blank == "" {
      assert blank + t == t;
    } else {
      assert (blank + t)[1..] == blank[1..] + t;
      SkipAhead(blank[1..], t);
    }
  }

  lemma {:induction false} TrimBehind(t: string, blank: string)
    requires Blank(blank)
    ensures Trim(t + blank) == Trim(t)
    decreases |blank|
  {
    if blank == "" {
      assert t + blank == t;
    } else {
      assert (t + blank)[..|t + blank| - 1] == t + blank[..|blank| - 1];
      TrimBehind(t, blank[..|blank| - 1]);
    }
  }

  lemma {:induction false} SkipBlank(t: string)
    requires Blank(t)
    ensures Skip(t) == "" && Trim(t) == ""
  {
    SkipAhead(t, "");
    assert t + "" == t;
    TrimBehind("", t);
    assert "" + t == t;
  }

  lemma {:induction false} SkipThrough(t: string, blank: string)
    requires Skip(t) != ""
    ensures Skip(t + blank) == Skip(t) + blank
  {
    if IsSpace(t[0]) {
      assert (t + blank)[1..] == t[1..] + blank;
      SkipThrough(t[1..], blank);
    }
  }

  lemma BlankSkipped(t: string)
    requires Skip(t) == ""
    ensures Blank(t)
  {
    SkipIs(t);
    assert t[..|t|] == t;
  }

  /** Blanks at either end are nothing to what stripping leaves. */
  lemma StripAround(ahead: string, t: string, behind: string)
    requires Blank(ahead) && Blank(behind)
    ensures Strip(ahead + t + behind) == Strip(t)
  {
    assert ahead + t + behind == ahead + (t + behind);
    SkipAhead(ahead, t + behind);
    if Skip(t) == "" {
      BlankSkipped(t);
      assert Blank(t + behind);
      SkipBlank(t + behind);
    } else {
      SkipThrough(t, behind);
      TrimBehind(Skip(t), behind);
    }
  }

  /** A text is what stripping leaves of it, and blanks around that. */
  lemma StripIs(t: string) returns (ahead: string, behind: string)
    ensures Blank(ahead) && Blank(behind) && t == ahead + Strip(t) + behind
  {
    hide Skip, Trim, Blank;
    SkipIs(t);
    var skipped := Skip(t);
    ahead := t[..|t| - |skipped|];
    behind := skipped[|Trim(skipped)|..];
  }

  /** A text with no blank at either end: what stripping leaves as it is. */
  predicate Stripped(t: string) { t != "" ==> !IsSpace(t[0]) && !IsSpace(t[|t| - 1]) }

  lemma StripSame(t: string)
    ensures Strip(t) == t <==> Stripped(t)
  {
    if Strip(t) == t {
      assert |Skip(t)| >= |t|;
      SkipIs(t);
      assert t[0..] == t;
    }
  }

  lemma StripStripped(t: string)
    ensures Stripped(Strip(t)) && Strip(Strip(t)) == Strip(t)
  {
    var s := Strip(t);
    if s != "" {
      assert s[0] == Skip(t)[0];
    }
    StripSame(s);
  }

  // ----- Splitting at the first `=`

  lemma {:induction false} AfterAhead(ahead: string, t: string, d: char)
    requires d !in ahead
    ensures After(ahead + t, d) == After(t, d) && Before(ahead + t, d) == ahead + Before(t, d)
  {
    if ahead == "" {
      assert ahead + t == t && ahead + Before(t, d) == Before(t, d);
    } else {
      assert (ahead + t)[1..] == ahead[1..] + t;
      AfterAhead(ahead[1..], t, d);
    }
  }

  lemma {:induction false} AfterBehind(t: string, behind: string, d: char)
    requires d !in behind
    ensures After(t + behind, d) == if d in t then After(t, d) + behind else ""
    ensures Before(t + behind, d) == if d in t then Before(t, d) else t + behind
  {
    if t == "" {
      assert t + behind == behind;
      AfterAhead(behind, "", d);
      assert behind + "" == behind;
    } else if t[0] != d {
      assert (t + behind)[1..] == t[1..] + behind;
      AfterBehind(t[1..], behind, d);
    } else {
      assert (t + behind)[1..] == t[1..] + behind;
    }
  }

  lemma {:induction false} NoDelimiter(t: string, d: char)
    requires d !in t
    ensures After(t, d) == "" && Before(t, d) == t
  {
    AfterAhead(t, "", d);
    assert t + "" == t;
  }

  /** Blanks around a text are nothing to what stands on either side of a delimiter, once that is stripped. */
  lemma StripParts(t: string, d: char)
    requires !IsSpace(d)
    ensures Strip(After(Strip(t), d)) == Strip(After(t, d))
    ensures Strip(Before(Strip(t), d)) == Strip(Before(t, d))
  {
    hide Strip, Before, After;
    var ahead, behind := StripIs(t);
    var s := Strip(t);
    assert t == ahead + (s + behind);
    BlankWithout(ahead, d);
    BlankWithout(behind, d);
    AfterAhead(ahead, s + behind, d);
    AfterBehind(s, behind, d);
    if d in s {
      StripAround("", After(s, d), behind);
      assert "" + After(s, d) + behind == After(s, d) + behind;
      StripAround(ahead, Before(s, d), "");
      assert ahead + Before(s, d) + "" == ahead + Before(s, d);
    } else {
      NoDelimiter(s, d);
      StripAround(ahead, s, behind);
      assert ahead + s + behind == ahead + (s + behind);
    }
  }

  lemma BlankWithout(blank: string, d: char)
    requires Blank(blank) && !IsSpace(d)
    ensures d !in blank
  {
  }

  // ----- A setup's reading

  predicate IsQuote(c: char) { c == '\'' || c == '"' }

  /** `_key`: what a line sets, where it sets anything. */
  function Key(line: string): Option<string> {
    var spelled := Strip(line);
    if spelled == "" || spelled[0] == '#' then None else Some(Strip(Before(spelled, '=')))
  }

  /** Whether a value begins and ends on the same quote, two characters at the least. */
  predicate Quoted(spelled: string) {
    |spelled| >= 2 && IsQuote(spelled[0]) && spelled[|spelled| - 1] == spelled[0]
  }

  function Unquoted(spelled: string): string {
    if Quoted(spelled) then spelled[1..|spelled| - 1] else spelled
  }

  function Spelled(line: string): string { Unquoted(Strip(After(line, '='))) }

  /** The first line setting `key`. */
  function FirstSetting(lines: seq<string>, key: string): (at: Option<nat>)
    ensures at.Some? ==> at.value < |lines| && Key(lines[at.value]) == Some(key)
  {
    if lines == [] then None
    else if Key(lines[0]) == Some(key) then Some(0)
    else
      var at := FirstSetting(lines[1..], key);
      if at.None? then None else Some(at.value + 1)
  }

  function ReadSetting(text: string, key: string): Option<string> {
    var lines := SplitLines(text);
    var at := FirstSetting(lines, key);
    if at.None? then None else Some(Spelled(lines[at.value]))
  }

  // ----- The configuration's reading

  type Environ = map<string, string>

  predicate Secret(key: string) {
    key == "GITHUB_TOKEN" || key == "GH_TOKEN" || key == "GITHUB_PAT" || key == "GH_ENTERPRISE_TOKEN"
    || key == "GITHUB_ENTERPRISE_TOKEN" || key == "GIT_TOKEN"
  }

  function StripQuotes(value: string): string {
    var stripped := Strip(value);
    if |stripped| < 2 then stripped
    else if IsQuote(stripped[0]) && stripped[|stripped| - 1] == stripped[0] then stripped[1..|stripped| - 1]
    else stripped
  }

  /** `_load_entry`. */
  function Loaded(environ: Environ, line: string): Environ {
    var stripped := Strip(line);
    if stripped == "" || stripped[0] == '#' then environ
    else
      var key := Strip(Before(stripped, '='));
      if Secret(key) || key in environ then environ
      else environ[key := StripQuotes(After(stripped, '='))]
  }

  function LoadedLines(environ: Environ, lines: seq<string>): Environ
    decreases lines
  {
    if lines == [] then environ else LoadedLines(Loaded(environ, lines[0]), lines[1..])
  }

  /** `load_dotenv` over a file's text, its line ends read as newlines. */
  method LoadDotenv(text: string, environ: Environ) returns (loaded: Environ)
    ensures loaded == LoadedLines(environ, SplitLines(Universal(text)))
  {
    hide Loaded;
    loaded := environ;
    var lines := SplitLines(Universal(text));
    var i := 0;
    while i < |lines|
      invariant 0 <= i <= |lines|
      invariant LoadedLines(environ, lines) == LoadedLines(loaded, lines[i..])
    {
      loaded := Loaded(loaded, lines[i]);
      i := i + 1;
    }
  }

  // ----- The two readings agree

  lemma LoadedIs(environ: Environ, line: string)
    ensures Loaded(environ, line)
         == (var key := Key(line);
             if key.None? || Secret(key.value) || key.value in environ then environ
             else environ[key.value := Spelled(line)])
  {
    hide Strip, Before, After;
    StripParts(line, '=');
  }

  /** Loading lines gives each key not there before what the first line setting it spells, and nothing else. */
  lemma {:induction false} LoadedFirst(environ: Environ, lines: seq<string>, key: string)
    ensures key in environ ==> key in LoadedLines(environ, lines) && LoadedLines(environ, lines)[key] == environ[key]
    ensures key !in environ ==>
              (key in LoadedLines(environ, lines) <==> !Secret(key) && FirstSetting(lines, key).Some?)
    ensures key !in environ && key in LoadedLines(environ, lines) ==>
              LoadedLines(environ, lines)[key] == Spelled(lines[FirstSetting(lines, key).value])
    decreases lines
  {
    hide Key, Spelled, Loaded, Secret;
    if lines != [] {
      LoadedIs(environ, lines[0]);
      LoadedFirst(Loaded(environ, lines[0]), lines[1..], key);
    }
  }

  /**
   On every text and every key that is no secret, what the configuration loads is what a setup reads, unless the
   environment held the key already; a secret key it never loads.
   */
  lemma ReadersAgree(text: string, environ: Environ, key: string)
    ensures var loaded := LoadedLines(environ, SplitLines(Universal(text)));
            && (key in environ ==> key in loaded && loaded[key] == environ[key])
            && (key !in environ && Secret(key) ==> key !in loaded)
            && (key !in environ && !Secret(key) ==>
                  (if key in loaded then Some(loaded[key]) else None) == ReadSetting(text, key))
  {
    hide Key, Spelled, Loaded, Secret;
    UniversalLines(text);
    LoadedFirst(environ, SplitLines(text), key);
  }

  // ----- Editing

  /** A value a line can be written with and read back from. */
  predicate Writable(setting: string) {
    !Quoted(setting) && (SplitLines(setting) == [] || SplitLines(setting) == [setting]) && Strip(setting) == setting
  }

  function Assignment(key: string, setting: string): string { key + ("=" + setting) }

  datatype Edit = Edited(text: string) | NoLine | Unwritable

  /** `assign`: the text with the line in effect for `key` setting `setting`. */
  function AssignedText(text: string, key: string, setting: string): Edit {
    var lines := Lines(text);
    var at := FirstSetting(Contents(lines), key);
    if at.None? then NoLine
    else if !Writable(setting) then Unwritable
    else Edited(Flat(Changed(lines, at.value, Assignment(key, setting))))
  }

  lemma {:induction false} FirstSettingIs(lines: seq<string>, key: string, k: nat)
    requires k <= |lines|
    ensures FirstSetting(lines, key) == Some(k)
        <==> k < |lines| && Key(lines[k]) == Some(key) && forall i | 0 <= i < k :: Key(lines[i]) != Some(key)
    ensures FirstSetting(lines, key).None? <==> forall i | 0 <= i < |lines| :: Key(lines[i]) != Some(key)
  {
    hide Key;
    if lines != [] && Key(lines[0]) != Some(key) {
      FirstSettingIs(lines[1..], key, if k > 0 then k - 1 else 0);
      assert forall i | 1 <= i < |lines| :: lines[i] == lines[1..][i - 1];
      assert forall i | 0 <= i < |lines[1..]| :: lines[1..][i] == lines[i + 1];
    }
  }

  method Assign(text: string, key: string, setting: string) returns (edit: Edit)
    ensures edit == AssignedText(text, key, setting)
  {
    hide Key, Writable, Lines, Flat;
    var lines := Lines(text);
    var index := 0;
    while index < |lines|
      invariant 0 <= index <= |lines|
      invariant forall i | 0 <= i < index :: Key(lines[i].content) != Some(key)
    {
      if Key(lines[index].content) == Some(key) {
        FirstSettingIs(Contents(lines), key, index);
        if !Writable(setting) {
          return Unwritable;
        }
        lines := lines[index := lines[index].(content := Assignment(key, setting))];
        return Edited(Flat(lines));
      }
      index := index + 1;
    }
    FirstSettingIs(Contents(lines), key, 0);
    return NoLine;
  }

  // ----- What an edit leaves

  lemma {:induction false} OneLine(t: string)
    ensures SplitLines(t) == [t] <==> t != "" && NoBreak(t)
  {
    if t != "" {
      if NoBreak(t) {
        WithinSplit(t);
        NoneSplit(t[1..]);
        OneLine(t[1..]);
        assert t == [t[0]] + t[1..];
      } else {
        SplitLinesAre(t);
        LinesKept(t);
        if |Lines(t)| > 0 {
          LinesClean(Lines(t), 0);
        }
      }
    }
  }

  lemma WritableIs(setting: string)
    ensures Writable(setting) <==> NoBreak(setting) && Stripped(setting) && !Quoted(setting)
  {
    hide SplitLines, Strip;
    OneLine(setting);
    NoneSplit(setting);
    StripSame(setting);
  }

  /** A key is what a stripped line begins with. */
  lemma KeyBegins(spelled: string)
    requires Stripped(spelled)
    ensures Strip(Before(spelled, '=')) <= Before(spelled, '=') <= spelled
  {
    hide Trim;
    var before := Before(spelled, '=');
    assert before != "" ==> before[0] == spelled[0];
    assert Skip(before) == before;
  }

  lemma StrippedWithin(line: string)
    requires NoBreak(line)
    ensures NoBreak(Strip(line))
  {
    hide Strip;
    var ahead, behind := StripIs(line);
    var s := Strip(line);
    assert forall i | 0 <= i < |s| :: s[i] == line[|ahead| + i];
  }

  /** What a line found to set a key tells of the key itself: it can be written back. */
  lemma KeyClean(line: string)
    requires Key(line).Some? && NoBreak(line)
    ensures var key := Key(line).value;
            Stripped(key) && '=' !in key && NoBreak(key) && (key != "" ==> key[0] != '#')
  {
    hide Strip, Stripped;
    var spelled := Strip(line);
    StripStripped(line);
    StripStripped(Before(spelled, '='));
    KeyBegins(spelled);
    StrippedWithin(line);
    var key := Strip(Before(spelled, '='));
    assert forall i | 0 <= i < |key| :: key[i] == spelled[i] && key[i] == Before(spelled, '=')[i];
  }

  /** The line written reads as it was meant. */
  lemma AssignmentReads(key: string, setting: string)
    requires Stripped(key) && '=' !in key && NoBreak(key) && (key != "" ==> key[0] != '#') && Writable(setting)
    ensures var line := Assignment(key, setting);
            line != "" && NoBreak(line) && Key(line) == Some(key) && Spelled(line) == setting
  {
    WritableIs(setting);
    var line := Assignment(key, setting);
    hide Before, After, Skip, Trim, SplitLines;
    AfterAhead(key, "=" + setting, '=');
    EqualsFirst(setting);
    StripSame(line);
    StripSame(key);
    StripSame(setting);
    assert key + "" == key;
    assert line[0] != '#';
    assert Unquoted(setting) == setting;
  }

  lemma EqualsFirst(setting: string)
    ensures Before("=" + setting, '=') == "" && After("=" + setting, '=') == setting
  {
    assert ("=" + setting)[1..] == setting;
  }

  /**
   An edit changes the line in effect and no other, in content or line end; the key then reads as the new setting,
   and every other key as before. It is refused exactly where no line sets the key or the setting would not read back.
   */
  lemma AssignChangesOne(text: string, key: string, setting: string)
    ensures AssignedText(text, key, setting).NoLine? <==> ReadSetting(text, key).None?
    ensures AssignedText(text, key, setting).Unwritable? <==> ReadSetting(text, key).Some? && !Writable(setting)
    ensures AssignedText(text, key, setting).Edited? ==>
              var after := AssignedText(text, key, setting).text;
              var at := FirstSetting(SplitLines(text), key);
              && at.Some? && at.value < |Lines(text)|
              && Lines(after) == Changed(Lines(text), at.value, Assignment(key, setting))
              && SplitLines(after) == SplitLines(text)[at.value := Assignment(key, setting)]
  {
    hide Key, Spelled, Writable, Lines, Flat, SplitLines, Kept;
    SplitLinesAre(text);
    LinesKept(text);
    var at := FirstSetting(SplitLines(text), key);
    if at.Some? && Writable(setting) {
      LinesClean(Lines(text), at.value);
      KeyClean(SplitLines(text)[at.value]);
      AssignmentReads(key, setting);
      var changed := Changed(Lines(text), at.value, Assignment(key, setting));
      ChangedKept(Lines(text), at.value, Assignment(key, setting));
      KeptLines(changed);
      SplitLinesAre(Flat(changed));
      assert Contents(changed) == Contents(Lines(text))[at.value := Assignment(key, setting)];
    }
  }

  lemma ChangedFirst(lines: seq<string>, key: string, line: string, other: string)
    requires FirstSetting(lines, key).Some? && Key(line) == Some(key)
    ensures FirstSetting(lines[FirstSetting(lines, key).value := line], other) == FirstSetting(lines, other)
  {
    hide Key;
    var k := FirstSetting(lines, key).value;
    var changed := lines[k := line];
    FirstSettingIs(lines, key, k);
    var found := FirstSetting(lines, other);
    if found.Some? {
      FirstSettingIs(lines, other, found.value);
      FirstSettingIs(changed, other, found.value);
    } else {
      FirstSettingIs(lines, other, 0);
      FirstSettingIs(changed, other, 0);
    }
  }

  /** What each key reads as after an edit: the edited one as the new setting, every other as before. */
  lemma AssignReads(text: string, key: string, setting: string, other: string)
    requires AssignedText(text, key, setting).Edited?
    ensures ReadSetting(AssignedText(text, key, setting).text, other)
         == if other == key then Some(setting) else ReadSetting(text, other)
  {
    AssignChangesOne(text, key, setting);
    var lines := SplitLines(text);
    var k := FirstSetting(lines, key).value;
    SplitLinesAre(text);
    LinesKept(text);
    LinesClean(Lines(text), k);
    hide Key, Spelled, Lines, Flat, SplitLines, Kept, Writable;
    KeyClean(lines[k]);
    AssignmentReads(key, setting);
    ChangedFirst(lines, key, Assignment(key, setting), other);
    var found := FirstSetting(lines, other);
    if other != key && found.Some? {
      assert found.value != k;
    }
  }

  // ----- What the loader takes

  lemma SecretExactly(key: string)
    ensures Secret(key) <==> key in {"GITHUB_TOKEN", "GH_TOKEN", "GITHUB_PAT", "GH_ENTERPRISE_TOKEN",
                                     "GITHUB_ENTERPRISE_TOKEN", "GIT_TOKEN"}
  {
  }

  /** A value without the blanks around it, and then without one pair of single or double quotes around that. */
  lemma StripQuotesExactly(value: string, inner: string)
    ensures Strip(value) == "'" + inner + "'" || Strip(value) == "\"" + inner + "\"" ==> StripQuotes(value) == inner
    ensures (forall quote, within :: quote in {'\'', '"'} ==> Strip(value) != [quote] + within + [quote]) ==>
              StripQuotes(value) == Strip(value)
  {
    hide Strip;
    var stripped := Strip(value);
    if |stripped| >= 2 && stripped[0] == stripped[|stripped| - 1] {
      assert stripped == [stripped[0]] + stripped[1..|stripped| - 1] + [stripped[0]];
    }
  }

  /** A line loads nothing where it is blank, a comment, names a secret or a key there already; else key and value. */
  lemma LoadedExactly(environ: Environ, line: string, rawKey: string, rawValue: string)
    requires '=' !in rawKey && (Strip(line) == rawKey + ("=" + rawValue) || (Strip(line) == rawKey && rawValue == ""))
    ensures Loaded(environ, line)
         == if Strip(line) == "" || Strip(line)[0] == '#' || Secret(Strip(rawKey)) || Strip(rawKey) in environ
            then environ
            else environ[Strip(rawKey) := StripQuotes(rawValue)]
  {
    hide Strip, Secret, StripQuotes;
    if Strip(line) == rawKey {
      NoneBehind(rawKey, '=');
    } else {
      assert Strip(line) == rawKey + ['='] + rawValue;
      PartitionAt(rawKey, rawValue, '=');
    }
  }

  lemma {:induction false} NoneBehind(t: string, d: char)
    requires d !in t
    ensures Before(t, d) == t && After(t, d) == ""
  {
    if t != "" {
      NoneBehind(t[1..], d);
    }
  }
}
