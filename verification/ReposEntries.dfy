/**
 A `REPOS` entry from the setup's side, and the whole value from the configuration's. The two sides
 share the format and no code.
 */
module ReposEntries {
  import opened Text
  import opened PythonText
  import opened PythonLines
  import opened Decimal
  import opened DotenvText
  import JsonNumbers

  const DEFAULT_REMOTE := "origin"

  /** `str.replace` of one character by a line feed. */
  function Newlined(t: string, d: char): (n: string)
    ensures |n| == |t| && forall i | 0 <= i < |t| :: n[i] == if t[i] == d then '\n' else t[i]
  {
    if t == "" then "" else [if t[0] == d then '\n' else t[0]] + Newlined(t[1..], d)
  }

  // ----- Writing

  /** `writable_field`: read back as a value is, the field is all that comes back, and stripping leaves it. */
  predicate WritableField(field: string) {
    SplitLines(Newlined(Newlined(field, '|'), ';')) == [field] && Strip(field) == field
  }

  datatype RepositoryEntry = RepositoryEntry(
    repository: string, clone: string, base: string, remote: string, limit: Option<int>)

  /** The `owner/name` a repository is given as. */
  predicate Shaped(repository: string) {
    var parts := Split(repository, '/');
    && |parts| == 2 && parts[0] != "" && parts[1] != ""
    && forall i | 0 <= i < |repository| :: IsNameChar(repository[i]) || repository[i] == '/'
  }

  /** The fields an entry is written with: the remote where it is not the default or a limit stands behind it. */
  function WrittenFields(e: RepositoryEntry): seq<string> {
    [e.repository, e.clone, e.base]
    + (if e.limit.Some? || e.remote != DEFAULT_REMOTE then [e.remote] else [])
    + (if e.limit.Some? then [SpellInt(e.limit.value)] else [])
  }

  /** An entry `render` writes: shaped, a limit of one or more that Python spells, and every field writable. */
  predicate Renders(e: RepositoryEntry) {
    && Shaped(e.repository)
    && (e.limit.Some? ==> e.limit.value >= 1 && JsonNumbers.Fits(e.limit.value))
    && forall i | 0 <= i < |WrittenFields(e)| :: WritableField(WrittenFields(e)[i])
  }

  function Joined(fields: seq<string>, d: char): string
    requires fields != []
  {
    if |fields| == 1 then fields[0] else fields[0] + ([d] + Joined(fields[1..], d))
  }

  /** `RepositoryEntry.render`, or none where it raises. */
  method Render(e: RepositoryEntry) returns (text: Option<string>)
    ensures text == if Renders(e) then Some(Joined(WrittenFields(e), '|')) else None
  {
    hide WritableField, Shaped, Joined;
    if !Shaped(e.repository) {
      return None;
    }
    var fields := [e.repository, e.clone, e.base];
    if e.limit.Some? || e.remote != DEFAULT_REMOTE {
      fields := fields + [e.remote];
    }
    if e.limit.Some? {
      if e.limit.value < 1 || !JsonNumbers.Fits(e.limit.value) {
        return None;
      }
      fields := fields + [SpellInt(e.limit.value)];
    }
    assert fields == WrittenFields(e);
    for i := 0 to |fields|
      invariant forall j | 0 <= j < i :: WritableField(fields[j])
    {
      if !WritableField(fields[i]) {
        return None;
      }
    }
    return Some(Joined(fields, '|'));
  }

  /**
   An entry is written exactly where its repository is an `owner/name` of the letters a name may have, its limit
   one or more and not too long to spell, and each field it is written with one that gives back what it holds.
   */
  lemma RendersExactly(e: RepositoryEntry)
    ensures Renders(e) <==>
              && OwnerAndName(e.repository)
              && (forall i | 0 <= i < |e.repository| :: var c := e.repository[i];
                    || 'a' <= c <= 'z' || 'A' <= c <= 'Z' || '0' <= c <= '9' || c == '_' || c == '.' || c == '-'
                    || c == '/')
              && (e.limit.Some? ==> e.limit.value > 0 && |Spell(e.limit.value)| <= 4300)
              && Clean(e.repository) && Clean(e.clone) && Clean(e.base)
              && (e.remote != "origin" || e.limit.Some? ==> Clean(e.remote))
  {
    hide WritableField, Clean, OwnerAndName, Split, Spell;
    SlugShaped(e.repository);
    forall i | 0 <= i < |WrittenFields(e)| {
      WritableIs(WrittenFields(e)[i]);
    }
    FieldsIn(e);
    if e.limit.Some? && e.limit.value > 0 {
      DigitsClean(Spell(e.limit.value));
    }
  }

  lemma DigitsClean(digits: string)
    requires AllDigits(digits)
    ensures Clean(digits)
  {
  }

  lemma FieldsIn(e: RepositoryEntry)
    ensures (forall i | 0 <= i < |WrittenFields(e)| :: Clean(WrittenFields(e)[i])) <==>
              && Clean(e.repository) && Clean(e.clone) && Clean(e.base)
              && (e.remote != "origin" || e.limit.Some? ==> Clean(e.remote))
              && (e.limit.Some? ==> Clean(SpellInt(e.limit.value)))
  {
    hide Clean, SpellInt;
    var fields := WrittenFields(e);
    assert fields[0] == e.repository && fields[1] == e.clone && fields[2] == e.base;
    assert e.limit.Some? ==> fields[3] == e.remote && fields[4] == SpellInt(e.limit.value);
    assert e.limit.None? && e.remote != "origin" ==> fields[3] == e.remote;
  }

  // ----- Parsing

  /** The lines of a value: it is split on `;` and line ends alike. */
  function Pieces(raw: string): seq<string> { SplitLines(Newlined(raw, ';')) }

  /** The entries among some lines: stripped, without the blank ones and the comments. */
  function EntryLines(pieces: seq<string>): seq<string> {
    if pieces == [] then []
    else
      var line := Strip(pieces[0]);
      (if line != "" && line[0] != '#' then [line] else []) + EntryLines(pieces[1..])
  }

  /** A line is an entry, its blanks taken off, unless that leaves nothing or a `#` ahead; one line at a time. */
  lemma EntriesAre(pieces: seq<string>, line: string)
    ensures EntryLines([]) == []
    ensures EntryLines([line] + pieces)
         == (if Strip(line) == "" || Strip(line)[0] == '#' then [] else [Strip(line)]) + EntryLines(pieces)
  {
    hide Strip;
    assert ([line] + pieces)[1..] == pieces;
  }

  function StripAll(pieces: seq<string>): (stripped: seq<string>)
    ensures |stripped| == |pieces| && forall i | 0 <= i < |pieces| :: stripped[i] == Strip(pieces[i])
  {
    if pieces == [] then [] else [Strip(pieces[0])] + StripAll(pieces[1..])
  }

  datatype EnvEntry = EnvEntry(slug: string, root: string, base: string, remote: string, limit: Option<string>)

  /** `parse_repo_entry`, or none where it aborts. */
  function ParseEntry(line: string): Option<EnvEntry> {
    var parts := StripAll(Split(line, '|'));
    if !(3 <= |parts| <= 5) then None
    else
      var remote := if |parts| == 3 then DEFAULT_REMOTE else parts[3];
      var slug := Split(parts[0], '/');
      if remote == "" || |slug| != 2 || slug[0] == "" || slug[1] == "" || parts[1] == "" || parts[2] == "" then None
      else Some(EnvEntry(parts[0], parts[1], parts[2], remote, if |parts| == 5 then Some(parts[4]) else None))
  }

  /** Digits with single underscores between them. */
  predicate Grouped(t: string) {
    && t != "" && IsDigit(t[0]) && IsDigit(t[|t| - 1])
    && (forall i | 0 <= i < |t| :: IsDigit(t[i]) || t[i] == '_')
    && (forall i | 0 < i < |t| :: t[i] == '_' ==> t[i - 1] != '_')
  }

  function Ungrouped(t: string): (digits: string)
    requires forall i | 0 <= i < |t| :: IsDigit(t[i]) || t[i] == '_'
    ensures forall i | 0 <= i < |digits| :: IsDigit(digits[i])
  {
    if t == "" then "" else (if t[0] == '_' then [] else [t[0]]) + Ungrouped(t[1..])
  }

  /** `int` of a stripped field. */
  function ReadInt(t: string): Option<int> {
    var digits := if t != "" && (t[0] == '+' || t[0] == '-') then t[1..] else t;
    if !Grouped(digits) || |Ungrouped(digits)| > JsonNumbers.MAX_DIGITS then None
    else if t[0] == '-' then Some(0 - Value(Ungrouped(digits)))
    else Some(Value(Ungrouped(digits)))
  }

  function ParseLimit(raw: Option<string>, byDefault: int): Option<int> {
    if raw.None? then Some(byDefault)
    else
      var limit := ReadInt(raw.value);
      if limit.None? || limit.value < 1 then None else limit
  }

  datatype RepoSpec = RepoSpec(slug: string, root: string, base: string, remote: string, limit: int)

  /** What one entry's line parses to, duplicates aside. */
  function SpecOf(line: string, byDefault: int): Option<RepoSpec> {
    var entry := ParseEntry(line);
    if entry.None? then None
    else
      var limit := ParseLimit(entry.value.limit, byDefault);
      if limit.None? then None
      else Some(RepoSpec(entry.value.slug, entry.value.root, entry.value.base, entry.value.remote, limit.value))
  }

  function ParseLines(lines: seq<string>, seen: set<string>, byDefault: int): Option<seq<RepoSpec>> {
    if lines == [] then Some([])
    else
      var spec := SpecOf(lines[0], byDefault);
      if spec.None? || spec.value.slug in seen then None
      else
        var rest := ParseLines(lines[1..], seen + {spec.value.slug}, byDefault);
        if rest.None? then None else Some([spec.value] + rest.value)
  }

  function Entries(raw: string): seq<string> { EntryLines(Pieces(raw)) }

  /** What the entries of a value parse to, whether or not there are any. */
  function ParsedEntries(raw: string, byDefault: int): Option<seq<RepoSpec>> { ParseLines(Entries(raw), {}, byDefault) }

  /** `parse_repos_env`, or none where it aborts: over no entry at all too. */
  function ParseRepos(raw: string, byDefault: int): Option<seq<RepoSpec>> {
    var specs := ParsedEntries(raw, byDefault);
    if specs == Some([]) then None else specs
  }

  /** A value is parsed exactly where it has an entry, every entry parses, and no two are of one repository. */
  lemma ParsedExactly(raw: string, byDefault: int, specs: seq<RepoSpec>)
    ensures ParseRepos(raw, byDefault) == Some(specs) <==>
              && specs != [] && |specs| == |Entries(raw)|
              && (forall i | 0 <= i < |specs| :: SpecOf(Entries(raw)[i], byDefault) == Some(specs[i]))
              && forall i, j | 0 <= i < j < |specs| :: specs[i].slug != specs[j].slug
  {
    hide SpecOf, Entries;
    LinesParse(Entries(raw), {}, byDefault, specs);
  }

  lemma {:induction false} LinesParse(lines: seq<string>, seen: set<string>, byDefault: int, specs: seq<RepoSpec>)
    ensures ParseLines(lines, seen, byDefault) == Some(specs) <==>
              && |specs| == |lines|
              && (forall i | 0 <= i < |specs| :: SpecOf(lines[i], byDefault) == Some(specs[i]))
              && (forall i, j | 0 <= i < j < |specs| :: specs[i].slug != specs[j].slug)
              && forall i | 0 <= i < |specs| :: specs[i].slug !in seen
  {
    hide SpecOf;
    if lines != [] && specs != [] {
      var slug := specs[0].slug;
      LinesParse(lines[1..], seen + {slug}, byDefault, specs[1..]);
      assert specs == [specs[0]] + specs[1..];
    }
  }

  /** An entry's line parses exactly where it has three to five fields, of which the named ones are some. */
  lemma EntryExactly(line: string)
    ensures var entry, parts := ParseEntry(line), Split(line, '|');
            && (entry.Some? <==>
                  && 3 <= |parts| <= 5
                  && OwnerAndName(Strip(parts[0])) && Strip(parts[1]) != "" && Strip(parts[2]) != ""
                  && (|parts| > 3 ==> Strip(parts[3]) != ""))
            && (entry.Some? ==>
                  entry.value == EnvEntry(Strip(parts[0]), Strip(parts[1]), Strip(parts[2]),
                                          if |parts| == 3 then "origin" else Strip(parts[3]),
                                          if |parts| < 5 then None else Some(Strip(parts[4]))))
  {
    hide Strip, Split, OwnerAndName;
    var parts := Split(line, '|');
    if |parts| >= 3 {
      SlugShaped(Strip(parts[0]));
    }
  }

  /** `owner/name`, both of them some and neither with a slash. */
  ghost predicate OwnerAndName(slug: string) {
    exists owner, name :: slug == owner + ("/" + name) && owner != "" && name != "" && '/' !in owner && '/' !in name
  }

  lemma SlugShaped(slug: string)
    ensures var parts := Split(slug, '/');
            |parts| == 2 && parts[0] != "" && parts[1] != "" <==> OwnerAndName(slug)
  {
    hide Split;
    var parts := Split(slug, '/');
    if OwnerAndName(slug) {
      var owner, name :|
        slug == owner + ("/" + name) && owner != "" && name != "" && '/' !in owner && '/' !in name;
      assert slug == owner + (['/'] + name);
      SplitFirst(owner, name, '/');
      SplitWhole(name, '/');
    }
    if |parts| == 2 && parts[0] != "" && parts[1] != "" {
      TwoPieces(slug);
      assert slug == parts[0] + ("/" + parts[1]);
    }
  }

  lemma TwoPieces(slug: string)
    requires |Split(slug, '/')| == 2
    ensures var parts := Split(slug, '/');
            slug == parts[0] + (['/'] + parts[1]) && '/' !in parts[0] && '/' !in parts[1]
  {
    hide Split, Before, After;
    if '/' !in slug {
      SplitWhole(slug, '/');
    } else {
      SplitAhead(slug, '/');
      var tail := After(slug, '/');
      if '/' in tail {
        SplitAhead(tail, '/');
        SplitSome(After(tail, '/'), '/');
      } else {
        SplitWhole(tail, '/');
      }
    }
  }

  lemma SplitSome(t: string, d: char)
    ensures Split(t, d) != []
  {
  }

  /** What a text with a delimiter in it splits into: what stands ahead of the first, and what the rest does. */
  lemma SplitAhead(t: string, d: char)
    requires d in t
    ensures t == Before(t, d) + ([d] + After(t, d)) && d !in Before(t, d)
    ensures Split(t, d) == [Before(t, d)] + Split(After(t, d), d)
  {
    hide Split;
    BeforeAfter(t, d);
    BeforeClear(t, d);
    assert t == Before(t, d) + ([d] + After(t, d));
    SplitFirst(Before(t, d), After(t, d), d);
  }

  lemma {:induction false} BeforeClear(t: string, d: char)
    ensures d !in Before(t, d)
  {
    if t != "" && t[0] != d {
      BeforeClear(t[1..], d);
    }
  }

  /** A limit is the default where none is written, and otherwise an integer of one or more as `int` reads it. */
  lemma LimitExactly(raw: Option<string>, byDefault: int)
    ensures raw.None? ==> ParseLimit(raw, byDefault) == Some(byDefault)
    ensures raw.Some? ==>
              var n := ReadInt(raw.value);
              ParseLimit(raw, byDefault) == if n.Some? && n.value > 0 then n else None
    ensures forall line :: SpecOf(line, byDefault) ==
              match ParseEntry(line)
              case None => None
              case Some(entry) =>
                if ParseLimit(entry.limit, byDefault).None? then None
                else Some(RepoSpec(entry.slug, entry.root, entry.base, entry.remote,
                                   ParseLimit(entry.limit, byDefault).value))
  {
    hide ParseEntry, ReadInt;
  }

  /** Digits in runs, one underscore between one run and the next. */
  predicate Runs(pieces: seq<string>) {
    forall i | 0 <= i < |pieces| :: AllDigits(pieces[i])
  }

  predicate AllDigits(t: string) { t != "" && forall i | 0 <= i < |t| :: IsDigit(t[i]) }

  function Together(pieces: seq<string>): (t: string)
    ensures Runs(pieces) ==> forall i | 0 <= i < |t| :: IsDigit(t[i])
  {
    if pieces == [] then "" else
      assert Runs(pieces) ==> Runs(pieces[1..]) && AllDigits(pieces[0]);
      pieces[0] + Together(pieces[1..])
  }

  /** `int` takes a sign at most, and digits in runs parted by single underscores, no more of them than it converts. */
  lemma ReadIntExactly(sign: string, digits: string)
    requires sign in {"", "+", "-"} && (sign == "" ==> digits == "" || (digits[0] != '+' && digits[0] != '-'))
    ensures var pieces, n := Split(digits, '_'), ReadInt(sign + digits);
            && (n.Some? <==> Runs(pieces) && |Together(pieces)| <= 4300)
            && (n.Some? ==> n.value == if sign == "-" then 0 - Value(Together(pieces)) else Value(Together(pieces)))
  {
    hide Split, Value, Grouped, Ungrouped, Runs, Together;
    GroupedRuns(digits);
    assert sign == "" ==> sign + digits == digits;
    assert sign != "" ==> (sign + digits)[1..] == digits;
    if digits == "" {
      NotGrouped();
    }
  }

  lemma NotGrouped()
    ensures !Grouped("")
  {
  }

  lemma {:induction false} GroupedRuns(t: string)
    ensures Grouped(t) <==> Runs(Split(t, '_'))
    ensures Grouped(t) ==> Ungrouped(t) == Together(Split(t, '_'))
    decreases |t|
  {
    hide Split, Grouped, Ungrouped, Runs, Together;
    if '_' !in t {
      SplitWhole(t, '_');
      OneRun(t);
    } else {
      var head, tail := Before(t, '_'), After(t, '_');
      SplitAhead(t, '_');
      GroupedRuns(tail);
      RunAhead(head, tail);
      RunsAhead(head, Split(tail, '_'));
    }
  }

  lemma OneRun(t: string)
    requires '_' !in t
    ensures Grouped(t) <==> Runs([t])
    ensures Grouped(t) ==> Ungrouped(t) == Together([t])
  {
    hide Ungrouped;
    assert Runs([t]) <==> AllDigits([t][0]);
    if Grouped(t) {
      UngroupedSame(t);
      assert [t][1..] == [];
    }
  }

  lemma RunAhead(head: string, tail: string)
    requires '_' !in head
    ensures var t := head + (['_'] + tail);
            && (Grouped(t) <==> AllDigits(head) && Grouped(tail))
            && (Grouped(t) ==> Ungrouped(t) == head + Ungrouped(tail))
  {
    hide Ungrouped;
    var t := head + (['_'] + tail);
    if Grouped(t) {
      assert t[|head|] == '_';
      assert head != "" && tail != "" && t[|head| + 1] == tail[0];
      forall i | 0 <= i < |head| ensures IsDigit(head[i]) {
        assert t[i] == head[i];
      }
      forall i | 0 <= i < |tail|
        ensures IsDigit(tail[i]) || tail[i] == '_'
        ensures i > 0 && tail[i] == '_' ==> tail[i - 1] != '_'
      {
        assert t[|head| + 1 + i] == tail[i];
        assert i > 0 ==> t[|head| + i] == tail[i - 1];
      }
    }
    if AllDigits(head) && Grouped(tail) {
      UngroupedBehind(head, tail);
    }
  }

  lemma {:induction false} UngroupedBehind(head: string, tail: string)
    requires forall i | 0 <= i < |head| :: IsDigit(head[i])
    requires forall i | 0 <= i < |tail| :: IsDigit(tail[i]) || tail[i] == '_'
    ensures Ungrouped(head + (['_'] + tail)) == head + Ungrouped(tail)
  {
    var t := head + (['_'] + tail);
    if head == "" {
      assert t[1..] == tail;
    } else {
      UngroupedBehind(head[1..], tail);
      assert t[1..] == head[1..] + (['_'] + tail) && t[0] == head[0];
    }
  }

  lemma RunsAhead(head: string, pieces: seq<string>)
    ensures var all := [head] + pieces;
            && (Runs(all) <==> AllDigits(head) && Runs(pieces))
            && Together(all) == head + Together(pieces)
  {
    var all := [head] + pieces;
    assert all[0] == head && all[1..] == pieces;
    if Runs(all) {
      forall i | 0 <= i < |pieces| ensures AllDigits(pieces[i]) {
        assert all[i + 1] == pieces[i];
      }
    }
  }

  lemma {:induction false} ParseJoined(a: seq<string>, b: seq<string>, seen: set<string>, byDefault: int)
    ensures ParseLines(a + b, seen, byDefault)
         == (var first := ParseLines(a, seen, byDefault);
             if first.None? then None
             else
               var rest := ParseLines(b, seen + Slugs(first.value), byDefault);
               if rest.None? then None else Some(first.value + rest.value))
  {
    hide SpecOf;
    if a == [] {
      assert a + b == b && seen + Slugs([]) == seen;
      var all := ParseLines(b, seen, byDefault);
      assert all.Some? ==> [] + all.value == all.value;
    } else {
      var spec := SpecOf(a[0], byDefault);
      assert (a + b)[1..] == a[1..] + b;
      if spec.Some? && spec.value.slug !in seen {
        var more := seen + {spec.value.slug};
        ParseJoined(a[1..], b, more, byDefault);
        var rest := ParseLines(a[1..], more, byDefault);
        if rest.Some? {
          SlugsFirst(spec.value, rest.value);
          assert more + Slugs(rest.value) == seen + Slugs([spec.value] + rest.value);
          var last := ParseLines(b, more + Slugs(rest.value), byDefault);
          if last.Some? {
            assert [spec.value] + (rest.value + last.value) == ([spec.value] + rest.value) + last.value;
          }
        }
      }
    }
  }

  function Slugs(specs: seq<RepoSpec>): set<string> { set i | 0 <= i < |specs| :: specs[i].slug }

  lemma SlugsFirst(first: RepoSpec, rest: seq<RepoSpec>)
    ensures Slugs([first] + rest) == {first.slug} + Slugs(rest)
  {
    var all := [first] + rest;
    forall slug | slug in {first.slug} + Slugs(rest) ensures slug in Slugs(all) {
      if slug == first.slug {
        assert all[0] == first;
      } else {
        var i :| 0 <= i < |rest| && rest[i].slug == slug;
        assert all[i + 1] == rest[i];
      }
    }
    forall slug | slug in Slugs(all) ensures slug in {first.slug} + Slugs(rest) {
      var i :| 0 <= i < |all| && all[i].slug == slug;
      if i > 0 {
        assert all[i] == rest[i - 1];
      }
    }
  }

  method ParseReposEnv(raw: string, byDefault: int) returns (parsed: Option<seq<RepoSpec>>)
    ensures parsed == ParseRepos(raw, byDefault)
  {
    hide SpecOf, EntryLines, Pieces;
    var lines := Entries(raw);
    var specs := [];
    var seen := {};
    var i := 0;
    ghost var all := ParseLines(lines, {}, byDefault);
    assert lines[0..] == lines;
    assert all.Some? ==> [] + all.value == all.value;
    while i < |lines|
      invariant 0 <= i <= |lines|
      invariant ParseLines(lines, {}, byDefault)
             == (var rest := ParseLines(lines[i..], seen, byDefault);
                 if rest.None? then None else Some(specs + rest.value))
    {
      var spec := SpecOf(lines[i], byDefault);
      assert lines[i..][1..] == lines[i + 1..];
      if spec.None? || spec.value.slug in seen {
        return None;
      }
      ghost var rest := ParseLines(lines[i + 1..], seen + {spec.value.slug}, byDefault);
      assert rest.Some? ==> specs + ([spec.value] + rest.value) == (specs + [spec.value]) + rest.value;
      seen := seen + {spec.value.slug};
      specs := specs + [spec.value];
      i := i + 1;
    }
    assert specs + [] == specs;
    return if specs == [] then None else Some(specs);
  }

  // ----- A written entry parses back

  /** A field a value gives back whole. */
  predicate Clean(field: string) {
    field != "" && NoBreak(field) && '|' !in field && ';' !in field && Stripped(field)
  }

  lemma NewlinedClean(t: string, d: char)
    requires d !in t
    ensures Newlined(t, d) == t
  {
  }

  /**
   `writable_field` takes exactly the fields that hold none of what a value is split on, and no blank at either
   end.
   */
  lemma WritableIs(field: string)
    ensures WritableField(field) <==> Clean(field)
  {
    hide SplitLines, Strip;
    StripSame(field);
    var once := Newlined(field, '|');
    var twice := Newlined(once, ';');
    if '|' !in field && ';' !in field {
      NewlinedClean(field, '|');
      NewlinedClean(field, ';');
      OneLine(field);
    } else {
      BrokenApart(field, once, twice);
    }
  }

  lemma BrokenApart(field: string, once: string, twice: string)
    requires once == Newlined(field, '|') && twice == Newlined(once, ';')
    requires '|' in field || ';' in field
    ensures SplitLines(twice) != [field]
  {
    hide SplitLines;
    var i :| 0 <= i < |field| && (field[i] == '|' || field[i] == ';');
    assert twice[i] == '\n' && IsBreak(twice[i]);
    OneLine(twice);
    if SplitLines(twice) == [field] {
      ShorterLine(twice);
    }
  }

  /** A text's only line is shorter than the text where that breaks. */
  lemma ShorterLine(t: string)
    requires SplitLines(t) != [] && !NoBreak(t)
    ensures |SplitLines(t)[0]| < |t|
  {
    SplitLinesAre(t);
    assert Lines(t)[0].content == Content(t);
    assert |Content(t)| == |t| ==> Content(t) == t;
  }

  lemma {:induction false} SplitJoined(fields: seq<string>, d: char)
    requires fields != [] && forall i | 0 <= i < |fields| :: d !in fields[i]
    ensures Split(Joined(fields, d), d) == fields
  {
    hide Split;
    if |fields| == 1 {
      SplitWhole(fields[0], d);
      assert fields == [fields[0]];
    } else {
      SplitJoined(fields[1..], d);
      SplitFirst(fields[0], Joined(fields[1..], d), d);
      assert fields == [fields[0]] + fields[1..];
    }
  }

  lemma DigitsGrouped(digits: string)
    requires digits != "" && forall i | 0 <= i < |digits| :: IsDigit(digits[i])
    ensures Grouped(digits) && digits[0] != '+' && digits[0] != '-'
  {
  }

  /** A written limit reads back as itself. */
  lemma LimitRead(n: int)
    requires n >= 1 && JsonNumbers.Fits(n)
    ensures ReadInt(SpellInt(n)) == Some(n)
  {
    hide Grouped, Ungrouped, Spell, Value;
    var digits := Spell(n);
    DigitsGrouped(digits);
    UngroupedSame(digits);
  }

  lemma {:induction false} UngroupedSame(digits: string)
    requires forall i | 0 <= i < |digits| :: IsDigit(digits[i])
    ensures Ungrouped(digits) == digits
  {
    if digits != "" {
      UngroupedSame(digits[1..]);
    }
  }

  function SpecWritten(e: RepositoryEntry, byDefault: int): RepoSpec {
    RepoSpec(e.repository, e.clone, e.base, e.remote, if e.limit.Some? then e.limit.value else byDefault)
  }

  lemma FieldsClean(e: RepositoryEntry)
    requires Renders(e)
    ensures forall i | 0 <= i < |WrittenFields(e)| :: Clean(WrittenFields(e)[i])
  {
    hide WritableField, Clean, Shaped;
    forall i | 0 <= i < |WrittenFields(e)| ensures Clean(WrittenFields(e)[i]) {
      WritableIs(WrittenFields(e)[i]);
    }
  }

  lemma EntryParts(e: RepositoryEntry)
    requires Renders(e)
    ensures StripAll(Split(Joined(WrittenFields(e), '|'), '|')) == WrittenFields(e)
  {
    hide StripAll, Joined, Split, WrittenFields;
    FieldsClean(e);
    SomeFields(e);
    SplitJoined(WrittenFields(e), '|');
  }

  lemma SomeFields(e: RepositoryEntry)
    ensures WrittenFields(e) != []
  {
  }

  /** The entry written parses back as exactly what it names, the default limit standing in for none. */
  lemma EntryParses(e: RepositoryEntry, byDefault: int)
    requires Renders(e)
    ensures SpecOf(Joined(WrittenFields(e), '|'), byDefault) == Some(SpecWritten(e, byDefault))
  {
    hide StripAll, Joined, Split, WritableField, Clean, ReadInt;
    EntryParts(e);
    var fields := WrittenFields(e);
    assert fields[0] == e.repository && fields[1] == e.clone && fields[2] == e.base;
    FieldsClean(e);
    CleanSome(fields[1]);
    CleanSome(fields[2]);
    if e.limit.Some? {
      LimitRead(e.limit.value);
      assert fields[3] == e.remote && fields[4] == SpellInt(e.limit.value) && |fields| == 5;
      CleanSome(fields[3]);
    } else if e.remote != DEFAULT_REMOTE {
      assert fields[3] == e.remote && |fields| == 4;
      CleanSome(fields[3]);
    } else {
      assert |fields| == 3;
    }
  }

  lemma CleanSome(field: string)
    requires Clean(field)
    ensures field != ""
  {
  }
}
