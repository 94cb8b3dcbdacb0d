/**
 `add-repo`: one more entry at the end of the `REPOS` line a `.env` has in effect, and what the configuration
 makes of the file then.
 */
module AddRepo {
  import opened Text
  import opened PythonText
  import opened PythonLines
  import opened DotenvText
  import opened ReposEntries

  const REPOS := "REPOS"

  /** `str.lower`, of which nothing is used but that it is a function. */
  type Lower = string -> string

  function RepositoryIn(piece: string): string { Strip(Before(piece, '|')) }

  /** Whether a value lists a repository already, whatever its case. */
  predicate Lists(listed: string, wanted: string, lower: Lower) {
    exists i :: 0 <= i < |Pieces(listed)| && lower(RepositoryIn(Pieces(listed)[i])) == wanted
  }

  function Separator(kept: string): string {
    if kept != "" && kept[|kept| - 1] != ';' then ";" else ""
  }

  /** The value with an entry at its end. */
  function Extended(listed: string, line: string): string { Strip(listed) + (Separator(Strip(listed)) + line) }

  datatype Extension = Extension(value: string) | AlreadyListed | EntryRefused

  /** `_extended`. */
  method Extend(listed: string, e: RepositoryEntry, lower: Lower) returns (r: Extension)
    ensures r == if Lists(listed, lower(e.repository), lower) then AlreadyListed
                 else if Renders(e) then Extension.Extension(Extended(listed, Joined(WrittenFields(e), '|')))
                 else EntryRefused
  {
    hide Renders, Pieces, Strip, RepositoryIn, Joined;
    var wanted := lower(e.repository);
    var pieces := Pieces(listed);
    var i := 0;
    while i < |pieces|
      invariant 0 <= i <= |pieces|
      invariant forall j | 0 <= j < i :: lower(RepositoryIn(pieces[j])) != wanted
    {
      if lower(RepositoryIn(pieces[i])) == wanted {
        return AlreadyListed;
      }
      i := i + 1;
    }
    var rendered := Render(e);
    if rendered.None? {
      return EntryRefused;
    }
    return Extension.Extension(Extended(listed, rendered.value));
  }

  datatype Added = Written(text: string) | NoRepos | Listed | Refused

  /** What `add_repo` writes over a text, or why it writes nothing. */
  function AddedText(text: string, e: RepositoryEntry, lower: Lower): Added {
    var listed := ReadSetting(text, REPOS);
    if listed.None? then NoRepos
    else if !WritableField(e.remote) then Refused
    else if Lists(listed.value, lower(e.repository), lower) then Listed
    else if !Renders(e) then Refused
    else
      match AssignedText(text, REPOS, Extended(listed.value, Joined(WrittenFields(e), '|')))
      case Edited(t) => Written(t)
      case _ => Refused
  }

  /** `add_repo`, from the text it read to the text it writes. */
  method Add(text: string, e: RepositoryEntry, lower: Lower) returns (added: Added)
    ensures added == AddedText(text, e, lower)
  {
    hide Renders, Lists, WritableField, Extended, AssignedText, Joined, ReadSetting;
    var listed := ReadSetting(text, REPOS);
    if listed.None? {
      return NoRepos;
    }
    if !WritableField(e.remote) {
      return Refused;
    }
    var extension := Extend(listed.value, e, lower);
    if extension.AlreadyListed? {
      return Listed;
    }
    if extension.EntryRefused? {
      return Refused;
    }
    var edit := Assign(text, REPOS, extension.value);
    match edit {
      case Edited(t) => return Written(t);
      case _ => return Refused;
    }
  }

  /** A value's pieces name a repository already, whatever its case. */
  ghost predicate NamedAlready(listed: string, repository: string, lower: Lower) {
    exists piece :: piece in Pieces(listed) && lower(Strip(Before(piece, '|'))) == lower(repository)
  }

  /**
   Nothing is written where no line sets `REPOS`, where the repository is listed already, where a field of the entry
   cannot be written, or where the value would not read back; in that order, the remote asked about first. Anything
   else is written.
   */
  lemma AddedExactly(text: string, e: RepositoryEntry, lower: Lower)
    ensures var added, listed := AddedText(text, e, lower), ReadSetting(text, "REPOS");
            && (added.NoRepos? <==> listed.None?)
            && (added.Listed? <==> listed.Some? && Clean(e.remote) && NamedAlready(listed.value, e.repository, lower))
            && (added.Written? <==>
                  && listed.Some? && Clean(e.remote) && !NamedAlready(listed.value, e.repository, lower) && Renders(e)
                  && Writable(Extended(listed.value, Joined(WrittenFields(e), '|'))))
  {
    hide Renders, Extended, Joined, ReadSetting, Writable, Pieces, Strip, Before, WritableField, Clean, AssignedText;
    ReposEntries.WritableIs(e.remote);
    var listed := ReadSetting(text, REPOS);
    if listed.Some? {
      AssignChangesOne(text, REPOS, Extended(listed.value, Joined(WrittenFields(e), '|')));
      ListsNamed(listed.value, e.repository, lower);
    }
  }

  lemma ListsNamed(listed: string, repository: string, lower: Lower)
    ensures Lists(listed, lower(repository), lower) <==> NamedAlready(listed, repository, lower)
  {
    hide Pieces, Strip, Before;
    if NamedAlready(listed, repository, lower) {
      var piece :| piece in Pieces(listed) && lower(Strip(Before(piece, '|'))) == lower(repository);
      var i :| 0 <= i < |Pieces(listed)| && Pieces(listed)[i] == piece;
      assert lower(RepositoryIn(Pieces(listed)[i])) == lower(repository);
    }
    if Lists(listed, lower(repository), lower) {
      var i :| 0 <= i < |Pieces(listed)| && lower(RepositoryIn(Pieces(listed)[i])) == lower(repository);
      assert Pieces(listed)[i] in Pieces(listed);
    }
  }

  // ----- A value without line ends is its pieces between semicolons

  lemma {:induction false} EntriesJoined(a: seq<string>, b: seq<string>)
    ensures EntryLines(a + b) == EntryLines(a) + EntryLines(b)
  {
    hide Strip;
    if a == [] {
      assert a + b == b;
    } else {
      assert (a + b)[1..] == a[1..] + b;
      EntriesJoined(a[1..], b);
    }
  }

  lemma NoEntry(t: string)
    requires Strip(t) == ""
    ensures EntryLines([t]) == []
  {
    assert [t][1..] == [];
  }

  lemma NoNewPieces(t: string)
    requires ';' !in t && NoBreak(t)
    ensures Split(t, ';') == [t] && EntryLines(Pieces(t)) == EntryLines([t])
  {
    SplitWhole(t, ';');
    NewlinedClean(t, ';');
    hide Strip, SplitLines;
    OneLine(t);
    NoneSplit(t);
    if t == "" {
      EmptyStripped();
      NoEntry(t);
    }
  }

  lemma EmptyStripped()
    ensures Strip("") == ""
  {
  }

  lemma {:induction false} NewlinedJoined(a: string, b: string, d: char)
    ensures Newlined(a + b, d) == Newlined(a, d) + Newlined(b, d)
  {
  }

  lemma {:induction false} LinesBehind(head: string, rest: string)
    requires NoBreak(head)
    ensures SplitLines(head + ("\n" + rest)) == [head] + SplitLines(rest)
  {
    var line := Line(head, "\n");
    var t := head + ("\n" + rest);
    assert t == line.content + line.ending + rest;
    FirstLine(line, rest);
    SplitLinesAre(t);
    SplitLinesAre(rest);
    assert ([line] + Lines(rest))[1..] == Lines(rest);
  }

  /** The entries of a value without line ends are those of its pieces between semicolons. */
  lemma {:induction false} PiecesBetween(raw: string)
    requires NoBreak(raw)
    ensures EntryLines(Pieces(raw)) == EntryLines(Split(raw, ';'))
    decreases |raw|
  {
    hide EntryLines, Split, SplitLines;
    if ';' in raw {
      var head, tail := Before(raw, ';'), After(raw, ';');
      HeadAndTail(raw);
      PiecesBetween(tail);
      NewlinedClean(head, ';');
      NewlinedJoined(head, [';'] + tail, ';');
      SemicolonFirst(tail);
      assert Newlined(raw, ';') == head + ("\n" + Newlined(tail, ';'));
      LinesBehind(head, Newlined(tail, ';'));
      SplitFirst(head, tail, ';');
      EntriesJoined([head], Pieces(tail));
      EntriesJoined([head], Split(tail, ';'));
    } else {
      NoNewPieces(raw);
    }
  }

  lemma SemicolonFirst(tail: string)
    ensures Newlined([';'] + tail, ';') == "\n" + Newlined(tail, ';')
  {
    assert ([';'] + tail)[1..] == tail;
  }

  lemma HeadAndTail(raw: string)
    requires ';' in raw && NoBreak(raw)
    ensures var head, tail := Before(raw, ';'), After(raw, ';');
            raw == head + ([';'] + tail) && NoBreak(head) && NoBreak(tail) && |tail| < |raw|
  {
    hide Before, After;
    BeforeAfter(raw, ';');
    var head, tail := Before(raw, ';'), After(raw, ';');
    assert raw == head + ([';'] + tail);
    assert forall i | 0 <= i < |head| :: head[i] == raw[i];
    assert forall i | 0 <= i < |tail| :: tail[i] == raw[|head| + 1 + i];
  }

  // ----- The entries of an extended value

  /** Blanks at either end of a value are nothing to its entries. */
  lemma StrippedEntries(listed: string)
    ensures EntryLines(Split(listed, ';')) == EntryLines(Split(Strip(listed), ';'))
  {
    hide Strip, Split, EntryLines;
    var ahead, behind := StripIs(listed);
    var kept := Strip(listed);
    BlankWithout(ahead, ';');
    BlankWithout(behind, ';');
    SplitConcat(ahead + kept, behind, ';');
    SplitConcat(ahead, kept, ';');
    SplitWhole(ahead, ';');
    SplitWhole(behind, ';');
    GluedBlanks(Split(kept, ';'), ahead, behind);
  }

  lemma GluedAhead(p: seq<string>, ahead: string)
    requires |p| >= 1
    ensures Glue([ahead], p) == [ahead + p[0]] + p[1..]
  {
    assert [ahead][..0] == [];
  }

  lemma GluedBehind(p: seq<string>, behind: string)
    requires |p| >= 1
    ensures Glue(p, [behind]) == p[..|p| - 1] + [p[|p| - 1] + behind]
  {
    assert [behind][1..] == [];
  }

  lemma NothingBlank()
    ensures Blank("")
  {
  }

  lemma OneAlike(ahead: string, t: string, behind: string)
    requires (Blank(ahead) && behind == "") || (Blank(behind) && ahead == "")
    ensures EntryLines([ahead + t + behind]) == EntryLines([t])
    ensures ahead == "" ==> ahead + t + behind == t + behind
    ensures behind == "" ==> ahead + t + behind == ahead + t
  {
    NothingBlank();
    hide Strip, Blank;
    StripAround(ahead, t, behind);
    assert [ahead + t + behind][1..] == [] && [t][1..] == [];
  }

  lemma AheadAlike(p: seq<string>, ahead: string)
    requires |p| >= 1 && Blank(ahead)
    ensures EntryLines([ahead + p[0]] + p[1..]) == EntryLines(p)
  {
    hide Strip, EntryLines, Blank;
    OneAlike(ahead, p[0], "");
    EntriesJoined([ahead + p[0]], p[1..]);
    EntriesJoined([p[0]], p[1..]);
    assert [p[0]] + p[1..] == p;
  }

  lemma BehindAlike(front: seq<string>, t: string, behind: string)
    requires Blank(behind)
    ensures EntryLines(front + [t + behind]) == EntryLines(front + [t])
  {
    OneAlike("", t, behind);
    hide *;
    EntriesJoined(front, [t + behind]);
    EntriesJoined(front, [t]);
  }

  lemma GluedLead(p: seq<string>, ahead: string)
    requires |p| >= 1 && Blank(ahead)
    ensures |Glue([ahead], p)| >= 1 && EntryLines(Glue([ahead], p)) == EntryLines(p)
  {
    hide EntryLines, Glue, Blank;
    GluedAhead(p, ahead);
    AheadAlike(p, ahead);
  }

  lemma GluedTrail(p: seq<string>, behind: string)
    requires |p| >= 1 && Blank(behind)
    ensures EntryLines(Glue(p, [behind])) == EntryLines(p)
  {
    hide EntryLines, Glue, Blank;
    GluedBehind(p, behind);
    BehindAlike(p[..|p| - 1], p[|p| - 1], behind);
    assert p[..|p| - 1] + [p[|p| - 1]] == p;
  }

  lemma GluedBlanks(p: seq<string>, ahead: string, behind: string)
    requires |p| >= 1 && Blank(ahead) && Blank(behind)
    ensures EntryLines(Glue(Glue([ahead], p), [behind])) == EntryLines(p)
  {
    hide EntryLines, Glue, Blank;
    GluedLead(p, ahead);
    GluedTrail(Glue([ahead], p), behind);
  }

  /** A value extended has the entries it had and the new one. */
  lemma ExtendedSplit(kept: string, line: string)
    requires ';' !in line
    ensures EntryLines(Split(kept + (Separator(kept) + line), ';')) == EntryLines(Split(kept, ';')) + EntryLines([line])
  {
    hide EntryLines, Split;
    var p := Split(kept, ';');
    SplitWhole(line, ';');
    if kept != "" && kept[|kept| - 1] != ';' {
      SplitConcat(kept, [';'] + line, ';');
      SplitFirst("", line, ';');
      assert "" + ([';'] + line) == [';'] + line;
      assert Glue(p, [""] + [line]) == p + [line] by {
        assert p[|p| - 1] + "" == p[|p| - 1];
      }
      EntriesJoined(p, [line]);
    } else {
      assert kept + (Separator(kept) + line) == kept + line;
      SplitConcat(kept, line, ';');
      LastEmpty(kept);
      assert p == p[..|p| - 1] + [""];
      assert "" + line == line;
      assert Glue(p, [line]) == p[..|p| - 1] + [line];
      EntriesJoined(p[..|p| - 1], [line]);
      EntriesJoined(p[..|p| - 1], [""]);
      EmptyStripped();
      NoEntry("");
      assert EntryLines(p[..|p| - 1]) + [] == EntryLines(p[..|p| - 1]);
    }
  }

  /** The last piece of a value that is empty or ends with a semicolon is empty. */
  lemma LastEmpty(kept: string)
    requires kept == "" || kept[|kept| - 1] == ';'
    ensures Split(kept, ';')[|Split(kept, ';')| - 1] == ""
  {
    if kept != "" {
      var front := kept[..|kept| - 1];
      assert kept == front + [';'];
      SplitConcat(front, [';'], ';');
      SplitFirst("", "", ';');
      assert "" + ([';'] + "") == [';'];
    }
  }

  lemma LineIsEntry(line: string)
    requires line != "" && Stripped(line) && line[0] != '#'
    ensures EntryLines([line]) == [line]
  {
    StripSame(line);
    assert [line][1..] == [];
  }

  lemma ExtendedEntries(listed: string, line: string)
    requires NoBreak(listed) && ';' !in line && NoBreak(line) && line != "" && Stripped(line) && line[0] != '#'
    ensures NoBreak(Extended(listed, line)) && Entries(Extended(listed, line)) == Entries(listed) + [line]
  {
    hide Strip, Split, EntryLines, Pieces, Stripped;
    StrippedWithin(listed);
    var kept := Strip(listed);
    assert NoBreak(Separator(kept));
    assert NoBreak(Extended(listed, line));
    PiecesBetween(listed);
    PiecesBetween(Extended(listed, line));
    StrippedEntries(listed);
    ExtendedSplit(kept, line);
    LineIsEntry(line);
  }

  // ----- The new entry

  lemma {:induction false} JoinedClean(fields: seq<string>)
    requires fields != [] && fields[0] != "" && forall i | 0 <= i < |fields| :: Clean(fields[i])
    ensures var t := Joined(fields, '|');
            && |t| >= 1 && NoBreak(t) && ';' !in t && t[0] == fields[0][0] && !IsSpace(t[|t| - 1])
  {
    assert !IsBreak('|');
    if |fields| > 1 {
      JoinedClean(fields[1..]);
    }
  }

  lemma RenderedLine(e: RepositoryEntry)
    requires Renders(e)
    ensures var line := Joined(WrittenFields(e), '|');
            line != "" && NoBreak(line) && ';' !in line && Stripped(line) && line[0] != '#'
  {
    hide WritableField, Joined, Clean;
    FieldsClean(e);
    JoinedClean(WrittenFields(e));
    assert WrittenFields(e)[0] == e.repository;
    ShapedBegins(e.repository);
  }

  lemma ShapedBegins(repository: string)
    requires Shaped(repository)
    ensures repository != "" && !IsSpace(repository[0]) && repository[0] != '#'
  {
    assert !IsNameChar('#') && forall c: char | IsNameChar(c) || c == '/' :: !IsSpace(c);
  }

  // ----- The repository was not there

  lemma {:induction false} EntryFrom(pieces: seq<string>, line: string)
    requires line in EntryLines(pieces)
    ensures exists i :: 0 <= i < |pieces| && line == Strip(pieces[i])
  {
    hide Strip;
    if pieces != [] && line != Strip(pieces[0]) {
      EntryFrom(pieces[1..], line);
      var i :| 0 <= i < |pieces[1..]| && line == Strip(pieces[1..][i]);
      assert pieces[i + 1] == pieces[1..][i];
    }
  }

  lemma {:induction false} SlugsParsed(lines: seq<string>, seen: set<string>, byDefault: int, slug: string)
    requires ParseLines(lines, seen, byDefault).Some? && slug in Slugs(ParseLines(lines, seen, byDefault).value)
    ensures exists i :: 0 <= i < |lines| && RepositoryIn(lines[i]) == slug
    decreases |lines|
  {
    hide SpecOf, RepositoryIn;
    if lines != [] {
      var first := SpecOf(lines[0], byDefault).value;
      var more := seen + {first.slug};
      var rest := ParseLines(lines[1..], more, byDefault).value;
      SlugsFirst(first, rest);
      SlugIs(lines[0], byDefault);
      if slug != first.slug {
        SlugsParsed(lines[1..], more, byDefault, slug);
        var i :| 0 <= i < |lines[1..]| && RepositoryIn(lines[1..][i]) == slug;
        assert lines[i + 1] == lines[1..][i];
      }
    }
  }

  lemma SlugIs(line: string, byDefault: int)
    requires SpecOf(line, byDefault).Some?
    ensures SpecOf(line, byDefault).value.slug == RepositoryIn(line)
  {
    hide Strip, ReadInt;
    SplitBegins(line, '|');
  }

  lemma {:induction false} SplitBegins(t: string, d: char)
    ensures Split(t, d)[0] == Before(t, d)
  {
    if t != "" {
      SplitBegins(t[1..], d);
    }
  }

  lemma SlugListed(listed: string, slug: string, byDefault: int) returns (j: nat)
    requires ParsedEntries(listed, byDefault).Some? && slug in Slugs(ParsedEntries(listed, byDefault).value)
    ensures j < |Pieces(listed)| && RepositoryIn(Pieces(listed)[j]) == slug
  {
    hide ParseLines, EntryLines, Pieces, Strip, Slugs;
    SlugsParsed(Entries(listed), {}, byDefault, slug);
    var i :| 0 <= i < |Entries(listed)| && RepositoryIn(Entries(listed)[i]) == slug;
    EntryFrom(Pieces(listed), Entries(listed)[i]);
    j :| 0 <= j < |Pieces(listed)| && Entries(listed)[i] == Strip(Pieces(listed)[j]);
    StripParts(Pieces(listed)[j], '|');
  }

  /** A repository a value does not list, whatever its case, is none the value's entries parse to. */
  lemma UnlistedApart(listed: string, repository: string, lower: Lower, byDefault: int)
    requires !Lists(listed, lower(repository), lower) && ParsedEntries(listed, byDefault).Some?
    ensures repository !in Slugs(ParsedEntries(listed, byDefault).value)
  {
    hide ParsedEntries, Pieces, RepositoryIn, Slugs;
    if repository in Slugs(ParsedEntries(listed, byDefault).value) {
      var j := SlugListed(listed, repository, byDefault);
      assert false;
    }
  }

  /** Parsing the extended value gives what the value's entries parsed to, and the new entry behind them. */
  lemma ExtendedParses(listed: string, e: RepositoryEntry, lower: Lower, byDefault: int)
    requires NoBreak(listed) && Renders(e) && !Lists(listed, lower(e.repository), lower)
    ensures ParseRepos(Extended(listed, Joined(WrittenFields(e), '|')), byDefault)
         == (var before := ParsedEntries(listed, byDefault);
             if before.None? then None else Some(before.value + [SpecWritten(e, byDefault)]))
  {
    hide ParseLines, EntryLines, Pieces, SpecOf, Renders, Lists, Extended, NoBreak, Stripped;
    var line := Joined(WrittenFields(e), '|');
    RenderedLine(e);
    ExtendedEntries(listed, line);
    ParseJoined(Entries(listed), [line], {}, byDefault);
    EntryParses(e, byDefault);
    var before := ParsedEntries(listed, byDefault);
    if before.Some? {
      UnlistedApart(listed, e.repository, lower, byDefault);
      OneParsed(line, {} + Slugs(before.value), SpecWritten(e, byDefault), byDefault);
    }
  }

  lemma OneParsed(line: string, seen: set<string>, spec: RepoSpec, byDefault: int)
    requires SpecOf(line, byDefault) == Some(spec) && spec.slug !in seen
    ensures ParseLines([line], seen, byDefault) == Some([spec])
  {
    hide SpecOf;
    assert [line][1..] == [];
    assert ParseLines([], seen + {spec.slug}, byDefault) == Some([]);
    assert [spec] + [] == [spec];
  }

  // ----- End to end

  lemma SettingNoBreak(text: string, key: string)
    requires ReadSetting(text, key).Some?
    ensures NoBreak(ReadSetting(text, key).value)
  {
    var at := FirstSetting(SplitLines(text), key).value;
    var line := SplitLines(text)[at];
    SplitLinesAre(text);
    LinesKept(text);
    LinesClean(Lines(text), at);
    hide SplitLines, Strip, FirstSetting;
    AfterWithin(line, '=');
    StrippedWithin(After(line, '='));
  }

  lemma {:induction false} AfterWithin(t: string, d: char)
    requires NoBreak(t)
    ensures NoBreak(After(t, d))
  {
    if t != "" && t[0] != d {
      AfterWithin(t[1..], d);
    }
  }

  lemma ReposLoads()
    ensures !Secret(REPOS)
  {
    assert |REPOS| == 5;
    assert |"GITHUB_TOKEN"| == 12 && |"GH_TOKEN"| == 8 && |"GITHUB_PAT"| == 10 && |"GH_ENTERPRISE_TOKEN"| == 19
        && |"GITHUB_ENTERPRISE_TOKEN"| == 23 && |"GIT_TOKEN"| == 9;
  }

  /**
   After `add_repo` writes, the configuration that loads the file, its environment not naming `REPOS` itself, parses
   from it what the entries of the old value parsed to and then the new one; it aborts exactly where one of the old
   entries made it abort. A value without entries, over which it aborted, holds the new one alone.
   */
  lemma AddedParses(text: string, e: RepositoryEntry, lower: Lower, environ: Environ, byDefault: int)
    requires AddedText(text, e, lower).Written? && REPOS !in environ
    ensures var prior := LoadedLines(environ, SplitLines(Universal(text)));
            var later := LoadedLines(environ, SplitLines(Universal(AddedText(text, e, lower).text)));
            && REPOS in prior && REPOS in later
            && ParseRepos(later[REPOS], byDefault)
               == (var before := ParsedEntries(prior[REPOS], byDefault);
                   if before.None? then None else Some(before.value + [SpecWritten(e, byDefault)]))
  {
    hide Renders, Lists, WritableField, Extended, AssignedText, Joined, ReadSetting, SplitLines, LoadedLines, Secret;
    hide ParseRepos, ParsedEntries, NoBreak;
    ReposLoads();
    var listed := ReadSetting(text, REPOS).value;
    var setting := Extended(listed, Joined(WrittenFields(e), '|'));
    ReadersAgree(text, environ, REPOS);
    ReadersAgree(AddedText(text, e, lower).text, environ, REPOS);
    AssignReads(text, REPOS, setting, REPOS);
    SettingNoBreak(text, REPOS);
    ExtendedParses(listed, e, lower, byDefault);
  }

  /** What else `add_repo` leaves: every other setting as it loaded, and every line but the one edited, ends and all. */
  lemma AddedSpares(text: string, e: RepositoryEntry, lower: Lower, environ: Environ, key: string)
    requires AddedText(text, e, lower).Written? && key != REPOS
    ensures var prior := LoadedLines(environ, SplitLines(Universal(text)));
            var later := LoadedLines(environ, SplitLines(Universal(AddedText(text, e, lower).text)));
            (key in prior <==> key in later) && (key in prior ==> prior[key] == later[key])
    ensures var before, after := Lines(text), Lines(AddedText(text, e, lower).text);
            var at := FirstSetting(SplitLines(text), REPOS);
            && at.Some? && |after| == |before|
            && forall i | 0 <= i < |before| && i != at.value :: after[i] == before[i]
  {
    hide Renders, Lists, WritableField, Extended, AssignedText, Joined, ReadSetting, SplitLines, LoadedLines, Secret;
    hide Lines, Flat, FirstSetting;
    var listed := ReadSetting(text, REPOS).value;
    var setting := Extended(listed, Joined(WrittenFields(e), '|'));
    ReadersAgree(text, environ, key);
    ReadersAgree(AddedText(text, e, lower).text, environ, key);
    AssignReads(text, REPOS, setting, key);
    AssignChangesOne(text, REPOS, setting);
  }
}
