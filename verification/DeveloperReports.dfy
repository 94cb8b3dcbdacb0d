/**
 Developer reports. A report is one comment, and the proof of it is its own body: whatever it claims to be has
 to render to exactly that body again.
 */
module DeveloperReports {
  import opened Text
  import opened PythonText
  import opened Decimal
  import opened Threads
  import opened VerificationEvidence
  import opened VerificationPayloads
  import opened CommentHeaders

  function HeaderLead(): string { RESERVED + "developer-report:receipt=" }

  function Spec(): seq<Field> {
    [Field(HeaderLead(), TokenClass), Field(":pr=", DigitClass), Field(":revision=", DigitClass),
    Field(":commit=", HexClass), Field(":requirements=", TokenClass), Field(":content=", HexClass)]
  }

  datatype Report = Report(pr: int, commit: string, requirements: string, revision: int, receipt: string, text: string)

  /** What the preamble says ahead of the revision, the commit and the requirements, and behind them. */
  datatype Wording = Wording(revision: Prose, commit: Prose, requirements: Prose, closing: Prose)

  predicate Accepted(r: Report) {
    && IsCount(r.pr) && IsCount(r.revision) && IsObjectId(r.commit)
    && IsTokenText(r.requirements, 128) && IsTokenText(r.receipt, 128)
    && Strip(r.text) != "" && !Contains(r.text, RESERVED)
  }

  function Preamble(w: Wording, revision: string, commit: string, requirements: string): string {
    w.revision + revision + w.commit + commit + w.requirements + requirements + w.closing
  }

  function Values(r: Report, digest: Digest): seq<string>
    requires Accepted(r)
  {
    [r.receipt, Spell(r.pr), Spell(r.revision), r.commit, r.requirements, digest(r.text)]
  }

  /** Everything in a body ahead of its header. */
  function Ahead(w: Wording, r: Report): string
    requires Accepted(r)
  {
    Preamble(w, Spell(r.revision), r.commit, r.requirements) + (r.text + SEPARATOR)
  }

  /** The one body a report is spelled as, however long. */
  function Body(w: Wording, r: Report, digest: Digest): string
    requires Accepted(r)
  {
    Ahead(w, r) + Closing(r, digest)
  }

  /** A body's header and the marker behind it. */
  function Closing(r: Report, digest: Digest): string
    requires Accepted(r)
  {
    Written(Spec(), Values(r, digest)) + (END + (SEPARATOR + Marker()))
  }

  /** The body a report is published as, or none where one comment does not hold it. */
  function Rendered(w: Wording, r: Report, digest: Digest): Option<string>
    requires Accepted(r)
  {
    if |Body(w, r, digest)| <= MAX_BODY then Some(Body(w, r, digest)) else None
  }

  function Scope(r: Report): string { ScopeOf(HeaderLead(), r.receipt) }

  // ----- Reading

  /** `body[from:to]`. */
  function Slice(body: string, from: nat, to: nat): string
    requires to <= |body|
  {
    if from <= to then body[from..to] else ""
  }

  function WithoutSuffix(s: string, suffix: string): string {
    if |suffix| <= |s| && s[|s| - |suffix|..] == suffix then s[..|s| - |suffix|] else s
  }

  /** What a header and the text ahead of it claim; none where that is no report this format takes. */
  function Candidate(w: Wording, body: string): (r: Option<Report>)
    ensures r.Some? ==> Accepted(r.value)
  {
    var claim := Claimed(Spec(), body);
    if claim.None? then None
    else
      var (at, values) := claim.value;
      if |values| != 6 || !AllIn(values[1], DigitClass) || !AllIn(values[2], DigitClass) then None
      else
        var preamble := Preamble(w, values[2], values[3], values[4]);
        var pr, revision := CountOf(values[1]), CountOf(values[2]);
        if pr.None? || revision.None? then None
        else
          var text := WithoutSuffix(Slice(body, |preamble|, at), SEPARATOR);
          var r := Report(pr.value, values[3], values[4], revision.value, values[0], text);
          if Accepted(r) then Some(r) else None
  }

  /** What reading a comment comes to: no report, one, or the refusal that rendering what it claims raises. */
  datatype Reading = NoReport | Found(report: Report) | Raised

  function FromComment(w: Wording, c: Comment, login: Option<string>, digest: Digest): Reading {
    if |c.body| > MAX_BODY || !Ours(c, login) then NoReport
    else
      var candidate := Candidate(w, c.body);
      if candidate.None? then NoReport
      else
        var rendered := Rendered(w, candidate.value, digest);
        if rendered.None? then Raised
        else if rendered.value == c.body then Found(candidate.value) else NoReport
  }

  // ----- Round trip

  lemma LeadSome()
    ensures HeaderLead() != ""
  {
  }

  lemma SpecParts()
    ensures Parts(Spec()) && |Spec()| == 6 && !InClass('-', Spec()[5].kind) && Spec()[0].lead == HeaderLead()
  {
    hide Parts, HeaderLead;
    LeadSome();
    ColonParts(Spec());
  }

  lemma ValuesCarried(r: Report, digest: Digest)
    requires Accepted(r)
    ensures Carries(Spec(), Values(r, digest))
  {
    hide Contains, Strip;
    var values := Values(r, digest);
    DigestIs(digest, r.text);
    CountRead(r.pr);
    CountRead(r.revision);
    assert AllIn(values[0], TokenClass) && AllIn(values[4], TokenClass);
    assert AllIn(values[3], HexClass) && AllIn(values[5], HexClass);
  }

  /** No marker of ours begins ahead of a report's header, whatever its text ends in. */
  lemma AheadClear(w: Wording, r: Report, t: string, lead: string)
    requires Accepted(r) && RESERVED <= lead
    ensures Clear(Ahead(w, r), t, lead)
  {
    hide Clear;
    assert RESERVED[0] == '<' && lead[0] == RESERVED[0];
    ClearOfReserved(r.text, t, lead);
    ClearTogether(Preamble(w, Spell(r.revision), r.commit, r.requirements), r.text + SEPARATOR, t, lead);
  }

  lemma BodyClaimed(w: Wording, r: Report, digest: Digest)
    requires Accepted(r)
    ensures Claimed(Spec(), Body(w, r, digest)) == Some((|Ahead(w, r)|, Values(r, digest)))
  {
    hide Accepted, Ahead, Values, InClass, Written, Fields, Spec;
    SpecParts();
    ValuesCarried(r, digest);
    var tail := Written(Spec(), Values(r, digest)) + (END + (SEPARATOR + Marker()));
    AheadClear(w, r, tail, HeaderLead());
    ClaimedBehind(Spec(), Values(r, digest), Ahead(w, r), SEPARATOR + Marker());
  }

  lemma TextFound(preamble: string, text: string, rest: string)
    ensures WithoutSuffix(Slice(preamble + (text + SEPARATOR) + rest, |preamble|, |preamble| + |text| + 2), SEPARATOR)
         == text
  {
    var body := preamble + (text + SEPARATOR) + rest;
    assert body[|preamble|..|preamble| + |text| + 2] == text + SEPARATOR;
    assert (text + SEPARATOR)[|text|..] == SEPARATOR && (text + SEPARATOR)[..|text|] == text;
  }

  lemma AcceptedCounts(r: Report)
    requires Accepted(r)
    ensures AllIn(Spell(r.pr), DigitClass) && AllIn(Spell(r.revision), DigitClass)
    ensures CountOf(Spell(r.pr)) == Some(r.pr) && CountOf(Spell(r.revision)) == Some(r.revision)
  {
    hide Contains, Strip;
    CountRead(r.pr);
    CountRead(r.revision);
  }

  lemma BodyShape(w: Wording, r: Report, digest: Digest)
    requires Accepted(r)
    ensures Body(w, r, digest)
         == Preamble(w, Spell(r.revision), r.commit, r.requirements) + (r.text + SEPARATOR) + Closing(r, digest)
    ensures |Ahead(w, r)| == |Preamble(w, Spell(r.revision), r.commit, r.requirements)| + |r.text| + 2
  {
    hide Accepted, Preamble, Closing;
  }

  lemma BodyText(w: Wording, r: Report, digest: Digest)
    requires Accepted(r)
    ensures |Ahead(w, r)| <= |Body(w, r, digest)|
    ensures WithoutSuffix(Slice(Body(w, r, digest), |Preamble(w, Spell(r.revision), r.commit, r.requirements)|,
                                |Ahead(w, r)|), SEPARATOR) == r.text
  {
    hide Accepted, Preamble, WithoutSuffix, Slice, Body, Ahead;
    BodyShape(w, r, digest);
    TextFound(Preamble(w, Spell(r.revision), r.commit, r.requirements), r.text, Closing(r, digest));
  }

  /** The body of an accepted report claims that very report. */
  lemma BodyCandidate(w: Wording, r: Report, digest: Digest)
    requires Accepted(r)
    ensures Candidate(w, Body(w, r, digest)) == Some(r)
  {
    hide Accepted, Claimed, AllIn, CountOf, Preamble, WithoutSuffix, Slice, Body, Ahead;
    BodyClaimed(w, r, digest);
    AcceptedCounts(r);
    BodyText(w, r, digest);
  }

  /** A report that fits, posted by us, reads back as itself: text ending in separators or half a marker too. */
  lemma ReportReadsBack(w: Wording, r: Report, c: Comment, login: Option<string>, digest: Digest)
    requires Accepted(r) && Ours(c, login) && Rendered(w, r, digest) == Some(c.body)
    ensures FromComment(w, c, login, digest) == Found(r)
  {
    hide Accepted, Candidate, Body;
    BodyCandidate(w, r, digest);
  }

  /**
   A comment reads as a report exactly where it is ours and carries the one body of that report, accepted and
   within the limit.
   */
  lemma ReadsExactly(w: Wording, r: Report, c: Comment, login: Option<string>, digest: Digest)
    ensures FromComment(w, c, login, digest) == Found(r)
       <==> Accepted(r) && Ours(c, login) && Rendered(w, r, digest) == Some(c.body)
  {
    hide Accepted, Body, Candidate;
    if Accepted(r) && Ours(c, login) && Rendered(w, r, digest) == Some(c.body) {
      ReportReadsBack(w, r, c, login, digest);
    }
  }

  /** No two accepted reports are spelled as one body. */
  lemma BodyInjective(w: Wording, r: Report, s: Report, digest: Digest)
    requires Accepted(r) && Accepted(s)
    ensures Body(w, r, digest) == Body(w, s, digest) <==> r == s
  {
    hide Accepted, Body, Candidate;
    BodyCandidate(w, r, digest);
    BodyCandidate(w, s, digest);
  }

  // ----- Receipts

  /** A report's header, up to the marker behind it. */
  function Header(r: Report, digest: Digest): string
    requires Accepted(r)
  {
    Written(Spec(), Values(r, digest)) + END
  }

  lemma SpecReceipt()
    ensures ReceiptFirst(Spec())
  {
  }

  lemma HeaderIs(r: Report, digest: Digest)
    requires Accepted(r)
    ensures Header(r, digest) == Written(Spec(), Values(r, digest)) + END
  {
  }

  lemma LeadClear()
    ensures HeaderLead() != "" && '<' !in HeaderLead()[1..]
  {
    assert HeaderLead()[1..] == RESERVED[1..] + "developer-report:receipt=";
  }

  lemma AngleFirst(lead: string, receipt: string, rest: string)
    requires lead != "" && '<' !in lead[1..] && '<' !in receipt && '<' !in rest
    ensures '<' !in (lead + (receipt + (":" + rest)))[1..]
  {
    assert (lead + (receipt + (":" + rest)))[1..] == lead[1..] + (receipt + (":" + rest));
  }

  lemma HeaderParts(r: Report, digest: Digest) returns (rest: string)
    requires Accepted(r)
    ensures Header(r, digest) == HeaderLead() + (r.receipt + (":" + rest))
    ensures '<' !in Header(r, digest)[1..]
  {
    hide *;
    ValuesIs(r, digest);
    SpecReceipt();
    SpecParts();
    ValuesCarried(r, digest);
    HeaderIs(r, digest);
    rest := ReceiptHeader(Spec(), Values(r, digest));
    ReceiptPlain(r);
    LeadClear();
    AngleFirst(HeaderLead(), r.receipt, rest);
  }

  lemma ReceiptPlain(r: Report)
    requires Accepted(r)
    ensures ':' !in r.receipt && '<' !in r.receipt
  {
    hide Contains, Strip;
    assert !IsNameChar(':') && !IsNameChar('<');
  }

  /**
   A scope of any kind that opens with a reserved lead stands in a report's body exactly where it opens its header.
   */
  lemma ScopeInBody(w: Wording, r: Report, digest: Digest, scope: string)
    requires Accepted(r) && RESERVED <= scope && |scope| > |RESERVED| && scope[|RESERVED|] != 'c'
    ensures Contains(Body(w, r, digest), scope) <==> scope <= Header(r, digest) + (SEPARATOR + Marker())
  {
    hide Accepted, Ahead, Clear, Header, Contains;
    var rest := HeaderParts(r, digest);
    var header := Header(r, digest);
    AheadClear(w, r, header + (SEPARATOR + Marker()), scope);
    ScopeStands(Ahead(w, r), header, scope);
    BodyHeader(w, r, digest);
  }

  lemma BodyHeader(w: Wording, r: Report, digest: Digest)
    requires Accepted(r)
    ensures Body(w, r, digest) == Ahead(w, r) + (Header(r, digest) + (SEPARATOR + Marker()))
  {
    hide Accepted, Ahead, Written, Values;
  }

  lemma ScopeReserved(receipt: string)
    ensures var scope := ScopeOf(HeaderLead(), receipt);
            RESERVED <= scope && |scope| > |RESERVED| && scope[|RESERVED|] == 'd'
  {
  }

  /** A report's receipt is found in the body of another report exactly where the two have one receipt. */
  lemma ReceiptFound(w: Wording, r: Report, s: Report, digest: Digest)
    requires Accepted(r) && Accepted(s)
    ensures Contains(Body(w, s, digest), Scope(r)) <==> r.receipt == s.receipt
  {
    hide Accepted, Body, Header, Contains, ScopeOf;
    ScopeReserved(r.receipt);
    ScopeInBody(w, s, digest, Scope(r));
    var rest := HeaderParts(s, digest);
    ReceiptPlain(r);
    ReceiptPlain(s);
    var more := rest + (SEPARATOR + Marker());
    assert Header(s, digest) + (SEPARATOR + Marker()) == HeaderLead() + (s.receipt + (":" + more));
    ReceiptCloses(HeaderLead(), r.receipt, s.receipt, more);
  }

  // ----- Where the reader raises instead of answering

  /** A report's body cut behind its header, whose content is cut to one digit. */
  function Shortened(w: Wording, r: Report, digest: Digest): string
    requires Accepted(r)
  {
    Ahead(w, r) + (Written(Spec(), Values(r, digest)[5 := "0"]) + (END + ""))
  }

  lemma ShortenedClaimed(w: Wording, r: Report, digest: Digest)
    requires Accepted(r)
    ensures Claimed(Spec(), Shortened(w, r, digest)) == Some((|Ahead(w, r)|, Values(r, digest)[5 := "0"]))
  {
    hide Accepted, Ahead, Values, InClass, Written, Fields, Spec;
    SpecParts();
    ValuesCarried(r, digest);
    var values := Values(r, digest)[5 := "0"];
    assert Carries(Spec(), values) by {
      ZeroHex();
    }
    AheadClear(w, r, Written(Spec(), values) + (END + ""), HeaderLead());
    ClaimedBehind(Spec(), values, Ahead(w, r), "");
  }

  lemma ZeroHex()
    ensures AllIn("0", Spec()[5].kind)
  {
  }

  lemma ShortenedText(w: Wording, r: Report, digest: Digest)
    requires Accepted(r)
    ensures |Ahead(w, r)| <= |Shortened(w, r, digest)|
    ensures WithoutSuffix(Slice(Shortened(w, r, digest), |Preamble(w, Spell(r.revision), r.commit, r.requirements)|,
                                |Ahead(w, r)|), SEPARATOR) == r.text
  {
    var tail := Written(Spec(), Values(r, digest)[5 := "0"]) + (END + "");
    assert Shortened(w, r, digest) == Ahead(w, r) + tail;
    hide Accepted, Preamble, WithoutSuffix, Slice, Written, Values, Shortened;
    BodyShape(w, r, digest);
    TextFound(Preamble(w, Spell(r.revision), r.commit, r.requirements), r.text, tail);
  }

  lemma ShortenedCandidate(w: Wording, r: Report, digest: Digest)
    requires Accepted(r)
    ensures Candidate(w, Shortened(w, r, digest)) == Some(r)
  {
    hide Accepted, Claimed, AllIn, CountOf, Preamble, WithoutSuffix, Slice, Ahead, Shortened;
    ShortenedText(w, r, digest);
    ShortenedClaimed(w, r, digest);
    AcceptedCounts(r);
  }

  /** How long a report renders, which its content's digest has no part in. */
  function LengthOf(w: Wording, r: Report): nat
    requires Accepted(r)
  {
    |Body(w, r, ZeroDigest)|
  }

  lemma SixAlike(a: string, b: string, c: string, d: string, e: string, f: string, g: string)
    ensures [a, b, c, d, e, f][5 := g] == [a, b, c, d, e, g]
    ensures [a, b, c, d, e, f][5] == f && [a, b, c, d, e, g][5] == g
  {
  }

  lemma ValuesIs(r: Report, digest: Digest)
    requires Accepted(r)
    ensures r.pr >= 0 && r.revision >= 0
    ensures Values(r, digest) == [r.receipt, Spell(r.pr), Spell(r.revision), r.commit, r.requirements, digest(r.text)]
  {
  }

  lemma ContentAlike(r: Report, digest: Digest, other: Digest)
    requires Accepted(r)
    ensures var a, b := Values(r, digest), Values(r, other);
            |a| == 6 && |b| == 6 && |a[5]| == 64 && |b[5]| == 64 && b == a[5 := b[5]]
  {
    hide *;
    ValuesIs(r, digest);
    ValuesIs(r, other);
    DigestIs(digest, r.text);
    DigestIs(other, r.text);
    SixAlike(r.receipt, Spell(r.pr), Spell(r.revision), r.commit, r.requirements, digest(r.text), other(r.text));
  }

  lemma BodyLength(w: Wording, r: Report, digest: Digest)
    requires Accepted(r)
    ensures |Body(w, r, digest)|
         == |Ahead(w, r)| + |Written(Spec(), Values(r, digest))| + |END| + |SEPARATOR| + |Marker()|
  {
    hide Accepted, Ahead, Written, Values, Spec, Marker;
  }

  lemma LengthIs(w: Wording, r: Report)
    requires Accepted(r)
    ensures LengthOf(w, r)
         == |Ahead(w, r)| + |Written(Spec(), Values(r, ZeroDigest))| + |END| + |SEPARATOR| + |Marker()|
  {
    hide Body;
    BodyLength(w, r, ZeroDigest);
  }

  lemma WrittenLength(r: Report, digest: Digest)
    requires Accepted(r)
    ensures |Written(Spec(), Values(r, digest))| == |Written(Spec(), Values(r, ZeroDigest))|
  {
    hide Accepted, Values, Spec, Written, Parts, InClass, HeaderLead;
    ContentAlike(r, digest, ZeroDigest);
    SpecParts();
    LastLength(Spec(), Values(r, digest), Values(r, ZeroDigest)[5]);
  }

  lemma LengthAlike(w: Wording, r: Report, digest: Digest)
    requires Accepted(r)
    ensures |Body(w, r, digest)| == LengthOf(w, r)
  {
    hide Accepted, Body, Values, Spec, Written, Ahead, LengthOf, Marker;
    WrittenLength(r, digest);
    BodyLength(w, r, digest);
    LengthIs(w, r);
  }

  /**
   Reading a comment raises exactly where the comment fits and claims a report this format takes that would
   render past one comment's length: a length known from the claim, its content's digest not needed.
   */
  lemma RaisesExactly(w: Wording, c: Comment, login: Option<string>, digest: Digest)
    ensures FromComment(w, c, login, digest).Raised?
        <==> |c.body| <= MAX_BODY && Ours(c, login)
             && Candidate(w, c.body).Some? && LengthOf(w, Candidate(w, c.body).value) > 65536
  {
    hide Candidate, Body, Accepted, LengthOf;
    if Candidate(w, c.body).Some? {
      LengthAlike(w, Candidate(w, c.body).value, digest);
    }
  }

  /** Such comments there are: every report a little too long to post has one, a body short enough to post. */
  lemma ShortenedRaises(w: Wording, r: Report, c: Comment, login: Option<string>, digest: Digest)
    requires Accepted(r) && MAX_BODY < |Body(w, r, digest)| <= MAX_BODY + 92
    requires Ours(c, login) && c.body == Shortened(w, r, digest)
    ensures |c.body| == |Body(w, r, digest)| - 92 && FromComment(w, c, login, digest).Raised?
  {
    ShortenedLength(w, r, digest);
    hide Accepted, Candidate, Body, Shortened;
    ShortenedCandidate(w, r, digest);
  }

  lemma ShortenedLength(w: Wording, r: Report, digest: Digest)
    requires Accepted(r)
    ensures |Shortened(w, r, digest)| == |Body(w, r, digest)| - 92
  {
    var values := Values(r, digest);
    hide Accepted, Ahead, Values;
    DigestIs(digest, r.text);
    assert |values| == 6 && |values[5]| == 64;
    LastLength(Spec(), values, "0");
  }

  lemma {:induction false} LastLength(spec: seq<Field>, values: seq<string>, last: string)
    requires |spec| == |values| && spec != []
    ensures |Written(spec, values[|values| - 1 := last])|
         == |Written(spec, values)| - |values[|values| - 1]| + |last|
  {
    var changed := values[|values| - 1 := last];
    if |spec| > 1 {
      LastLength(spec[1..], values[1..], last);
      assert changed[1..] == values[1..][|values| - 2 := last];
    } else {
      assert spec[1..] == [] && changed[1..] == [] && values[1..] == [];
    }
  }

  function Sample(n: nat): Report {
    Report(1, ZeroDigest(""), "q", 1, "r", seq(n, i => 'x'))
  }

  lemma SampleAccepted(n: nat)
    requires n >= 1
    ensures Accepted(Sample(n))
  {
    var text := Sample(n).text;
    assert Skip(text) == text && Trim(text) == text;
    assert RESERVED[0] == '<';
    forall at | 0 <= at <= |text| - |RESERVED| ensures !OccursAt(text, RESERVED, at) {
      assert text[at..at + |RESERVED|][0] == 'x';
    }
    assert |Spell(1)| == 1;
    assert AllIn("q", TokenClass) && AllIn("r", TokenClass);
  }

  lemma LengthMoves(w: Wording, r: Report, text: string, digest: Digest)
    requires Accepted(r) && Accepted(r.(text := text))
    ensures |Body(w, r.(text := text), digest)| == |Body(w, r, digest)| - |r.text| + |text|
  {
    var s := r.(text := text);
    var a, b := Values(r, digest), Values(s, digest);
    DigestIs(digest, r.text);
    DigestIs(digest, text);
    assert |a| == 6 && |a[5]| == 64 && |b[5]| == 64 && b == a[5 := b[5]];
    hide Accepted, Preamble, Values;
    LastLength(Spec(), a, b[5]);
  }

  /** One such report, whatever the wording, so long as the wording leaves room for any report at all. */
  lemma SomeReportRaises(w: Wording, id: int, digest: Digest) returns (c: Comment)
    requires Accepted(Sample(1)) && |Body(w, Sample(1), digest)| <= MAX_BODY
    ensures FromComment(w, c, None, digest).Raised?
  {
    var n := 2 + MAX_BODY - |Body(w, Sample(1), digest)|;
    SampleAccepted(n);
    assert Sample(n) == Sample(1).(text := Sample(n).text);
    hide Accepted, Body, Shortened, FromComment;
    LengthMoves(w, Sample(1), Sample(n).text, digest);
    c := Comment(id, None, Shortened(w, Sample(n), digest));
    ShortenedRaises(w, Sample(n), c, None, digest);
  }

  // ----- What a body spells

  /** A body, end to end: the preamble around revision, commit and requirements, the text, the header, the marker. */
  lemma BodySpelled(w: Wording, r: Report, digest: Digest)
    requires Accepted(r)
    ensures Body(w, r, digest)
         == (w.revision + Spell(r.revision) + w.commit + r.commit + w.requirements + r.requirements + w.closing
             + (r.text + "\n\n"))
            + ("<!--orchestrator-developer-report:receipt=" + (r.receipt + (":pr=" + (Spell(r.pr)
               + (":revision=" + (Spell(r.revision) + (":commit=" + (r.commit + (":requirements=" + (r.requirements
               + (":content=" + (digest(r.text) + ("-->" + ("\n\n" + "<!--orchestrator-comment-->"))))))))))))))
  {
    hide Accepted, Written, HeaderLead, Marker, Spell;
    MarkerSpelled();
    LeadSpelled();
    ValuesIs(r, digest);
    WrittenSix(Spec(), Values(r, digest), END + (SEPARATOR + Marker()));
  }

  lemma LeadSpelled()
    ensures HeaderLead() == "<!--orchestrator-developer-report:receipt="
  {
  }

  /** A report is accepted exactly where its identity can be carried and its text is some, none of it reserved. */
  lemma AcceptedExactly(r: Report)
    ensures Accepted(r) <==>
              && r.pr >= 1 && JsonNumbers.Fits(r.pr) && r.revision >= 1 && JsonNumbers.Fits(r.revision)
              && (|r.commit| == 40 || |r.commit| == 64) && AllIn(r.commit, HexClass)
              && 1 <= |r.requirements| <= 128 && AllIn(r.requirements, TokenClass)
              && 1 <= |r.receipt| <= 128 && AllIn(r.receipt, TokenClass)
              && Strip(r.text) != "" && !Contains(r.text, "<!--orchestrator-")
  {
    hide Strip, Contains;
  }
}
