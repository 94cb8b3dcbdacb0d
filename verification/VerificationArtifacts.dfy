/**
 Verification artifacts: a summary anybody reads, over evidence carried hidden. A comment is one only where its
 whole body is what rendering gives for what its header names and its payload's commands.
 */
module VerificationArtifacts {
  import opened Text
  import opened Decimal
  import opened Threads
  import opened VerificationEvidence
  import opened VerificationPayloads
  import opened CommentHeaders

  // The two openings part at their second word, where a search for one passes over the other.
  function HeaderLead(): string { RESERVED + ("verification-" + "artifact:receipt=") }
  function Opener(): string { RESERVED + ("verification-" + "evidence ") }

  datatype Name =
    | Receipt | Pr | Revised | Witness | Owner | Repository
    | Tested | Tree | Target | Subject | Requirements | Context | Content

  /** What a header writes ahead of each field. */
  function LeadOf(n: Name): (lead: string)
    ensures lead != ""
  {
    match n
    case Receipt => HeaderLead()
    case Pr => ":pr="
    case Revised => ":revision="
    case Witness => ":source="
    case Owner => ":repository="
    case Repository => "/"
    case Tested => ":tested="
    case Tree => ":tree="
    case Target => ":head="
    case Subject => ":subject="
    case Requirements => ":requirements="
    case Context => ":context="
    case Content => ":content="
  }

  lemma LeadBegins(n: Name)
    requires n != Receipt
    ensures LeadOf(n)[0] == if n == Repository then '/' else ':'
    ensures '<' !in LeadOf(n)
  {
  }

  function WhoseFields(): seq<Field> {
    [Field(LeadOf(Receipt), TokenClass), Field(LeadOf(Pr), DigitClass), Field(LeadOf(Revised), DigitClass),
     Field(LeadOf(Witness), LetterClass), Field(LeadOf(Owner), TokenClass), Field(LeadOf(Repository), TokenClass)]
  }

  function WhatFields(): seq<Field> {
    [Field(LeadOf(Tested), HexClass), Field(LeadOf(Tree), HexClass), Field(LeadOf(Target), HexClass),
     Field(LeadOf(Subject), HexClass), Field(LeadOf(Requirements), TokenClass), Field(LeadOf(Context), TokenClass),
     Field(LeadOf(Content), HexClass)]
  }

  function Spec(): seq<Field> { WhoseFields() + WhatFields() }

  datatype Source = OrchestratorExecuted | ReviewerReported

  function SourceText(s: Source): string {
    if s.OrchestratorExecuted? then "orchestrator-executed" else "reviewer-reported"
  }

  function SourceOf(t: string): Option<Source> {
    if t == SourceText(OrchestratorExecuted) then Some(OrchestratorExecuted)
    else if t == SourceText(ReviewerReported) then Some(ReviewerReported)
    else None
  }

  datatype Artifact = Artifact(
    owner: string, name: string, pr: int, source: Source, tested: string, tree: string, head: string,
    subject: string, requirements: string, context: string, revision: int, receipt: string, commands: seq<Command>)

  predicate Accepted(a: Artifact) {
    && IsTokenText(a.owner, 100) && IsTokenText(a.name, 100) && IsCount(a.pr) && IsCount(a.revision)
    && IsObjectId(a.tested) && IsObjectId(a.tree) && IsObjectId(a.head) && IsObjectId(a.subject)
    && IsTokenText(a.requirements, 128) && IsTokenText(a.context, 128) && IsTokenText(a.receipt, 128)
    && AllAccepted(a.commands)
  }

  // ----- The summary

  datatype Outcome = Absent | Failed(failed: nat, of: nat) | Passed(total: nat)

  function FailedCount(commands: seq<Command>): nat {
    if commands == [] then 0 else (if commands[0].status != 0 then 1 else 0) + FailedCount(commands[1..])
  }

  function OutcomeOf(commands: seq<Command>): Outcome {
    if commands == [] then Absent
    else if FailedCount(commands) > 0 then Failed(FailedCount(commands), |commands|)
    else Passed(|commands|)
  }

  /**
   An outcome passed needs a check, and none with another status than 0; one such check is a failure; none at all
   is neither.
   */
  lemma {:induction false} OutcomeMeans(commands: seq<Command>)
    ensures OutcomeOf(commands).Passed? <==> commands != [] && forall i | 0 <= i < |commands| :: commands[i].status == 0
    ensures OutcomeOf(commands).Failed? <==> exists i :: 0 <= i < |commands| && commands[i].status != 0
    ensures OutcomeOf(commands).Absent? <==> commands == []
  {
    if commands != [] {
      OutcomeMeans(commands[1..]);
      assert forall i | 1 <= i < |commands| :: commands[i] == commands[1..][i - 1];
      assert forall i | 0 <= i < |commands[1..]| :: commands[1..][i] == commands[i + 1];
      if FailedCount(commands) > 0 && commands[0].status == 0 {
        var i :| 0 <= i < |commands[1..]| && commands[1..][i].status != 0;
        assert commands[i + 1].status != 0;
      }
    }
  }

  /** The summary's wording, piece by piece around what it states. */
  datatype Wording = Wording(
    revision: Prose, status: Prose, source: Prose, content: Prose, tested: Prose, tree: Prose, head: Prose,
    closing: Prose,
    passed: Prose, passedOf: Prose, passedEnd: Prose, failed: Prose, failedOf: Prose, failedEnd: Prose, absent: Prose,
    executed: Prose, reported: Prose, testedHead: Prose, testedHeadEnd: Prose, carriedHead: Prose,
    carriedHeadEnd: Prose)

  function StatusText(w: Wording, o: Outcome): string {
    match o
    case Absent => w.absent
    case Failed(failed, total) => w.failed + Spell(failed) + w.failedOf + Spell(total) + w.failedEnd
    case Passed(total) => w.passed + Spell(total) + w.passedOf + Spell(total) + w.passedEnd
  }

  function HeadText(w: Wording, a: Artifact): string {
    if a.tested == a.head then w.testedHead + a.head + w.testedHeadEnd else w.carriedHead + a.head + w.carriedHeadEnd
  }

  function Summary(w: Wording, a: Artifact, digest: Digest): string
    requires Accepted(a)
  {
    Reported(w, a) + (Evidenced(w, a, digest) + w.closing)
  }

  /** The revision, the outcome and the witness. */
  function Reported(w: Wording, a: Artifact): string
    requires Accepted(a)
  {
    (w.revision + Spell(a.revision)) + (w.status + StatusText(w, OutcomeOf(a.commands)))
    + (w.source + (if a.source.OrchestratorExecuted? then w.executed else w.reported))
  }

  /** The evidence's revision, the commit and tree it is of, and the head it answers for. */
  function Evidenced(w: Wording, a: Artifact, digest: Digest): string
    requires Accepted(a)
  {
    ((w.content + Revision(a.commands, digest)) + (w.tested + a.tested))
    + ((w.tree + a.tree) + (w.head + HeadText(w, a)))
  }

  // ----- The body

  function WhoseValues(a: Artifact): seq<string>
    requires Accepted(a)
  {
    [a.receipt, Spell(a.pr), Spell(a.revision), SourceText(a.source), a.owner, a.name]
  }

  function WhatValues(a: Artifact, digest: Digest): seq<string>
    requires Accepted(a)
  {
    [a.tested, a.tree, a.head, a.subject, a.requirements, a.context, Revision(a.commands, digest)]
  }

  function Values(a: Artifact, digest: Digest): seq<string>
    requires Accepted(a)
  {
    WhoseValues(a) + WhatValues(a, digest)
  }

  function Header(a: Artifact, digest: Digest): string
    requires Accepted(a)
  {
    Written(Spec(), Values(a, digest)) + END
  }

  function Hidden(payload: string): string { Opener() + (payload + END) }

  /** Everything in a body ahead of its header. */
  function Ahead(w: Wording, a: Artifact, payload: string, digest: Digest): string
    requires Accepted(a)
  {
    (Summary(w, a, digest) + SEPARATOR) + (Hidden(payload) + SEPARATOR)
  }

  /** The one body an artifact is spelled as, however long; none where its evidence has no revision. */
  function Body(w: Wording, a: Artifact, digest: Digest): Option<string>
    requires Accepted(a)
  {
    var payload := Encode(a.commands, digest);
    if payload.None? then None
    else Some(Ahead(w, a, payload.value, digest) + (Header(a, digest) + (SEPARATOR + Marker())))
  }

  /** The body an artifact is published as, or none where it has none or one comment does not hold it. */
  function Rendered(w: Wording, a: Artifact, digest: Digest): Option<string>
    requires Accepted(a)
  {
    var body := Body(w, a, digest);
    if body.Some? && |body.value| <= MAX_BODY then body else None
  }

  function Scope(a: Artifact): string { ScopeOf(HeaderLead(), a.receipt) }

  // ----- Reading

  /** The longest run without an angle bracket a text begins with. */
  function Angleless(t: string): (run: string)
    ensures run <= t && NoAngles(run)
  {
    if t != "" && t[0] != '<' && t[0] != '>' then [t[0]] + Angleless(t[1..]) else ""
  }

  /** The payload of the hidden comment `t` begins with. */
  function HiddenAt(t: string): Option<string> {
    if !(Opener() <= t) then None
    else
      var behind := t[|Opener()|..];
      var run := Angleless(behind);
      if |run| >= 2 && run[|run| - 2..] == "--" && |run| < |behind| && behind[|run|] == '>' then Some(run[..|run| - 2])
      else None
  }

  /** The payload of the leftmost hidden comment. */
  function FindHidden(t: string): Option<string> {
    if HiddenAt(t).Some? then HiddenAt(t) else if t == "" then None else FindHidden(t[1..])
  }

  function CommandsAhead(ahead: string, digest: Digest): (commands: Option<seq<Command>>)
  {
    var payload := FindHidden(ahead);
    if payload.None? then None else Decode(payload.value, digest)
  }

  /** The artifact a header's values claim beside some commands, or none where this format refuses it. */
  function ArtifactOf(values: seq<string>, commands: seq<Command>): (a: Option<Artifact>)
    ensures a.Some? ==> Accepted(a.value)
  {
    if |values| != 13 || !AllIn(values[1], DigitClass) || !AllIn(values[2], DigitClass) then None
    else
      var pr, revision, source := CountOf(values[1]), CountOf(values[2]), SourceOf(values[3]);
      if pr.None? || revision.None? || source.None? then None
      else
        var a := Artifact(values[4], values[5], pr.value, source.value, values[6], values[7], values[8], values[9],
                          values[10], values[11], revision.value, values[0], commands);
        if Accepted(a) then Some(a) else None
  }

  function Candidate(body: string, digest: Digest): (a: Option<Artifact>)
    ensures a.Some? ==> Accepted(a.value)
  {
    var claim := Claimed(Spec(), body);
    if claim.None? then None
    else
      var commands := CommandsAhead(body[..claim.value.0], digest);
      if commands.None? then None else ArtifactOf(claim.value.1, commands.value)
  }

  /** The artifact a comment is, or none. */
  function FromComment(w: Wording, c: Comment, login: Option<string>, digest: Digest): (a: Option<Artifact>)
    ensures a.Some? ==> Accepted(a.value)
  {
    if |c.body| > MAX_BODY || !Ours(c, login) then None
    else
      var a := Candidate(c.body, digest);
      if a.Some? && Body(w, a.value, digest) == Some(c.body) then a else None
  }

  // ----- Round trip

  lemma WhoseParts()
    ensures var spec := WhoseFields();
            |spec| == 6 && Parts(spec) && spec[5].kind == TokenClass && spec[0].lead == HeaderLead()
    ensures forall i | 1 <= i < 6 :: '<' !in WhoseFields()[i].lead
    ensures WhoseFields()[1].lead[0] == ':'
  {
    assert LeadOf(Receipt) == HeaderLead();
    hide LeadOf;
    LeadBegins(Pr);
    LeadBegins(Revised);
    LeadBegins(Witness);
    LeadBegins(Owner);
    LeadBegins(Repository);
  }

  lemma WhatParts()
    ensures var spec := WhatFields();
            |spec| == 7 && Parts(spec) && spec[6].kind == HexClass && spec[0].lead[0] == ':'
    ensures forall i | 0 <= i < 7 :: '<' !in WhatFields()[i].lead
  {
    hide LeadOf, Parts, InClass;
    LeadBegins(Tested);
    LeadBegins(Tree);
    LeadBegins(Target);
    LeadBegins(Subject);
    LeadBegins(Requirements);
    LeadBegins(Context);
    LeadBegins(Content);
    ColonParts(WhatFields());
  }

  lemma SpecParts()
    ensures Parts(Spec()) && |Spec()| == 13 && !InClass('-', Spec()[12].kind) && Spec()[0].lead == HeaderLead()
    ensures ReceiptFirst(Spec())
  {
    var whose, what := WhoseFields(), WhatFields();
    WhoseParts();
    WhatParts();
    hide WhoseFields, WhatFields;
    PartsTogether(whose, what);
    forall i | 1 <= i < |Spec()| ensures '<' !in Spec()[i].lead {
      assert Spec()[i] == if i < 6 then whose[i] else what[i - 6];
    }
  }

  lemma NeitherHas(a: string, b: string, c: char)
    requires c !in a && c !in b
    ensures c !in a + b
  {
  }

  lemma LiteralsClear()
    ensures '<' !in "verification-" && '>' !in "verification-" && '<' !in "evidence " && '>' !in "evidence "
    ensures |RESERVED| > 1 && '<' !in RESERVED[1..] && '>' !in RESERVED
  {
  }

  lemma HeaderBegins()
    ensures RESERVED <= HeaderLead() && RESERVED[0] == '<'
    ensures |HeaderLead()| > |RESERVED| && HeaderLead()[|RESERVED|] == 'v'
    ensures HeaderLead() != "" && HeaderLead()[0] == '<' && '<' !in HeaderLead()[1..]
  {
    assert '<' !in "verification-" && '<' !in "artifact:receipt=";
    NeitherHas("verification-", "artifact:receipt=", '<');
    var tail: string := "verification-" + "artifact:receipt=";
    assert '<' !in RESERVED[1..] && tail[0] == 'v' && |tail| > 0;
    NeitherHas(RESERVED[1..], tail, '<');
    assert HeaderLead()[1..] == RESERVED[1..] + tail;
  }

  lemma OpenerBegins()
    ensures Opener() != "" && '<' !in Opener()[1..] && '>' !in Opener()
  {
    LiteralsClear();
    NeitherHas("verification-", "evidence ", '<');
    NeitherHas("verification-", "evidence ", '>');
    var tail: string := "verification-" + "evidence ";
    NeitherHas(RESERVED[1..], tail, '<');
    NeitherHas(RESERVED, tail, '>');
    assert Opener()[1..] == RESERVED[1..] + tail;
  }

  lemma LeadReserved()
    ensures RESERVED <= HeaderLead() && RESERVED[0] == '<'
    ensures |HeaderLead()| > |RESERVED| && HeaderLead()[|RESERVED|] == 'v'
    ensures HeaderLead() != "" && HeaderLead()[0] == '<'
    ensures Marker()[|RESERVED|] == 'c' && '<' !in HeaderLead()[1..] && '<' !in Opener()[1..] && '>' !in Opener()
  {
    hide HeaderLead, Opener;
    HeaderBegins();
    OpenerBegins();
    assert "comment-->"[0] == 'c';
  }

  lemma OpenerApart(t: string)
    ensures !(HeaderLead() <= Opener() + t)
  {
    var k := |RESERVED| + 13;
    assert ("verification-" + "artifact:receipt=")[13] == 'a' && ("verification-" + "evidence ")[13] == 'e';
    assert HeaderLead()[k] == 'a' && (Opener() + t)[k] == 'e';
  }

  /** The receipt, counts, source and repository of an accepted artifact, as a header's classes take them. */
  lemma WhoseTaken(a: Artifact)
    requires Accepted(a)
    ensures AllIn(a.receipt, TokenClass) && AllIn(a.owner, TokenClass) && AllIn(a.name, TokenClass)
    ensures a.receipt != "" && a.owner != "" && a.name != ""
    ensures AllIn(Spell(a.pr), DigitClass) && AllIn(Spell(a.revision), DigitClass)
    ensures Spell(a.pr) != "" && Spell(a.revision) != ""
    ensures CountOf(Spell(a.pr)) == Some(a.pr) && CountOf(Spell(a.revision)) == Some(a.revision)
  {
    hide AllAccepted;
    CountRead(a.pr);
    CountRead(a.revision);
  }

  lemma SourceTaken(s: Source)
    ensures SourceText(s) != "" && AllIn(SourceText(s), LetterClass) && SourceOf(SourceText(s)) == Some(s)
  {
    assert SourceText(OrchestratorExecuted)[0] == 'o' && SourceText(ReviewerReported)[0] == 'r';
  }

  /** The objects, requirements, context and revision of an accepted artifact, as a header's classes take them. */
  lemma WhatTaken(a: Artifact, digest: Digest)
    requires Accepted(a)
    ensures AllIn(a.requirements, TokenClass) && AllIn(a.context, TokenClass)
    ensures a.requirements != "" && a.context != ""
    ensures AllIn(a.tested, HexClass) && AllIn(a.tree, HexClass)
    ensures AllIn(a.head, HexClass) && AllIn(a.subject, HexClass)
    ensures a.tested != "" && a.tree != "" && a.head != "" && a.subject != ""
    ensures AllIn(Revision(a.commands, digest), HexClass) && Revision(a.commands, digest) != ""
  {
    hide AllAccepted;
    DigestIs(digest, RenderCommands(a.commands));
    HexCarried(a.tested);
    HexCarried(a.tree);
    HexCarried(a.head);
    HexCarried(a.subject);
    HexCarried(Revision(a.commands, digest));
  }

  lemma HexCarried(s: string)
    requires AllHex(s)
    ensures AllIn(s, HexClass)
  {
  }

  predicate CarriedAt(spec: seq<Field>, values: seq<string>, i: nat)
    requires i < |spec| && i < |values|
  {
    values[i] != "" && AllIn(values[i], spec[i].kind)
  }

  lemma CarriesSix(spec: seq<Field>, values: seq<string>)
    requires |spec| == 6 && |values| == 6
    requires CarriedAt(spec, values, 0) && CarriedAt(spec, values, 1) && CarriedAt(spec, values, 2)
    requires CarriedAt(spec, values, 3) && CarriedAt(spec, values, 4) && CarriedAt(spec, values, 5)
    ensures Carries(spec, values)
  {
    hide AllIn;
  }

  lemma CarriesLast(spec: seq<Field>, values: seq<string>)
    requires |spec| == |values| && spec != [] && CarriedAt(spec, values, |spec| - 1)
    requires Carries(spec[..|spec| - 1], values[..|spec| - 1])
    ensures Carries(spec, values)
  {
    hide AllIn;
    assert forall i | 0 <= i < |spec| - 1 :: spec[..|spec| - 1][i] == spec[i] && values[..|spec| - 1][i] == values[i];
  }

  lemma WhoseIs(a: Artifact)
    requires Accepted(a)
    ensures WhoseValues(a) == [a.receipt, Spell(a.pr), Spell(a.revision), SourceText(a.source), a.owner, a.name]
  {
  }

  lemma ListsCarried(receipt: string, pr: string, revision: string, source: string, owner: string, name: string)
    requires receipt != "" && pr != "" && revision != "" && source != "" && owner != "" && name != ""
    requires AllIn(receipt, TokenClass) && AllIn(pr, DigitClass) && AllIn(revision, DigitClass)
    requires AllIn(source, LetterClass) && AllIn(owner, TokenClass) && AllIn(name, TokenClass)
    ensures Carries(WhoseFields(), [receipt, pr, revision, source, owner, name])
  {
    hide AllIn, LeadOf, Carries;
    CarriesSix(WhoseFields(), [receipt, pr, revision, source, owner, name]);
  }

  lemma WhoseCarried(a: Artifact)
    requires Accepted(a)
    ensures Carries(WhoseFields(), WhoseValues(a))
  {
    hide *;
    WhoseTaken(a);
    SourceTaken(a.source);
    ListsCarried(a.receipt, Spell(a.pr), Spell(a.revision), SourceText(a.source), a.owner, a.name);
    WhoseIs(a);
  }

  lemma WhatIs(a: Artifact, digest: Digest)
    requires Accepted(a)
    ensures WhatValues(a, digest)
         == [a.tested, a.tree, a.head, a.subject, a.requirements, a.context, Revision(a.commands, digest)]
  {
  }

  lemma MoreCarried(tested: string, tree: string, head: string, subject: string, requirements: string, context: string,
                    content: string)
    requires tested != "" && tree != "" && head != "" && subject != "" && requirements != "" && context != ""
    requires AllIn(tested, HexClass) && AllIn(tree, HexClass) && AllIn(head, HexClass) && AllIn(subject, HexClass)
    requires AllIn(requirements, TokenClass) && AllIn(context, TokenClass)
    requires content != "" && AllIn(content, HexClass)
    ensures Carries(WhatFields(), [tested, tree, head, subject, requirements, context, content])
  {
    hide AllIn, LeadOf, Carries;
    var values := [tested, tree, head, subject, requirements, context, content];
    CarriesSix(WhatFields()[..6], values[..6]);
    CarriesLast(WhatFields(), values);
  }

  lemma WhatCarried(a: Artifact, digest: Digest)
    requires Accepted(a)
    ensures Carries(WhatFields(), WhatValues(a, digest))
  {
    hide *;
    WhatTaken(a, digest);
    var revision := Revision(a.commands, digest);
    MoreCarried(a.tested, a.tree, a.head, a.subject, a.requirements, a.context, revision);
    WhatIs(a, digest);
  }

  lemma ValuesCarried(a: Artifact, digest: Digest)
    requires Accepted(a)
    ensures Carries(Spec(), Values(a, digest)) && |Values(a, digest)| == 13
  {
    assert |Values(a, digest)| == 13;
    hide Accepted, Carries, WhoseFields, WhatFields, WhoseValues, WhatValues;
    WhoseCarried(a);
    WhatCarried(a, digest);
    CarriesTogether(WhoseFields(), WhoseValues(a), WhatFields(), WhatValues(a, digest));
  }

  lemma NoAngleIn(s: string, k: Class)
    requires AllIn(s, k)
    ensures '<' !in s
  {
    assert !IsNameChar('<') && !IsDigit('<') && !IsHex('<');
  }

  lemma SpelledNoAngle(n: nat)
    ensures '<' !in Spell(n)
  {
    assert !IsDigit('<');
  }

  lemma StatusNoAngle(w: Wording, commands: seq<Command>)
    ensures '<' !in StatusText(w, OutcomeOf(commands))
  {
    SpelledNoAngle(FailedCount(commands));
    SpelledNoAngle(|commands|);
  }

  lemma ReportedNoAngle(w: Wording, a: Artifact)
    requires Accepted(a)
    ensures '<' !in Reported(w, a)
  {
    SpelledNoAngle(a.revision);
    hide Accepted, StatusText;
    StatusNoAngle(w, a.commands);
  }

  lemma IdentityNoAngle(a: Artifact, digest: Digest)
    requires Accepted(a)
    ensures '<' !in a.tested && '<' !in a.tree && '<' !in a.head && '<' !in Revision(a.commands, digest)
  {
    hide *;
    WhoseTaken(a);
    WhatTaken(a, digest);
    NoAngleIn(a.tested, HexClass);
    NoAngleIn(a.tree, HexClass);
    NoAngleIn(a.head, HexClass);
    NoAngleIn(Revision(a.commands, digest), HexClass);
  }

  lemma PairNoAngle(a: string, b: string)
    requires '<' !in a && '<' !in b
    ensures '<' !in a + b
  {
  }

  lemma HeadNoAngle(w: Wording, a: Artifact)
    requires '<' !in a.head
    ensures '<' !in HeadText(w, a)
  {
    PairNoAngle(if a.tested == a.head then w.testedHead else w.carriedHead, a.head);
  }

  lemma EvidencedNoAngle(w: Wording, a: Artifact, digest: Digest)
    requires Accepted(a)
    ensures '<' !in Evidenced(w, a, digest)
  {
    IdentityNoAngle(a, digest);
    HeadNoAngle(w, a);
    hide Accepted, Revision, HeadText;
    PairNoAngle(w.content + Revision(a.commands, digest), w.tested + a.tested);
    PairNoAngle(w.tree + a.tree, w.head + HeadText(w, a));
  }

  lemma SummaryNoAngle(w: Wording, a: Artifact, digest: Digest)
    requires Accepted(a)
    ensures '<' !in Summary(w, a, digest) + SEPARATOR
  {
    hide Accepted, Reported, Evidenced;
    ReportedNoAngle(w, a);
    EvidencedNoAngle(w, a, digest);
  }

  /** No scope of a receipt begins in a hidden payload's comment, nor in what sets it off. */
  lemma HiddenSplit(payload: string)
    ensures Opener() != ""
    ensures Hidden(payload) + SEPARATOR == Opener()[..1] + (Opener()[1..] + (payload + END) + SEPARATOR)
  {
    assert Opener() == Opener()[..1] + Opener()[1..];
  }

  lemma BehindAngles(payload: string)
    requires NoAngles(payload)
    ensures Opener() != "" && '<' !in Opener()[1..] + (payload + END) + SEPARATOR
  {
    hide Opener;
    OpenerBegins();
    assert '<' !in END && '<' !in SEPARATOR;
    NeitherHas(payload, END, '<');
    NeitherHas(Opener()[1..], payload + END, '<');
    NeitherHas(Opener()[1..] + (payload + END), SEPARATOR, '<');
  }

  lemma HiddenClear(payload: string, t: string, lead: string)
    requires NoAngles(payload) && lead != "" && lead[0] == '<'
    requires !(lead <= Hidden(payload) + (SEPARATOR + t))
    ensures Clear(Hidden(payload) + SEPARATOR, t, lead)
  {
    hide Clear, Opener, Hidden;
    LeadReserved();
    HiddenSplit(payload);
    var opening, behind := Opener()[..1], Opener()[1..] + (payload + END) + SEPARATOR;
    assert Hidden(payload) + (SEPARATOR + t) == (Hidden(payload) + SEPARATOR) + t == opening + (behind + t);
    ClearFirst(opening, behind + t, lead);
    BehindAngles(payload);
    ClearOfAngles(behind, t, lead);
    ClearTogether(opening, behind, t, lead);
  }

  lemma AheadClear(w: Wording, a: Artifact, payload: string, digest: Digest, t: string, lead: string)
    requires Accepted(a) && NoAngles(payload) && lead != "" && lead[0] == '<'
    requires !(lead <= Hidden(payload) + (SEPARATOR + t))
    ensures Clear(Ahead(w, a, payload, digest), t, lead)
  {
    hide Clear, Accepted, Summary, Hidden;
    SummaryNoAngle(w, a, digest);
    var first, second := Summary(w, a, digest) + SEPARATOR, Hidden(payload) + SEPARATOR;
    ClearOfAngles(first, second + t, lead);
    HiddenClear(payload, t, lead);
    ClearTogether(first, second, t, lead);
  }

  lemma HiddenApart(payload: string, t: string)
    ensures !(HeaderLead() <= Hidden(payload) + (SEPARATOR + t))
  {
    OpenerApart((payload + END) + (SEPARATOR + t));
    assert Hidden(payload) + (SEPARATOR + t) == Opener() + ((payload + END) + (SEPARATOR + t));
  }

  lemma BodyClaimed(w: Wording, a: Artifact, payload: string, digest: Digest)
    requires Accepted(a) && NoAngles(payload)
    ensures Claimed(Spec(), Ahead(w, a, payload, digest) + (Header(a, digest) + (SEPARATOR + Marker())))
         == Some((|Ahead(w, a, payload, digest)|, Values(a, digest)))
  {
    hide *;
    SpecParts();
    ValuesCarried(a, digest);
    LeadReserved();
    var tail := Written(Spec(), Values(a, digest)) + (END + (SEPARATOR + Marker()));
    HiddenApart(payload, tail);
    AheadClear(w, a, payload, digest, tail, HeaderLead());
    ClaimedClear(Spec(), Values(a, digest), Ahead(w, a, payload, digest), SEPARATOR + Marker());
    HeaderBehind(a, digest);
  }

  lemma HeaderBehind(a: Artifact, digest: Digest)
    requires Accepted(a)
    ensures Header(a, digest) + (SEPARATOR + Marker())
         == Written(Spec(), Values(a, digest)) + (END + (SEPARATOR + Marker()))
  {
    hide Accepted, Written, Values, Spec;
  }

  lemma {:induction false} AnglelessRead(run: string, rest: string)
    requires NoAngles(run) && rest != "" && (rest[0] == '<' || rest[0] == '>')
    ensures Angleless(run + rest) == run
  {
    if run == "" {
      assert run + rest == rest;
    } else {
      AnglelessRead(run[1..], rest);
      assert (run + rest)[1..] == run[1..] + rest;
    }
  }

  lemma HiddenRead(payload: string, rest: string)
    requires NoAngles(payload)
    ensures HiddenAt(Hidden(payload) + rest) == Some(payload)
  {
    var t := Hidden(payload) + rest;
    var run := payload + "--";
    var behind := run + (">" + rest);
    assert t == Opener() + behind;
    assert t[|Opener()|..] == behind;
    AnglelessRead(run, ">" + rest);
    assert run[|run| - 2..] == "--" && run[..|run| - 2] == payload && behind[|run|] == '>';
  }

  lemma {:induction false} HiddenFound(ahead: string, t: string)
    requires '<' !in ahead && HiddenAt(t).Some?
    ensures FindHidden(ahead + t) == HiddenAt(t)
  {
    hide HiddenAt;
    if ahead == "" {
      assert ahead + t == t;
    } else {
      assert (ahead + t)[1..] == ahead[1..] + t;
      NotHidden(ahead + t);
      HiddenFound(ahead[1..], t);
    }
  }

  lemma NotHidden(t: string)
    requires t != "" && t[0] != '<'
    ensures HiddenAt(t).None?
  {
    assert Opener()[0] == RESERVED[0] == '<';
  }

  lemma EvidenceFound(w: Wording, a: Artifact, digest: Digest)
    requires Accepted(a) && Convertibles(a.commands)
    ensures NoAngles(Encode(a.commands, digest).value)
    ensures CommandsAhead(Ahead(w, a, Encode(a.commands, digest).value, digest), digest) == Some(a.commands)
  {
    var payload := Encode(a.commands, digest).value;
    assert AllAccepted(a.commands);
    hide Accepted, Encode, Decode, Summary, Hidden, HiddenAt, FindHidden;
    PayloadSafe(a.commands, digest);
    DecodeEncode(a.commands, digest);
    SummaryNoAngle(w, a, digest);
    HiddenRead(payload, SEPARATOR);
    HiddenFound(Summary(w, a, digest) + SEPARATOR, Hidden(payload) + SEPARATOR);
  }

  lemma Indexed(x: seq<string>, y: seq<string>)
    requires |x| == 6 && |y| == 7
    ensures var v := x + y;
            && |v| == 13 && v[0] == x[0] && v[1] == x[1] && v[2] == x[2] && v[3] == x[3] && v[4] == x[4] && v[5] == x[5]
            && v[6] == y[0] && v[7] == y[1] && v[8] == y[2] && v[9] == y[3] && v[10] == y[4] && v[11] == y[5]
  {
  }

  /** Thirteen values that spell an artifact's fields are read as it. */
  lemma FieldsBack(values: seq<string>, a: Artifact)
    requires Accepted(a) && |values| == 13
    requires values[0] == a.receipt && values[1] == Spell(a.pr) && values[2] == Spell(a.revision)
    requires values[3] == SourceText(a.source) && values[4] == a.owner && values[5] == a.name
    requires values[6] == a.tested && values[7] == a.tree && values[8] == a.head && values[9] == a.subject
    requires values[10] == a.requirements && values[11] == a.context
    ensures ArtifactOf(values, a.commands) == Some(a)
  {
    WhoseTaken(a);
    SourceTaken(a.source);
    hide Accepted, AllIn, CountOf, SourceOf, Spell, SourceText;
  }

  lemma ValuesBack(a: Artifact, digest: Digest)
    requires Accepted(a)
    ensures ArtifactOf(Values(a, digest), a.commands) == Some(a)
  {
    hide Accepted, ArtifactOf, Revision, Spell, SourceText;
    Indexed(WhoseValues(a), WhatValues(a, digest));
    FieldsBack(Values(a, digest), a);
  }

  lemma BodyEncodes(w: Wording, a: Artifact, digest: Digest)
    requires Accepted(a)
    ensures Body(w, a, digest).Some? <==> Convertibles(a.commands)
  {
    hide Accepted, Ahead, Header;
  }

  lemma BodyIs(w: Wording, a: Artifact, digest: Digest)
    requires Accepted(a) && Convertibles(a.commands)
    ensures Encode(a.commands, digest).Some?
    ensures Body(w, a, digest)
         == Some(Ahead(w, a, Encode(a.commands, digest).value, digest) + (Header(a, digest) + (SEPARATOR + Marker())))
  {
    hide Accepted, Ahead, Header, Translated, Payload, Convertibles;
  }

  lemma CandidateIs(body: string, ahead: string, values: seq<string>, commands: seq<Command>, digest: Digest)
    requires ahead <= body && Claimed(Spec(), body) == Some((|ahead|, values))
    requires CommandsAhead(ahead, digest) == Some(commands)
    ensures Candidate(body, digest) == ArtifactOf(values, commands)
  {
    hide Claimed, CommandsAhead, ArtifactOf, Spec;
    assert body[..|ahead|] == ahead;
  }

  /** The body of an accepted artifact claims that very artifact, evidence and all. */
  lemma BodyCandidate(w: Wording, a: Artifact, digest: Digest)
    requires Accepted(a) && Body(w, a, digest).Some?
    ensures Candidate(Body(w, a, digest).value, digest) == Some(a)
  {
    BodyEncodes(w, a, digest);
    hide *;
    BodyIs(w, a, digest);
    var payload := Encode(a.commands, digest).value;
    EvidenceFound(w, a, digest);
    BodyClaimed(w, a, payload, digest);
    ValuesBack(a, digest);
    CandidateIs(Body(w, a, digest).value, Ahead(w, a, payload, digest), Values(a, digest), a.commands, digest);
  }

  /** A rendered artifact that fits in one comment of ours reads back as itself, every command and transcript of it. */
  lemma ArtifactReadsBack(w: Wording, a: Artifact, c: Comment, login: Option<string>, digest: Digest)
    requires Accepted(a) && Ours(c, login) && Rendered(w, a, digest) == Some(c.body)
    ensures FromComment(w, c, login, digest) == Some(a)
  {
    hide Accepted, Candidate, Body, Ours;
    BodyCandidate(w, a, digest);
  }

  /**
   A comment reads as an artifact exactly where it is ours and carries the one body of it, accepted and within the
   limit.
   */
  lemma ReadsExactly(w: Wording, a: Artifact, c: Comment, login: Option<string>, digest: Digest)
    ensures FromComment(w, c, login, digest) == Some(a)
       <==> Accepted(a) && Ours(c, login) && Rendered(w, a, digest) == Some(c.body)
  {
    hide Accepted, Candidate, Body;
    if Accepted(a) && Ours(c, login) && Rendered(w, a, digest) == Some(c.body) {
      ArtifactReadsBack(w, a, c, login, digest);
    }
  }

  /** No two artifacts are spelled as one body: identity, witness and evidence are all in it. */
  lemma BodyInjective(w: Wording, a: Artifact, b: Artifact, digest: Digest)
    requires Accepted(a) && Accepted(b) && Body(w, a, digest).Some?
    ensures Body(w, a, digest) == Body(w, b, digest) <==> a == b
  {
    hide Accepted, Candidate, Body;
    BodyCandidate(w, a, digest);
    if Body(w, a, digest) == Body(w, b, digest) {
      BodyCandidate(w, b, digest);
    }
  }

  // ----- Receipts

  lemma ReceiptPlain(a: Artifact)
    requires Accepted(a)
    ensures ':' !in a.receipt && '<' !in a.receipt
  {
    hide AllAccepted;
    assert !IsNameChar(':') && !IsNameChar('<');
  }

  lemma HeaderParts(a: Artifact, digest: Digest) returns (rest: string)
    requires Accepted(a)
    ensures Header(a, digest) == HeaderLead() + (a.receipt + (":" + rest))
    ensures '<' !in Header(a, digest)[1..]
  {
    assert Values(a, digest)[0] == a.receipt;
    hide Accepted, Written, Carries, ReceiptFirst, Values, Spec;
    SpecParts();
    ValuesCarried(a, digest);
    rest := ReceiptHeader(Spec(), Values(a, digest));
    ReceiptPlain(a);
    HeaderTail(Header(a, digest), a.receipt, rest);
  }

  lemma HeaderTail(header: string, receipt: string, rest: string)
    requires header == HeaderLead() + (receipt + (":" + rest)) && '<' !in receipt && '<' !in rest
    ensures header != "" && '<' !in header[1..]
  {
    LeadReserved();
    assert header[1..] == HeaderLead()[1..] + (receipt + (":" + rest));
  }

  lemma ScopeApart(payload: string, tail: string, scope: string)
    requires forall t :: !(scope <= Opener() + t)
    ensures !(scope <= Hidden(payload) + (SEPARATOR + tail))
  {
    assert Hidden(payload) + (SEPARATOR + tail) == Opener() + ((payload + END) + (SEPARATOR + tail));
  }

  /** A scope that does not open the hidden payload stands in an artifact's body exactly where it opens its header. */
  lemma ScopeInBody(w: Wording, a: Artifact, digest: Digest, scope: string)
    requires Accepted(a) && Body(w, a, digest).Some?
    requires RESERVED <= scope && |scope| > |RESERVED| && scope[|RESERVED|] != 'c'
    requires forall t :: !(scope <= Opener() + t)
    ensures Contains(Body(w, a, digest).value, scope) <==> scope <= Header(a, digest) + (SEPARATOR + Marker())
  {
    BodyEncodes(w, a, digest);
    hide *;
    BodyIs(w, a, digest);
    LeadReserved();
    var payload := Encode(a.commands, digest).value;
    PayloadSafe(a.commands, digest);
    var rest := HeaderParts(a, digest);
    var tail := Header(a, digest) + (SEPARATOR + Marker());
    ScopeApart(payload, tail, scope);
    AheadClear(w, a, payload, digest, tail, scope);
    ScopeStands(Ahead(w, a, payload, digest), Header(a, digest), scope);
  }

  lemma ScopeReserved(receipt: string)
    ensures var scope := ScopeOf(HeaderLead(), receipt);
            RESERVED <= scope && |scope| > |RESERVED| && scope[|RESERVED|] == 'v'
    ensures forall t :: !(ScopeOf(HeaderLead(), receipt) <= Opener() + t)
  {
    LeadReserved();
    forall t ensures !(ScopeOf(HeaderLead(), receipt) <= Opener() + t) {
      OpenerApart(t);
      assert ScopeOf(HeaderLead(), receipt)[..|HeaderLead()|] == HeaderLead();
    }
  }

  lemma ScopeIs(a: Artifact)
    ensures Scope(a) == ScopeOf(HeaderLead(), a.receipt)
  {
  }

  /** An artifact's receipt is found in the body of another artifact exactly where the two have one receipt. */
  lemma ReceiptFound(w: Wording, a: Artifact, b: Artifact, digest: Digest)
    requires Accepted(a) && Accepted(b) && Body(w, b, digest).Some?
    ensures Contains(Body(w, b, digest).value, Scope(a)) <==> a.receipt == b.receipt
  {
    hide *;
    ScopeReserved(a.receipt);
    ScopeIs(a);
    ScopeInBody(w, b, digest, Scope(a));
    var rest := HeaderParts(b, digest);
    ReceiptPlain(a);
    ReceiptPlain(b);
    var more := rest + (SEPARATOR + Marker());
    ScopeRegrouped(HeaderLead(), b.receipt, rest, SEPARATOR + Marker());
    ReceiptCloses(HeaderLead(), a.receipt, b.receipt, more);
  }

  // ----- What a body says

  /** The commands of `commands` that exited with another status than 0, by their places. */
  function Failing(commands: seq<Command>): set<nat> {
    set i: nat | i < |commands| && commands[i].status != 0
  }

  function FailingFrom(commands: seq<Command>, k: nat): set<nat> {
    set i: nat | k <= i < |commands| && commands[i].status != 0
  }

  lemma FailingStep(commands: seq<Command>, k: nat)
    requires k < |commands|
    ensures |FailingFrom(commands, k)| == |FailingFrom(commands, k + 1)| + if commands[k].status != 0 then 1 else 0
  {
    var first: set<nat> := if commands[k].status != 0 then {k} else {};
    assert FailingFrom(commands, k) == FailingFrom(commands, k + 1) + first;
    assert k !in FailingFrom(commands, k + 1);
  }

  lemma {:induction false} FailingBehind(commands: seq<Command>, k: nat)
    requires k <= |commands|
    ensures FailedCount(commands[k..]) == |FailingFrom(commands, k)|
    decreases |commands| - k
  {
    hide FailingFrom;
    if k < |commands| {
      FailingStep(commands, k);
      FailingBehind(commands, k + 1);
      assert commands[k..][1..] == commands[k + 1..];
    } else {
      NoneFrom(commands);
    }
  }

  lemma NoneFrom(commands: seq<Command>)
    ensures FailingFrom(commands, |commands|) == {}
  {
  }

  lemma FailingCounted(commands: seq<Command>)
    ensures FailedCount(commands) == |Failing(commands)|
  {
    FailingBehind(commands, 0);
    assert commands[0..] == commands && FailingFrom(commands, 0) == Failing(commands);
  }

  /** What the summary says of the commands: that none ran, how many passed, or how many of them did not. */
  lemma StatusSays(w: Wording, commands: seq<Command>)
    ensures var status, failing := StatusText(w, OutcomeOf(commands)), Failing(commands);
            && (commands == [] ==> status == w.absent)
            && (commands != [] && (forall c | c in commands :: c.status == 0) ==>
                  status == w.passed + Spell(|commands|) + w.passedOf + Spell(|commands|) + w.passedEnd)
            && ((exists c :: c in commands && c.status != 0) ==>
                  status == w.failed + Spell(|failing|) + w.failedOf + Spell(|commands|) + w.failedEnd)
  {
    hide Spell;
    FailingCounted(commands);
    OutcomeMeans(commands);
    if c :| c in commands && c.status != 0 {
      var i :| 0 <= i < |commands| && commands[i] == c;
    }
  }

  /**
   A body opens on its revision and, by the statuses its own commands exited with, whether they passed, failed or never
   ran; then who witnessed it, the evidence's revision, the commit and tree tested, and whether the head answered for
   is that commit or another of its tree.
   */
  lemma BodySays(w: Wording, a: Artifact, digest: Digest)
    returns (status: string, source: string, head: string)
    requires Accepted(a) && Body(w, a, digest).Some?
    ensures Body(w, a, digest).value
         == (((w.revision + Spell(a.revision)) + (w.status + status) + (w.source + source))
             + ((((w.content + Revision(a.commands, digest)) + (w.tested + a.tested))
                 + ((w.tree + a.tree) + (w.head + head))) + w.closing)
             + SEPARATOR
             + ("<!--orchestrator-verification-evidence " + (Encode(a.commands, digest).value + "-->") + SEPARATOR))
            + (Header(a, digest) + (SEPARATOR + Marker()))
    ensures a.commands == [] ==> status == w.absent
    ensures a.commands != [] && (forall c | c in a.commands :: c.status == 0) ==>
              status == w.passed + Spell(|a.commands|) + w.passedOf + Spell(|a.commands|) + w.passedEnd
    ensures (exists c :: c in a.commands && c.status != 0) ==>
              status == w.failed + Spell(|Failing(a.commands)|) + w.failedOf + Spell(|a.commands|) + w.failedEnd
    ensures source == match a.source case OrchestratorExecuted => w.executed case ReviewerReported => w.reported
    ensures a.tested == a.head ==> head == w.testedHead + a.head + w.testedHeadEnd
    ensures a.tested != a.head ==> head == w.carriedHead + a.head + w.carriedHeadEnd
  {
    hide Accepted, Header, Encode, Spell, Revision, Failing, StatusText, OutcomeOf, Marker;
    status, head := StatusText(w, OutcomeOf(a.commands)), HeadText(w, a);
    source := if a.source.OrchestratorExecuted? then w.executed else w.reported;
    StatusSays(w, a.commands);
    OpenerSpelled();
  }

  lemma OpenerSpelled()
    ensures Opener() == "<!--orchestrator-verification-evidence "
  {
  }

  /** A header, end to end. */
  lemma HeaderSpelled(a: Artifact, digest: Digest)
    requires Accepted(a)
    ensures var source := if a.source == OrchestratorExecuted then "orchestrator-executed" else "reviewer-reported";
            Header(a, digest)
            == "<!--orchestrator-verification-artifact:receipt=" + (a.receipt + (":pr=" + (Spell(a.pr)
               + (":revision=" + (Spell(a.revision) + (":source=" + (source + (":repository=" + (a.owner
               + ("/" + (a.name + BehindName(a, Revision(a.commands, digest)))))))))))))
  {
    hide Accepted, Written, HeaderLead, Spell, Revision, BehindName;
    hide Spec, Values, WhoseFields, WhoseValues, WhatFields, WhatValues;
    LeadSpelled();
    WhoseIs(a);
    WhoseLeads();
    WhatIs(a, digest);
    WhatLeads();
    WhoseAndWhat(a, digest);
    WrittenTogether(WhoseFields(), WhoseValues(a), WhatFields(), WhatValues(a, digest));
    WrittenSix(WhoseFields(), WhoseValues(a), Written(WhatFields(), WhatValues(a, digest)) + END);
    BehindSpelled(a, digest);
  }

  function BehindName(a: Artifact, revision: string): string {
    ":tested=" + (a.tested + (":tree=" + (a.tree + (":head=" + (a.head + (":subject=" + (a.subject
    + (":requirements=" + (a.requirements + (":context=" + (a.context + (":content=" + (revision + "-->")))))))))))))
  }

  lemma BehindSpelled(a: Artifact, digest: Digest)
    requires Accepted(a)
    ensures Written(WhatFields(), WhatValues(a, digest)) + END == BehindName(a, Revision(a.commands, digest))
  {
    hide Accepted, Written, Revision, WhatFields, WhatValues;
    WhatIs(a, digest);
    WhatLeads();
    var spec, values := WhatFields(), WhatValues(a, digest);
    WrittenStep(spec, values, END);
    WrittenSix(spec[1..], values[1..], END);
  }

  lemma WhoseLeads()
    ensures var spec := WhoseFields();
            && |spec| == 6
            && spec[0].lead == HeaderLead() && spec[1].lead == ":pr=" && spec[2].lead == ":revision="
            && spec[3].lead == ":source=" && spec[4].lead == ":repository=" && spec[5].lead == "/"
  {
  }

  lemma WhoseAndWhat(a: Artifact, digest: Digest)
    requires Accepted(a)
    ensures Spec() == WhoseFields() + WhatFields() && Values(a, digest) == WhoseValues(a) + WhatValues(a, digest)
  {
  }

  lemma WhatLeads()
    ensures var spec := WhatFields();
            && |spec| == 7
            && spec[0].lead == ":tested=" && spec[1].lead == ":tree=" && spec[2].lead == ":head="
            && spec[3].lead == ":subject=" && spec[4].lead == ":requirements=" && spec[5].lead == ":context="
            && spec[6].lead == ":content="
  {
  }

  lemma LeadSpelled()
    ensures HeaderLead() == "<!--orchestrator-verification-artifact:receipt="
  {
  }

  /** An artifact is accepted exactly where its identity can be carried and every command is. */
  lemma AcceptedExactly(a: Artifact)
    ensures Accepted(a) <==>
              && 1 <= |a.owner| <= 100 && AllIn(a.owner, TokenClass)
              && 1 <= |a.name| <= 100 && AllIn(a.name, TokenClass)
              && a.pr >= 1 && JsonNumbers.Fits(a.pr) && a.revision >= 1 && JsonNumbers.Fits(a.revision)
              && (forall id | id in {a.tested, a.tree, a.head, a.subject} ::
                    (|id| == 40 || |id| == 64) && AllIn(id, HexClass))
              && (forall token | token in {a.requirements, a.context, a.receipt} ::
                    1 <= |token| <= 128 && AllIn(token, TokenClass))
              && forall c | c in a.commands :: VerificationEvidence.Accepted(c)
  {
    hide VerificationEvidence.Accepted;
  }
}
