/**
 Publishing reports and artifacts onto one pull request's conversation. Every reading is one of four, and
 only ABSENT is posted onto: over any sequence of attempts, with threads nobody could read and posts whose
 response was lost, a transaction lands at most once.
 */
module Publication {
  import opened Text
  import opened Threads
  import opened VerificationEvidence
  import opened VerificationPayloads
  import opened CommentHeaders
  import Reports = DeveloperReports
  import Artifacts = VerificationArtifacts

  /** The wording both formats are published in, and the digest they name content by. */
  datatype Format = Format(report: Reports.Wording, artifact: Artifacts.Wording, digest: Digest)

  datatype Item = AReport(report: Reports.Report) | AnArtifact(artifact: Artifacts.Artifact)

  predicate Accepted(x: Item) {
    match x
    case AReport(r) => Reports.Accepted(r)
    case AnArtifact(a) => Artifacts.Accepted(a)
  }

  function Number(x: Item): int { if x.AReport? then x.report.pr else x.artifact.pr }

  /** The body an item is posted as, or none where it is refused for its length or its evidence. */
  function BodyOf(f: Format, x: Item): Option<string>
    requires Accepted(x)
  {
    match x
    case AReport(r) => Reports.Rendered(f.report, r, f.digest)
    case AnArtifact(a) => Artifacts.Rendered(f.artifact, a, f.digest)
  }

  function ScopeFor(x: Item): string {
    match x
    case AReport(r) => Reports.Scope(r)
    case AnArtifact(a) => Artifacts.Scope(a)
  }

  /** One transaction: a receipt, and what it publishes. */
  predicate SameReceipt(x: Item, y: Item) {
    (x.AReport? && y.AReport? && x.report.receipt == y.report.receipt)
    || (x.AnArtifact? && y.AnArtifact? && x.artifact.receipt == y.artifact.receipt)
  }

  // ----- Reading a thread

  datatype Presence = PRESENT(at: nat) | ABSENT | CHANGED(changed: nat) | UNCONFIRMED

  /** A comment of ours carrying the transaction's receipt. */
  predicate Claims(c: Comment, x: Item, login: Option<string>) { Contains(c.body, ScopeFor(x)) && Ours(c, login) }

  /** A claimant that is the very item: a report by its body, an artifact by what its body reads as. */
  predicate Exact(f: Format, c: Comment, x: Item, login: Option<string>)
    requires Accepted(x)
  {
    && Claims(c, x, login)
    && match x
       case AReport(r) => Some(c.body) == Reports.Rendered(f.report, r, f.digest)
       case AnArtifact(a) => Artifacts.FromComment(f.artifact, c, login, f.digest) == Some(a)
  }

  function FirstExact(f: Format, thread: seq<Comment>, x: Item, login: Option<string>, i: nat): (at: Option<nat>)
    requires Accepted(x) && i <= |thread|
    ensures at.Some? ==> i <= at.value < |thread|
    decreases |thread| - i
  {
    if i == |thread| then None
    else if Exact(f, thread[i], x, login) then Some(i)
    else FirstExact(f, thread, x, login, i + 1)
  }

  function FirstClaim(thread: seq<Comment>, x: Item, login: Option<string>, i: nat): (at: Option<nat>)
    requires i <= |thread|
    ensures at.Some? ==> i <= at.value < |thread|
    decreases |thread| - i
  {
    if i == |thread| then None
    else if Claims(thread[i], x, login) then Some(i)
    else FirstClaim(thread, x, login, i + 1)
  }

  /** What a thread, read through, says of an item's transaction. */
  function OnThread(f: Format, thread: seq<Comment>, x: Item, login: Option<string>): Presence
    requires Accepted(x)
  {
    var exact, claim := FirstExact(f, thread, x, login, 0), FirstClaim(thread, x, login, 0);
    if exact.Some? then PRESENT(exact.value) else if claim.Some? then CHANGED(claim.value) else ABSENT
  }

  lemma {:induction false} FirstExactIs(f: Format, thread: seq<Comment>, x: Item, login: Option<string>, i: nat)
    requires Accepted(x) && i <= |thread|
    ensures var at := FirstExact(f, thread, x, login, i);
            && (at.Some? ==> Exact(f, thread[at.value], x, login))
            && forall j | i <= j < (if at.Some? then at.value else |thread|) :: !Exact(f, thread[j], x, login)
    decreases |thread| - i
  {
    hide Exact;
    if i < |thread| && !Exact(f, thread[i], x, login) {
      FirstExactIs(f, thread, x, login, i + 1);
    }
  }

  lemma {:induction false} FirstClaimIs(thread: seq<Comment>, x: Item, login: Option<string>, i: nat)
    requires i <= |thread|
    ensures var at := FirstClaim(thread, x, login, i);
            && (at.Some? ==> Claims(thread[at.value], x, login))
            && forall j | i <= j < (if at.Some? then at.value else |thread|) :: !Claims(thread[j], x, login)
    decreases |thread| - i
  {
    hide Claims;
    if i < |thread| && !Claims(thread[i], x, login) {
      FirstClaimIs(thread, x, login, i + 1);
    }
  }

  // ----- Publishing

  datatype Delivery = Landed | Unheard | Lost

  datatype Outcome = Refused | Told(presence: Presence)

  /** What posting onto an ABSENT reading leaves, and answers. */
  function Posted(thread: seq<Comment>, made: Comment, delivery: Delivery): (seq<Comment>, Outcome) {
    match delivery
    case Landed => (thread + [made], Told(PRESENT(|thread|)))
    case Unheard => (thread + [made], Told(UNCONFIRMED))
    case Lost => (thread, Told(UNCONFIRMED))
  }

  /** One attempt at publishing on pull request `number`: what it leaves on the thread, and what it answers. */
  function Published(f: Format, number: int, thread: seq<Comment>, x: Item, login: Option<string>, id: int,
                     readable: bool, delivery: Delivery): (seq<Comment>, Outcome)
    requires Accepted(x)
  {
    var body := BodyOf(f, x);
    if (x.AReport? && body.None?) || Number(x) != number then (thread, Refused)
    else
      var presence := if readable then OnThread(f, thread, x, login) else UNCONFIRMED;
      if !presence.ABSENT? then (thread, Told(presence))
      else if body.None? then (thread, Refused)
      else Posted(thread, Comment(id, login, body.value), delivery)
  }

  /** The attempt in the order a report's body is asked for. */
  lemma PublishedReport(f: Format, number: int, thread: seq<Comment>, r: Reports.Report, login: Option<string>, id: int,
                        readable: bool, delivery: Delivery)
    requires Reports.Accepted(r)
    ensures Accepted(AReport(r))
    ensures var body := Reports.Rendered(f.report, r, f.digest);
            var presence := if readable then OnThread(f, thread, AReport(r), login) else UNCONFIRMED;
            Published(f, number, thread, AReport(r), login, id, readable, delivery)
            == if body.None? || r.pr != number then (thread, Refused)
               else if presence != ABSENT then (thread, Told(presence))
               else Posted(thread, Comment(id, login, body.value), delivery)
  {
    hide Reports.Rendered, Reports.Accepted, OnThread, Posted;
  }

  lemma PostedLonger(thread: seq<Comment>, made: Comment, delivery: Delivery)
    ensures thread <= Posted(thread, made, delivery).0
  {
  }

  /**
   One attempt is refused before any reading where the item is another pull request's, or a report that does not fit.
   An unread thread is answered UNCONFIRMED; one with the very item on it PRESENT, with another claimant CHANGED; and
   only one with neither is posted onto, once, where the body fits.
   */
  lemma AttemptExactly(f: Format, number: int, thread: seq<Comment>, x: Item, login: Option<string>, id: int,
                       readable: bool, delivery: Delivery)
    requires Accepted(x)
    ensures var (after, outcome) := Published(f, number, thread, x, login, id, readable, delivery);
            var body := BodyOf(f, x);
            var refused := (if x.AReport? then x.report.pr != number || body.None? else x.artifact.pr != number);
            var unclaimed :=
              forall j | 0 <= j < |thread| :: !Exact(f, thread[j], x, login) && !Claims(thread[j], x, login);
            if refused then (after, outcome) == (thread, Refused)
            else if !readable then (after, outcome) == (thread, Told(UNCONFIRMED))
            else if !unclaimed then
              && after == thread && outcome.Told?
              && match outcome.presence
                 case PRESENT(k) =>
                   && k < |thread| && Exact(f, thread[k], x, login)
                   && forall j | 0 <= j < k :: !Exact(f, thread[j], x, login)
                 case CHANGED(k) =>
                   && (forall j | 0 <= j < |thread| :: !Exact(f, thread[j], x, login))
                   && k < |thread| && Claims(thread[k], x, login)
                   && forall j | 0 <= j < k :: !Claims(thread[j], x, login)
                 case _ => false
            else if body.None? then (after, outcome) == (thread, Refused)
            else
              var posted := thread + [Comment(id, login, body.value)];
              (after, outcome) == match delivery
                case Landed => (posted, Told(PRESENT(|thread|)))
                case Unheard => (posted, Told(UNCONFIRMED))
                case Lost => (thread, Told(UNCONFIRMED))
  {
    hide BodyOf, Exact, Claims, Reports.Accepted, Artifacts.Accepted;
    FirstExactIs(f, thread, x, login, 0);
    FirstClaimIs(thread, x, login, 0);
  }

  // ----- What a body claims

  lemma BodyIs(f: Format, x: Item)
    requires Accepted(x) && BodyOf(f, x).Some?
    ensures x.AReport? ==> BodyOf(f, x).value == Reports.Body(f.report, x.report, f.digest)
    ensures x.AnArtifact? ==> BodyOf(f, x) == Artifacts.Body(f.artifact, x.artifact, f.digest)
  {
    hide Reports.Body, Artifacts.Body, Reports.Accepted, Artifacts.Accepted;
  }

  lemma ReportClaims(f: Format, r: Reports.Report, y: Item)
    requires Reports.Accepted(r) && Accepted(y)
    ensures Contains(Reports.Body(f.report, r, f.digest), ScopeFor(y)) <==> SameReceipt(AReport(r), y)
  {
    hide Reports.Body, Contains, Reports.Scope, Artifacts.Scope, Reports.Accepted, Artifacts.Accepted;
    match y
    case AReport(s) => Reports.ReceiptFound(f.report, s, r, f.digest);
    case AnArtifact(a) => ArtifactScopeApart(f, r, a);
  }

  lemma ArtifactScopeApart(f: Format, r: Reports.Report, a: Artifacts.Artifact)
    requires Reports.Accepted(r)
    ensures !Contains(Reports.Body(f.report, r, f.digest), Artifacts.Scope(a))
  {
    hide Reports.Body, Contains, Reports.Accepted, ScopeOf, Reports.Header;
    Artifacts.ScopeReserved(a.receipt);
    Reports.ScopeInBody(f.report, r, f.digest, Artifacts.Scope(a));
    var rest := Reports.HeaderParts(r, f.digest);
    var header := Reports.Header(r, f.digest);
    assert (header + (SEPARATOR + Marker()))[|RESERVED|] == header[|RESERVED|] == Reports.HeaderLead()[|RESERVED|];
  }

  lemma ReportScopeApart(f: Format, a: Artifacts.Artifact, r: Reports.Report)
    requires Artifacts.Accepted(a) && Artifacts.Body(f.artifact, a, f.digest).Some?
    ensures !Contains(Artifacts.Body(f.artifact, a, f.digest).value, Reports.Scope(r))
  {
    hide Artifacts.Body, Contains, Artifacts.Accepted, ScopeOf, Artifacts.Header;
    Reports.ScopeReserved(r.receipt);
    forall t ensures !(Reports.Scope(r) <= Artifacts.Opener() + t) {
    }
    Artifacts.ScopeInBody(f.artifact, a, f.digest, Reports.Scope(r));
    var rest := Artifacts.HeaderParts(a, f.digest);
    var header := Artifacts.Header(a, f.digest);
    assert (header + (SEPARATOR + Marker()))[|RESERVED|] == header[|RESERVED|] == Artifacts.HeaderLead()[|RESERVED|];
  }

  lemma ArtifactClaims(f: Format, a: Artifacts.Artifact, y: Item)
    requires Artifacts.Accepted(a) && Accepted(y) && Artifacts.Body(f.artifact, a, f.digest).Some?
    ensures Contains(Artifacts.Body(f.artifact, a, f.digest).value, ScopeFor(y)) <==> SameReceipt(AnArtifact(a), y)
  {
    hide Artifacts.Body, Contains, Reports.Scope, Artifacts.Scope, Reports.Accepted, Artifacts.Accepted;
    match y
    case AReport(r) => ReportScopeApart(f, a, r);
    case AnArtifact(b) => Artifacts.ReceiptFound(f.artifact, b, a, f.digest);
  }

  /** A published body claims its own transaction and no other, of either kind. */
  lemma BodyClaims(f: Format, x: Item, y: Item)
    requires Accepted(x) && Accepted(y) && BodyOf(f, x).Some?
    ensures Contains(BodyOf(f, x).value, ScopeFor(y)) <==> SameReceipt(x, y)
  {
    hide BodyOf, ScopeFor, SameReceipt, Contains, Reports.Body, Artifacts.Body, Reports.Accepted, Artifacts.Accepted;
    BodyIs(f, x);
    match x
    case AReport(r) => ReportClaims(f, r, y);
    case AnArtifact(a) => ArtifactClaims(f, a, y);
  }

  /** An exact claimant carries the item's one body. */
  lemma ExactBody(f: Format, c: Comment, x: Item, login: Option<string>)
    requires Accepted(x) && Exact(f, c, x, login)
    ensures BodyOf(f, x) == Some(c.body) && Ours(c, login)
  {
    hide Contains, Artifacts.FromComment, Artifacts.Rendered, Reports.Rendered;
    if x.AnArtifact? {
      Artifacts.ReadsExactly(f.artifact, x.artifact, c, login, f.digest);
    }
  }

  /** The comment an item was posted as is an exact claimant of it. */
  lemma PostedExact(f: Format, c: Comment, x: Item, login: Option<string>)
    requires Accepted(x) && BodyOf(f, x) == Some(c.body) && Ours(c, login)
    ensures Exact(f, c, x, login)
  {
    BodyClaims(f, x, x);
    hide Contains, Artifacts.FromComment, Artifacts.Rendered, Reports.Rendered, Accepted;
    if x.AnArtifact? {
      Artifacts.ArtifactReadsBack(f.artifact, x.artifact, c, login, f.digest);
    }
  }

  // ----- Runs

  /** A client publishing on one pull request, under the login it knows itself by, if it does. */
  datatype Client = Client(f: Format, number: int, login: Option<string>)

  datatype Event =
    | Publish(item: Item, id: int, readable: bool, delivery: Delivery)
    | Other(comment: Comment)

  /** Nobody but the publisher posts a receipt as us. */
  ghost predicate Foreign(c: Comment, login: Option<string>) {
    forall x: Item :: Accepted(x) ==> !Claims(c, x, login)
  }

  ghost predicate CanHappen(client: Client, e: Event) {
    match e
    case Publish(x, _, _, _) => Accepted(x)
    case Other(c) => Foreign(c, client.login)
  }

  ghost predicate AllCan(client: Client, events: seq<Event>) { forall e | e in events :: CanHappen(client, e) }

  ghost function After(client: Client, thread: seq<Comment>, e: Event): seq<Comment>
    requires CanHappen(client, e)
  {
    match e
    case Publish(x, id, readable, delivery) =>
      Published(client.f, client.number, thread, x, client.login, id, readable, delivery).0
    case Other(c) => thread + [c]
  }

  ghost function Ran(client: Client, thread: seq<Comment>, events: seq<Event>): seq<Comment>
    requires AllCan(client, events)
    decreases |events|
  {
    if events == [] then thread
    else After(client, Ran(client, thread, events[..|events| - 1]), events[|events| - 1])
  }

  /** At most one comment of ours per transaction. */
  ghost predicate OnceEach(thread: seq<Comment>, login: Option<string>) {
    forall x: Item, i, j | Accepted(x) && 0 <= i < j < |thread| ::
      !(Claims(thread[i], x, login) && Claims(thread[j], x, login))
  }

  lemma AddedOnce(thread: seq<Comment>, made: Comment, login: Option<string>)
    requires OnceEach(thread, login)
    requires forall y: Item | Accepted(y) && Claims(made, y, login) ::
               forall i | 0 <= i < |thread| :: !Claims(thread[i], y, login)
    ensures OnceEach(thread + [made], login)
  {
    hide Claims, Accepted;
  }

  /** One event adds a comment at most, changes none, and keeps every transaction to one comment of ours. */
  lemma EventKeeps(client: Client, thread: seq<Comment>, e: Event)
    requires CanHappen(client, e) && OnceEach(thread, client.login)
    ensures thread <= After(client, thread, e) && OnceEach(After(client, thread, e), client.login)
  {
    hide Accepted, OnceEach, Claims, BodyOf;
    var login := client.login;
    match e
    case Other(c) => AddedOnce(thread, c, login);
    case Publish(x, id, readable, delivery) =>
      hide OnThread;
      if After(client, thread, e) != thread {
        assert OnThread(client.f, thread, x, login).ABSENT?;
        var made := Comment(id, login, BodyOf(client.f, x).value);
        AbsentUnclaimed(client.f, thread, x, login);
        forall y: Item | Accepted(y) && Claims(made, y, login)
          ensures forall i | 0 <= i < |thread| :: !Claims(thread[i], y, login)
        {
          MadeClaims(client.f, made, x, y, login);
        }
        AddedOnce(thread, made, login);
      }
  }

  lemma AbsentUnclaimed(f: Format, thread: seq<Comment>, x: Item, login: Option<string>)
    requires Accepted(x) && OnThread(f, thread, x, login).ABSENT?
    ensures forall i | 0 <= i < |thread| :: !Claims(thread[i], x, login)
  {
    hide Claims, Exact, Accepted, FirstExact;
    FirstClaimIs(thread, x, login, 0);
  }

  lemma OneScope(x: Item, y: Item)
    requires SameReceipt(x, y)
    ensures ScopeFor(x) == ScopeFor(y)
  {
    hide ScopeOf;
  }

  lemma MadeClaims(f: Format, made: Comment, x: Item, y: Item, login: Option<string>)
    requires Accepted(x) && Accepted(y) && BodyOf(f, x) == Some(made.body) && Claims(made, y, login)
    ensures SameReceipt(x, y) && ScopeFor(x) == ScopeFor(y)
    ensures forall c :: Claims(c, x, login) <==> Claims(c, y, login)
  {
    hide Accepted, Contains, BodyOf, SameReceipt, ScopeFor;
    BodyClaims(f, x, y);
    OneScope(x, y);
  }

  /**
   Over any run of attempts and of others' comments, at most one comment of ours per transaction lands, and none
   changes.
   */
  lemma {:induction false} PublishedOnce(client: Client, thread: seq<Comment>, events: seq<Event>)
    requires AllCan(client, events) && OnceEach(thread, client.login)
    ensures thread <= Ran(client, thread, events) && OnceEach(Ran(client, thread, events), client.login)
    decreases |events|
  {
    hide CanHappen, After, OnceEach;
    if events != [] {
      var before, last := events[..|events| - 1], events[|events| - 1];
      PublishedOnce(client, thread, before);
      EventKeeps(client, Ran(client, thread, before), last);
    }
  }

  /** Whether an attempt found it or posted it, the comment PRESENT names is ours and its body the item's one body. */
  lemma PresentIsExact(f: Format, number: int, thread: seq<Comment>, x: Item, login: Option<string>, id: int,
                       readable: bool, delivery: Delivery)
    requires Accepted(x)
    requires Published(f, number, thread, x, login, id, readable, delivery).1.Told?
    requires Published(f, number, thread, x, login, id, readable, delivery).1.presence.PRESENT?
    ensures var (after, outcome) := Published(f, number, thread, x, login, id, readable, delivery);
            && outcome.presence.at < |after| && Ours(after[outcome.presence.at], login)
            && BodyOf(f, x) == Some(after[outcome.presence.at].body)
  {
    hide Accepted, BodyOf, Claims, Exact, FirstExact, FirstClaim;
    FirstExactIs(f, thread, x, login, 0);
    var presence := OnThread(f, thread, x, login);
    if readable && presence.PRESENT? {
      ExactBody(f, thread[presence.at], x, login);
    }
  }

  /** A landed item is found where it landed by every later reading, whether its post was heard of or not. */
  lemma RetryFinds(client: Client, thread: seq<Comment>, x: Item, id: int, delivery: Delivery, events: seq<Event>)
    requires Accepted(x) && CanHappen(client, Publish(x, id, true, delivery)) && AllCan(client, events)
    requires OnceEach(thread, client.login) && |After(client, thread, Publish(x, id, true, delivery))| > |thread|
    ensures OnThread(client.f, Ran(client, After(client, thread, Publish(x, id, true, delivery)), events), x,
                     client.login)
         == PRESENT(|thread|)
  {
    var first := Publish(x, id, true, delivery);
    hide *;
    LandedExact(client, thread, x, id, delivery);
    var landed := After(client, thread, first);
    EventKeeps(client, thread, first);
    PublishedOnce(client, landed, events);
    var after := Ran(client, landed, events);
    assert after[|thread|] == landed[|thread|];
    FoundOnce(client.f, after, x, client.login, |thread|);
  }

  lemma LandedExact(client: Client, thread: seq<Comment>, x: Item, id: int, delivery: Delivery)
    requires Accepted(x) && |After(client, thread, Publish(x, id, true, delivery))| > |thread|
    ensures Exact(client.f, After(client, thread, Publish(x, id, true, delivery))[|thread|], x, client.login)
  {
    hide Accepted, BodyOf, Exact, OnThread;
    PostedExact(client.f, Comment(id, client.login, BodyOf(client.f, x).value), x, client.login);
  }

  lemma OneClaimant(thread: seq<Comment>, x: Item, login: Option<string>, i: nat, j: nat)
    requires Accepted(x) && OnceEach(thread, login) && i <= j < |thread|
    requires Claims(thread[i], x, login) && Claims(thread[j], x, login)
    ensures i == j
  {
    hide Accepted, Claims;
  }

  lemma ExactClaims(f: Format, c: Comment, x: Item, login: Option<string>)
    requires Accepted(x) && Exact(f, c, x, login)
    ensures Claims(c, x, login)
  {
    hide Accepted, Claims, Artifacts.FromComment, Reports.Rendered;
  }

  lemma FoundOnce(f: Format, thread: seq<Comment>, x: Item, login: Option<string>, k: nat)
    requires Accepted(x) && OnceEach(thread, login) && k < |thread| && Exact(f, thread[k], x, login)
    ensures OnThread(f, thread, x, login) == PRESENT(k)
  {
    hide Accepted, Claims, FirstClaim, FirstExact, OnceEach, Exact;
    FirstExactIs(f, thread, x, login, 0);
    var at := FirstExact(f, thread, x, login, 0);
    assert at.Some? && at.value <= k;
    ExactClaims(f, thread[k], x, login);
    ExactClaims(f, thread[at.value], x, login);
    OneClaimant(thread, x, login, at.value, k);
  }

  // ----- The publisher

  /** One pull request's conversation, and the client that publishes onto it. */
  class PullRequest {
    const client: Client
    var comments: seq<Comment>
    var nextId: int

    constructor (client: Client, comments: seq<Comment>, nextId: int)
      ensures this.client == client && this.comments == comments && this.nextId == nextId
    {
      this.client, this.comments, this.nextId := client, comments, nextId;
    }

    /** `publish_developer_report`: rendered before any request. */
    method PublishReport(r: Reports.Report, readable: bool, delivery: Delivery) returns (outcome: Outcome)
      requires Reports.Accepted(r)
      modifies this
      ensures (comments, outcome)
           == Published(client.f, client.number, old(comments), AReport(r), client.login, old(nextId), readable,
                        delivery)
      ensures old(comments) <= comments
    {
      hide *;
      PublishedReport(client.f, client.number, comments, r, client.login, nextId, readable, delivery);
      var body := Reports.Rendered(client.f.report, r, client.f.digest);
      if body.None? || r.pr != client.number {
        return Refused;
      }
      var presence := UNCONFIRMED;
      if readable {
        presence := OnThread(client.f, comments, AReport(r), client.login);
      }
      if presence != ABSENT {
        return Told(presence);
      }
      PostedLonger(comments, Comment(nextId, client.login, body.value), delivery);
      var (after, told) := Posted(comments, Comment(nextId, client.login, body.value), delivery);
      comments := after;
      nextId := nextId + 1;
      return told;
    }

    /** `publish_verification_artifact`: no body is asked for before the thread turns out to lack the item. */
    method PublishArtifact(a: Artifacts.Artifact, readable: bool, delivery: Delivery) returns (outcome: Outcome)
      requires Artifacts.Accepted(a)
      modifies this
      ensures (comments, outcome)
           == Published(client.f, client.number, old(comments), AnArtifact(a), client.login, old(nextId), readable,
                        delivery)
      ensures old(comments) <= comments
    {
      hide Artifacts.Rendered, Artifacts.Accepted, OnThread;
      if a.pr != client.number {
        return Refused;
      }
      var presence := UNCONFIRMED;
      if readable {
        presence := OnThread(client.f, comments, AnArtifact(a), client.login);
      }
      if presence != ABSENT {
        return Told(presence);
      }
      var body := Artifacts.Rendered(client.f.artifact, a, client.f.digest);
      if body.None? {
        return Refused;
      }
      var (after, told) := Posted(comments, Comment(nextId, client.login, body.value), delivery);
      comments := after;
      nextId := nextId + 1;
      return told;
    }
  }
}
