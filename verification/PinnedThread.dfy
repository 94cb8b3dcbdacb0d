/**
 The two writers of the pinned record over one issue's comments: `write_pinned_state`, which rewrites or posts,
 and `edit_pinned_state`, which rewrites the record readers take and only while it says what the caller read.
 What the network does with a request is its `Delivery`.
 */
module PinnedThread {
  import opened Text
  import opened Threads
  import opened Json
  import opened JsonText
  import opened PinnedRecords
  import PinnedBody

  /** One client: the login it reads and writes as, where it knows that, and the interpreter's recursion limit. */
  datatype Client = Client(login: Option<string>, limit: nat) {
    function Read(c: Comment): Reading { Admitted(c, login, limit) }

    predicate Takes(c: Comment) { !Read(c).NoComment? }
  }

  datatype Delivery = Landed | Unheard | Lost | Other(stored: string)

  /** Where the comment is that `read_pinned_state` takes: the first it admits or refuses. */
  function FirstRecord(client: Client, comments: seq<Comment>, i: nat): (at: Option<nat>)
    requires i <= |comments|
    ensures at.Some? ==> i <= at.value < |comments|
    decreases |comments| - i
  {
    if i == |comments| then None
    else if client.Takes(comments[i]) then Some(i)
    else FirstRecord(client, comments, i + 1)
  }

  /** Where the comment is that a write naming `id` answers to. */
  function Located(client: Client, comments: seq<Comment>, id: Option<int>, authoritative: bool, i: nat)
    : (at: Option<nat>)
    requires i <= |comments|
    ensures at.Some? ==> i <= at.value < |comments|
    decreases |comments| - i
  {
    if i == |comments| then None
    else
      var reading := client.Read(comments[i]);
      if reading.NoComment? then Located(client, comments, id, authoritative, i + 1)
      else if Some(comments[i].id) == id || !reading.Supported? then Some(i)
      else if authoritative then None
      else Located(client, comments, id, authoritative, i + 1)
  }

  lemma {:induction false} FirstRecordIs(client: Client, comments: seq<Comment>, i: nat)
    requires i <= |comments|
    ensures var at := FirstRecord(client, comments, i);
            && (at.Some? ==> client.Takes(comments[at.value]))
            && forall j | i <= j < (if at.Some? then at.value else |comments|) :: !client.Takes(comments[j])
    decreases |comments| - i
  {
    hide Admitted;
    if i < |comments| && !client.Takes(comments[i]) {
      FirstRecordIs(client, comments, i + 1);
    }
  }

  /** A supported record under another id, which the whole-state writer walks past. */
  predicate Passed(client: Client, c: Comment, id: Option<int>) {
    client.Read(c).Supported? && Some(c.id) != id
  }

  /** The whole-state writer's walk: to the first comment that is refused, or a record and the one named. */
  lemma {:induction false} LocatedIs(client: Client, comments: seq<Comment>, id: Option<int>, i: nat)
    requires i <= |comments|
    ensures var at := Located(client, comments, id, false, i);
            && (at.Some? ==> client.Takes(comments[at.value]) && !Passed(client, comments[at.value], id))
            && forall j | i <= j < (if at.Some? then at.value else |comments|) ::
                 !client.Takes(comments[j]) || Passed(client, comments[j], id)
    decreases |comments| - i
  {
    hide Admitted;
    if i < |comments| && (!client.Takes(comments[i]) || Passed(client, comments[i], id)) {
      LocatedIs(client, comments, id, i + 1);
    }
  }

  /** The strict edit's walk: to the comment every reader takes, where that is refused or the one named. */
  lemma {:induction false} AuthoritativeIs(client: Client, comments: seq<Comment>, id: Option<int>, i: nat)
    requires i <= |comments|
    ensures var at, first := Located(client, comments, id, true, i), FirstRecord(client, comments, i);
            at == if first.None? || Passed(client, comments[first.value], id) then None else first
    decreases |comments| - i
  {
    hide Admitted;
    if i < |comments| && !client.Takes(comments[i]) {
      AuthoritativeIs(client, comments, id, i + 1);
    }
  }

  predicate Distinct(comments: seq<Comment>) {
    forall i, j | 0 <= i < j < |comments| :: comments[i].id != comments[j].id
  }

  /** The thread with the comment of one id given another body. */
  function Edited(comments: seq<Comment>, id: int, body: string): (n: seq<Comment>)
    ensures |n| == |comments|
    ensures forall i | 0 <= i < |n| ::
              n[i] == if comments[i].id == id then comments[i].(body := body) else comments[i]
  {
    if comments == [] then []
    else [if comments[0].id == id then comments[0].(body := body) else comments[0]] + Edited(comments[1..], id, body)
  }

  predicate HasId(comments: seq<Comment>, id: int) { exists i :: 0 <= i < |comments| && comments[i].id == id }

  /** What an edit of one comment leaves, and the body told back, where any was. */
  function EditSent(comments: seq<Comment>, id: int, body: string, delivery: Delivery): (seq<Comment>, Option<string>) {
    if !HasId(comments, id) then (comments, None)
    else
      match delivery
      case Landed => (Edited(comments, id, body), Some(body))
      case Unheard => (Edited(comments, id, body), None)
      case Lost => (comments, None)
      case Other(stored) => (Edited(comments, id, stored), Some(stored))
  }

  // ----- The strict edit

  datatype Answer = EDITED | UNREAD | MISSING | MOVED | UNSUPPORTED | HELD | UNCONFIRMED

  /** `PinnedEdit.unsent`: what a rewrite over a reading answers with nothing sent. */
  function Unsent(reading: Reading, over: Record): Option<Answer> {
    match reading
    case NoComment => Some(MISSING)
    case Malformed => Some(MOVED)
    case Unsupported(_) => Some(UNSUPPORTED)
    case Supported(record) => if SpelledAlike(record, over) then None else Some(MOVED)
  }

  /** What a strict edit answers before anything is sent, or none where it sends. */
  function EditUnsent(client: Client, comments: seq<Comment>, id: Option<int>, data: Record, over: Record,
                      readable: bool, stands: bool): Option<Answer>
  {
    if PayloadRefusal(data, client.limit).Some? then Some(UNSUPPORTED)
    else if !readable then Some(UNREAD)
    else
      var at := Located(client, comments, id, true, 0);
      var unsent := Unsent(if at.Some? then client.Read(comments[at.value]) else NoComment, over);
      if unsent.Some? then unsent else if stands then None else Some(HELD)
  }

  /** A strict edit sends only where the comment it names is the one every reader takes, and reads as `over`. */
  lemma SentOverReading(client: Client, comments: seq<Comment>, id: Option<int>, data: Record, over: Record,
                        readable: bool, stands: bool)
    requires EditUnsent(client, comments, id, data, over, readable, stands).None?
    ensures readable && stands && PayloadRefusal(data, client.limit).None?
    ensures var at := FirstRecord(client, comments, 0);
            && at.Some? && at == Located(client, comments, id, true, 0) && Some(comments[at.value].id) == id
            && client.Read(comments[at.value]).Supported?
            && SpelledAlike(client.Read(comments[at.value]).record, over)
  {
    hide Admitted, PayloadRefusal, SpelledAlike;
    AuthoritativeIs(client, comments, id, 0);
    FirstRecordIs(client, comments, 0);
  }

  /** Where `over` is itself a record a reading gave, what stood there is that very record. */
  lemma SentOverExactly(client: Client, comments: seq<Comment>, id: Option<int>, data: Record, over: Record,
                        readable: bool, stands: bool, read: Comment)
    requires EditUnsent(client, comments, id, data, over, readable, stands).None?
    requires client.Read(read) == Supported(over)
    ensures var at := FirstRecord(client, comments, 0);
            at.Some? && Some(comments[at.value].id) == id && client.Read(comments[at.value]) == Supported(over)
  {
    hide Admitted, PayloadRefusal, SpelledAlike, Canonical, UnsplitValue, Convertible;
    SentOverReading(client, comments, id, data, over, readable, stands);
    var at := FirstRecord(client, comments, 0).value;
    var record := client.Read(comments[at]).record;
    ReadingAdmissible(comments[at], client.login, client.limit);
    ReadingAdmissible(read, client.login, client.limit);
    AdmissibleFits(record, client.limit);
    AdmissibleFits(over, client.limit);
    SpelledAlikeEqual(record, over);
  }

  lemma {:induction false} StampedCanonical(data: Record)
    requires Canonical(Obj(data))
    ensures Canonical(Obj(Stamped(data)))
  {
    var m := Member(SchemaKey(), Int(SUPPORTED_VERSION));
    if Get(data, SchemaKey()).None? {
      PutSorted(data, m);
      forall i | 0 <= i < |Put(data, m)| ensures Canonical(Put(data, m)[i].value) {
        PutHolds(data, m, Put(data, m)[i]);
      }
    }
  }

  lemma {:induction false} FirstIs(client: Client, comments: seq<Comment>, i: nat, k: nat)
    requires i <= k < |comments| && client.Takes(comments[k])
    ensures FirstRecord(client, comments, i) == Some(k) <==> forall j | i <= j < k :: !client.Takes(comments[j])
    decreases k - i
  {
    hide Admitted;
    if i < k && !client.Takes(comments[i]) {
      FirstIs(client, comments, i + 1, k);
    }
  }

  /** What the comment a state was written on reads as, and when it is the one the next reader takes. */
  lemma WrittenAt(client: Client, login: string, comments: seq<Comment>, k: nat, data: Record)
    requires client.login == Some(login) && k < |comments| && Admissible(data, client.limit)
    requires comments[k].author == Some(login) && comments[k].body == PinnedBody.Body(Obj(data), false)
    ensures client.Takes(comments[k])
    ensures client.Read(comments[k]) == Supported(data) <==> UnsplitValue(Obj(data))
    ensures FirstRecord(client, comments, 0) == Some(k) <==> forall j | 0 <= j < k :: !client.Takes(comments[j])
  {
    hide Admitted, PinnedBody.Body, Admissible, UnsplitValue;
    WrittenReading(comments[k], login, data, client.limit, false);
    FirstIs(client, comments, 0, k);
  }

  /** The thread as an edit reaches it: whatever others did since the walk, nobody became another comment's author. */
  predicate SameAuthors(walked: seq<Comment>, meanwhile: seq<Comment>) {
    forall i, j | 0 <= i < |walked| && 0 <= j < |meanwhile| && walked[i].id == meanwhile[j].id ::
      walked[i].author == meanwhile[j].author
  }

  /**
   After EDITED: the comment edited is the one readers took at the walk, it reads as the new state exactly where no
   string of that state has surrogates side by side, and it is what the next reader takes exactly where nobody put
   another record ahead of it while the edit was under way.
   */
  lemma EditedReadsBack(client: Client, walked: seq<Comment>, meanwhile: seq<Comment>, id: int, data: Record,
                        over: Record, delivery: Delivery, k: nat)
    requires EditUnsent(client, walked, Some(id), data, over, true, true).None? && Canonical(Obj(data))
    requires SameAuthors(walked, meanwhile) && Distinct(meanwhile) && k < |meanwhile| && meanwhile[k].id == id
    requires EditSent(meanwhile, id, PinnedBody.Body(Obj(data), false), delivery).1
          == Some(PinnedBody.Body(Obj(data), false))
    ensures var after := EditSent(meanwhile, id, PinnedBody.Body(Obj(data), false), delivery).0;
            && |after| == |meanwhile| && (forall j | 0 <= j < |after| && j != k :: after[j] == meanwhile[j])
            && (client.Read(after[k]) == Supported(data) <==> UnsplitValue(Obj(data)))
            && (FirstRecord(client, after, 0) == Some(k) <==> forall j | 0 <= j < k :: !client.Takes(meanwhile[j]))
  {
    hide Admitted, PinnedBody.Body, UnsplitValue, Canonical, PayloadRefusal, SpelledAlike;
    SentOverReading(client, walked, Some(id), data, over, true, true);
    FirstRecordIs(client, walked, 0);
    var at := FirstRecord(client, walked, 0).value;
    TakenIsOurs(client, walked[at]);
    assert walked[at].author == meanwhile[k].author;
    var after := EditSent(meanwhile, id, PinnedBody.Body(Obj(data), false), delivery).0;
    assert after[k].author == client.login && after[k].body == PinnedBody.Body(Obj(data), false);
    WrittenAt(client, client.login.value, after, k, data);
  }

  lemma TakenIsOurs(client: Client, c: Comment)
    requires client.Takes(c)
    ensures client.login.Some? && c.author == client.login
  {
    hide PinnedBody.Recognized;
  }

  /** With nobody else at the thread meanwhile, the next reader takes the new state after EDITED. */
  lemma EditedIsNextReading(client: Client, comments: seq<Comment>, id: int, data: Record, over: Record,
                            delivery: Delivery)
    requires EditUnsent(client, comments, Some(id), data, over, true, true).None? && Canonical(Obj(data))
    requires Distinct(comments) && UnsplitValue(Obj(data))
    requires EditSent(comments, id, PinnedBody.Body(Obj(data), false), delivery).1
          == Some(PinnedBody.Body(Obj(data), false))
    ensures var after := EditSent(comments, id, PinnedBody.Body(Obj(data), false), delivery).0;
            var at := FirstRecord(client, after, 0);
            at == FirstRecord(client, comments, 0) && at.Some? && after[at.value].id == id
            && client.Read(after[at.value]) == Supported(data)
  {
    hide Admitted, PinnedBody.Body, UnsplitValue, Canonical, PayloadRefusal, SpelledAlike;
    SentOverReading(client, comments, Some(id), data, over, true, true);
    FirstRecordIs(client, comments, 0);
    var at := FirstRecord(client, comments, 0).value;
    assert SameAuthors(comments, comments) by {
      forall i, j | 0 <= i < |comments| && 0 <= j < |comments| && comments[i].id == comments[j].id
        ensures comments[i].author == comments[j].author
      {
        assert i == j;
      }
    }
    EditedReadsBack(client, comments, comments, id, data, over, delivery, at);
  }

  // ----- The whole-state write

  datatype WriteAnswer = Withheld | NoLogin | RecordRefused | StateRefused | Written | Unanswered

  /** What a whole-state write answers before anything is sent, or none where it sends. */
  function WriteUnsent(client: Client, comments: seq<Comment>, id: Option<int>, withheld: bool, data: Record)
    : Option<WriteAnswer>
  {
    if withheld then Some(Withheld)
    else if client.login.None? then Some(NoLogin)
    else
      var at := Located(client, comments, id, false, 0);
      if at.Some? && !client.Read(comments[at.value]).Supported? then Some(RecordRefused)
      else if PayloadRefusal(Stamped(data), client.limit).Some? then Some(StateRefused)
      else None
  }

  function CreateSent(comments: seq<Comment>, made: Comment, delivery: Delivery): (seq<Comment>, bool) {
    match delivery
    case Landed => (comments + [made], true)
    case Unheard => (comments + [made], false)
    case Lost => (comments, false)
    case Other(stored) => (comments + [made.(body := stored)], true)
  }

  /**
   What a whole-state write that sends leaves on the thread, and whether it was answered. `walked` is the thread its
   walk went over, `meanwhile` the one others had made of it by the time the request arrived.
   */
  function WriteSent(client: Client, walked: seq<Comment>, meanwhile: seq<Comment>, id: Option<int>, body: string,
                     madeId: int, delivery: Delivery): (seq<Comment>, bool)
  {
    var at := Located(client, walked, id, false, 0);
    if at.None? then CreateSent(meanwhile, Comment(madeId, client.login, body), delivery)
    else
      var sent := EditSent(meanwhile, walked[at.value].id, body, delivery);
      (sent.0, sent.1.Some?)
  }

  /** What a whole-state write leaves, sent or not. */
  function AfterWrite(client: Client, walked: seq<Comment>, meanwhile: seq<Comment>, id: Option<int>, withheld: bool,
                      data: Record, madeId: int, delivery: Delivery): seq<Comment>
  {
    if WriteUnsent(client, walked, id, withheld, data).Some? then walked
    else WriteSent(client, walked, meanwhile, id, PinnedBody.Body(Obj(Stamped(data)), false), madeId, delivery).0
  }

  /** The comment at `k` is the one named, a supported record, and stands behind no refused one. */
  predicate StoodClear(client: Client, walked: seq<Comment>, id: Option<int>, k: nat) {
    k < |walked| && Some(walked[k].id) == id && client.Read(walked[k]).Supported?
    && forall j | 0 <= j < k :: !Refused(client.Read(walked[j]))
  }

  /** No refused record is on the thread, and the named comment is no record. */
  predicate NothingStood(client: Client, walked: seq<Comment>, id: Option<int>) {
    forall j | 0 <= j < |walked| ::
      !Refused(client.Read(walked[j])) && (client.Takes(walked[j]) ==> Some(walked[j].id) != id)
  }

  /**
   Where a whole-state write sends, its walk stood behind no refused record: it posts only where none was met at
   all.
   */
  lemma SentBehindNone(client: Client, walked: seq<Comment>, id: Option<int>, withheld: bool, data: Record)
    requires WriteUnsent(client, walked, id, withheld, data).None?
    ensures var at := Located(client, walked, id, false, 0);
            if at.Some? then StoodClear(client, walked, id, at.value) else NothingStood(client, walked, id)
  {
    hide Admitted, PayloadRefusal;
    LocatedIs(client, walked, id, 0);
  }

  /**
   What a whole-state write can touch of a thread others were at meanwhile, whatever became of its request. Every
   comment keeps its place, id and author. One that got another body is the one the state names, and at the walk it
   was a supported record behind no refused one; a refused record there when the request arrived is therefore
   overwritten only where it was made one since. A comment is posted only where the walk met no refused record and
   the named comment was no record.
   */
  lemma WriteSpares(client: Client, walked: seq<Comment>, meanwhile: seq<Comment>, id: Option<int>, data: Record,
                    madeId: int, delivery: Delivery)
    requires WriteUnsent(client, walked, id, false, data).None?
    ensures var after := AfterWrite(client, walked, meanwhile, id, false, data, madeId, delivery);
            && |meanwhile| <= |after| <= |meanwhile| + 1
            && (forall i | 0 <= i < |meanwhile| ::
                  after[i].id == meanwhile[i].id && after[i].author == meanwhile[i].author)
            && (forall i | 0 <= i < |meanwhile| && after[i] != meanwhile[i] ::
                  Some(meanwhile[i].id) == id && exists k :: StoodClear(client, walked, id, k))
            && (|after| > |meanwhile| ==> after[..|meanwhile|] == meanwhile && NothingStood(client, walked, id))
  {
    hide Admitted, PayloadRefusal, PinnedBody.Body, StoodClear, NothingStood;
    SentBehindNone(client, walked, id, false, data);
    var at := Located(client, walked, id, false, 0);
    assert at.Some? ==> Some(walked[at.value].id) == id by {
      if at.Some? { StoodIsNamed(client, walked, id, at.value); }
    }
  }

  lemma StoodIsNamed(client: Client, walked: seq<Comment>, id: Option<int>, k: nat)
    requires StoodClear(client, walked, id, k)
    ensures k < |walked| && Some(walked[k].id) == id
  {
    hide Admitted;
  }

  lemma {:induction false} ClearLocated(client: Client, walked: seq<Comment>, id: Option<int>, i: nat, k: nat)
    requires i <= k && StoodClear(client, walked, id, k)
    ensures Located(client, walked, id, false, i).Some?
    decreases k - i
  {
    hide Admitted;
    if i < k {
      ClearLocated(client, walked, id, i + 1, k);
    }
  }

  /** The body a delivery stores, of a request that reaches the thread. */
  function Stored(delivery: Delivery, sent: string): string { if delivery.Other? then delivery.stored else sent }

  /**
   Exactly which comment a whole-state write changes, a refused record no less than any other: the one named, where at
   the walk it was a supported record behind no refused one, the request reached the thread, and it carried another
   body by then than the one stored.
   */
  lemma WriteChanges(client: Client, walked: seq<Comment>, meanwhile: seq<Comment>, id: Option<int>, data: Record,
                     madeId: int, delivery: Delivery, i: nat)
    requires WriteUnsent(client, walked, id, false, data).None? && i < |meanwhile|
    ensures var after := AfterWrite(client, walked, meanwhile, id, false, data, madeId, delivery);
            && i < |after|
            && (after[i] != meanwhile[i] <==>
                  && Some(meanwhile[i].id) == id && (exists k :: StoodClear(client, walked, id, k))
                  && !delivery.Lost?
                  && meanwhile[i].body != Stored(delivery, PinnedBody.Body(Obj(Stamped(data)), false)))
  {
    hide Admitted, PayloadRefusal, PinnedBody.Body, StoodClear, NothingStood, Stamped;
    WriteSpares(client, walked, meanwhile, id, data, madeId, delivery);
    SentBehindNone(client, walked, id, false, data);
    if k :| StoodClear(client, walked, id, k) {
      ClearLocated(client, walked, id, 0, k);
      var at := Located(client, walked, id, false, 0).value;
      StoodIsNamed(client, walked, id, at);
      assert Some(meanwhile[i].id) == id ==> HasId(meanwhile, walked[at].id);
    }
  }

  /** With nobody else at the thread, every refused record on it stays as it was. */
  lemma RefusedStands(client: Client, comments: seq<Comment>, id: Option<int>, withheld: bool, data: Record,
                      madeId: int, delivery: Delivery, i: nat)
    requires Distinct(comments) && i < |comments| && Refused(client.Read(comments[i]))
    ensures var after := AfterWrite(client, comments, comments, id, withheld, data, madeId, delivery);
            |after| == |comments| && after[i] == comments[i]
  {
    hide Admitted, PayloadRefusal, PinnedBody.Body;
    if WriteUnsent(client, comments, id, withheld, data).None? {
      WriteSpares(client, comments, comments, id, data, madeId, delivery);
    }
  }

  /** One made a refused record between the walk and the request is overwritten, however it came to be refused. */
  lemma RefusedSinceOverwritten(client: Client, c: Comment, refused: Comment, data: Record, madeId: int)
    requires client.Read(c).Supported? && c.id == refused.id && Refused(client.Read(refused))
    requires PayloadRefusal(Stamped(data), client.limit).None?
    ensures AfterWrite(client, [c], [refused], Some(c.id), false, data, madeId, Landed)
         == [refused.(body := PinnedBody.Body(Obj(Stamped(data)), false))]
  {
    hide PinnedBody.Recognized, PayloadRefusal, PinnedBody.Body, Evaluated;
    assert Located(client, [c], Some(c.id), false, 0) == Some(0);
    assert [refused][0].id == c.id;
  }

  /**
   What an answered whole-state write leaves for the next reader. The comment it was answered for is ours and carries
   the body stored; where that is the body sent, it reads as the state exactly where no string of the state has
   surrogates side by side. The next reader takes it exactly where it is a record and none stands ahead, be that one
   the state did not name at the walk or one put there since.
   */
  lemma WrittenReadsBack(client: Client, walked: seq<Comment>, meanwhile: seq<Comment>, id: Option<int>, data: Record,
                         madeId: int, delivery: Delivery, k: nat)
    requires WriteUnsent(client, walked, id, false, data).None? && Canonical(Obj(data))
    requires SameAuthors(walked, meanwhile) && Distinct(meanwhile)
    requires WriteSent(client, walked, meanwhile, id, PinnedBody.Body(Obj(Stamped(data)), false), madeId, delivery).1
    requires var at := Located(client, walked, id, false, 0);
             if at.Some? then k < |meanwhile| && meanwhile[k].id == walked[at.value].id else k == |meanwhile|
    ensures var after := AfterWrite(client, walked, meanwhile, id, false, data, madeId, delivery);
            var sent := PinnedBody.Body(Obj(Stamped(data)), false);
            && k < |after| && (forall j | 0 <= j < |after| && j != k :: j < |meanwhile| && after[j] == meanwhile[j])
            && after[k].author == client.login
            && after[k].body == Stored(delivery, sent)
            && (after[k].body == sent ==>
                  && client.Takes(after[k])
                  && (client.Read(after[k]) == Supported(Stamped(data)) <==> UnsplitValue(Obj(Stamped(data)))))
            && (FirstRecord(client, after, 0) == Some(k)
                <==> client.Takes(after[k]) && forall j | 0 <= j < k :: !client.Takes(meanwhile[j]))
  {
    hide Admitted, PinnedBody.Body, UnsplitValue, Canonical, PayloadRefusal, StoodClear, NothingStood, FirstRecord;
    StampedCanonical(data);
    var after := AfterWrite(client, walked, meanwhile, id, false, data, madeId, delivery);
    AnsweredAt(client, walked, meanwhile, id, data, madeId, delivery, k);
    if after[k].body == PinnedBody.Body(Obj(Stamped(data)), false) {
      WrittenAt(client, client.login.value, after, k, Stamped(data));
    }
    FirstTaken(client, after, k);
  }

  /** Where an answered write landed, and as what. */
  lemma AnsweredAt(client: Client, walked: seq<Comment>, meanwhile: seq<Comment>, id: Option<int>, data: Record,
                   madeId: int, delivery: Delivery, k: nat)
    requires WriteUnsent(client, walked, id, false, data).None?
    requires SameAuthors(walked, meanwhile) && Distinct(meanwhile)
    requires WriteSent(client, walked, meanwhile, id, PinnedBody.Body(Obj(Stamped(data)), false), madeId, delivery).1
    requires var at := Located(client, walked, id, false, 0);
             if at.Some? then k < |meanwhile| && meanwhile[k].id == walked[at.value].id else k == |meanwhile|
    ensures var after := AfterWrite(client, walked, meanwhile, id, false, data, madeId, delivery);
            && k < |after| && (forall j | 0 <= j < |after| && j != k :: j < |meanwhile| && after[j] == meanwhile[j])
            && after[k].author == client.login && client.login.Some?
            && after[k].body == Stored(delivery, PinnedBody.Body(Obj(Stamped(data)), false))
  {
    hide Admitted, PinnedBody.Body, PayloadRefusal, Stamped;
    LocatedIs(client, walked, id, 0);
    var at := Located(client, walked, id, false, 0);
    if at.Some? {
      TakenIsOurs(client, walked[at.value]);
      assert walked[at.value].author == meanwhile[k].author;
    }
  }

  lemma FirstTaken(client: Client, comments: seq<Comment>, k: nat)
    requires k < |comments|
    ensures FirstRecord(client, comments, 0) == Some(k)
        <==> client.Takes(comments[k]) && forall j | 0 <= j < k :: !client.Takes(comments[j])
  {
    hide Admitted;
    FirstRecordIs(client, comments, 0);
    if client.Takes(comments[k]) {
      FirstIs(client, comments, 0, k);
    }
  }

  /**
   A state that names no comment, written on a thread that carries a record already: a second comment is posted, and
   the next reader still takes the first.
   */
  lemma WrittenBehindUnnamed(client: Client, c: Comment, stood: Record, data: Record, madeId: int)
    requires client.login.Some? && c.author == client.login && c.body == PinnedBody.Body(Obj(stood), false)
    requires Admissible(stood, client.limit) && UnsplitValue(Obj(stood)) && Admissible(data, client.limit)
    ensures WriteUnsent(client, [c], None, false, data).None?
    ensures var after := AfterWrite(client, [c], [c], None, false, data, madeId, Landed);
            && after == [c, Comment(madeId, client.login, PinnedBody.Body(Obj(data), false))]
            && FirstRecord(client, after, 0) == Some(0)
            && client.Read(after[0]) == Supported(stood)
  {
    hide Admitted, PinnedBody.Body, UnsplitValue, Canonical, PayloadRefusal;
    WrittenReading(c, client.login.value, stood, client.limit, false);
    AdmissibleIsStamped(data, client.limit);
    assert Located(client, [c], None, false, 1) == None;
    assert Located(client, [c], None, false, 0) == None;
    var after := AfterWrite(client, [c], [c], None, false, data, madeId, Landed);
    assert after == [c] + [Comment(madeId, client.login, PinnedBody.Body(Obj(data), false))];
    assert client.Takes(after[0]);
  }

  lemma AdmissibleIsStamped(data: Record, limit: nat)
    requires Admissible(data, limit)
    ensures Stamped(data) == data && PayloadRefusal(Stamped(data), limit).None?
  {
    hide IsSpellable, Canonical;
  }

  // ----- What a request comes to

  /**
   A request to post adds one comment of ours, unless it is lost, and one to edit changes the one comment of that id, if
   there is one; either carries the body stored. It is answered exactly where it reached the thread and was heard of.
   */
  lemma DeliverySays(client: Client, walked: seq<Comment>, meanwhile: seq<Comment>, id: Option<int>, body: string,
                     madeId: int, delivery: Delivery)
    ensures var (after, answered) := WriteSent(client, walked, meanwhile, id, body, madeId, delivery);
            var at, stored := Located(client, walked, id, false, 0), Stored(delivery, body);
            if at.None? then
              && after == (if delivery == Lost then meanwhile else meanwhile + [Comment(madeId, client.login, stored)])
              && (answered <==> delivery == Landed || delivery.Other?)
            else
              && |after| == |meanwhile|
              && (forall i | 0 <= i < |meanwhile| ::
                    after[i] == if meanwhile[i].id == walked[at.value].id && delivery != Lost
                                then meanwhile[i].(body := stored) else meanwhile[i])
              && (answered <==> (delivery == Landed || delivery.Other?) && HasId(meanwhile, walked[at.value].id))
  {
    hide Admitted, Located;
  }

  /** An edit is told back the body stored, where it is told anything. */
  lemma EditTold(comments: seq<Comment>, id: int, body: string, delivery: Delivery)
    ensures EditSent(comments, id, body, delivery).1
         == if HasId(comments, id) && (delivery == Landed || delivery.Other?) then Some(Stored(delivery, body))
             else None
  {
  }

  // ----- What each writer answers unsent

  /** Where a comment stands that a reader takes or refuses, none being ahead of it. */
  predicate FirstTakes(client: Client, comments: seq<Comment>, k: nat) {
    k < |comments| && client.Takes(comments[k]) && forall j | 0 <= j < k :: !client.Takes(comments[j])
  }

  lemma NoFirst(client: Client, comments: seq<Comment>)
    ensures FirstRecord(client, comments, 0).None? <==> forall j | 0 <= j < |comments| :: !client.Takes(comments[j])
    ensures var first := FirstRecord(client, comments, 0); first.Some? ==> FirstTakes(client, comments, first.value)
    ensures forall k: nat | FirstTakes(client, comments, k) :: FirstRecord(client, comments, 0) == Some(k)
  {
    hide Admitted;
    FirstRecordIs(client, comments, 0);
    forall k: nat | FirstTakes(client, comments, k)
      ensures FirstRecord(client, comments, 0) == Some(k)
    {
      FirstIs(client, comments, 0, k);
    }
  }

  /** The comment every reader takes, where it is one a strict edit of `id` answers for: refused, or the one named. */
  ghost predicate Faces(client: Client, comments: seq<Comment>, id: Option<int>, k: nat) {
    FirstTakes(client, comments, k) && (Refused(client.Read(comments[k])) || Some(comments[k].id) == id)
  }

  /** The one comment a strict edit faces, if any. */
  lemma FaceIs(client: Client, comments: seq<Comment>, id: Option<int>)
    ensures var first := FirstRecord(client, comments, 0);
            && (first.Some? ==> client.Takes(comments[first.value]))
            && (first.Some? && !Passed(client, comments[first.value], id) ==>
                  && Faces(client, comments, id, first.value)
                  && forall k: nat | Faces(client, comments, id, k) :: k == first.value)
            && (first.None? || Passed(client, comments[first.value], id) ==>
                  forall k: nat :: !Faces(client, comments, id, k))
  {
    hide Admitted, FirstRecord;
    NoFirst(client, comments);
  }

  /**
   A strict edit answers, with nothing sent, for the first of these that holds: the state it would write is refused; the
   thread could not be read; the comment every reader takes is none, or a supported record under another id; it does not
   parse; it is refused; it is not spelled as what the caller read; the caller's question no longer stands.
   */
  lemma EditAnswers(client: Client, comments: seq<Comment>, id: Option<int>, data: Record, over: Record,
                    readable: bool, stands: bool)
    ensures var answer := EditUnsent(client, comments, id, data, over, readable, stands);
            if PayloadRefusal(data, client.limit).Some? then answer == Some(UNSUPPORTED)
            else if !readable then answer == Some(UNREAD)
            else if !exists k: nat :: Faces(client, comments, id, k) then answer == Some(MISSING)
            else forall k: nat | Faces(client, comments, id, k) ::
              var reading := client.Read(comments[k]);
              answer == if reading.Malformed? then Some(MOVED)
                        else if reading.Unsupported? then Some(UNSUPPORTED)
                        else if !SpelledAlike(reading.record, over) then Some(MOVED)
                        else if !stands then Some(HELD)
                        else None
  {
    hide Admitted, PayloadRefusal, SpelledAlike, FirstRecord, Located, Faces;
    if PayloadRefusal(data, client.limit).None? && readable {
      AuthoritativeIs(client, comments, id, 0);
      FaceIs(client, comments, id);
    }
  }

  /** A refused record, and ahead of it neither another nor the record named. */
  ghost predicate Blocks(client: Client, walked: seq<Comment>, id: Option<int>, k: nat) {
    && k < |walked| && Refused(client.Read(walked[k]))
    && forall j | 0 <= j < k ::
         !Refused(client.Read(walked[j])) && (client.Takes(walked[j]) ==> Some(walked[j].id) != id)
  }

  /**
   A whole-state write answers, with nothing sent, for the first of these that holds: its state is withheld; it knows no
   login; a refused record stands ahead of the one it names, or is that one, or is anywhere where that is none; the
   state it would write is refused.
   */
  lemma WriteAnswers(client: Client, walked: seq<Comment>, id: Option<int>, withheld: bool, data: Record)
    ensures WriteUnsent(client, walked, id, withheld, data)
         == if withheld then Some(Withheld)
            else if client.login.None? then Some(NoLogin)
            else if exists k :: Blocks(client, walked, id, k) then Some(RecordRefused)
            else if PayloadRefusal(Stamped(data), client.limit).Some? then Some(StateRefused)
            else None
  {
    hide Admitted, PayloadRefusal, Stamped;
    LocatedIs(client, walked, id, 0);
    var at := Located(client, walked, id, false, 0);
    if k :| Blocks(client, walked, id, k) {
      BlockLocated(client, walked, id, 0, k);
    }
    if at.Some? && !client.Read(walked[at.value]).Supported? {
      assert Blocks(client, walked, id, at.value);
    }
  }

  lemma {:induction false} BlockLocated(client: Client, walked: seq<Comment>, id: Option<int>, i: nat, k: nat)
    requires i <= k && Blocks(client, walked, id, k)
    ensures Located(client, walked, id, false, i) == Some(k)
    decreases k - i
  {
    hide Admitted;
    if i < k {
      BlockLocated(client, walked, id, i + 1, k);
    }
  }

  // ----- The writers

  class PinnedState {
    var id: Option<int>
    var data: Record
    var synced: Option<string>
    var withheld: bool

    constructor (id: Option<int>, data: Record)
      ensures this.id == id && this.data == data && synced.None? && !withheld
    {
      this.id, this.data, synced, withheld := id, data, None, false;
    }
  }

  /** An issue's comments as GitHub holds them, and the client that reads and writes them. */
  class Issue {
    const client: Client
    var comments: seq<Comment>

    constructor (client: Client, comments: seq<Comment>)
      ensures this.client == client && this.comments == comments
    {
      this.client, this.comments := client, comments;
    }

    /** `read_pinned_state`: the first comment that is a record, and what it reads as. */
    method ReadPinned() returns (at: Option<nat>, reading: Reading)
      ensures at == FirstRecord(client, comments, 0)
      ensures reading == if at.Some? then client.Read(comments[at.value]) else NoComment
    {
      var i := 0;
      while i < |comments|
        invariant 0 <= i <= |comments|
        invariant FirstRecord(client, comments, 0) == FirstRecord(client, comments, i)
      {
        reading := client.Read(comments[i]);
        if !reading.NoComment? {
          return Some(i), reading;
        }
        i := i + 1;
      }
      return None, NoComment;
    }

    /** `_pinned_comment`: the comment a write naming `id` answers to. */
    method PinnedComment(id: Option<int>, authoritative: bool) returns (at: Option<nat>)
      ensures at == Located(client, comments, id, authoritative, 0)
    {
      var i := 0;
      while i < |comments|
        invariant 0 <= i <= |comments|
        invariant Located(client, comments, id, authoritative, 0) == Located(client, comments, id, authoritative, i)
      {
        var reading := client.Read(comments[i]);
        if !reading.NoComment? {
          if Some(comments[i].id) == id || !reading.Supported? {
            return Some(i);
          }
          if authoritative {
            return None;
          }
        }
        i := i + 1;
      }
      return None;
    }

    /**
     `edit_pinned_state`. `readable` is whether the thread could be walked, `stands` the caller's question, and
     `meanwhile` the thread as others left it between the walk and the edit.
     */
    method Edit(state: PinnedState, over: Record, readable: bool, stands: bool, meanwhile: seq<Comment>,
                delivery: Delivery)
      returns (answer: Answer)
      modifies this`comments, state`data
      ensures state.data == Stamped(old(state.data))
      ensures var unsent := EditUnsent(client, old(comments), state.id, state.data, over, readable, stands);
              var body := PinnedBody.Body(Obj(state.data), false);
              if unsent.Some? then answer == unsent.value && comments == old(comments)
              else
                && state.id.Some? && comments == EditSent(meanwhile, state.id.value, body, delivery).0
                && answer == (if EditSent(meanwhile, state.id.value, body, delivery).1 == Some(body) then EDITED
                              else UNCONFIRMED)
    {
      hide Admitted, PinnedBody.Body, PayloadRefusal, SpelledAlike, Located, FirstRecord, EditSent;
      state.data := Stamped(state.data);
      if PayloadRefusal(state.data, client.limit).Some? {
        return UNSUPPORTED;
      }
      if !readable {
        return UNREAD;
      }
      var at := PinnedComment(state.id, true);
      var unsent := Unsent(if at.Some? then client.Read(comments[at.value]) else NoComment, over);
      if unsent.None? && !stands {
        unsent := Some(HELD);
      }
      if unsent.Some? {
        return unsent.value;
      }
      SentOverReading(client, comments, state.id, state.data, over, readable, stands);
      var body := PinnedBody.Body(Obj(state.data), false);
      var (after, answered) := EditSent(meanwhile, comments[at.value].id, body, delivery);
      comments := after;
      answer := if answered == Some(body) then EDITED else UNCONFIRMED;
    }

    /**
     `write_pinned_state`. `meanwhile` is the thread as others left it between the walk and the request, and `madeId`
     the id GitHub gives a comment where one is posted.
     */
    method Write(state: PinnedState, meanwhile: seq<Comment>, madeId: int, delivery: Delivery)
      returns (answer: WriteAnswer)
      modifies this`comments, state
      ensures var unsent := WriteUnsent(client, old(comments), old(state.id), old(state.withheld), old(state.data));
              var located := Located(client, old(comments), old(state.id), false, 0);
              && comments == AfterWrite(client, old(comments), meanwhile, old(state.id), old(state.withheld),
                                        old(state.data), madeId, delivery)
              && state.withheld == old(state.withheld)
              && state.data == (if unsent.None? || unsent.value.StateRefused? then Stamped(old(state.data))
                                else old(state.data))
              && answer == (if unsent.Some? then unsent.value
                            else if WriteSent(client, old(comments), meanwhile, old(state.id),
                                              PinnedBody.Body(Obj(state.data), false), madeId, delivery).1
                            then Written else Unanswered)
              && state.synced == (if answer.Written? then Some(Spelling(Obj(state.data), SPACED))
                                  else old(state.synced))
              && state.id == (if answer.Written? && located.None? then Some(madeId) else old(state.id))
      ensures Distinct(old(comments)) && Distinct(meanwhile) && !HasId(meanwhile, madeId) ==> Distinct(comments)
    {
      hide Admitted, PinnedBody.Body, PayloadRefusal, Spelling, Located, Edited, Stamped;
      if state.withheld {
        return Withheld;
      }
      if client.login.None? {
        return NoLogin;
      }
      var at := PinnedComment(state.id, false);
      if at.Some? && !client.Read(comments[at.value]).Supported? {
        return RecordRefused;
      }
      state.data := Stamped(state.data);
      if PayloadRefusal(state.data, client.limit).Some? {
        return StateRefused;
      }
      var body := PinnedBody.Body(Obj(state.data), false);
      if at.None? {
        var (after, answered) := CreateSent(meanwhile, Comment(madeId, client.login, body), delivery);
        comments := after;
        if !answered {
          return Unanswered;
        }
        state.id := Some(madeId);
      } else {
        var (after, told) := EditSent(meanwhile, comments[at.value].id, body, delivery);
        comments := after;
        if told.None? {
          return Unanswered;
        }
      }
      state.synced := Some(Spelling(Obj(state.data), SPACED));
      return Written;
    }
  }
}
