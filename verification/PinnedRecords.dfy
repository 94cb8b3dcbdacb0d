/**
 Records as Python's dictionaries hold them once read, and the admission rule: which payloads a reading
 takes, and what each comment on a thread is read as. A record lists its members by ascending key, the
 order they are serialized in, at every depth.
 */
module PinnedRecords {
  import opened Text
  import opened Threads
  import opened Json
  import opened JsonText
  import Nesting
  import PinnedBody

  type Record = seq<Member>

  // ----- Keys

  /** The order of Python's strings: by code point, a prefix ahead of what it begins. */
  predicate KeyBefore(a: PyStr, b: PyStr) {
    b != [] && (a == [] || a[0] < b[0] || (a[0] == b[0] && KeyBefore(a[1..], b[1..])))
  }

  lemma {:induction false} KeyOrder(a: PyStr, b: PyStr)
    ensures KeyBefore(a, b) || a == b || KeyBefore(b, a)
    ensures !(KeyBefore(a, b) && KeyBefore(b, a)) && (a == b ==> !KeyBefore(a, b))
  {
    if a != [] && b != [] {
      KeyOrder(a[1..], b[1..]);
      assert a == [a[0]] + a[1..] && b == [b[0]] + b[1..];
    }
  }

  lemma {:induction false} KeyTransitive(a: PyStr, b: PyStr, c: PyStr)
    requires KeyBefore(a, b) && KeyBefore(b, c)
    ensures KeyBefore(a, c)
  {
    if a != [] && a[0] == b[0] && b[0] == c[0] {
      KeyTransitive(a[1..], b[1..], c[1..]);
    }
  }

  // ----- Dictionaries

  predicate Sorted(record: Record) {
    forall i, j | 0 <= i < j < |record| :: KeyBefore(record[i].key, record[j].key)
  }

  /** `record[key] = value`. */
  function Put(record: Record, m: Member): Record {
    if record == [] then [m]
    else if record[0].key == m.key then [m] + record[1..]
    else if KeyBefore(m.key, record[0].key) then [m] + record
    else [record[0]] + Put(record[1..], m)
  }

  /** `record.get(key)`. */
  function Get(record: Record, key: PyStr): Option<JsonValue> {
    if record == [] then None
    else if record[0].key == key then Some(record[0].value)
    else Get(record[1..], key)
  }

  /** The dictionary of the pairs a decoder met: of several under one key, the last. */
  function Dict(pairs: seq<Member>): Record {
    if pairs == [] then [] else Put(Dict(pairs[..|pairs| - 1]), pairs[|pairs| - 1])
  }

  lemma {:induction false} PutHolds(record: Record, m: Member, other: Member)
    ensures other in Put(record, m) ==> other == m || other in record
    ensures m in Put(record, m)
  {
    if record != [] {
      assert record == [record[0]] + record[1..];
      if record[0].key != m.key && !KeyBefore(m.key, record[0].key) {
        PutHolds(record[1..], m, other);
      }
    }
  }

  lemma {:induction false} PutSorted(record: Record, m: Member)
    requires Sorted(record)
    ensures Sorted(Put(record, m))
  {
    if record != [] {
      var first, rest := record[0], record[1..];
      KeyOrder(m.key, first.key);
      if KeyBefore(m.key, first.key) {
        forall j | 0 < j < |record| ensures KeyBefore(m.key, record[j].key) {
          KeyTransitive(m.key, first.key, record[j].key);
        }
      } else if first.key != m.key {
        PutSorted(rest, m);
        forall j | 0 <= j < |Put(rest, m)| ensures KeyBefore(first.key, Put(rest, m)[j].key) {
          PutHolds(rest, m, Put(rest, m)[j]);
        }
      }
    }
  }

  lemma {:induction false} DictSorted(pairs: seq<Member>)
    ensures Sorted(Dict(pairs))
  {
    if pairs != [] {
      DictSorted(pairs[..|pairs| - 1]);
      PutSorted(Dict(pairs[..|pairs| - 1]), pairs[|pairs| - 1]);
    }
  }

  lemma {:induction false} DictHolds(pairs: seq<Member>, m: Member)
    requires m in Dict(pairs)
    ensures m in pairs
  {
    if pairs != [] {
      PutHolds(Dict(pairs[..|pairs| - 1]), pairs[|pairs| - 1], m);
      if m != pairs[|pairs| - 1] {
        DictHolds(pairs[..|pairs| - 1], m);
      }
    }
  }

  lemma {:induction false} PutLast(record: Record, m: Member)
    requires forall i | 0 <= i < |record| :: KeyBefore(record[i].key, m.key)
    ensures Put(record, m) == record + [m]
  {
    if record != [] {
      KeyOrder(record[0].key, m.key);
      PutLast(record[1..], m);
    }
  }

  lemma {:induction false} SortedDict(record: Record)
    requires Sorted(record)
    ensures Dict(record) == record
  {
    if record != [] {
      SortedDict(record[..|record| - 1]);
      PutLast(record[..|record| - 1], record[|record| - 1]);
    }
  }

  /** What a dictionary answers under a key after one assignment. */
  lemma {:induction false} PutGet(record: Record, m: Member, key: PyStr)
    requires Sorted(record)
    ensures Get(Put(record, m), key) == if key == m.key then Some(m.value) else Get(record, key)
  {
    if record != [] {
      var first, rest := record[0], record[1..];
      KeyOrder(m.key, first.key);
      assert ([m] + record)[1..] == record && ([m] + rest)[1..] == rest;
      if first.key != m.key && !KeyBefore(m.key, first.key) {
        assert ([first] + Put(rest, m))[1..] == Put(rest, m);
        PutGet(rest, m, key);
      }
    } else {
      assert [m][1..] == [];
    }
  }

  // ----- Values as read

  /** A decoded value with its objects become dictionaries. */
  function AsRead(v: JsonValue): JsonValue {
    match v
    case Arr(items) => Arr(AsReadItems(items))
    case Obj(members) => Obj(Dict(AsReadMembers(members)))
    case _ => v
  }

  function AsReadItems(items: seq<JsonValue>): (r: seq<JsonValue>)
    ensures |r| == |items| && forall i | 0 <= i < |r| :: r[i] == AsRead(items[i])
  {
    if items == [] then [] else [AsRead(items[0])] + AsReadItems(items[1..])
  }

  function AsReadMembers(members: seq<Member>): (r: seq<Member>)
    ensures |r| == |members|
    ensures forall i | 0 <= i < |r| :: r[i] == Member(members[i].key, AsRead(members[i].value))
  {
    if members == [] then []
    else [Member(members[0].key, AsRead(members[0].value))] + AsReadMembers(members[1..])
  }

  /** Every object in `v` is a dictionary. */
  predicate Canonical(v: JsonValue) {
    match v
    case Arr(items) => forall i | 0 <= i < |items| :: Canonical(items[i])
    case Obj(members) => Sorted(members) && forall i | 0 <= i < |members| :: Canonical(members[i].value)
    case _ => true
  }

  lemma {:induction false} ReadCanonical(v: JsonValue)
    ensures Canonical(AsRead(v))
    decreases v
  {
    match v
    case Arr(items) =>
      forall i | 0 <= i < |items| ensures Canonical(AsRead(items[i])) {
        ReadCanonical(items[i]);
      }
    case Obj(members) =>
      var pairs := AsReadMembers(members);
      DictSorted(pairs);
      forall i | 0 <= i < |members| ensures Canonical(pairs[i].value) {
        ReadCanonical(members[i].value);
      }
      forall i | 0 <= i < |Dict(pairs)| ensures Canonical(Dict(pairs)[i].value) {
        DictHolds(pairs, Dict(pairs)[i]);
      }
    case _ =>
  }

  lemma {:induction false} CanonicalReads(v: JsonValue)
    requires Canonical(v)
    ensures AsRead(v) == v
    decreases v
  {
    match v
    case Arr(items) =>
      forall i | 0 <= i < |items| ensures AsRead(items[i]) == items[i] {
        CanonicalReads(items[i]);
      }
      assert AsReadItems(items) == items;
    case Obj(members) =>
      forall i | 0 <= i < |members| ensures AsRead(members[i].value) == members[i].value {
        CanonicalReads(members[i].value);
      }
      assert AsReadMembers(members) == members;
      SortedDict(members);
    case _ =>
  }

  // ----- Reading never gives surrogates side by side

  lemma {:induction false} MergedIsUnsplit(s: PyStr, i: nat)
    requires i <= |s|
    ensures Unsplit(Merged(s, i))
    decreases |s| - i
  {
    if i < |s| {
      var step := if SplitPair(s, i) then 2 else 1;
      MergedIsUnsplit(s, i + step);
      var rest := Merged(s, i + step);
      var m := Merged(s, i);
      assert m == [m[0]] + rest;
      forall j: nat | j < |m| ensures !SplitPair(m, j) {
        if j > 0 {
          assert !SplitPair(rest, j - 1);
        } else if i + step < |s| {
        }
      }
    }
  }

  lemma {:induction false} MergedValueUnsplit(v: JsonValue)
    ensures UnsplitValue(MergedValue(v))
    decreases v, 1
  {
    match v
    case Str(s) => MergedIsUnsplit(s, 0);
    case Arr(items) => MergedItemsUnsplit(items);
    case Obj(members) => MergedMembersUnsplit(members);
    case _ =>
  }

  lemma {:induction false} MergedItemsUnsplit(items: seq<JsonValue>)
    ensures forall i | 0 <= i < |MergedItems(items)| :: UnsplitValue(MergedItems(items)[i])
    decreases items, 0
  {
    if items != [] {
      MergedValueUnsplit(items[0]);
      MergedItemsUnsplit(items[1..]);
    }
  }

  lemma {:induction false} MergedMembersUnsplit(members: seq<Member>)
    ensures forall i | 0 <= i < |MergedMembers(members)| :: UnsplitMember(MergedMembers(members)[i])
    decreases members, 0
  {
    if members != [] {
      MergedIsUnsplit(members[0].key, 0);
      MergedValueUnsplit(members[0].value);
      MergedMembersUnsplit(members[1..]);
    }
  }

  lemma {:induction false} ReadUnsplit(v: JsonValue)
    requires UnsplitValue(v)
    ensures UnsplitValue(AsRead(v))
    decreases v
  {
    match v
    case Arr(items) =>
      forall i | 0 <= i < |items| ensures UnsplitValue(AsRead(items[i])) {
        ReadUnsplit(items[i]);
      }
    case Obj(members) =>
      var pairs := AsReadMembers(members);
      forall i | 0 <= i < |members| ensures UnsplitMember(pairs[i]) {
        ReadUnsplit(members[i].value);
      }
      forall i | 0 <= i < |Dict(pairs)| ensures UnsplitMember(Dict(pairs)[i]) {
        DictHolds(pairs, Dict(pairs)[i]);
      }
      assert forall i | 0 <= i < |Dict(pairs)| :: Unsplit(Dict(pairs)[i].key) && UnsplitValue(Dict(pairs)[i].value);
    case _ =>
  }

  // ----- Admission

  const SCHEMA_KEY: string := "schema_version"
  const SUPPORTED_VERSION := 1

  function SchemaKey(): PyStr { Codes(SCHEMA_KEY) }

  datatype Refusal =
    | MissingVersion
    | NotInteger(boolean: bool)
    | OtherVersion(version: int)
    | Unspellable

  /** A value as the nesting walk sees it. */
  function TreeOf(v: JsonValue): Nesting.Tree {
    match v
    case Arr(items) => Nesting.Node(false, TreesOf(items))
    case Obj(members) => Nesting.Node(true, TreesOfMembers(members))
    case Float(f) => Nesting.Float(f.Finite?)
    case _ => Nesting.Leaf
  }

  function TreesOf(items: seq<JsonValue>): seq<Nesting.Tree> {
    if items == [] then [] else [TreeOf(items[0])] + TreesOf(items[1..])
  }

  function TreesOfMembers(members: seq<Member>): seq<Nesting.Tree> {
    if members == [] then [] else [TreeOf(members[0].value)] + TreesOfMembers(members[1..])
  }

  /** What `spellable` takes of a value: the nesting walk's own rule. */
  predicate IsSpellable(v: JsonValue, limit: nat) { Nesting.Takes(TreeOf(v), limit) }

  /** The rule a record breaks, or none where it breaks no rule. */
  function PayloadRefusal(record: Record, limit: nat): Option<Refusal> {
    match Get(record, SchemaKey())
    case None => Some(MissingVersion)
    case Some(Int(version)) =>
      if version != SUPPORTED_VERSION then Some(OtherVersion(version))
      else if IsSpellable(Obj(record), limit) && Convertible(Obj(record)) then None
      else Some(Unspellable)
    case Some(Bool(_)) => Some(NotInteger(true))
    case Some(_) => Some(NotInteger(false))
  }

  /** `setdefault` of the supported version. */
  function Stamped(record: Record): Record {
    if Get(record, SchemaKey()).Some? then record else Put(record, Member(SchemaKey(), Int(SUPPORTED_VERSION)))
  }

  datatype Reading =
    | NoComment
    | Supported(record: Record)
    | Unsupported(refusal: Refusal)
    | Malformed

  predicate Refused(r: Reading) { r.Unsupported? || r.Malformed? }

  /** What a payload is admitted as. */
  function Evaluated(payload: string, limit: nat): (r: Reading)
    ensures !r.NoComment?
  {
    match Loads(payload)
    case None => Malformed
    case Some(v) =>
      var read := AsRead(v);
      if !IsSpellable(read, limit) || !read.Obj? then Malformed
      else
        var refusal := PayloadRefusal(read.members, limit);
        if refusal.Some? then Unsupported(refusal.value) else Supported(read.members)
  }

  /** `payload_refusal`, which asks the walk. */
  method Refuse(record: Record, limit: nat) returns (refusal: Option<Refusal>)
    ensures refusal == PayloadRefusal(record, limit)
  {
    hide TreeOf, Convertible, Nesting.Takes, Get;
    var version := Get(record, SchemaKey());
    if version.None? {
      return Some(MissingVersion);
    }
    if !version.value.Int? {
      return Some(NotInteger(version.value.Bool?));
    }
    if version.value.number != SUPPORTED_VERSION {
      return Some(OtherVersion(version.value.number));
    }
    var walked := Nesting.Walk(TreeOf(Obj(record)), limit);
    return if walked.Spellable? && Convertible(Obj(record)) then None else Some(Unspellable);
  }

  /** `_evaluate_payload`, which asks the walk of whatever value the payload decodes to. */
  method Evaluate(payload: string, limit: nat) returns (r: Reading)
    ensures r == Evaluated(payload, limit)
  {
    hide Loads, AsRead, TreeOf, PayloadRefusal, Nesting.Takes;
    var decoded := Loads(payload);
    if decoded.None? {
      return Malformed;
    }
    var read := AsRead(decoded.value);
    var walked := Nesting.Walk(TreeOf(read), limit);
    if !walked.Spellable? || !read.Obj? {
      return Malformed;
    }
    var refusal := Refuse(read.members, limit);
    return if refusal.Some? then Unsupported(refusal.value) else Supported(read.members);
  }

  /** What one comment is admitted as by a client that holds the token of `login`, where it knows whose it holds. */
  function Admitted(c: Comment, login: Option<string>, limit: nat): Reading {
    if login.None? || c.author != login then NoComment
    else
      match PinnedBody.Recognized(c.body)
      case None => NoComment
      case Some(payload) => Evaluated(payload, limit)
  }

  /** Records a reading can be of, and a writer can hold once it passed the payload rule. */
  predicate Admissible(record: Record, limit: nat) {
    Canonical(Obj(record)) && PayloadRefusal(record, limit).None?
  }

  lemma AdmissibleFits(record: Record, limit: nat)
    requires PayloadRefusal(record, limit).None?
    ensures IsSpellable(Obj(record), limit) && Convertible(Obj(record))
  {
  }

  // ----- What the rule decides

  /** How many containers deep a value nests. */
  function Depth(v: JsonValue): nat {
    match v
    case Arr(items) => 1 + DepthOf(items)
    case Obj(members) => 1 + DepthOfMembers(members)
    case _ => 0
  }

  function DepthOf(items: seq<JsonValue>): nat {
    if items == [] then 0
    else
      var first, rest := Depth(items[0]), DepthOf(items[1..]);
      if first > rest then first else rest
  }

  function DepthOfMembers(members: seq<Member>): nat {
    if members == [] then 0
    else
      var first, rest := Depth(members[0].value), DepthOfMembers(members[1..]);
      if first > rest then first else rest
  }

  /** No number in a value is an infinity or not a number, at any depth. */
  predicate AllFinite(v: JsonValue) {
    match v
    case Float(f) => f.Finite?
    case Arr(items) => forall i | 0 <= i < |items| :: AllFinite(items[i])
    case Obj(members) => forall i | 0 <= i < |members| :: AllFinite(members[i].value)
    case _ => true
  }

  lemma {:induction false} TreeDeep(v: JsonValue)
    ensures Nesting.Height(TreeOf(v)) == Depth(v)
    ensures Nesting.FiniteItself(TreeOf(v)) && Nesting.NestedFinite(TreeOf(v)) <==> AllFinite(v)
    decreases v, 1
  {
    match v
    case Arr(items) => TreesDeep(items);
    case Obj(members) => TreesOfMembersDeep(members);
    case _ =>
  }

  lemma {:induction false} TreesDeep(items: seq<JsonValue>)
    ensures |TreesOf(items)| == |items| && Nesting.Highest(TreesOf(items)) == DepthOf(items)
    ensures forall i | 0 <= i < |items| ::
              (Nesting.FiniteItself(TreesOf(items)[i]) && Nesting.NestedFinite(TreesOf(items)[i])
               <==> AllFinite(items[i]))
    decreases items, 0
  {
    if items != [] {
      TreeDeep(items[0]);
      TreesDeep(items[1..]);
      assert TreesOf(items)[1..] == TreesOf(items[1..]);
    }
  }

  lemma {:induction false} TreesOfMembersDeep(members: seq<Member>)
    ensures |TreesOfMembers(members)| == |members|
    ensures Nesting.Highest(TreesOfMembers(members)) == DepthOfMembers(members)
    ensures forall i | 0 <= i < |members| ::
              (Nesting.FiniteItself(TreesOfMembers(members)[i]) && Nesting.NestedFinite(TreesOfMembers(members)[i])
               <==> AllFinite(members[i].value))
    decreases members, 0
  {
    if members != [] {
      TreeDeep(members[0].value);
      TreesOfMembersDeep(members[1..]);
      assert TreesOfMembers(members)[1..] == TreesOfMembers(members[1..]);
    }
  }

  /** What a payload's object must be for a reading to take it, whatever its version. */
  predicate Spells(members: Record, limit: nat) { Depth(Obj(members)) <= limit && AllFinite(Obj(members)) }

  lemma SpellableIs(members: Record, limit: nat)
    ensures IsSpellable(Obj(members), limit) <==> Spells(members, limit)
  {
    TreeDeep(Obj(members));
  }

  /**
   A record is refused for the first of these that holds, and for nothing else: it has no schema version, or a boolean,
   or another value that is no integer, or another integer than 1, or it nests too deep, or holds a number that is not
   finite or an integer too long to convert.
   */
  lemma RefusalExactly(record: Record, limit: nat)
    ensures var refusal, version := PayloadRefusal(record, limit), Get(record, Codes("schema_version"));
            var spelled := Spells(record, limit) && Convertible(Obj(record));
            && (refusal == None <==> version == Some(Int(1)) && spelled)
            && (refusal == Some(MissingVersion) <==> version == None)
            && (refusal == Some(NotInteger(true)) <==> version.Some? && version.value.Bool?)
            && (refusal == Some(NotInteger(false)) <==> version.Some? && !version.value.Bool? && !version.value.Int?)
            && (forall n :: refusal == Some(OtherVersion(n)) <==> version == Some(Int(n)) && n != 1)
            && (refusal == Some(Unspellable) <==> version == Some(Int(1)) && !spelled)
  {
    hide Convertible, IsSpellable, Spells, Get;
    SpellableIs(record, limit);
    assert SCHEMA_KEY == "schema_version";
  }

  /** What a payload is admitted as, by what it decodes to. */
  lemma EvaluatedExactly(payload: string, limit: nat)
    ensures var r, decoded := Evaluated(payload, limit), Loads(payload);
            var whole := decoded.Some? && decoded.value.Obj? && Spells(AsRead(decoded.value).members, limit);
            && (r.Malformed? <==> !whole)
            && (whole ==>
                  var record := AsRead(decoded.value).members;
                  && (r.Supported? <==> PayloadRefusal(record, limit) == None)
                  && (r.Supported? ==> r.record == record)
                  && (r.Unsupported? ==> Some(r.refusal) == PayloadRefusal(record, limit)))
  {
    hide Loads, PayloadRefusal, Spells, IsSpellable, Dict, AsReadItems, AsReadMembers;
    if Loads(payload).Some? && Loads(payload).value.Obj? {
      SpellableIs(AsRead(Loads(payload).value).members, limit);
    }
  }

  /**
   A reading is a supported record exactly where the comment is ours, its whole body is the marker around an object,
   and that object answers the integer 1 under its schema version, nests within the limit, and holds no number that is
   not finite and no integer too long to convert.
   */
  lemma SupportedExactly(c: Comment, login: Option<string>, limit: nat, record: Record)
    ensures Admitted(c, login, limit) == Supported(record) <==>
              && login.Some? && c.author == login
              && var payload := PinnedBody.Recognized(c.body);
                 && payload.Some? && Loads(payload.value).Some?
                 && AsRead(Loads(payload.value).value) == Obj(record)
                 && Get(record, Codes("schema_version")) == Some(Int(1))
                 && Spells(record, limit) && Convertible(Obj(record))
  {
    hide PinnedBody.Recognized, Loads, PayloadRefusal, Spells, Convertible, AsRead, Evaluated, Get;
    RefusalExactly(record, limit);
    var payload := PinnedBody.Recognized(c.body);
    if payload.Some? {
      EvaluatedExactly(payload.value, limit);
      ObjectsRead(payload.value);
    }
  }

  /** A comment is no reading at all exactly where it is not ours, or its body is not the marker around a payload. */
  lemma NoCommentExactly(c: Comment, login: Option<string>, limit: nat)
    ensures Admitted(c, login, limit).NoComment? <==>
              login.None? || c.author != login || PinnedBody.Recognized(c.body).None?
  {
    hide PinnedBody.Recognized, Evaluated;
  }

  lemma ObjectsRead(payload: string)
    ensures Loads(payload).Some? ==> (Loads(payload).value.Obj? <==> AsRead(Loads(payload).value).Obj?)
  {
    hide Loads, Dict, AsReadItems, AsReadMembers;
  }

  /** A stamped record answers version 1 where it had no version, and everything else as before. */
  lemma StampedAnswers(record: Record, key: PyStr)
    requires Sorted(record)
    ensures Get(Stamped(record), key) ==
              if key == Codes("schema_version") && Get(record, key).None? then Some(Int(1)) else Get(record, key)
  {
    if Get(record, SchemaKey()).None? {
      PutGet(record, Member(SchemaKey(), Int(SUPPORTED_VERSION)), key);
    }
  }

  // ----- A written record, read

  lemma WrittenEvaluated(record: Record, limit: nat)
    requires Admissible(record, limit)
    ensures IsSpellable(Obj(record), limit)
    ensures AsRead(MergedValue(Obj(record))) == Obj(record) <==> UnsplitValue(Obj(record))
  {
    hide PayloadRefusal, TreeOf, Canonical, UnsplitValue;
    AdmissibleFits(record, limit);
    var v := Obj(record);
    MergedValueUnsplit(v);
    ReadUnsplit(MergedValue(v));
    MergedIsSame(v);
    CanonicalReads(v);
  }

  lemma PayloadEvaluated(payload: string, record: Record, limit: nat)
    requires Admissible(record, limit)
    requires Loads(payload) == Some(MergedValue(Obj(record)))
    ensures Evaluated(payload, limit) == Supported(record) <==> UnsplitValue(Obj(record))
  {
    hide Loads, MergedValue, AsRead, UnsplitValue, Canonical, TreeOf;
    WrittenEvaluated(record, limit);
  }

  /**
   The comment a record was written as is always taken for a record, and reads back as that record exactly
   where no string in it has a low surrogate right behind a high one.
   */
  lemma WrittenReading(c: Comment, login: string, record: Record, limit: nat, escapedInFull: bool)
    requires Admissible(record, limit)
    requires c.author == Some(login) && c.body == PinnedBody.Body(Obj(record), escapedInFull)
    ensures !Admitted(c, Some(login), limit).NoComment?
    ensures Admitted(c, Some(login), limit) == Supported(record) <==> UnsplitValue(Obj(record))
  {
    hide PinnedBody.Recognized, PinnedBody.Body, Loads, Evaluated, Canonical, PayloadRefusal, UnsplitValue;
    AdmissibleFits(record, limit);
    PinnedBody.BodyDecoded(record, escapedInFull);
    PayloadEvaluated(PinnedBody.Recognized(c.body).value, record, limit);
  }

  lemma ReadingAdmissible(c: Comment, login: Option<string>, limit: nat)
    requires Admitted(c, login, limit).Supported?
    ensures Admissible(Admitted(c, login, limit).record, limit)
    ensures UnsplitValue(Obj(Admitted(c, login, limit).record))
  {
    hide PinnedBody.Recognized, Loads, PayloadRefusal, TreeOf;
    var payload := PinnedBody.Recognized(c.body).value;
    var v := Loads(payload).value;
    ReadCanonical(v);
    LoadsUnsplit(payload);
    ReadUnsplit(v);
  }

  /** A record read off a comment and written again, in either rendering, reads back as it was read. */
  lemma RewriteStable(read: Comment, written: Comment, login: string, limit: nat, escapedInFull: bool)
    requires Admitted(read, Some(login), limit).Supported?
    requires written.author == Some(login)
    requires written.body == PinnedBody.Body(Obj(Admitted(read, Some(login), limit).record), escapedInFull)
    ensures Admitted(written, Some(login), limit) == Admitted(read, Some(login), limit)
  {
    hide Admitted, PinnedBody.Body, UnsplitValue, Admissible;
    ReadingAdmissible(read, Some(login), limit);
    WrittenReading(written, login, Admitted(read, Some(login), limit).record, limit, escapedInFull);
  }

  // ----- Comparing two states as their JSON spells them

  predicate SpelledAlike(a: Record, b: Record) { Spelling(Obj(a), SPACED) == Spelling(Obj(b), SPACED) }

  /** Two states are spelled alike exactly where they are one state once surrogates side by side are merged. */
  lemma SpelledAlikeIs(a: Record, b: Record)
    requires Convertible(Obj(a)) && Convertible(Obj(b))
    ensures SpelledAlike(a, b) <==> MergedValue(Obj(a)) == MergedValue(Obj(b))
  {
    SpelledOnce(Obj(a), Obj(b), SPACED);
  }

  /** Of states a reading gives, only the very same are spelled alike. */
  lemma SpelledAlikeEqual(a: Record, b: Record)
    requires Convertible(Obj(a)) && Convertible(Obj(b)) && UnsplitValue(Obj(a)) && UnsplitValue(Obj(b))
    ensures SpelledAlike(a, b) <==> a == b
  {
    SpelledAlikeIs(a, b);
    MergedIsSame(Obj(a));
    MergedIsSame(Obj(b));
  }
}
