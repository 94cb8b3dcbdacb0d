/**
 The issue scheduler's state and what each of its critical sections does to it.

 Every section runs under one lock, so a run of the scheduler is a sequence of these steps, taken by
 whichever threads reach the lock. Beside the fields the scheduler keeps stand the facts they are
 kept for: which accepted submissions are still running, which temporary claims stand, who holds the
 maintenance barrier and what that holder was told.
 */
module SchedulerModel {
  import opened Text

  type Key = (string, int)

  datatype Request = Request(slug: string, number: int, family: bool, capExempt: bool, perRepoCap: Option<int>)

  datatype Submission = Submission(slug: string, number: int, family: bool, capExempt: bool, perRepoCap: int) {
    function Key(): Key { (slug, number) }
  }

  function AtLeastOne(cap: int): int { if cap < 1 then 1 else cap }

  function Normalized(r: Request, defaultCap: int): Submission {
    Submission(r.slug, r.number, r.family, r.capExempt,
               if r.perRepoCap.None? then defaultCap else AtLeastOne(r.perRepoCap.value))
  }

  datatype Reason = Closed | Maintenance | DuplicateActive | GlobalCap | PerRepoCap | FamilySlotHeld

  type Future = nat
  type Holder = nat

  datatype State = State(
    globalCap: int,
    perRepoCap: int,
    active: set<Key>,
    tracked: set<Key>,
    perRepo: map<string, int>,
    families: set<string>,
    completed: seq<Future>,
    closed: bool,
    barred: bool,
    live: map<Future, Submission>,   // accepted and not yet completed
    claims: set<Key>,                // temporary claims standing
    reaped: seq<Future>,
    accepted: nat,                   // futures are numbered as they are accepted
    hold: Option<Holder>,
    quiet: bool)                     // whether that holder was answered True

  function New(globalCap: int, perRepoCap: int): State {
    State(AtLeastOne(globalCap), AtLeastOne(perRepoCap), {}, {}, map[], {}, [], false, false,
          map[], {}, [], 0, None, false)
  }

  function Count(perRepo: map<string, int>, slug: string): int {
    if slug in perRepo then perRepo[slug] else 0
  }

  /** The counts with one more, or one fewer, in flight for `slug`; a count that reaches zero is dropped. */
  function OneMore(perRepo: map<string, int>, slug: string): map<string, int> {
    perRepo[slug := Count(perRepo, slug) + 1]
  }

  function OneFewer(perRepo: map<string, int>, slug: string): map<string, int> {
    var count := Count(perRepo, slug);
    if count <= 1 then perRepo - {slug} else perRepo[slug := count - 1]
  }

  predicate Pending(s: State) { s.active != {} || s.tracked != {} }

  predicate Claimable(s: State, key: Key) {
    !s.barred && key !in s.active && key !in s.tracked
  }

  function SkipReason(s: State, sub: Submission): Option<Reason> {
    if s.closed then Some(Closed)
    else if s.barred then Some(Maintenance)
    else if sub.Key() in s.active || sub.Key() in s.tracked then Some(DuplicateActive)
    else if !sub.capExempt && |s.active| >= s.globalCap then Some(GlobalCap)
    else if !sub.capExempt && Count(s.perRepo, sub.slug) >= sub.perRepoCap then Some(PerRepoCap)
    else if sub.family && sub.slug in s.families then Some(FamilySlotHeld)
    else None
  }

  function Reserved(s: State, sub: Submission): State {
    var slotted :=
      if sub.capExempt then s.(tracked := s.tracked + {sub.Key()})
      else s.(active := s.active + {sub.Key()}, perRepo := OneMore(s.perRepo, sub.slug));
    if sub.family then slotted.(families := slotted.families + {sub.slug}) else slotted
  }

  function Released(s: State, sub: Submission): State {
    var freed :=
      if sub.capExempt then s.(tracked := s.tracked - {sub.Key()})
      else s.(active := s.active - {sub.Key()}, perRepo := OneFewer(s.perRepo, sub.slug));
    if sub.family then freed.(families := freed.families - {sub.slug}) else freed
  }

  /** One submit: refused, admitted and taken by its executor, or admitted and given straight back. */
  function Submitted(s: State, r: Request, taken: bool): (State, bool) {
    var sub := Normalized(r, s.perRepoCap);
    if SkipReason(s, sub).Some? then (s, false)
    else if !taken then (Released(Reserved(s, sub), sub), false)
    else (Reserved(s, sub).(live := s.live[s.accepted := sub], accepted := s.accepted + 1), true)
  }

  function Done(s: State, f: Future): State
    requires f in s.live
  {
    Released(s, s.live[f]).(completed := s.completed + [f], live := s.live - {f})
  }

  function Reaped(s: State): State { s.(completed := [], reaped := s.reaped + s.completed) }

  function ShutDown(s: State): State { s.(closed := true) }

  function Tracked(s: State, key: Key): (State, bool) {
    if Claimable(s, key) then (s.(tracked := s.tracked + {key}, claims := s.claims + {key}), true) else (s, false)
  }

  function Untracked(s: State, key: Key): State {
    s.(tracked := s.tracked - {key}, claims := s.claims - {key})
  }

  function BarrierTaken(s: State, who: Holder): (State, bool) {
    if !s.closed && !s.barred then (s.(barred := true, hold := Some(who), quiet := false), true) else (s, false)
  }

  /** What the holder is told when its wait ends, by quiet, by close, or by its deadline. */
  function Quiesced(s: State): (State, bool) {
    var quiet := !Pending(s) && !s.closed;
    (s.(quiet := quiet), quiet)
  }

  function BarrierGiven(s: State): State { s.(barred := false, hold := None, quiet := false) }

  datatype Step =
    | Submit(request: Request, taken: bool)
    | Complete(future: Future)
    | Reap
    | Shutdown
    | Track(claimed: Key)
    | Untrack(given: Key)
    | TakeBarrier(taker: Holder)
    | Quiesce(waiter: Holder)
    | GiveBarrier(giver: Holder)

  predicate CanStep(s: State, step: Step) {
    match step
    case Complete(f) => f in s.live
    case Untrack(key) => key in s.claims
    case Quiesce(who) => s.hold == Some(who)
    case GiveBarrier(who) => s.hold == Some(who)
    case _ => true
  }

  function Next(s: State, step: Step): State
    requires CanStep(s, step)
  {
    match step
    case Submit(r, taken) => Submitted(s, r, taken).0
    case Complete(f) => Done(s, f)
    case Reap => Reaped(s)
    case Shutdown => ShutDown(s)
    case Track(key) => Tracked(s, key).0
    case Untrack(key) => Untracked(s, key)
    case TakeBarrier(who) => BarrierTaken(s, who).0
    case Quiesce(_) => Quiesced(s).0
    case GiveBarrier(_) => BarrierGiven(s)
  }

  function Ran(s: State, steps: seq<Step>): Option<State>
    decreases |steps|
  {
    if steps == [] then Some(s)
    else if CanStep(s, steps[0]) then Ran(Next(s, steps[0]), steps[1..])
    else None
  }

  // ----- What every step keeps

  function InRepo(keys: set<Key>, slug: string): set<Key> { set k | k in keys && k.0 == slug }

  type Running = map<Future, Submission>

  /** The keys of the running submissions that hold a counted slot, or that hold none. */
  function KeysOf(live: Running, exempt: bool): set<Key> {
    set f | f in live && live[f].capExempt == exempt :: live[f].Key()
  }

  function FamiliesOf(live: Running): set<string> {
    set f | f in live && live[f].family :: live[f].slug
  }

  predicate OneEach(live: Running) {
    forall f, g | f in live && g in live && live[f].Key() == live[g].Key() :: f == g
  }

  predicate OneFamilyEach(live: Running) {
    forall f, g | f in live && g in live && live[f].family && live[g].family && live[f].slug == live[g].slug :: f == g
  }

  /** The counted and exempt sets hold exactly the keys of the running submissions and the standing claims. */
  ghost predicate Accounts(active: set<Key>, tracked: set<Key>, claims: set<Key>, live: Running) {
    && active == KeysOf(live, false)
    && tracked == claims + KeysOf(live, true)
    && OneEach(live)
    && claims !! KeysOf(live, true) && claims !! KeysOf(live, false)
  }

  ghost predicate Accounted(s: State) { Accounts(s.active, s.tracked, s.claims, s.live) }

  /** Each repository's count is that of its counted keys, and none stands at zero. */
  ghost predicate Counts(perRepo: map<string, int>, active: set<Key>) {
    && (forall r :: r in perRepo <==> InRepo(active, r) != {})
    && (forall r | r in perRepo :: perRepo[r] == |InRepo(active, r)|)
  }

  ghost predicate Capped(s: State) {
    && s.globalCap >= 1 && s.perRepoCap >= 1
    && |s.active| <= s.globalCap
    && Counts(s.perRepo, s.active)
  }

  /** A repository's family slot is held exactly while one of its family submissions runs, and never by two. */
  ghost predicate OneFamily(s: State) {
    s.families == FamiliesOf(s.live) && OneFamilyEach(s.live)
  }

  /** How often an accepted future stands among the running, the completed and the reaped. */
  ghost function Places(s: State, f: Future): nat {
    (if f in s.live then 1 else 0) + multiset(s.completed)[f] + multiset(s.reaped)[f]
  }

  ghost predicate EachOnce(s: State) {
    forall f: Future :: Places(s, f) == if f < s.accepted then 1 else 0
  }

  ghost predicate Barrier(s: State) {
    && (s.barred <==> s.hold.Some?)
    && (s.quiet ==> s.barred && !Pending(s))
  }

  ghost predicate Inv(s: State) {
    Accounted(s) && Capped(s) && OneFamily(s) && EachOnce(s) && Barrier(s)
  }

  lemma NewInv(globalCap: int, perRepoCap: int)
    ensures Inv(New(globalCap, perRepoCap))
  {
    var s := New(globalCap, perRepoCap);
    assert forall r :: InRepo(s.active, r) == {};
  }

  lemma InRepoAdded(keys: set<Key>, key: Key)
    requires key !in keys
    ensures InRepo(keys + {key}, key.0) == InRepo(keys, key.0) + {key}
    ensures |InRepo(keys + {key}, key.0)| == |InRepo(keys, key.0)| + 1
    ensures forall r | r != key.0 :: InRepo(keys + {key}, r) == InRepo(keys, r)
  {
    assert key !in InRepo(keys, key.0);
  }

  lemma InRepoRemoved(keys: set<Key>, key: Key)
    requires key in keys
    ensures |InRepo(keys - {key}, key.0)| == |InRepo(keys, key.0)| - 1
    ensures forall r | r != key.0 :: InRepo(keys - {key}, r) == InRepo(keys, r)
  {
    var less := keys - {key};
    assert less + {key} == keys;
    InRepoAdded(less, key);
  }

  lemma CountAdded(perRepo: map<string, int>, active: set<Key>, key: Key)
    requires Counts(perRepo, active) && key !in active
    ensures Counts(OneMore(perRepo, key.0), active + {key})
    ensures |InRepo(active + {key}, key.0)| == Count(perRepo, key.0) + 1
  {
    InRepoAdded(active, key);
    if key.0 !in perRepo {
      assert InRepo(active, key.0) == {};
    }
  }

  lemma CountRemoved(perRepo: map<string, int>, active: set<Key>, key: Key)
    requires Counts(perRepo, active) && key in active
    ensures Counts(OneFewer(perRepo, key.0), active - {key})
  {
    InRepoRemoved(active, key);
    assert key in InRepo(active, key.0);
  }

  lemma MoreThenFewer(perRepo: map<string, int>, active: set<Key>, slug: string)
    requires Counts(perRepo, active)
    ensures OneFewer(OneMore(perRepo, slug), slug) == perRepo
  {
    if slug in perRepo {
      assert InRepo(active, slug) != {};
    }
  }

  /** What reserving and releasing a slot move, and that they look at nothing else. */
  lemma SlotFrame(s: State, sub: Submission)
    ensures var n := Reserved(s, sub);
            n == s.(active := n.active, tracked := n.tracked, perRepo := n.perRepo, families := n.families)
    ensures var n := Released(s, sub);
            n == s.(active := n.active, tracked := n.tracked, perRepo := n.perRepo, families := n.families)
  {
  }

  lemma SlotAlike(s: State, sub: Submission, live: Running, accepted: nat)
    ensures Released(s.(live := live, accepted := accepted), sub)
         == Released(s, sub).(live := live, accepted := accepted)
  {
  }

  lemma Unaccepted(s: State)
    requires EachOnce(s)
    ensures s.accepted !in s.live
  {
    assert Places(s, s.accepted) == 0;
  }

  /** A slot reserved and given straight back leaves the scheduler exactly as it was found. */
  lemma ReservedBack(s: State, sub: Submission)
    requires Counts(s.perRepo, s.active)
    requires sub.Key() !in s.active && sub.Key() !in s.tracked
    requires sub.family ==> sub.slug !in s.families
    ensures Released(Reserved(s, sub), sub) == s
  {
    MoreThenFewer(s.perRepo, s.active, sub.slug);
    assert s.active + {sub.Key()} - {sub.Key()} == s.active;
    assert s.tracked + {sub.Key()} - {sub.Key()} == s.tracked;
    if sub.family {
      assert s.families + {sub.slug} - {sub.slug} == s.families;
    }
  }

  /** An executor that will not take admitted work leaves the scheduler exactly as it was found. */
  lemma RefusalGivesBack(s: State, r: Request)
    requires Inv(s)
    ensures Submitted(s, r, false) == (s, false)
  {
    var sub := Normalized(r, s.perRepoCap);
    if SkipReason(s, sub).None? {
      ReservedBack(s, sub);
    }
  }

  lemma KeysAdded(live: Running, f: Future, sub: Submission, exempt: bool)
    requires f !in live
    ensures KeysOf(live[f := sub], exempt)
         == KeysOf(live, exempt) + (if exempt == sub.capExempt then {sub.Key()} else {})
  {
    var more := live[f := sub];
    assert f in more && more[f] == sub;
    assert forall g | g in live :: g in more && more[g] == live[g];
  }

  lemma FamiliesAdded(live: Running, f: Future, sub: Submission)
    requires f !in live && OneFamilyEach(live)
    requires sub.family ==> sub.slug !in FamiliesOf(live)
    ensures FamiliesOf(live[f := sub]) == FamiliesOf(live) + (if sub.family then {sub.slug} else {})
    ensures OneFamilyEach(live[f := sub])
  {
    var more := live[f := sub];
    assert f in more && more[f] == sub;
    assert forall g | g in live :: g in more && more[g] == live[g];
    assert forall g | g in live && live[g].family :: live[g].slug in FamiliesOf(live);
  }

  lemma DistinctAdded(live: Running, f: Future, sub: Submission)
    requires f !in live && OneEach(live)
    requires sub.Key() !in KeysOf(live, true) && sub.Key() !in KeysOf(live, false)
    ensures OneEach(live[f := sub])
  {
    assert forall g | g in live :: live[g].Key() in KeysOf(live, live[g].capExempt);
  }

  lemma LiveRemoved(live: Running, f: Future)
    requires f in live && OneEach(live) && OneFamilyEach(live)
    ensures var less, sub := live - {f}, live[f];
            && KeysOf(less, sub.capExempt) == KeysOf(live, sub.capExempt) - {sub.Key()}
            && KeysOf(less, !sub.capExempt) == KeysOf(live, !sub.capExempt)
            && FamiliesOf(less) == FamiliesOf(live) - (if sub.family then {sub.slug} else {})
            && OneEach(less) && OneFamilyEach(less)
            && sub.Key() in KeysOf(live, sub.capExempt) && sub.Key() !in KeysOf(live, !sub.capExempt)
  {
    var less := live - {f};
    assert forall g | g in less :: g in live && less[g] == live[g] && g != f;
    assert forall g | g in live && g != f :: g in less;
  }

  lemma AccountsAdded(active: set<Key>, tracked: set<Key>, claims: set<Key>, live: Running, f: Future, sub: Submission)
    requires Accounts(active, tracked, claims, live)
    requires f !in live && sub.Key() !in active && sub.Key() !in tracked
    ensures Accounts(if sub.capExempt then active else active + {sub.Key()},
                     if sub.capExempt then tracked + {sub.Key()} else tracked, claims, live[f := sub])
  {
    KeysAdded(live, f, sub, true);
    KeysAdded(live, f, sub, false);
    DistinctAdded(live, f, sub);
  }

  lemma AcceptedAccounted(s: State, r: Request)
    requires Inv(s) && Submitted(s, r, true).1
    ensures Accounted(Submitted(s, r, true).0)
  {
    assert s.accepted !in s.live by { assert Places(s, s.accepted) == 0; }
    AccountsAdded(s.active, s.tracked, s.claims, s.live, s.accepted, Normalized(r, s.perRepoCap));
  }

  lemma AcceptedOneFamily(s: State, r: Request)
    requires Inv(s) && Submitted(s, r, true).1
    ensures OneFamily(Submitted(s, r, true).0)
  {
    hide Accounted, Capped, EachOnce, Barrier;
    Unaccepted(s);
    FamiliesAdded(s.live, s.accepted, Normalized(r, s.perRepoCap));
  }

  /** The cap a request comes under: its own where it has one, and never less than one. */
  function CapOf(s: State, r: Request): int {
    match r.perRepoCap
    case None => s.perRepoCap
    case Some(cap) => if cap < 1 then 1 else cap
  }

  /** An accepted submission takes one free slot, within the global cap and the cap its request comes under. */
  lemma AcceptedCapped(s: State, r: Request)
    requires Inv(s) && Submitted(s, r, true).1
    ensures Capped(Submitted(s, r, true).0)
    ensures !r.capExempt ==>
              |InRepo(Submitted(s, r, true).0.active, r.slug)| <= CapOf(s, r)
  {
    var sub := Normalized(r, s.perRepoCap);
    if !sub.capExempt {
      CountAdded(s.perRepo, s.active, sub.Key());
    }
  }

  lemma AcceptedEachOnce(s: State, r: Request)
    requires EachOnce(s) && Submitted(s, r, true).1
    ensures EachOnce(Submitted(s, r, true).0)
  {
    hide SkipReason;
    var n := Submitted(s, r, true).0;
    assert Places(s, s.accepted) == 0;
    forall f: Future
      ensures Places(n, f) == if f < n.accepted then 1 else 0
    {
      assert Places(s, f) == if f < s.accepted then 1 else 0;
    }
  }

  lemma AcceptedKeeps(s: State, r: Request)
    requires Inv(s) && Submitted(s, r, true).1
    ensures Inv(Submitted(s, r, true).0)
  {
    AcceptedAccounted(s, r);
    AcceptedOneFamily(s, r);
    AcceptedCapped(s, r);
    AcceptedEachOnce(s, r);
    hide Accounted, OneFamily, Capped, EachOnce;
  }

  lemma SubmitKeeps(s: State, r: Request, taken: bool)
    requires Inv(s)
    ensures Inv(Submitted(s, r, taken).0)
  {
    hide Inv;
    if Submitted(s, r, taken).1 {
      AcceptedKeeps(s, r);
    } else {
      RefusalGivesBack(s, r);
    }
  }

  lemma DoneAccounted(s: State, f: Future)
    requires Inv(s) && f in s.live
    ensures Accounted(Done(s, f)) && OneFamily(Done(s, f))
    ensures s.live[f].Key() in if s.live[f].capExempt then s.tracked else s.active
  {
    LiveRemoved(s.live, f);
  }

  lemma DoneKeeps(s: State, f: Future)
    requires Inv(s) && f in s.live
    ensures Inv(Done(s, f))
  {
    DoneAccounted(s, f);
    var n := Done(s, f);
    var sub := s.live[f];
    if !sub.capExempt {
      CountRemoved(s.perRepo, s.active, sub.Key());
    }
    forall g: Future
      ensures Places(n, g) == if g < n.accepted then 1 else 0
    {
      assert Places(s, g) == if g < s.accepted then 1 else 0;
    }
  }

  lemma ReapKeeps(s: State)
    requires Inv(s)
    ensures Inv(Reaped(s))
  {
    var n := Reaped(s);
    forall f: Future
      ensures Places(n, f) == if f < n.accepted then 1 else 0
    {
      assert Places(s, f) == if f < s.accepted then 1 else 0;
      assert multiset(s.reaped + s.completed) == multiset(s.reaped) + multiset(s.completed);
    }
  }

  lemma TrackKeeps(s: State, key: Key)
    requires Inv(s)
    ensures Inv(Tracked(s, key).0)
  {
    var n := Tracked(s, key).0;
    assert forall f: Future :: Places(n, f) == Places(s, f);
  }

  lemma UntrackKeeps(s: State, key: Key)
    requires Inv(s) && key in s.claims
    ensures Inv(Untracked(s, key))
  {
    var n := Untracked(s, key);
    assert forall f: Future :: Places(n, f) == Places(s, f);
  }

  /** A step that moves nothing but the close and the hold keeps everything the counts rest on. */
  lemma BarrierKeeps(s: State, n: State)
    requires Inv(s)
    requires n == s.(closed := n.closed, barred := n.barred, hold := n.hold, quiet := n.quiet)
    requires Barrier(n)
    ensures Inv(n)
  {
    assert forall f: Future :: Places(n, f) == Places(s, f);
  }

  lemma StepKeeps(s: State, step: Step)
    requires Inv(s) && CanStep(s, step)
    ensures Inv(Next(s, step))
  {
    match step
    case Submit(r, taken) => SubmitKeeps(s, r, taken);
    case Complete(f) => DoneKeeps(s, f);
    case Reap => ReapKeeps(s);
    case Track(key) => TrackKeeps(s, key);
    case Untrack(key) => UntrackKeeps(s, key);
    case Shutdown => BarrierKeeps(s, ShutDown(s));
    case TakeBarrier(who) => BarrierKeeps(s, BarrierTaken(s, who).0);
    case Quiesce(_) => BarrierKeeps(s, Quiesced(s).0);
    case GiveBarrier(_) => BarrierKeeps(s, BarrierGiven(s));
  }

  /** The invariant over every run of every scheduler. */
  lemma {:induction false} RunKeeps(s: State, steps: seq<Step>)
    requires Inv(s) && Ran(s, steps).Some?
    ensures Inv(Ran(s, steps).value)
    decreases |steps|
  {
    if steps != [] {
      StepKeeps(s, steps[0]);
      RunKeeps(Next(s, steps[0]), steps[1..]);
    }
  }

  /**
   What holds of any scheduler after any run: disjoint sets, caps, exact counts, one family slot a repository, each
   future in one place.
   */
  lemma RunAccounts(globalCap: int, perRepoCap: int, steps: seq<Step>)
    requires Ran(New(globalCap, perRepoCap), steps).Some?
    ensures var s := Ran(New(globalCap, perRepoCap), steps).value;
            && s.active !! s.tracked
            && |s.active| <= s.globalCap == (if globalCap >= 1 then globalCap else 1)
            && (forall r :: Count(s.perRepo, r) == |InRepo(s.active, r)|)
            && OneFamily(s) && EachOnce(s) && Accounted(s)
  {
    var start := New(globalCap, perRepoCap);
    NewInv(globalCap, perRepoCap);
    RunKeeps(start, steps);
    RunCap(start, steps);
    var s := Ran(start, steps).value;
    forall k | k in s.active
      ensures k !in s.tracked
    {
    }
  }

  /** No run from a state in order ever holds more counted submissions than the global cap, which no step moves. */
  lemma {:induction false} RunCap(s: State, steps: seq<Step>)
    requires Inv(s) && Ran(s, steps).Some?
    ensures var n := Ran(s, steps).value; n.globalCap == s.globalCap && |n.active| <= s.globalCap
    decreases |steps|
  {
    hide Accounted, OneFamily, EachOnce, Barrier;
    if steps != [] {
      StepKeeps(s, steps[0]);
      CapUnmoved(s, steps[0]);
      RunCap(Next(s, steps[0]), steps[1..]);
    }
  }

  /** A closed scheduler stays closed and accepts nothing more. */
  lemma {:induction false} ClosedStays(s: State, steps: seq<Step>)
    requires s.closed && Ran(s, steps).Some?
    ensures var n := Ran(s, steps).value; n.closed && n.accepted == s.accepted
    decreases |steps|
  {
    if steps != [] {
      ClosedStep(s, steps[0]);
      ClosedStays(Next(s, steps[0]), steps[1..]);
    }
  }

  lemma ClosedStep(s: State, step: Step)
    requires s.closed && CanStep(s, step)
    ensures Next(s, step).closed && Next(s, step).accepted == s.accepted
  {
  }

  /** With nothing running and nothing left to reap, every future ever accepted was reaped, each once. */
  lemma AllReaped(s: State)
    requires Inv(s) && s.live == map[] && s.completed == []
    ensures s.active == {} && s.tracked == s.claims
    ensures forall f: Future :: multiset(s.reaped)[f] == if f < s.accepted then 1 else 0
  {
    assert forall f: Future :: Places(s, f) == multiset(s.reaped)[f];
  }

  lemma CapUnmoved(s: State, step: Step)
    requires CanStep(s, step)
    ensures Next(s, step).globalCap == s.globalCap
  {
    hide SkipReason, Reserved, Released, Normalized;
    if step.Submit? {
      var sub := Normalized(step.request, s.perRepoCap);
      SlotFrame(s, sub);
      SlotFrame(Reserved(s, sub), sub);
    } else if step.Complete? {
      SlotFrame(s, s.live[step.future]);
    }
  }

  // ----- What is accepted

  /** The key of a submission that runs, or of a claim that stands. */
  ghost predicate InHand(s: State, key: Key) {
    key in s.claims || exists f :: f in s.live && s.live[f].Key() == key
  }

  ghost predicate FamilyRuns(s: State, slug: string) {
    exists f :: f in s.live && s.live[f].family && s.live[f].slug == slug
  }

  /** A counted submission has room: under the global cap, and under its repository's. */
  predicate HasRoom(s: State, r: Request) {
    |s.active| < s.globalCap && |InRepo(s.active, r.slug)| < CapOf(s, r)
  }

  lemma KeyInHand(s: State, key: Key)
    requires Accounted(s)
    ensures key in s.active || key in s.tracked <==> InHand(s, key)
  {
    if f :| f in s.live && s.live[f].Key() == key {
      assert s.live[f].Key() in KeysOf(s.live, s.live[f].capExempt);
    }
  }

  lemma FamilyInHand(s: State, slug: string)
    requires OneFamily(s)
    ensures slug in s.families <==> FamilyRuns(s, slug)
  {
    if f :| f in s.live && s.live[f].family && s.live[f].slug == slug {
      assert s.live[f].slug in FamiliesOf(s.live);
    }
  }

  lemma CountIs(s: State, slug: string)
    requires Capped(s)
    ensures Count(s.perRepo, slug) == |InRepo(s.active, slug)|
  {
    if slug !in s.perRepo {
      assert InRepo(s.active, slug) == {};
    }
  }

  /**
   A submission is refused for the first of these that holds: the scheduler closed, admission held, its issue in hand
   already, a cap reached, a family submission of its repository running. Where none does it is admitted.
   */
  lemma ReasonExactly(s: State, r: Request)
    requires Inv(s)
    ensures var reason, key := SkipReason(s, Normalized(r, s.perRepoCap)), (r.slug, r.number);
            && (reason == Some(Closed) <==> s.closed)
            && (reason == Some(Maintenance) <==> !s.closed && s.barred)
            && (reason == Some(DuplicateActive) <==> !s.closed && !s.barred && InHand(s, key))
            && (reason == Some(GlobalCap) <==>
                  !s.closed && !s.barred && !InHand(s, key) && !r.capExempt && |s.active| >= s.globalCap)
            && (reason == Some(PerRepoCap) <==>
                  && !s.closed && !s.barred && !InHand(s, key) && !r.capExempt && |s.active| < s.globalCap
                  && |InRepo(s.active, r.slug)| >= CapOf(s, r))
            && (reason == Some(FamilySlotHeld) <==>
                  && !s.closed && !s.barred && !InHand(s, key) && (!r.capExempt ==> HasRoom(s, r))
                  && r.family && FamilyRuns(s, r.slug))
  {
    hide Accounted, OneFamily, Capped, EachOnce, Barrier, Count, InHand, FamilyRuns;
    KeyInHand(s, (r.slug, r.number));
    FamilyInHand(s, r.slug);
    CountIs(s, r.slug);
  }

  /**
   A submission is accepted exactly where the scheduler is open and admits work, its issue is not in hand, a counted
   one has room, and a family one meets no other of its repository; and what then runs is what was asked for.
   */
  lemma AcceptedExactly(s: State, r: Request)
    requires Inv(s)
    ensures Submitted(s, r, true).1 <==>
              && !s.closed && !s.barred && !InHand(s, (r.slug, r.number))
              && (!r.capExempt ==> HasRoom(s, r)) && (r.family ==> !FamilyRuns(s, r.slug))
    ensures var (n, accepted) := Submitted(s, r, true);
            if !accepted then n == s
            else
              && s.accepted !in s.live && n.accepted == s.accepted + 1
              && n.live == s.live[s.accepted := n.live[s.accepted]]
              && n.live[s.accepted].Key() == (r.slug, r.number)
              && n.live[s.accepted].family == r.family && n.live[s.accepted].capExempt == r.capExempt
              && n.claims == s.claims && n.completed == s.completed && n.reaped == s.reaped
  {
    hide Accounted, OneFamily, Capped, EachOnce, Barrier, InHand, FamilyRuns, HasRoom, SkipReason;
    ReasonExactly(s, r);
    Unaccepted(s);
    SkipReasonOneOf(s, Normalized(r, s.perRepoCap));
    RoomIs(s, r);
  }

  /** A claim is admitted exactly where no hold stands and its issue is not in hand, and then stands with the rest. */
  lemma ClaimedExactly(s: State, key: Key)
    requires Inv(s)
    ensures Tracked(s, key).1 <==> s.hold.None? && !InHand(s, key)
    ensures Tracked(s, key).0 == if Tracked(s, key).1 then
                                   s.(tracked := s.tracked + {key}, claims := s.claims + {key}) else s
    ensures key in s.claims ==> Untracked(s, key).claims == s.claims - {key} && Untracked(s, key).live == s.live
  {
    hide OneFamily, Capped, EachOnce, InHand;
    KeyInHand(s, key);
  }

  /** A hold is given exactly where the scheduler is open and nobody has one; and it is one, and closes admission. */
  lemma HoldExactly(s: State, who: Holder)
    requires Inv(s)
    ensures BarrierTaken(s, who).1 <==> !s.closed && s.hold.None?
    ensures BarrierTaken(s, who).0 ==
              if !s.closed && s.hold.None? then s.(barred := true, hold := Some(who), quiet := false) else s
    ensures s.hold.Some? ==> BarrierGiven(s) == s.(barred := false, hold := None, quiet := false)
  {
    hide Accounted, OneFamily, Capped, EachOnce;
  }

  /** A scheduler is built open, empty, and with caps of at least one. */
  lemma NewExactly(globalCap: int, perRepoCap: int)
    ensures var s := New(globalCap, perRepoCap);
            && s.globalCap == (if globalCap >= 1 then globalCap else 1)
            && s.perRepoCap == (if perRepoCap >= 1 then perRepoCap else 1)
            && s.active == {} && s.tracked == {} && s.live == map[] && s.completed == [] && s.accepted == 0
            && !s.closed && !s.barred && s.hold.None?
  {
  }

  lemma SkipReasonOneOf(s: State, sub: Submission)
    ensures SkipReason(s, sub).None? || SkipReason(s, sub).value in
              {Closed, Maintenance, DuplicateActive, GlobalCap, PerRepoCap, FamilySlotHeld}
  {
  }

  lemma RoomIs(s: State, r: Request)
    ensures HasRoom(s, r) <==> |s.active| < s.globalCap && |InRepo(s.active, r.slug)| < CapOf(s, r)
  {
  }

  // ----- A signal inside a section

  /** What the signal handler does of a scheduler: closed, and reaped with nothing waited for. */
  function Signalled(s: State): State { Reaped(ShutDown(s)) }

  /**
   A reap whose thread is taken by the handler between reading the batch and clearing it: the handler re-enters the
   lock and reaps that batch too.
   */
  function ReapedAcross(s: State): State {
    var n := Signalled(s);
    n.(completed := [], reaped := n.reaped + s.completed)
  }

  /**
   Everything else of the scheduler is as one reap and a close leave it; the batch, if there was any, is reaped
   twice.
   */
  lemma ReapedTwice(s: State)
    requires Inv(s)
    ensures var n := ReapedAcross(s);
            && n.(reaped := s.reaped + s.completed) == Signalled(s) && Inv(Signalled(s))
            && (forall f: Future :: multiset(n.reaped)[f] == multiset(s.reaped)[f] + 2 * multiset(s.completed)[f])
            && (EachOnce(n) <==> s.completed == [])
  {
    hide Accounted, Capped, OneFamily;
    var n := ReapedAcross(s);
    BarrierKeeps(s, ShutDown(s));
    ReapKeeps(ShutDown(s));
    assert multiset(n.reaped) == multiset(s.reaped) + multiset(s.completed) + multiset(s.completed);
    if s.completed != [] {
      var f := s.completed[0];
      assert multiset(s.completed)[f] >= 1;
      assert Places(n, f) >= 2;
    } else {
      assert n == Signalled(s);
    }
  }

  lemma RanNone(s: State)
    ensures Ran(s, []) == Some(s)
  {
  }

  lemma RanFirst(s: State, step: Step, rest: seq<Step>)
    requires CanStep(s, step)
    ensures Ran(s, [step] + rest) == Ran(Next(s, step), rest)
  {
    hide CanStep, Next;
    assert ([step] + rest)[1..] == rest;
  }

  /** A scheduler nothing was submitted to takes whatever it is asked to. */
  lemma FreeSlot(sub: Submission)
    requires sub.perRepoCap >= 1
    ensures SkipReason(New(1, 1), sub).None?
  {
  }

  /** One worker completed, and a reap a signal lands inside. */
  lemma SomeReapedTwice(r: Request)
    ensures var run := [Submit(r, true), Complete(0)];
            && Ran(New(1, 1), run).Some?
            && multiset(ReapedAcross(Ran(New(1, 1), run).value).reaped)[0] == 2
  {
    hide Ran, Reserved, Released;
    var start, run := New(1, 1), [Submit(r, true), Complete(0)];
    assert run == [Submit(r, true)] + ([Complete(0)] + []);
    RanFirst(start, Submit(r, true), [Complete(0)] + []);
    var sub := Normalized(r, start.perRepoCap);
    SlotFrame(start, sub);
    var taken := Next(start, Submit(r, true));
    assert taken == Reserved(start, sub).(live := map[0 := sub], accepted := 1) by { FreeSlot(sub); }
    RanFirst(taken, Complete(0), []);
    SlotFrame(taken, sub);
    var done := Next(taken, Complete(0));
    RanNone(done);
    assert done.completed == [0] && done.reaped == [];
    assert ReapedAcross(done).reaped == [0, 0];
  }

  /**
   A submit that passed its checks and whose thread is taken by the handler ahead of its reservation, or behind it: the
   executors it closed refuse the work, and the slot goes back.
   */
  function SubmittedAcross(s: State, r: Request, reserved: bool): State {
    var sub := Normalized(r, s.perRepoCap);
    if reserved then Released(Signalled(Reserved(s, sub)), sub) else Released(Reserved(Signalled(s), sub), sub)
  }

  /** It is as if the handler had run ahead of the submit. */
  lemma SubmitAcross(s: State, r: Request, reserved: bool)
    requires Inv(s) && SkipReason(s, Normalized(r, s.perRepoCap)).None?
    ensures Ran(s, [Shutdown, Reap, Submit(r, true)]) == Some(SubmittedAcross(s, r, reserved))
  {
    hide Accounted, OneFamily, EachOnce, Barrier, Counts, Reserved, Released, Ran;
    var sub := Normalized(r, s.perRepoCap);
    assert [Shutdown, Reap, Submit(r, true)] == [Shutdown] + ([Reap] + ([Submit(r, true)] + []));
    RanFirst(s, Shutdown, [Reap] + ([Submit(r, true)] + []));
    RanFirst(ShutDown(s), Reap, [Submit(r, true)] + []);
    assert Signalled(s).closed && Submitted(Signalled(s), r, true).0 == Signalled(s);
    RanFirst(Signalled(s), Submit(r, true), []);
    assert Ran(Signalled(s), []) == Some(Signalled(s)) by { RanNone(Signalled(s)); }
    CountsOf(s);
    ReservedBack(s, sub);
    ReservedBack(Signalled(s), sub);
    SignalledSlot(s, sub);
  }

  /** Closing and reaping move nothing a slot is made of. */
  lemma SignalledSlot(s: State, sub: Submission)
    ensures Released(Signalled(Reserved(s, sub)), sub) == Signalled(Released(Reserved(s, sub), sub))
  {
    hide OneMore, OneFewer;
  }

  // ----- The barrier

  /** What answering a holder True says of the scheduler, and that no other answer says it. */
  lemma QuietMeans(s: State, who: Holder)
    requires Inv(s) && s.hold == Some(who)
    ensures Quiesced(s).1 <==> s.live == map[] && s.claims == {} && !s.closed
  {
    if Quiesced(s).1 {
      NothingLive(s);
    }
  }

  /**
   Once a holder has been answered True, nothing is in flight and nothing more is admitted, whatever is
   submitted, claimed, completed, reaped or shut down, until that holder gives its hold back.
   */
  lemma {:induction false} QuietStays(s: State, who: Holder, steps: seq<Step>)
    requires Inv(s) && s.hold == Some(who) && !Pending(s)
    requires Ran(s, steps).Some?
    requires forall i | 0 <= i < |steps| :: steps[i] != GiveBarrier(who)
    ensures var n := Ran(s, steps).value;
            n.hold == Some(who) && n.barred && n.active == {} && n.tracked == {} && n.live == map[]
    decreases |steps|
  {
    if steps == [] {
      NothingLive(s);
    } else {
      StepKeeps(s, steps[0]);
      NothingLive(s);
      assert steps[0] != GiveBarrier(who);
      QuietStays(Next(s, steps[0]), who, steps[1..]);
    }
  }

  lemma NothingLive(s: State)
    requires Inv(s) && !Pending(s)
    ensures s.live == map[] && s.claims == {}
  {
    hide Capped, OneFamily, EachOnce, Barrier;
    assert forall f | f in s.live :: s.live[f].Key() in KeysOf(s.live, s.live[f].capExempt);
  }

  /**
   What a standing hold refuses, and what moves the hold itself: everything but completions, ends of claims, reaps
   and the close.
   */
  predicate Refusable(step: Step) { step.Submit? || step.Track? || step.TakeBarrier? || step.Quiesce? }

  /** The steps that do under a hold what they do without it. */
  function Outlasting(steps: seq<Step>): seq<Step> {
    if steps == [] then []
    else (if Refusable(steps[0]) then [] else [steps[0]]) + Outlasting(steps[1..])
  }

  /** The same scheduler but for `who` holding admission closed. */
  predicate Under(open: State, held: State, who: Holder) {
    held == open.(barred := true, hold := Some(who), quiet := held.quiet)
    && !open.barred && open.hold.None? && !open.quiet
  }

  lemma SubmitUnder(open: State, held: State, who: Holder, r: Request, taken: bool)
    requires Under(open, held, who)
    ensures Submitted(held, r, taken).0 == held
  {
    hide Reserved, Released;
  }

  lemma ReleasedUnder(open: State, held: State, who: Holder, sub: Submission)
    requires Under(open, held, who)
    ensures Under(Released(open, sub), Released(held, sub), who)
    ensures Released(open, sub).live == open.live && Released(held, sub).live == held.live
    ensures Released(open, sub).completed == open.completed && Released(held, sub).completed == held.completed
  {
  }

  lemma StepUnder(open: State, held: State, who: Holder, step: Step)
    requires Under(open, held, who) && CanStep(held, step) && step != GiveBarrier(who)
    ensures Refusable(step) ==> Under(open, Next(held, step), who)
    ensures !Refusable(step) ==> CanStep(open, step) && Under(Next(open, step), Next(held, step), who)
  {
    hide SkipReason, Reserved, Released, Normalized;
    match step
    case Submit(r, taken) => SubmitUnder(open, held, who, r, taken);
    case Complete(f) => ReleasedUnder(open, held, who, held.live[f]);
    case _ =>
  }

  lemma {:induction false} RunUnder(open: State, held: State, who: Holder, steps: seq<Step>)
    requires Under(open, held, who) && Ran(held, steps).Some?
    requires forall i | 0 <= i < |steps| :: steps[i] != GiveBarrier(who)
    ensures Ran(open, Outlasting(steps)).Some?
    ensures Under(Ran(open, Outlasting(steps)).value, Ran(held, steps).value, who)
    decreases |steps|
  {
    hide Under, CanStep, Next;
    if steps != [] {
      var step, rest := steps[0], steps[1..];
      assert step != GiveBarrier(who);
      StepUnder(open, held, who, step);
      if Refusable(step) {
        RunUnder(open, Next(held, step), who, rest);
        assert [] + Outlasting(rest) == Outlasting(rest);
      } else {
        RunUnder(Next(open, step), Next(held, step), who, rest);
        assert ([step] + Outlasting(rest))[1..] == Outlasting(rest);
      }
    }
  }

  /**
   A hold only refuses. Whatever ran under it, giving it back leaves exactly the scheduler those steps would have
   left with no hold taken and nothing submitted or claimed meanwhile: one hold at a time, and what it closed reopened.
   */
  lemma HoldReverses(s: State, who: Holder, steps: seq<Step>)
    requires Inv(s) && BarrierTaken(s, who).1 && Ran(BarrierTaken(s, who).0, steps).Some?
    requires forall i | 0 <= i < |steps| :: steps[i] != GiveBarrier(who)
    ensures var n := Ran(BarrierTaken(s, who).0, steps).value;
            && n.hold == Some(who) && n.barred
            && Ran(s, Outlasting(steps)) == Some(BarrierGiven(n))
  {
    hide Accounted, Capped, OneFamily, EachOnce;
    RunUnder(s, BarrierTaken(s, who).0, who, steps);
  }

  lemma CountsOf(s: State)
    requires Capped(s)
    ensures Counts(s.perRepo, s.active)
  {
  }

  /** A worker that ran and completed gives its slot, its count and its family back exactly. */
  lemma CompletionGivesBack(s: State, r: Request)
    requires Inv(s) && Submitted(s, r, true).1
    ensures var n := Done(Submitted(s, r, true).0, s.accepted);
            && n.active == s.active && n.tracked == s.tracked && n.perRepo == s.perRepo
            && n.families == s.families && n.live == s.live
            && n.completed == s.completed + [s.accepted]
  {
    hide Accounted, Capped, OneFamily, EachOnce, Barrier, Reserved, Released, Counts;
    var sub := Normalized(r, s.perRepoCap);
    Unaccepted(s);
    assert Counts(s.perRepo, s.active) by { CountsOf(s); }
    ReservedBack(s, sub);
    SlotAlike(Reserved(s, sub), sub, s.live[s.accepted := sub], s.accepted + 1);
    SlotFrame(s, sub);
    assert s.live[s.accepted := sub] - {s.accepted} == s.live;
  }
}
