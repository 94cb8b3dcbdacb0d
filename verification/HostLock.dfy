/**
 One process's side of the host lock, and the maintenance pass it takes it for: the holds as they
 are nested, each given back on the way out whatever the body did, and every pass the moves it is on its host.

 What other processes do to the lock while this one is not looking is an argument: the lock as they
 left it. They never take or drop a hold of this process's.
 */
module HostLock {
  import opened Text
  import opened HostExclusion
  import opened HostMoves
  import Model = SchedulerModel
  import Service = SchedulerService

  datatype Request = LockShared | LockExclusive

  /** The lock once this process was granted a request made of it holding nothing. */
  function Granted(l: Locks, me: Pid, request: Request): Locks {
    if request.LockShared? then l.(shared := l.shared + {me}) else l.(exclusive := Some(me))
  }

  predicate May(l: Locks, request: Request) {
    if request.LockShared? then MayShare(l) else MayExclude(l)
  }

  /** The lock at the first of several asks at which the request is granted. */
  function FirstFree(asks: seq<Locks>, request: Request): (first: Option<Locks>)
    ensures first.None? <==> forall l | l in asks :: !May(l, request)
    ensures first.Some? ==> first.value in asks && May(first.value, request)
  {
    if asks == [] then None else if May(asks[0], request) then Some(asks[0]) else FirstFree(asks[1..], request)
  }

  predicate Without(l: Locks, me: Pid) { me !in l.shared && l.exclusive != Some(me) }

  class LockFile {
    var shared: set<Pid>
    var exclusive: Option<Pid>

    function View(): Locks
      reads this
    {
      Locks(shared, exclusive)
    }

    constructor ()
      ensures View() == Locks({}, None)
    {
      shared, exclusive := {}, None;
    }

    method Unlock(me: Pid)
      modifies this
      ensures View() == Unlocked(old(View()), me)
    {
      shared := shared - {me};
      if exclusive == Some(me) {
        exclusive := None;
      }
    }

    /** One request, granted at once or refused at once. */
    method Taken(me: Pid, request: Request) returns (taken: bool)
      requires Without(View(), me)
      modifies this
      ensures taken <==> May(old(View()), request)
      ensures View() == if taken then Granted(old(View()), me, request) else old(View())
    {
      match request {
        case LockShared =>
          taken := exclusive.None?;
          if taken {
            shared := shared + {me};
          }
        case LockExclusive =>
          taken := exclusive.None? && shared == {};
          if taken {
            exclusive := Some(me);
          }
      }
    }

    method Meanwhile(theirs: Locks)
      modifies this
      ensures View() == theirs
    {
      shared, exclusive := theirs.shared, theirs.exclusive;
    }

    /**
     Ask until granted: `theirs` is the lock as the others left it before each retry, and running out
     of them is the run being interrupted while it still waits. Granted at the first ask it could be.
     */
    method Waited(me: Pid, request: Request, theirs: seq<Locks>) returns (taken: bool)
      requires Without(View(), me) && forall l | l in theirs :: Without(l, me)
      modifies this
      ensures var asked := FirstFree([old(View())] + theirs, request);
              && (taken <==> asked.Some?)
              && View() == if taken then Granted(asked.value, me, request) else ([old(View())] + theirs)[|theirs|]
      ensures !taken ==> Without(View(), me)
    {
      ghost var asks := [View()] + theirs;
      taken := Taken(me, request);
      var i := 0;
      while !taken && i < |theirs|
        invariant 0 <= i <= |theirs|
        invariant !taken ==> Without(View(), me) && View() == asks[i]
        invariant FirstFree(asks, request) ==
                  if taken then FirstFree(asks[i..], request) else FirstFree(asks[i + 1..], request)
        invariant taken ==> May(asks[i], request) && View() == Granted(asks[i], me, request)
      {
        assert asks[i + 1] == theirs[i];
        assert asks[i + 1..][1..] == asks[i + 2..];
        Meanwhile(theirs[i]);
        taken := Taken(me, request);
        i := i + 1;
      }
    }

    /** `_handed_over`: the presence given up, and the host tried for once in its place. */
    method HandedOver(me: Pid, theirs: Locks) returns (sole: bool)
      requires Without(theirs, me)
      modifies this
      ensures sole <==> MayExclude(theirs)
      ensures View() == if sole then Locks({}, Some(me)) else theirs
    {
      Unlock(me);
      Meanwhile(theirs);
      sole := Taken(me, LockExclusive);
    }

    /** `_restored`: the host given back if it was taken, and the presence waited for again. */
    method Restored(me: Pid, sole: bool, theirs: seq<Locks>) returns (back: bool)
      requires sole <==> exclusive == Some(me)
      requires me !in shared && forall l | l in theirs :: Without(l, me)
      modifies this
      ensures var free := if sole then Unlocked(old(View()), me) else old(View());
              var asked := FirstFree([free] + theirs, LockShared);
              && (back <==> asked.Some?)
              && (back ==> View() == Granted(asked.value, me, LockShared))
      ensures !back ==> Without(View(), me)
    {
      if sole {
        Unlock(me);
      }
      back := Waited(me, LockShared, theirs);
    }
  }

  /** What a run holds on its host. */
  datatype HostClaim = UnclaimedHost | ExclusiveHost | SharedHost

  datatype Outcome = Skipped | Unclaimed | Deferred | Contended | GateClosed | Acted

  /**
   What happens around a pass: whether the run is still going with clients to serve, what its other threads do at each
   wake of the wait for quiet, the lock others left between the two halves of the handover, what threads do before the
   gate is asked, its answer, the lock at each retry for the presence, and what threads do while that is waited for.
   */
  datatype Around = Around(
    going: bool, wakes: seq<seq<Model.Step>>, theirs: Locks, during: seq<Model.Step>, gate: bool,
    returning: seq<Locks>, late: seq<Model.Step>)

  /** What a pass comes to once it was answered quiet. */
  function Answer(claim: HostClaim, around: Around): Outcome {
    if claim.SharedHost? && !MayExclude(around.theirs) then Contended
    else if around.gate then Acted
    else GateClosed
  }

  /** A holder whose wait ended behind `took` was answered quiet: nothing in flight or claimed, and still open. */
  ghost predicate AnsweredQuiet(before: Model.State, took: seq<Model.Step>) {
    && Model.Ran(before, took).Some?
    && var s := Model.Ran(before, took).value; s.live == map[] && s.claims == {} && !s.closed
  }

  /** A pass was given its barrier and was answered quiet. */
  ghost predicate WaitedQuiet(s: Model.State, took: seq<Model.Step>) {
    !s.closed && !s.barred && AnsweredQuiet(s.(barred := true, hold := Some(Pass), quiet := false), took)
  }

  /** What threads can do under a hold that was answered quiet: there is no worker to complete and no claim to end. */
  predicate AnyTime(steps: seq<Model.Step>) {
    forall step | step in steps ::
      step.Submit? || step.Reap? || step.Shutdown? || step.Track? || (step.TakeBarrier? && step.taker != Pass)
  }

  predicate InOrder(around: Around, me: Pid) {
    && Without(around.theirs, me)
    && (forall l | l in around.returning :: Without(l, me))
    && AnyTime(around.during) && AnyTime(around.late)
  }

  /** The lock as a run with a claim knows it. */
  predicate Claims(l: Locks, me: Pid, claim: HostClaim) {
    match claim
    case UnclaimedHost => true
    case ExclusiveHost => l == Locks({}, Some(me))
    case SharedHost => me in l.shared && l.exclusive.None?
  }

  function RoleOf(claim: HostClaim): Role { if claim.SharedHost? then Poller else OneShot }

  function Stood(l: Locks, claim: HostClaim, place: Place, s: Model.State): Side {
    There(l, Process(RoleOf(claim), place, Some(s)))
  }

  ghost predicate Emptied(s: Model.State) {
    Model.Inv(s) && s.hold == Some(Pass) && s.barred && !Model.Pending(s)
  }

  lemma {:induction false} UnderHold(s: Model.State, steps: seq<Model.Step>)
    requires Emptied(s) && AnyTime(steps)
    ensures ThreadSteps(steps) && Model.Ran(s, steps).Some? && Emptied(Model.Ran(s, steps).value)
    decreases |steps|
  {
    hide Model.Inv, Model.Next;
    if steps != [] {
      assert steps[0] in steps && forall step | step in steps[1..] :: step in steps;
      ThreadsUnder(s, steps[0]);
      HoldBars(Model.Next(s, steps[0]));
      UnderHold(Model.Next(s, steps[0]), steps[1..]);
    }
  }

  lemma HoldBars(s: Model.State)
    requires Model.Inv(s)
    ensures s.barred <==> s.hold.Some?
  {
  }

  lemma PlayedNone(side: Side, me: Pid)
    ensures Played(side, me, []) == Some(side)
  {
  }

  // ----- Each move of a pass

  lemma EnterMade(side: Side, me: Pid)
    requires side.There? && side.process.place.Running? && side.process.scheduler.Some?
    ensures var (s, held) := Model.BarrierTaken(side.process.scheduler.value, Pass);
            Made(side, me, Move(side.locks, EnterPass(me)))
            == Some(if held then There(side.locks, side.process.(place := Barred, scheduler := Some(s))) else side)
  {
    hide Model.BarrierTaken;
  }

  lemma EndWaitMade(side: Side, me: Pid)
    requires side.There? && side.process.place.Barred? && side.process.scheduler.Some?
    requires side.process.scheduler.value.hold == Some(Pass)
    ensures var (s, quiet) := Model.Quiesced(side.process.scheduler.value);
            Made(side, me, Move(side.locks, EndWait(me)))
            == Some(There(side.locks, side.process.(place := if quiet then Quiet else Leaving, scheduler := Some(s))))
  {
    hide Model.Quiesced;
  }

  lemma LeaveMade(side: Side, me: Pid)
    requires side.There? && side.process.place.Leaving? && side.process.scheduler.Some?
    requires side.process.scheduler.value.hold == Some(Pass)
    ensures Made(side, me, Move(side.locks, LeaveBarrier(me)))
         == Some(There(side.locks, side.process.(place := Running,
                                                 scheduler := Some(Model.BarrierGiven(side.process.scheduler.value)))))
  {
    hide Model.BarrierGiven;
  }

  /** The handover: the presence given up, the lock left to others, and the host tried for. */
  lemma HandedMade(side: Side, me: Pid, theirs: Locks)
    requires side.There? && side.process.place.Quiet? && side.process.role.Poller? && Without(theirs, me)
    ensures var given := There(Unlocked(side.locks, me), side.process.(place := Handing));
            && Made(side, me, Move(side.locks, HandOver(me))) == Some(given)
            && Made(given, me, Move(theirs, TryHost(me)))
            == Some(if MayExclude(theirs) then There(theirs.(exclusive := Some(me)), side.process.(place := Sole))
                    else There(theirs, side.process.(place := Refused)))
  {
  }

  lemma BeginMade(side: Side, me: Pid)
    requires side.There? && (side.process.place.Sole? || (side.process.place.Quiet? && side.process.role.OneShot?))
    ensures Made(side, me, Move(side.locks, Begin(me)))
         == Some(There(side.locks, side.process.(place := Maintaining)))
  {
  }

  lemma FinishMade(side: Side, me: Pid)
    requires side.There?
    requires var p := side.process;
             p.place.Maintaining? || p.place.Sole? || (p.place.Quiet? && p.role.OneShot?)
    ensures Made(side, me, Move(side.locks, Finish(me)))
         == Some(There(side.locks, side.process.(place := if side.process.role.Poller? then Spent else Leaving)))
  {
  }

  lemma GiveBackMade(side: Side, me: Pid)
    requires side.There? && (side.process.place.Spent? || side.process.place.Refused?)
    ensures Made(side, me, Move(side.locks, GiveBack(me)))
         == Some(There(if side.process.place.Spent? then Unlocked(side.locks, me) else side.locks,
                       side.process.(place := Restoring)))
  {
  }

  lemma RestoreMade(side: Side, me: Pid, l: Locks)
    requires side.There? && side.process.place.Restoring? && MayShare(l)
    requires Without(side.locks, me) && Without(l, me)
    ensures Made(side, me, Move(l, Restore(me)))
         == Some(There(Granted(l, me, LockShared), side.process.(place := Leaving)))
  {
  }

  /** What a process's threads do, added to what it played. */
  lemma WorkedOn(start: Side, me: Pid, moves: seq<Move>, side: Side, steps: seq<Model.Step>)
    requires Played(start, me, moves) == Some(side) && side.There? && side.process.scheduler.Some?
    requires ThreadSteps(steps) && Model.Ran(side.process.scheduler.value, steps).Some?
    ensures Played(start, me, moves + Works(me, side.locks, steps))
         == Some(There(side.locks,
                       side.process.(scheduler := Some(Model.Ran(side.process.scheduler.value, steps).value))))
  {
    hide Made, ThreadSteps;
    WorksPlayed(side, me, side.process.scheduler.value, steps);
    PlayedOn(start, me, moves, Works(me, side.locks, steps));
  }

  lemma WorkedUnder(start: Side, me: Pid, moves: seq<Move>, side: Side, s: Model.State, steps: seq<Model.Step>)
    requires Played(start, me, moves) == Some(side) && side.There? && side.process.scheduler == Some(s)
    requires Emptied(s) && AnyTime(steps)
    ensures Model.Ran(s, steps).Some? && Emptied(Model.Ran(s, steps).value)
    ensures Played(start, me, moves + Works(me, side.locks, steps))
         == Some(There(side.locks, side.process.(scheduler := Model.Ran(s, steps))))
    ensures forall step | step in steps :: !step.Quiesce?
    ensures forall m | m in Works(me, side.locks, steps) :: !m.step.Begin?
  {
    hide Played, Works, Emptied;
    UnderHold(s, steps);
    WorkedOn(start, me, moves, side, steps);
    WorksOnly(me, side.locks, steps);
  }

  lemma {:induction false} WorksOnly(me: Pid, locks: Locks, steps: seq<Model.Step>)
    ensures forall m | m in Works(me, locks, steps) :: m.step.Work?
  {
    if steps != [] {
      WorksOnly(me, locks, steps[1..]);
    }
  }

  // ----- The pass

  /** Where a pass acts: the host held alone, its own scheduler empty, and admission held closed by it. */
  ghost predicate ActsAlone(start: Side, me: Pid, moves: seq<Move>) {
    var side := Played(start, me, moves);
    && side.Some? && side.value.There? && side.value.process.place.Maintaining?
    && side.value.locks == Locks({}, Some(me))
    && side.value.process.scheduler.Some? && Emptied(side.value.process.scheduler.value)
  }

  lemma ActsOn(start: Side, me: Pid, moves: seq<Move>, more: seq<Move>, k: nat)
    requires Played(start, me, moves).Some? && k <= |more|
    requires ActsAlone(Played(start, me, moves).value, me, more[..k])
    ensures ActsAlone(start, me, (moves + more)[..|moves| + k])
  {
    hide Played, Emptied;
    PlayedOn(start, me, moves, more[..k]);
    assert (moves + more)[..|moves| + k] == moves + more[..k];
  }

  /** Maintenance begun where the gate lets it, and over: with the host alone and the scheduler empty. */
  lemma ActedOn(start: Side, me: Pid, moves: seq<Move>, side: Side, gate: bool)
    requires Played(start, me, moves) == Some(side) && side.There? && side.locks == Locks({}, Some(me))
    requires side.process.place.Sole? || (side.process.place.Quiet? && side.process.role.OneShot?)
    requires side.process.scheduler.Some? && Emptied(side.process.scheduler.value)
    ensures var begun := if gate then moves + [Move(side.locks, Begin(me))] else moves;
            && (gate ==> ActsAlone(start, me, begun))
            && Played(start, me, begun + [Move(side.locks, Finish(me))])
            == Some(There(side.locks, side.process.(place := if side.process.role.Poller? then Spent else Leaving)))
  {
    hide Made, Played, Emptied;
    if gate {
      BeginMade(side, me);
      PlayedOne(start, me, moves, side, Move(side.locks, Begin(me)));
      var begun := side.(process := side.process.(place := Maintaining));
      FinishMade(begun, me);
      PlayedOne(start, me, moves + [Move(side.locks, Begin(me))], begun, Move(side.locks, Finish(me)));
    } else {
      FinishMade(side, me);
      PlayedOne(start, me, moves, side, Move(side.locks, Finish(me)));
    }
  }

  lemma EnteredFirst(start: Side, me: Pid)
    requires start.There? && start.process.place.Running? && start.process.scheduler.Some?
    ensures var (s, held) := Model.BarrierTaken(start.process.scheduler.value, Pass);
            Played(start, me, [Move(start.locks, EnterPass(me))])
            == Some(if held then There(start.locks, start.process.(place := Barred, scheduler := Some(s))) else start)
  {
    hide Made, Played;
    PlayedNone(start, me);
    EnterMade(start, me);
    PlayedOne(start, me, [], start, Move(start.locks, EnterPass(me)));
    assert [] + [Move(start.locks, EnterPass(me))] == [Move(start.locks, EnterPass(me))];
  }

  /** The barrier given back behind what was played. */
  lemma LeftOn(start: Side, me: Pid, moves: seq<Move>, side: Side)
    requires Played(start, me, moves) == Some(side) && side.There? && side.process.place.Leaving?
    requires side.process.scheduler.Some? && side.process.scheduler.value.hold == Some(Pass)
    ensures Played(start, me, moves + [Move(side.locks, LeaveBarrier(me))])
         == Some(There(side.locks, side.process.(place := Running,
                                                 scheduler := Some(Model.BarrierGiven(side.process.scheduler.value)))))
  {
    hide Made, Played, Model.BarrierGiven;
    LeaveMade(side, me);
    PlayedOne(start, me, moves, side, Move(side.locks, LeaveBarrier(me)));
  }

  /** Giving the presence up for the host, where a presence is what the run has. */
  method Exclusively(me: Pid, claim: HostClaim, lock: LockFile, theirs: Locks, ghost s: Model.State)
    returns (sole: bool, ghost moves: seq<Move>)
    requires !claim.UnclaimedHost? && Claims(lock.View(), me, claim) && Without(theirs, me)
    modifies lock
    ensures sole <==> claim.ExclusiveHost? || MayExclude(theirs)
    ensures sole ==> lock.View() == Locks({}, Some(me))
    ensures !sole ==> lock.View() == theirs
    ensures Played(Stood(old(lock.View()), claim, Quiet, s), me, moves)
         == Some(Stood(lock.View(), claim, if claim.ExclusiveHost? then Quiet else if sole then Sole else Refused, s))
    ensures forall m | m in moves :: !m.step.Begin?
  {
    hide Made;
    moves := [];
    sole := true;
    if claim.SharedHost? {
      ghost var side := Stood(lock.View(), claim, Quiet, s);
      HandedMade(side, me, theirs);
      ghost var over, try := Move(lock.View(), HandOver(me)), Move(theirs, TryHost(me));
      sole := lock.HandedOver(me, theirs);
      PlayedOne(side, me, [], side, over);
      PlayedOne(side, me, [over], Made(side, me, over).value, try);
      assert [] + [over] == [over];
      moves := [over] + [try];
    }
  }

  /**
   Where moves come to: the given place, or the wait for the presence where that was not back; until then the lock is
   as others leave it.
   */
  predicate ComesTo(start: Side, me: Pid, moves: seq<Move>, l: Locks, claim: HostClaim, back: bool, place: Place,
                    s: Model.State)
  {
    var side := Played(start, me, moves);
    && side.Some? && side.value.There?
    && side.value.process == Process(RoleOf(claim), if back then place else Restoring, Some(s))
    && (back ==> side.value.locks == l)
  }

  /** Giving the host back and waiting for the presence, where a presence is what the run had. */
  method GivenBack(me: Pid, claim: HostClaim, lock: LockFile, sole: bool, returning: seq<Locks>, ghost s: Model.State)
    returns (back: bool, ghost moves: seq<Move>)
    requires !claim.UnclaimedHost? && (claim.ExclusiveHost? ==> sole)
    requires if sole then lock.View() == Locks({}, Some(me)) else Without(lock.View(), me)
    requires forall l | l in returning :: Without(l, me)
    modifies lock
    ensures back ==> Claims(lock.View(), me, claim)
    ensures sole ==> back
    ensures var from := if claim.ExclusiveHost? then Leaving else if sole then Spent else Refused;
            ComesTo(Stood(old(lock.View()), claim, from, s), me, moves, lock.View(), claim, back, Leaving, s)
    ensures forall m | m in moves :: !m.step.Begin?
  {
    hide Made;
    moves := [];
    back := true;
    if claim.SharedHost? {
      ghost var side := Stood(lock.View(), claim, if sole then Spent else Refused, s);
      ghost var given := Move(lock.View(), GiveBack(me));
      GiveBackMade(side, me);
      PlayedOne(side, me, [], side, given);
      assert [] + [given] == [given];
      ghost var free := Made(side, me, given).value;
      back := lock.Restored(me, sole, returning);
      moves := [given];
      if back {
        ghost var l := FirstFree([free.locks] + returning, LockShared).value;
        RestoreMade(free, me, l);
        PlayedOne(side, me, [given], free, Move(l, Restore(me)));
        moves := [given] + [Move(l, Restore(me))];
      }
    }
  }

  /** The inside of the barrier: the host taken, the gate asked, the candidates handled, and the host given back. */
  method ActInside(me: Pid, claim: HostClaim, lock: LockFile, scheduler: Service.IssueScheduler, around: Around)
    returns (outcome: Outcome, back: bool, ghost moves: seq<Move>, ghost began: nat)
    requires !claim.UnclaimedHost? && Claims(lock.View(), me, claim) && InOrder(around, me)
    requires Emptied(scheduler.View())
    modifies lock, scheduler
    ensures Emptied(scheduler.View())
    ensures (back ==> Claims(lock.View(), me, claim)) && (claim.ExclusiveHost? ==> back)
    ensures outcome == Answer(claim, around)
    ensures ComesTo(Stood(old(lock.View()), claim, Quiet, old(scheduler.View())), me, moves, lock.View(), claim, back,
                    Leaving, scheduler.View())
    ensures began <= |moves|
    ensures outcome.Acted? ==>
              ActsAlone(Stood(old(lock.View()), claim, Quiet, old(scheduler.View())), me, moves[..began])
    ensures !outcome.Acted? ==> forall m | m in moves :: !m.step.Begin?
  {
    hide Made, Played, AnyTime, Works, Model.Inv, Model.Pending, MayExclude, Claims, Model.Ran;
    ghost var start := Stood(lock.View(), claim, Quiet, scheduler.View());
    var sole, taking := Exclusively(me, claim, lock, around.theirs, scheduler.View());
    ghost var place := if claim.ExclusiveHost? then Quiet else if sole then Sole else Refused;
    moves, began := taking, 0;
    ghost var side := Stood(lock.View(), claim, place, scheduler.View());
    WorkedUnder(start, me, moves, side, scheduler.View(), around.during);
    moves := moves + Works(me, side.locks, around.during);
    scheduler.TakeAll(around.during);
    side := Stood(lock.View(), claim, place, scheduler.View());
    ghost var acting := [];
    if !sole {
      outcome := Contended;
    } else {
      outcome := if around.gate then Acted else GateClosed;
      ActedOn(start, me, moves, side, around.gate);
      if around.gate {
        moves := moves + [Move(side.locks, Begin(me))];
        acting, began := moves, |moves|;
      }
      moves := moves + [Move(side.locks, Finish(me))];
      side := Stood(lock.View(), claim, if claim.ExclusiveHost? then Leaving else Spent, scheduler.View());
    }
    assert moves[..began] == acting;
    ghost var giving;
    back, giving := GivenBack(me, claim, lock, sole, around.returning, scheduler.View());
    PlayedOn(start, me, moves, giving);
    side := Played(start, me, moves + giving).value;
    WorkedUnder(start, me, moves + giving, side, scheduler.View(), around.late);
    moves := moves + giving + Works(me, side.locks, around.late);
    assert moves[..began] == acting;
    scheduler.TakeAll(around.late);
  }

  lemma WaitHeld(before: Model.State, took: seq<Model.Step>, wakes: seq<Model.Step>)
    requires Model.Inv(before) && before.hold == Some(Pass) && took <= wakes && Model.Ran(before, took).Some?
    requires Service.OfOthers(wakes, Pass) && ThreadSteps(wakes)
    ensures ThreadSteps(took) && Model.Ran(before, took).value.hold == Some(Pass)
  {
    hide Model.Inv, Model.Ran;
    assert forall step | step in took :: step in wakes;
    Service.HoldStays(before, Pass, took);
  }

  /** Neither the hold nor an answer to it moves what is in flight. */
  lemma PendingUnmoved(s: Model.State)
    ensures Model.Pending(Model.BarrierTaken(s, Pass).0) <==> Model.Pending(s)
    ensures Model.Pending(Model.BarrierGiven(s)) <==> Model.Pending(s)
    ensures Model.Pending(Model.Quiesced(s).0) <==> Model.Pending(s)
    ensures Model.Quiesced(s).1 ==> !Model.Pending(s)
  {
  }

  /** The wait for quiet, as moves: what threads did while it lasted, and its answer. */
  ghost method WaitMoves(start: Side, me: Pid, before: Model.State, took: seq<Model.Step>)
    returns (moves: seq<Move>)
    requires start.There? && start.process.place.Barred? && start.process.scheduler == Some(before)
    requires Model.Inv(before) && before.hold == Some(Pass)
    requires ThreadSteps(took) && Model.Ran(before, took).Some? && Model.Ran(before, took).value.hold == Some(Pass)
    ensures var (after, quiet) := Model.Quiesced(Model.Ran(before, took).value);
            Played(start, me, moves)
            == Some(There(start.locks,
                          start.process.(place := if quiet then Quiet else Leaving, scheduler := Some(after))))
    ensures forall m | m in moves :: !m.step.Begin?
  {
    hide Made, Played, Works, ThreadSteps, Model.Inv, Model.Quiesced;
    PlayedNone(start, me);
    WorkedOn(start, me, [], start, took);
    WorksOnly(me, start.locks, took);
    moves := [] + Works(me, start.locks, took);
    var side := There(start.locks, start.process.(scheduler := Model.Ran(before, took)));
    EndWaitMade(side, me);
    PlayedOne(start, me, moves, side, Move(side.locks, EndWait(me)));
    moves := moves + [Move(side.locks, EndWait(me))];
  }

  /** What a pass does while it holds admission closed. */
  method UnderBarrier(me: Pid, claim: HostClaim, lock: LockFile, scheduler: Service.IssueScheduler, around: Around)
    returns (outcome: Outcome, back: bool, ghost moves: seq<Move>, ghost began: nat,
             ghost took: seq<Model.Step>)
    requires !claim.UnclaimedHost? && Claims(lock.View(), me, claim) && InOrder(around, me)
    requires Model.Inv(scheduler.View()) && scheduler.hold == Some(Pass)
    requires var wakes := Service.Flat(around.wakes);
             Model.Ran(scheduler.View(), wakes).Some? && Service.OfOthers(wakes, Pass) && ThreadSteps(wakes)
    modifies lock, scheduler
    ensures Model.Inv(scheduler.View()) && scheduler.hold == Some(Pass)
    ensures back ==> Claims(lock.View(), me, claim)
    ensures !back ==> Emptied(scheduler.View())
    ensures took <= Service.Flat(around.wakes)
    ensures outcome == if AnsweredQuiet(old(scheduler.View()), took) then Answer(claim, around) else Deferred
    ensures !Model.Pending(old(scheduler.View())) ==> (outcome.Deferred? <==> old(scheduler.closed))
    ensures claim.ExclusiveHost? ==> back
    ensures ComesTo(Stood(old(lock.View()), claim, Barred, old(scheduler.View())), me, moves, lock.View(), claim, back,
                    Leaving, scheduler.View())
    ensures began <= |moves|
    ensures outcome.Acted? ==>
              ActsAlone(Stood(old(lock.View()), claim, Barred, old(scheduler.View())), me, moves[..began])
    ensures !outcome.Acted? ==> forall m | m in moves :: !m.step.Begin?
    ensures !Model.Pending(old(scheduler.View())) ==> !Model.Pending(scheduler.View())
  {
    hide Made, Played, Works, InOrder, ThreadSteps, Model.Inv, MayExclude, Claims, ActsAlone;
    ghost var start := Stood(lock.View(), claim, Barred, scheduler.View());
    PlayedNone(start, me);
    ghost var before := scheduler.View();
    var quiet;
    quiet, took := scheduler.WaitQuiet(Pass, around.wakes);
    WaitHeld(before, took, Service.Flat(around.wakes));
    PendingUnmoved(Model.Ran(before, took).value);
    moves := WaitMoves(start, me, before, took);
    outcome, back, began := Deferred, true, 0;
    if quiet {
      HoldBars(scheduler.View());
      ghost var inside, acted;
      outcome, back, inside, acted := ActInside(me, claim, lock, scheduler, around);
      PlayedOn(start, me, moves, inside);
      if outcome.Acted? {
        ActsOn(start, me, moves, inside, acted);
      }
      moves, began := moves + inside, |moves| + acted;
    }
  }

  /** And admission opened again behind it, once the presence is back. */
  method ThenOpen(me: Pid, claim: HostClaim, lock: LockFile, scheduler: Service.IssueScheduler, around: Around)
    returns (outcome: Outcome, back: bool, ghost moves: seq<Move>, ghost began: nat,
             ghost took: seq<Model.Step>)
    requires !claim.UnclaimedHost? && Claims(lock.View(), me, claim) && InOrder(around, me)
    requires Model.Inv(scheduler.View()) && scheduler.hold == Some(Pass)
    requires var wakes := Service.Flat(around.wakes);
             Model.Ran(scheduler.View(), wakes).Some? && Service.OfOthers(wakes, Pass) && ThreadSteps(wakes)
    modifies lock, scheduler
    ensures Model.Inv(scheduler.View())
    ensures back ==> Claims(lock.View(), me, claim) && scheduler.hold.None?
    ensures !back ==> Emptied(scheduler.View())
    ensures took <= Service.Flat(around.wakes)
    ensures outcome == if AnsweredQuiet(old(scheduler.View()), took) then Answer(claim, around) else Deferred
    ensures !Model.Pending(old(scheduler.View())) ==> (outcome.Deferred? <==> old(scheduler.closed))
    ensures claim.ExclusiveHost? ==> back
    ensures ComesTo(Stood(old(lock.View()), claim, Barred, old(scheduler.View())), me, moves, lock.View(), claim, back,
                    Running, scheduler.View())
    ensures began <= |moves|
    ensures outcome.Acted? ==>
              ActsAlone(Stood(old(lock.View()), claim, Barred, old(scheduler.View())), me, moves[..began])
    ensures !outcome.Acted? ==> forall m | m in moves :: !m.step.Begin?
    ensures !Model.Pending(old(scheduler.View())) ==> !Model.Pending(scheduler.View())
  {
    hide Made, Played, Works, InOrder, ThreadSteps, Model.Inv, Model.Pending, MayExclude, Claims, Emptied,
         Model.Ran, Service.OfOthers, ActsAlone, AnsweredQuiet, Answer;
    ghost var start := Stood(lock.View(), claim, Barred, scheduler.View());
    outcome, back, moves, began, took := UnderBarrier(me, claim, lock, scheduler, around);
    if back {
      ghost var leaving := Stood(lock.View(), claim, Leaving, scheduler.View());
      LeftOn(start, me, moves, leaving);
      ghost var acting := moves[..began];
      moves := moves + [Move(lock.View(), LeaveBarrier(me))];
      assert moves[..began] == acting;
      PendingUnmoved(scheduler.View());
      scheduler.GiveBarrier(Pass);
    }
  }

  /**
   `run_maintenance_pass`: the barrier outermost, the exclusive hold only inside it and only once it was answered
   quiet, maintenance only inside both, and each given back in the other order. `moves` is the pass as its process
   makes it on the host, and where it acted it had just begun that behind `began` of them. Not `back`, it still waits
   for its presence, with admission held closed.
   */
  method RunMaintenancePass(me: Pid, claim: HostClaim, lock: LockFile, scheduler: Service.IssueScheduler,
                            around: Around)
    returns (outcome: Outcome, back: bool, ghost moves: seq<Move>, ghost began: nat,
             ghost took: seq<Model.Step>)
    requires Model.Inv(scheduler.View()) && scheduler.hold != Some(Pass)
    requires Claims(lock.View(), me, claim) && InOrder(around, me)
    requires var held := Model.BarrierTaken(scheduler.View(), Pass).0;
             && Model.Ran(held, Service.Flat(around.wakes)).Some?
             && Service.OfOthers(Service.Flat(around.wakes), Pass) && ThreadSteps(Service.Flat(around.wakes))
    modifies lock, scheduler
    ensures Model.Inv(scheduler.View())
    ensures back ==> Claims(lock.View(), me, claim) && scheduler.hold != Some(Pass)
    ensures !back ==> Emptied(scheduler.View())
    ensures outcome.Skipped? <==> !around.going
    ensures outcome.Unclaimed? <==> around.going && claim.UnclaimedHost?
    ensures took <= Service.Flat(around.wakes)
    ensures var claimed, quiet := around.going && !claim.UnclaimedHost?, WaitedQuiet(old(scheduler.View()), took);
            var free := claim.ExclusiveHost? || (around.theirs.exclusive.None? && around.theirs.shared == {});
            && (outcome.Deferred? <==> claimed && !quiet)
            && (outcome.Contended? <==> claimed && quiet && !free)
            && (outcome.GateClosed? <==> claimed && quiet && free && !around.gate)
            && (outcome.Acted? <==> claimed && quiet && free && around.gate)
    ensures (exists m :: m in moves && m.step.Begin?) ==> around.gate
    ensures around.going && !claim.UnclaimedHost? && !Model.Pending(old(scheduler.View())) ==>
              (outcome.Deferred? <==> old(scheduler.closed) || old(scheduler.barred))
    ensures claim.ExclusiveHost? ==> back
    ensures ComesTo(Stood(old(lock.View()), claim, Running, old(scheduler.View())), me, moves, lock.View(), claim, back,
                    Running, scheduler.View())
    ensures began <= |moves|
    ensures outcome.Acted? ==>
              ActsAlone(Stood(old(lock.View()), claim, Running, old(scheduler.View())), me, moves[..began])
    ensures !outcome.Acted? ==> forall m | m in moves :: !m.step.Begin?
    ensures !Model.Pending(old(scheduler.View())) ==> !Model.Pending(scheduler.View())
  {
    hide Made, Played, Works, InOrder, ThreadSteps, Model.Inv, Model.Pending, Claims, Emptied,
         Model.Ran, Service.OfOthers, ActsAlone, AnsweredQuiet;
    ghost var start := Stood(lock.View(), claim, Running, scheduler.View());
    PlayedNone(start, me);
    moves, began, back, took := [], 0, true, [];
    if !around.going {
      return Skipped, true, moves, 0, [];
    }
    if claim.UnclaimedHost? {
      return Unclaimed, true, moves, 0, [];
    }
    EnteredFirst(start, me);
    moves := [Move(lock.View(), EnterPass(me))];
    PendingUnmoved(scheduler.View());
    var held := scheduler.TakeBarrier(Pass);
    if !held {
      return Deferred, true, moves, 0, [];
    }
    ghost var holding, acted;
    outcome, back, holding, acted, took := ThenOpen(me, claim, lock, scheduler, around);
    PlayedOn(start, me, moves, holding);
    if outcome.Acted? {
      ActsOn(start, me, moves, holding, acted);
    }
    moves, began := moves + holding, |moves| + acted;
  }

  lemma OpenMade(side: Side, me: Pid, globalCap: int, perRepoCap: int)
    requires side.There? && side.process.place.Present?
    ensures Made(side, me, Move(side.locks, OpenScheduler(me, globalCap, perRepoCap)))
         == Some(There(side.locks,
                       side.process.(place := Running, scheduler := Some(Model.New(globalCap, perRepoCap)))))
  {
  }

  /** A one-shot run's try for the host: alone on it, or gone. */
  lemma ClaimMade(me: Pid, l: Locks)
    requires Without(l, me)
    ensures Made(There(l, Process(OneShot, Outside, None)), me, Move(l, TryHost(me)))
         == Some(if MayExclude(l) then There(Locks({}, Some(me)), Process(OneShot, Present, None)) else Gone(l))
  {
  }

  lemma NoSteps()
    ensures AnyTime([]) && ThreadSteps([])
  {
  }

  lemma NewEmpty(globalCap: int, perRepoCap: int)
    ensures !Model.Pending(Model.New(globalCap, perRepoCap))
  {
  }

  /** A close ahead of the pass. */
  lemma StoppedMoves(side: Side, me: Pid, s: Model.State)
    requires side.There? && side.process.scheduler == Some(s) && Model.Inv(s) && !Model.Pending(s)
    ensures Played(side, me, Works(me, side.locks, [Model.Shutdown]))
         == Some(There(side.locks, side.process.(scheduler := Some(Model.ShutDown(s)))))
    ensures !Model.Pending(Model.ShutDown(s))
    ensures forall m | m in Works(me, side.locks, [Model.Shutdown]) :: !m.step.Begin?
  {
    hide Made, Played, Works, Model.Inv;
    assert [Model.Shutdown][1..] == [] && Model.Ran(s, [Model.Shutdown]) == Some(Model.ShutDown(s));
    WorksPlayed(side, me, s, [Model.Shutdown]);
    WorksOnly(me, side.locks, [Model.Shutdown]);
  }

  /** A scheduler shut down with nothing in it, and the process gone from the host. */
  ghost method EndMoves(side: Side, me: Pid, s: Model.State) returns (moves: seq<Move>)
    requires side.There? && side.process == Process(OneShot, Running, Some(s))
    requires Model.Inv(s) && !Model.Pending(s)
    ensures Played(side, me, moves) == Some(Gone(Unlocked(side.locks, me)))
    ensures s.live == map[] && forall m | m in moves :: !m.step.Begin?
  {
    hide Made, Played, Works, Model.Inv, Model.Pending;
    var steps := [Model.Shutdown, Model.Reap];
    Model.NothingLive(s);
    assert steps[1..] == [Model.Reap] && [Model.Reap][1..] == [];
    assert Model.Ran(s, steps) == Some(Model.Reaped(Model.ShutDown(s)));
    WorksPlayed(side, me, s, steps);
    WorksOnly(me, side.locks, steps);
    moves := Works(me, side.locks, steps);
    var closed := There(side.locks, side.process.(scheduler := Some(Model.Reaped(Model.ShutDown(s)))));
    DrainMade(closed, me);
    var drained := Made(closed, me, Move(side.locks, Drain(me))).value;
    PlayedOne(side, me, moves, closed, Move(side.locks, Drain(me)));
    moves := moves + [Move(side.locks, Drain(me))];
    PlayedOne(side, me, moves, drained, Move(side.locks, Depart(me)));
    moves := moves + [Move(side.locks, Depart(me))];
  }

  lemma DrainMade(side: Side, me: Pid)
    requires side.There? && side.process.place.Running? && side.process.scheduler.Some?
    requires var s := side.process.scheduler.value; s.closed && s.live == map[] && s.claims == {}
    ensures var drained := There(side.locks, side.process.(place := Drained, scheduler := None));
            && Made(side, me, Move(side.locks, Drain(me))) == Some(drained)
            && Made(drained, me, Move(side.locks, Depart(me))) == Some(Gone(Unlocked(side.locks, me)))
  {
  }

  /** A one-shot run with the host and a scheduler: its one pass, the scheduler shut down, and the host given back. */
  method DrainedRun(me: Pid, lock: LockFile, scheduler: Service.IssueScheduler, going: bool, stopped: bool,
                    during: seq<Model.Step>)
    returns (outcome: Outcome, ghost moves: seq<Move>, ghost began: nat)
    requires Claims(lock.View(), me, ExclusiveHost) && AnyTime(during)
    requires Model.Inv(scheduler.View()) && !Model.Pending(scheduler.View()) && !scheduler.closed && !scheduler.barred
    modifies lock, scheduler
    ensures lock.View() == Locks({}, None)
    ensures outcome == if !going then Skipped else if stopped then Deferred else Acted
    ensures Played(Stood(old(lock.View()), ExclusiveHost, Running, old(scheduler.View())), me, moves)
         == Some(Gone(lock.View()))
    ensures began <= |moves|
    ensures outcome.Acted? ==>
              ActsAlone(Stood(old(lock.View()), ExclusiveHost, Running, old(scheduler.View())), me, moves[..began])
    ensures !outcome.Acted? ==> forall m | m in moves :: !m.step.Begin?
  {
    hide Made, Played, Works, AnyTime, ThreadSteps, Model.Inv, Model.Pending, ActsAlone;
    ghost var start := Stood(lock.View(), ExclusiveHost, Running, scheduler.View());
    PlayedNone(start, me);
    HoldBars(scheduler.View());
    moves := [];
    if stopped {
      StoppedMoves(start, me, scheduler.View());
      scheduler.Close();
      moves := Works(me, lock.View(), [Model.Shutdown]);
    }
    ghost var side := Stood(lock.View(), ExclusiveHost, Running, scheduler.View());
    assert AnyTime([]) && ThreadSteps([]) by { NoSteps(); }
    ghost var back, passed, acted, took;
    outcome, back, passed, acted, took := RunMaintenancePass(me, ExclusiveHost, lock, scheduler,
                                                       Around(going, [], Locks({}, None), during, true, [], []));
    PlayedOn(start, me, moves, passed);
    if outcome.Acted? {
      ActsOn(start, me, moves, passed, acted);
    }
    moves, began := moves + passed, |moves| + acted;
    side := Stood(lock.View(), ExclusiveHost, Running, scheduler.View());
    ghost var ending := EndMoves(side, me, scheduler.View());
    PlayedOn(start, me, moves, ending);
    ghost var acting := moves[..began];
    moves := moves + ending;
    assert moves[..began] == acting;
    scheduler.Shutdown(true, []);
    lock.Unlock(me);
  }

  /**
   The one-shot run: the host taken before anything is built or nothing done, one pass under its own barrier over a
   scheduler nothing is submitted to, that scheduler shut down, and the host given back. `stopped` is whether a signal
   closed the scheduler ahead of the pass.
   */
  method MaintenanceRun(me: Pid, lock: LockFile, globalCap: int, perRepoCap: int, going: bool, stopped: bool,
                        during: seq<Model.Step>)
    returns (outcome: Outcome, ghost moves: seq<Move>, ghost began: nat)
    requires Without(lock.View(), me) && AnyTime(during)
    modifies lock
    ensures lock.View() == old(lock.View())
    ensures outcome == if !MayExclude(lock.View()) then Unclaimed else if !going then Skipped
                       else if stopped then Deferred else Acted
    ensures Played(There(lock.View(), Process(OneShot, Outside, None)), me, moves) == Some(Gone(lock.View()))
    ensures outcome.Acted? ==>
              began <= |moves| && ActsAlone(There(lock.View(), Process(OneShot, Outside, None)), me, moves[..began])
    ensures !outcome.Acted? ==> forall m | m in moves :: !m.step.Begin?
  {
    hide Made, Played, Works, AnyTime, ThreadSteps, Model.Inv, Model.Pending, ActsAlone;
    ghost var l := lock.View();
    ghost var start := There(l, Process(OneShot, Outside, None));
    ClaimMade(me, l);
    PlayedNone(start, me);
    PlayedOne(start, me, [], start, Move(l, TryHost(me)));
    moves, began := [] + [Move(l, TryHost(me))], 0;
    var taken := lock.Taken(me, LockExclusive);
    if !taken {
      return Unclaimed, moves, 0;
    }
    ghost var side := There(lock.View(), Process(OneShot, Present, None));
    OpenMade(side, me, globalCap, perRepoCap);
    PlayedOne(start, me, moves, side, Move(side.locks, OpenScheduler(me, globalCap, perRepoCap)));
    moves := moves + [Move(side.locks, OpenScheduler(me, globalCap, perRepoCap))];
    var scheduler := new Service.IssueScheduler(globalCap, perRepoCap);
    NewEmpty(globalCap, perRepoCap);
    ghost var done, acted;
    outcome, done, acted := DrainedRun(me, lock, scheduler, going, stopped, during);
    PlayedOn(start, me, moves, done);
    if outcome.Acted? {
      ActsOn(start, me, moves, done, acted);
    }
    moves, began := moves + done, |moves| + acted;
  }
}
