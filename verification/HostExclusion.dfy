/**
 Which process on a host may act on its artifacts: every run of the host's polling and one-shot
 processes over one lock, each with a scheduler of its own.

 A polling run holds the lock shared for its life. Its maintenance pass closes its own scheduler's
 admission, waits its work out, hands the shared hold over for an exclusive one, and takes both steps
 back in the other order. A one-shot run takes the host exclusively before it builds anything.
 */
module HostExclusion {
  import opened Text
  import Model = SchedulerModel

  type Pid = nat

  /** The one lock every process of the host meets on. */
  datatype Locks = Locks(shared: set<Pid>, exclusive: Option<Pid>)

  /** `_taken` for a shared request: refused only while another process has the host. */
  predicate MayShare(l: Locks) { l.exclusive.None? }

  /** `_taken` for an exclusive request. */
  predicate MayExclude(l: Locks) { l.exclusive.None? && l.shared == {} }

  function Unlocked(l: Locks, p: Pid): Locks {
    Locks(l.shared - {p}, if l.exclusive == Some(p) then None else l.exclusive)
  }

  datatype Role = Poller | OneShot

  /** How far a process has come. */
  datatype Place =
    | Outside      // holds nothing: a poller waiting for its presence, a one-shot run about to try
    | Present      // holds the lock, and has no scheduler yet
    | Running      // its scheduler admits work
    | Barred       // its pass holds admission closed and waits for quiet
    | Quiet        // the wait was answered True
    | Handing      // a poller gave its presence up and has not yet tried for the host
    | Sole         // a poller's pass was given the host
    | Refused      // another process has the host
    | Maintaining  // inside `_maintained`
    | Spent        // the pass under the host is over
    | Restoring    // a poller waiting for its presence again
    | Leaving      // everything back but the barrier
    | Drained      // its scheduler shut down, every worker waited out

  datatype Process = Process(role: Role, place: Place, scheduler: Option<Model.State>)

  datatype Host = Host(locks: Locks, processes: map<Pid, Process>, born: nat)

  const Empty := Host(Locks({}, None), map[], 0)

  /** The hold a maintenance pass takes on its own scheduler. */
  const Pass: Model.Holder := 0

  datatype Step =
    | Arrive(role: Role)
    | TakePresence(p: Pid)
    | TryHost(p: Pid)
    | OpenScheduler(p: Pid, globalCap: int, perRepoCap: int)
    | Work(p: Pid, step: Model.Step)
    | EnterPass(p: Pid)
    | EndWait(p: Pid)
    | HandOver(p: Pid)
    | Begin(p: Pid)
    | Finish(p: Pid)
    | GiveBack(p: Pid)
    | Restore(p: Pid)
    | LeaveBarrier(p: Pid)
    | Drain(p: Pid)
    | Depart(p: Pid)
    | Crash(p: Pid)

  /** A step of a process's own threads: anything but the pass's barrier, which only the pass moves. */
  predicate OfThreads(step: Model.Step) {
    && step != Model.TakeBarrier(Pass) && step != Model.Quiesce(Pass) && step != Model.GiveBarrier(Pass)
  }

  predicate At(h: Host, p: Pid, place: Place) {
    p in h.processes && h.processes[p].place == place
  }

  predicate Scheduling(h: Host, p: Pid) {
    p in h.processes && h.processes[p].scheduler.Some?
  }

  predicate CanStep(h: Host, step: Step) {
    match step
    case Arrive(_) => true
    case TakePresence(p) => At(h, p, Outside) && h.processes[p].role.Poller? && MayShare(h.locks)
    case TryHost(p) => (At(h, p, Outside) && h.processes[p].role.OneShot?) || At(h, p, Handing)
    case OpenScheduler(p, _, _) => At(h, p, Present)
    case Work(p, step) => Scheduling(h, p) && OfThreads(step) && Model.CanStep(h.processes[p].scheduler.value, step)
    case EnterPass(p) => At(h, p, Running) && Scheduling(h, p)
    case EndWait(p) => At(h, p, Barred) && Scheduling(h, p)
                       && Model.CanStep(h.processes[p].scheduler.value, Model.Quiesce(Pass))
    case HandOver(p) => At(h, p, Quiet) && h.processes[p].role.Poller?
    case Begin(p) => At(h, p, Sole) || (At(h, p, Quiet) && h.processes[p].role.OneShot?)
    case Finish(p) => At(h, p, Maintaining) || At(h, p, Sole) || (At(h, p, Quiet) && h.processes[p].role.OneShot?)
    case GiveBack(p) => At(h, p, Spent) || At(h, p, Refused)
    case Restore(p) => At(h, p, Restoring) && MayShare(h.locks)
    case LeaveBarrier(p) => At(h, p, Leaving) && Scheduling(h, p)
                            && Model.CanStep(h.processes[p].scheduler.value, Model.GiveBarrier(Pass))
    case Drain(p) => At(h, p, Running) && Scheduling(h, p)
                     && var s := h.processes[p].scheduler.value; s.closed && s.live == map[] && s.claims == {}
    case Depart(p) => At(h, p, Drained) || At(h, p, Present)
    case Crash(p) => p in h.processes
  }

  function Moved(h: Host, p: Pid, place: Place): Host
    requires p in h.processes
  {
    h.(processes := h.processes[p := h.processes[p].(place := place)])
  }

  function Scheduled(h: Host, p: Pid, place: Place, s: Option<Model.State>): Host
    requires p in h.processes
  {
    h.(processes := h.processes[p := h.processes[p].(place := place, scheduler := s)])
  }

  function Next(h: Host, step: Step): Host
    requires CanStep(h, step)
  {
    match step
    case Arrive(role) => h.(processes := h.processes[h.born := Process(role, Outside, None)], born := h.born + 1)
    case TakePresence(p) => Moved(h, p, Present).(locks := h.locks.(shared := h.locks.shared + {p}))
    case TryHost(p) =>
      var poller := h.processes[p].role.Poller?;
      if MayExclude(h.locks) then
        Moved(h, p, if poller then Sole else Present).(locks := h.locks.(exclusive := Some(p)))
      else if poller then Moved(h, p, Refused)
      else h.(processes := h.processes - {p})
    case OpenScheduler(p, globalCap, perRepoCap) =>
      Scheduled(h, p, Running, Some(Model.New(globalCap, perRepoCap)))
    case Work(p, step) =>
      Scheduled(h, p, h.processes[p].place, Some(Model.Next(h.processes[p].scheduler.value, step)))
    case EnterPass(p) =>
      var (s, held) := Model.BarrierTaken(h.processes[p].scheduler.value, Pass);
      if held then Scheduled(h, p, Barred, Some(s)) else h
    case EndWait(p) =>
      var (s, quiet) := Model.Quiesced(h.processes[p].scheduler.value);
      Scheduled(h, p, if quiet then Quiet else Leaving, Some(s))
    case HandOver(p) => Moved(h, p, Handing).(locks := Unlocked(h.locks, p))
    case Begin(p) => Moved(h, p, Maintaining)
    case Finish(p) => Moved(h, p, if h.processes[p].role.Poller? then Spent else Leaving)
    case GiveBack(p) =>
      Moved(h, p, Restoring).(locks := if h.processes[p].place.Spent? then Unlocked(h.locks, p) else h.locks)
    case Restore(p) => Moved(h, p, Leaving).(locks := h.locks.(shared := h.locks.shared + {p}))
    case LeaveBarrier(p) =>
      Scheduled(h, p, Running, Some(Model.BarrierGiven(h.processes[p].scheduler.value)))
    case Drain(p) => Scheduled(h, p, Drained, None)
    case Depart(p) => h.(processes := h.processes - {p}, locks := Unlocked(h.locks, p))
    case Crash(p) => h.(processes := h.processes - {p}, locks := Unlocked(h.locks, p))
  }

  function Reached(steps: seq<Step>): Option<Host>
    decreases |steps|
  {
    if steps == [] then Some(Empty)
    else
      var before := Reached(steps[..|steps| - 1]);
      var step := steps[|steps| - 1];
      if before.Some? && CanStep(before.value, step) then Some(Next(before.value, step)) else None
  }

  // ----- What every step keeps

  /** Where a process holds the lock shared. */
  predicate Shares(p: Process) {
    p.role.Poller?
    && (p.place.Present? || p.place.Running? || p.place.Barred? || p.place.Quiet? || p.place.Leaving?
        || p.place.Drained?)
  }

  /** Where a process holds the host alone. */
  predicate Excludes(p: Process) {
    if p.role.Poller? then (p.place.Sole? || p.place.Maintaining? || p.place.Spent?) else !p.place.Outside?
  }

  /** Where a process's own scheduler has been proved empty and is held so. */
  predicate Held(place: Place) {
    place.Quiet? || place.Handing? || place.Sole? || place.Refused? || place.Maintaining? || place.Spent?
    || place.Restoring?
  }

  /** A process's place, its scheduler and the hold on it agree. */
  ghost predicate Sound(p: Process) {
    && (p.role.OneShot? ==>
          !(p.place.Handing? || p.place.Sole? || p.place.Refused? || p.place.Spent? || p.place.Restoring?))
    && (p.scheduler.Some? <==> !(p.place.Outside? || p.place.Present? || p.place.Drained?))
    && (p.scheduler.Some? ==>
          var s := p.scheduler.value;
          && Model.Inv(s)
          && (s.hold == Some(Pass) <==> !p.place.Running?)
          && (Held(p.place) ==> !Model.Pending(s)))
  }

  ghost predicate LocksTold(h: Host) {
    && (forall p :: p in h.locks.shared <==> p in h.processes && Shares(h.processes[p]))
    && (forall p :: h.locks.exclusive == Some(p) <==> p in h.processes && Excludes(h.processes[p]))
    && (h.locks.exclusive.Some? ==> h.locks.shared == {})
  }

  ghost predicate Inv(h: Host) {
    && LocksTold(h)
    && (forall p | p in h.processes :: p < h.born && Sound(h.processes[p]))
  }

  lemma HoldUnmoved(s: Model.State, step: Model.Step)
    requires (s.barred <==> s.hold.Some?) && OfThreads(step) && Model.CanStep(s, step)
    ensures Model.Next(s, step).hold == Some(Pass) <==> s.hold == Some(Pass)
  {
    hide Model.SkipReason, Model.Reserved, Model.Released, Model.Normalized;
    if step.Submit? {
      var sub := Model.Normalized(step.request, s.perRepoCap);
      Model.SlotFrame(s, sub);
      Model.SlotFrame(Model.Reserved(s, sub), sub);
    } else if step.Complete? {
      Model.SlotFrame(s, s.live[step.future]);
    }
  }

  /** What a process's threads do leaves the pass's hold where it was, and under it an empty scheduler empty. */
  lemma ThreadsUnder(s: Model.State, step: Model.Step)
    requires Model.Inv(s) && OfThreads(step) && Model.CanStep(s, step)
    ensures Model.Inv(Model.Next(s, step))
    ensures Model.Next(s, step).hold == Some(Pass) <==> s.hold == Some(Pass)
    ensures s.hold == Some(Pass) && !Model.Pending(s) ==> !Model.Pending(Model.Next(s, step))
  {
    Model.StepKeeps(s, step);
    HoldUnmoved(s, step);
    if s.hold == Some(Pass) && !Model.Pending(s) {
      assert [step][1..] == [];
      assert Model.Ran(s, [step]) == Some(Model.Next(s, step));
      Model.QuietStays(s, Pass, [step]);
    }
  }

  /** A process that moves without changing what it holds of the lock leaves every other as it was. */
  lemma MovedKeeps(h: Host, p: Pid, place: Place, s: Option<Model.State>)
    requires Inv(h) && p in h.processes
    requires var n := h.processes[p].(place := place, scheduler := s);
             Sound(n) && (Shares(n) <==> Shares(h.processes[p])) && (Excludes(n) <==> Excludes(h.processes[p]))
    ensures Inv(Scheduled(h, p, place, s))
  {
    hide Model.Inv, Model.Pending;
    var n := Scheduled(h, p, place, s);
    assert forall q | q in n.processes && q != p :: n.processes[q] == h.processes[q];
    assert LocksTold(n);
  }

  lemma WorkSound(process: Process, step: Model.Step)
    requires Sound(process) && process.scheduler.Some?
    requires OfThreads(step) && Model.CanStep(process.scheduler.value, step)
    ensures Sound(process.(scheduler := Some(Model.Next(process.scheduler.value, step))))
  {
    hide Model.Inv, Model.Pending, Model.Next, OfThreads;
    ThreadsUnder(process.scheduler.value, step);
    if Held(process.place) {
      assert process.scheduler.value.hold == Some(Pass);
    }
  }

  /** The pass enters and leaves its own barrier: its scheduler is otherwise as it was. */
  lemma EnterSound(process: Process)
    requires Sound(process) && process.place.Running? && process.scheduler.Some?
    ensures var (s, held) := Model.BarrierTaken(process.scheduler.value, Pass);
            held ==> Sound(process.(place := Barred, scheduler := Some(s)))
  {
    var s := process.scheduler.value;
    assert Model.Barrier(s) && Model.Barrier(Model.BarrierTaken(s, Pass).0);
    hide Model.Accounted, Model.Capped, Model.OneFamily, Model.EachOnce;
    Model.BarrierKeeps(s, Model.BarrierTaken(s, Pass).0);
  }

  lemma LeaveSound(process: Process)
    requires Sound(process) && process.place.Leaving? && process.scheduler.Some?
    ensures Sound(process.(place := Running, scheduler := Some(Model.BarrierGiven(process.scheduler.value))))
  {
    hide Model.Accounted, Model.Capped, Model.OneFamily, Model.EachOnce;
    var s := process.scheduler.value;
    Model.BarrierKeeps(s, Model.BarrierGiven(s));
  }

  lemma WorkKeeps(h: Host, p: Pid, step: Model.Step)
    requires Inv(h) && CanStep(h, Work(p, step))
    ensures Inv(Next(h, Work(p, step)))
  {
    hide Model.Inv, Model.Pending, Model.CanStep, Model.Next, OfThreads, LocksTold;
    var process := h.processes[p];
    WorkSound(process, step);
    MovedKeeps(h, p, process.place, Some(Model.Next(process.scheduler.value, step)));
  }

  lemma EnterPassKeeps(h: Host, p: Pid)
    requires Inv(h) && CanStep(h, EnterPass(p))
    ensures Inv(Next(h, EnterPass(p)))
  {
    hide Model.Inv, Model.BarrierTaken, LocksTold, Sound;
    var process := h.processes[p];
    EnterSound(process);
    var (s, held) := Model.BarrierTaken(process.scheduler.value, Pass);
    if held {
      MovedKeeps(h, p, Barred, Some(s));
    }
  }

  lemma EndWaitKeeps(h: Host, p: Pid)
    requires Inv(h) && CanStep(h, EndWait(p))
    ensures Inv(Next(h, EndWait(p)))
  {
    var s := h.processes[p].scheduler.value;
    Model.BarrierKeeps(s, Model.Quiesced(s).0);
    assert Sound(h.processes[p]);
    var (n, quiet) := Model.Quiesced(s);
    MovedKeeps(h, p, if quiet then Quiet else Leaving, Some(n));
  }

  lemma LeaveBarrierKeeps(h: Host, p: Pid)
    requires Inv(h) && CanStep(h, LeaveBarrier(p))
    ensures Inv(Next(h, LeaveBarrier(p)))
  {
    hide Model.Inv, Model.BarrierGiven, LocksTold, Sound;
    LeaveSound(h.processes[p]);
    MovedKeeps(h, p, Running, Some(Model.BarrierGiven(h.processes[p].scheduler.value)));
  }

  lemma ArriveKeeps(h: Host, role: Role)
    requires Inv(h)
    ensures Inv(Next(h, Arrive(role)))
  {
    hide Model.Inv, Model.Pending;
    assert h.born !in h.processes;
  }

  /** A process that trades what it holds of the lock, told to everyone as the lock then stands. */
  lemma TradedKeeps(h: Host, p: Pid, place: Place, locks: Locks)
    requires Inv(h) && p in h.processes
    requires var n := h.processes[p].(place := place);
             && Sound(n)
             && (forall q | q != p :: q in locks.shared <==> q in h.locks.shared)
             && (forall q | q != p :: locks.exclusive == Some(q) <==> h.locks.exclusive == Some(q))
             && (p in locks.shared <==> Shares(n)) && (locks.exclusive == Some(p) <==> Excludes(n))
             && (locks.exclusive.Some? ==> locks.shared == {})
    ensures Inv(Moved(h, p, place).(locks := locks))
  {
    hide Model.Inv, Model.Pending;
    var n := Moved(h, p, place).(locks := locks);
    assert forall q | q in n.processes && q != p :: n.processes[q] == h.processes[q];
    assert LocksTold(n);
  }

  lemma TakePresenceKeeps(h: Host, p: Pid)
    requires Inv(h) && CanStep(h, TakePresence(p))
    ensures Inv(Next(h, TakePresence(p)))
  {
    hide Model.Inv, Model.Pending;
    assert Sound(h.processes[p]);
    TradedKeeps(h, p, Present, h.locks.(shared := h.locks.shared + {p}));
  }

  lemma TryHostKeeps(h: Host, p: Pid)
    requires Inv(h) && CanStep(h, TryHost(p))
    ensures Inv(Next(h, TryHost(p)))
  {
    hide Model.Inv, Model.Pending;
    var process := h.processes[p];
    assert Sound(process);
    if MayExclude(h.locks) {
      TradedKeeps(h, p, if process.role.Poller? then Sole else Present, h.locks.(exclusive := Some(p)));
    } else if process.role.Poller? {
      TradedKeeps(h, p, Refused, h.locks);
    } else {
      assert !Excludes(process) && !Shares(process);
    }
  }

  lemma HandOverKeeps(h: Host, p: Pid)
    requires Inv(h) && CanStep(h, HandOver(p))
    ensures Inv(Next(h, HandOver(p)))
  {
    hide Model.Inv, Model.Pending;
    assert Sound(h.processes[p]);
    TradedKeeps(h, p, Handing, Unlocked(h.locks, p));
  }

  lemma GiveBackKeeps(h: Host, p: Pid)
    requires Inv(h) && CanStep(h, GiveBack(p))
    ensures Inv(Next(h, GiveBack(p)))
  {
    hide Model.Inv, Model.Pending;
    assert Sound(h.processes[p]);
    TradedKeeps(h, p, Restoring, if h.processes[p].place.Spent? then Unlocked(h.locks, p) else h.locks);
  }

  lemma RestoreKeeps(h: Host, p: Pid)
    requires Inv(h) && CanStep(h, Restore(p))
    ensures Inv(Next(h, Restore(p)))
  {
    assert Sound(h.processes[p]);
    TradedKeeps(h, p, Leaving, h.locks.(shared := h.locks.shared + {p}));
  }

  lemma BeginKeeps(h: Host, p: Pid)
    requires Inv(h) && CanStep(h, Begin(p))
    ensures Inv(Next(h, Begin(p)))
  {
    hide Model.Inv, Model.Pending, LocksTold;
    assert Sound(h.processes[p]);
    MovedKeeps(h, p, Maintaining, h.processes[p].scheduler);
  }

  lemma FinishKeeps(h: Host, p: Pid)
    requires Inv(h) && CanStep(h, Finish(p))
    ensures Inv(Next(h, Finish(p)))
  {
    hide Model.Inv, Model.Pending, LocksTold;
    assert Sound(h.processes[p]);
    MovedKeeps(h, p, if h.processes[p].role.Poller? then Spent else Leaving, h.processes[p].scheduler);
  }

  lemma DrainKeeps(h: Host, p: Pid)
    requires Inv(h) && CanStep(h, Drain(p))
    ensures Inv(Next(h, Drain(p)))
  {
    hide Model.Inv, Model.Pending, LocksTold;
    assert Sound(h.processes[p]);
    MovedKeeps(h, p, Drained, None);
  }

  lemma GoneKeeps(h: Host, step: Step)
    requires Inv(h) && CanStep(h, step)
    requires step.Depart? || step.Crash?
    ensures Inv(Next(h, step))
  {
    hide Model.Inv, Model.Pending;
  }

  lemma OpenKeeps(h: Host, p: Pid, globalCap: int, perRepoCap: int)
    requires Inv(h) && CanStep(h, OpenScheduler(p, globalCap, perRepoCap))
    ensures Inv(Next(h, OpenScheduler(p, globalCap, perRepoCap)))
  {
    hide Model.Inv, Model.Pending;
    Model.NewInv(globalCap, perRepoCap);
  }

  lemma StepKeeps(h: Host, step: Step)
    requires Inv(h) && CanStep(h, step)
    ensures Inv(Next(h, step))
  {
    match step
    case Arrive(role) => ArriveKeeps(h, role);
    case Work(p, work) => WorkKeeps(h, p, work);
    case EnterPass(p) => EnterPassKeeps(h, p);
    case EndWait(p) => EndWaitKeeps(h, p);
    case LeaveBarrier(p) => LeaveBarrierKeeps(h, p);
    case OpenScheduler(p, globalCap, perRepoCap) => OpenKeeps(h, p, globalCap, perRepoCap);
    case TakePresence(p) => TakePresenceKeeps(h, p);
    case TryHost(p) => TryHostKeeps(h, p);
    case HandOver(p) => HandOverKeeps(h, p);
    case GiveBack(p) => GiveBackKeeps(h, p);
    case Restore(p) => RestoreKeeps(h, p);
    case Begin(p) => BeginKeeps(h, p);
    case Finish(p) => FinishKeeps(h, p);
    case Drain(p) => DrainKeeps(h, p);
    case Depart(_) => GoneKeeps(h, step);
    case Crash(_) => GoneKeeps(h, step);
  }

  lemma {:induction false} ReachedInv(steps: seq<Step>)
    requires Reached(steps).Some?
    ensures Inv(Reached(steps).value)
    decreases |steps|
  {
    if steps != [] {
      ReachedInv(steps[..|steps| - 1]);
      StepKeeps(Reached(steps[..|steps| - 1]).value, steps[|steps| - 1]);
    }
  }

  /** Nothing of this process is in flight, and nothing of it can be admitted. */
  ghost predicate Still(p: Process) {
    p.scheduler.Some? ==>
      var s := p.scheduler.value;
      s.barred && s.active == {} && s.tracked == {} && s.live == map[] && s.claims == {}
  }

  /**
   Over every run: while one process is inside `_maintained` it holds the host alone, nothing of any
   live process, its own included, is in flight or can be admitted, and no other pass is acting.
   */
  lemma MaintenanceAlone(steps: seq<Step>, p: Pid)
    requires Reached(steps).Some? && At(Reached(steps).value, p, Maintaining)
    ensures var h := Reached(steps).value;
            && h.locks == Locks({}, Some(p))
            && (forall q | q in h.processes :: Still(h.processes[q]))
            && (forall q | At(h, q, Maintaining) :: q == p)
  {
    ReachedInv(steps);
    var h := Reached(steps).value;
    assert Excludes(h.processes[p]);
    forall q | q in h.processes
      ensures Still(h.processes[q])
    {
      var other := h.processes[q];
      if other.scheduler.Some? {
        if q != p {
          assert !Excludes(other) && !Shares(other);
        }
        assert Held(other.place);
        Model.NothingLive(other.scheduler.value);
      }
    }
  }

  /**
   Over every run: a process with work in flight, or one that could be given some, is on the lock for others to
   see.
   */
  lemma WorkIsAnnounced(steps: seq<Step>, p: Pid)
    requires Reached(steps).Some? && p in Reached(steps).value.processes
    requires !Still(Reached(steps).value.processes[p])
    ensures var h := Reached(steps).value; p in h.locks.shared || h.locks.exclusive == Some(p)
  {
    ReachedInv(steps);
    var h := Reached(steps).value;
    var process := h.processes[p];
    if Held(process.place) {
      Model.NothingLive(process.scheduler.value);
    }
  }

  // ----- Passes there are

  lemma ReachedStep(run: seq<Step>, h: Host, step: Step)
    requires Reached(run) == Some(h) && CanStep(h, step)
    ensures Reached(run + [step]) == Some(Next(h, step))
  {
    hide CanStep, Next;
    assert (run + [step])[..|run|] == run;
  }

  function Alone(locks: Locks, p: Process): Host { Host(locks, map[0 := p], 1) }

  /** The scheduler of a pass once its wait was answered: admission held, nothing in it. */
  function HeldScheduler(): Model.State { Model.New(1, 1).(barred := true, hold := Some(Pass), quiet := true) }

  lemma Waits(run: seq<Step>, locks: Locks, role: Role)
    requires Reached(run) == Some(Alone(locks, Process(role, Present, None)))
    ensures Reached(run + [OpenScheduler(0, 1, 1)] + [EnterPass(0)] + [EndWait(0)])
         == Some(Alone(locks, Process(role, Quiet, Some(HeldScheduler()))))
  {
    hide CanStep, Next, HeldScheduler;
    WaitOpens(locks, role);
    WaitEnters(locks, role);
    WaitEnds(locks, role);
    var present := Alone(locks, Process(role, Present, None));
    ReachedStep(run, present, OpenScheduler(0, 1, 1));
    var running := Alone(locks, Process(role, Running, Some(Model.New(1, 1))));
    ReachedStep(run + [OpenScheduler(0, 1, 1)], running, EnterPass(0));
    var barred := Alone(locks, Process(role, Barred, Some(UnansweredScheduler())));
    ReachedStep(run + [OpenScheduler(0, 1, 1)] + [EnterPass(0)], barred, EndWait(0));
  }

  function UnansweredScheduler(): Model.State { Model.New(1, 1).(barred := true, hold := Some(Pass)) }

  lemma WaitOpens(locks: Locks, role: Role)
    ensures var h := Alone(locks, Process(role, Present, None));
            && CanStep(h, OpenScheduler(0, 1, 1))
            && Next(h, OpenScheduler(0, 1, 1)) == Alone(locks, Process(role, Running, Some(Model.New(1, 1))))
  {
  }

  lemma WaitEnters(locks: Locks, role: Role)
    ensures var h := Alone(locks, Process(role, Running, Some(Model.New(1, 1))));
            && CanStep(h, EnterPass(0))
            && Next(h, EnterPass(0)) == Alone(locks, Process(role, Barred, Some(UnansweredScheduler())))
  {
  }

  lemma WaitEnds(locks: Locks, role: Role)
    ensures var h := Alone(locks, Process(role, Barred, Some(UnansweredScheduler())));
            && CanStep(h, EndWait(0))
            && Next(h, EndWait(0)) == Alone(locks, Process(role, Quiet, Some(HeldScheduler())))
  {
  }

  lemma OneShotArrives()
    ensures var h := Alone(Locks({}, None), Process(OneShot, Outside, None));
            && CanStep(Empty, Arrive(OneShot)) && Next(Empty, Arrive(OneShot)) == h
            && CanStep(h, TryHost(0))
            && Next(h, TryHost(0)) == Alone(Locks({}, Some(0)), Process(OneShot, Present, None))
  {
  }

  lemma OneShotBegins()
    ensures var h := Alone(Locks({}, Some(0)), Process(OneShot, Quiet, Some(HeldScheduler())));
            CanStep(h, Begin(0)) && At(Next(h, Begin(0)), 0, Maintaining)
  {
  }

  /** There is a one-shot run that maintains. */
  lemma SomeOneShotPass()
    ensures var run := [Arrive(OneShot)] + [TryHost(0)] + [OpenScheduler(0, 1, 1)] + [EnterPass(0)] + [EndWait(0)]
                       + [Begin(0)];
            Reached(run).Some? && At(Reached(run).value, 0, Maintaining)
  {
    hide CanStep, Next, HeldScheduler;
    OneShotArrives();
    ReachedStep([], Empty, Arrive(OneShot));
    assert [] + [Arrive(OneShot)] == [Arrive(OneShot)];
    var outside := Alone(Locks({}, None), Process(OneShot, Outside, None));
    ReachedStep([Arrive(OneShot)], outside, TryHost(0));
    var run := [Arrive(OneShot)] + [TryHost(0)];
    Waits(run, Locks({}, Some(0)), OneShot);
    OneShotBegins();
    var quiet := Alone(Locks({}, Some(0)), Process(OneShot, Quiet, Some(HeldScheduler())));
    ReachedStep(run + [OpenScheduler(0, 1, 1)] + [EnterPass(0)] + [EndWait(0)], quiet, Begin(0));
  }

  /** There is a polling run that maintains, and has its presence back behind it. */
  lemma SomePollingPass()
    ensures var run := [Arrive(Poller)] + [TakePresence(0)] + [OpenScheduler(0, 1, 1)] + [EnterPass(0)] + [EndWait(0)]
                       + [HandOver(0)] + [TryHost(0)] + [Begin(0)];
            && Reached(run).Some? && At(Reached(run).value, 0, Maintaining)
            && Reached(run + [Finish(0)] + [GiveBack(0)] + [Restore(0)] + [LeaveBarrier(0)])
               == Some(Alone(Locks({0}, None), Process(Poller, Running, Some(Model.New(1, 1)))))
  {
    ReachedStep([], Empty, Arrive(Poller));
    assert [] + [Arrive(Poller)] == [Arrive(Poller)];
    var outside := Alone(Locks({}, None), Process(Poller, Outside, None));
    assert Next(Empty, Arrive(Poller)) == outside;
    ReachedStep([Arrive(Poller)], outside, TakePresence(0));
    assert Next(outside, TakePresence(0)) == Alone(Locks({0}, None), Process(Poller, Present, None));
    var here := [Arrive(Poller)] + [TakePresence(0)];
    Waits(here, Locks({0}, None), Poller);
    var run := here + [OpenScheduler(0, 1, 1)] + [EnterPass(0)] + [EndWait(0)];
    Acts(run);
    var acting := run + [HandOver(0)] + [TryHost(0)] + [Begin(0)];
    Returns(acting);
  }

  lemma Acts(run: seq<Step>)
    requires Reached(run) == Some(Alone(Locks({0}, None), Process(Poller, Quiet, Some(HeldScheduler()))))
    ensures Reached(run + [HandOver(0)] + [TryHost(0)] + [Begin(0)])
         == Some(Alone(Locks({}, Some(0)), Process(Poller, Maintaining, Some(HeldScheduler()))))
  {
    var process := Process(Poller, Quiet, Some(HeldScheduler()));
    var quiet := Alone(Locks({0}, None), process);
    ReachedStep(run, quiet, HandOver(0));
    var handing := Alone(Locks({}, None), process.(place := Handing));
    assert Next(quiet, HandOver(0)) == handing;
    ReachedStep(run + [HandOver(0)], handing, TryHost(0));
    var sole := Alone(Locks({}, Some(0)), process.(place := Sole));
    assert Next(handing, TryHost(0)) == sole;
    ReachedStep(run + [HandOver(0)] + [TryHost(0)], sole, Begin(0));
    assert Next(sole, Begin(0)) == Alone(Locks({}, Some(0)), process.(place := Maintaining));
  }

  /** A polling process behind its maintenance, at `place`, its scheduler still held. */
  function Behind(locks: Locks, place: Place): Host { Alone(locks, Process(Poller, place, Some(HeldScheduler()))) }

  lemma HostGivenBack()
    ensures var h := Behind(Locks({}, Some(0)), Maintaining);
            CanStep(h, Finish(0)) && Next(h, Finish(0)) == Behind(Locks({}, Some(0)), Spent)
    ensures var h := Behind(Locks({}, Some(0)), Spent);
            CanStep(h, GiveBack(0)) && Next(h, GiveBack(0)) == Behind(Locks({}, None), Restoring)
  {
  }

  lemma PresenceRestored()
    ensures var h := Behind(Locks({}, None), Restoring);
            CanStep(h, Restore(0)) && Next(h, Restore(0)) == Behind(Locks({0}, None), Leaving)
  {
  }

  lemma BarrierLeft()
    ensures var h := Behind(Locks({0}, None), Leaving);
            && CanStep(h, LeaveBarrier(0))
            && Next(h, LeaveBarrier(0)) == Alone(Locks({0}, None), Process(Poller, Running, Some(Model.New(1, 1))))
  {
  }

  lemma Returns(run: seq<Step>)
    requires Reached(run) == Some(Alone(Locks({}, Some(0)), Process(Poller, Maintaining, Some(HeldScheduler()))))
    ensures Reached(run + [Finish(0)] + [GiveBack(0)] + [Restore(0)] + [LeaveBarrier(0)])
         == Some(Alone(Locks({0}, None), Process(Poller, Running, Some(Model.New(1, 1)))))
  {
    hide CanStep, Next, HeldScheduler;
    HostGivenBack();
    PresenceRestored();
    BarrierLeft();
    ReachedStep(run, Behind(Locks({}, Some(0)), Maintaining), Finish(0));
    ReachedStep(run + [Finish(0)], Behind(Locks({}, Some(0)), Spent), GiveBack(0));
    ReachedStep(run + [Finish(0)] + [GiveBack(0)], Behind(Locks({}, None), Restoring), Restore(0));
    ReachedStep(run + [Finish(0)] + [GiveBack(0)] + [Restore(0)], Behind(Locks({0}, None), Leaving), LeaveBarrier(0));
  }
}
