/**
 The threads of one process inside its claim: each came in as a writer or alongside one, and goes out as it came.
 Beside a run stand the modes of those inside, by which the claim's count and its word for a writer are judged.
 */
module ClaimThreads {
  import opened Text
  import opened ClaimRecords
  import opened ClaimProtocol

  /** Whether a thread came in to write, or alongside whoever does. */
  datatype Mode = Writer | Beside

  type Modes = multiset<Mode>

  function ModeOf(alongside: bool): Mode { if alongside then Beside else Writer }

  function With(modes: Modes, alongside: bool): Modes { modes + multiset{ModeOf(alongside)} }

  function Without(modes: Modes, alongside: bool): Modes { modes - multiset{ModeOf(alongside)} }

  /** Who is inside once a process acted: one thread goes in with the lock, and an attempt that ends leaves none. */
  function ModesAfter(modes: Modes, a: Action): Modes {
    match a
    case Lock(alongside) => multiset{ModeOf(alongside)}
    case Raise => multiset{}
    case Sign(Cut(_, _)) => multiset{}
    case Enter(alongside) => With(modes, alongside)
    case LeaveOne(alongside) => Without(modes, alongside)
    case LetGo => multiset{}
    case _ => modes
  }

  /** A process's threads inside after a run. */
  function ThreadsIn(steps: seq<Step>, t: Token): Modes
    decreases |steps|
  {
    if steps == [] then multiset{}
    else
      ThreadsAfter(ThreadsIn(steps[..|steps| - 1], t), steps[|steps| - 1], t)
  }

  function ThreadsAfter(modes: Modes, step: Step, t: Token): Modes {
    match step
    case Act(actor, a) => if actor == t then ModesAfter(modes, a) else modes
    case Die(dying) => if dying == t then multiset{} else modes
    case Restart => multiset{}
    case _ => modes
  }

  /** Threads go out in the mode they came in. */
  predicate InOrder(steps: seq<Step>, t: Token)
    decreases |steps|
  {
    steps == [] ||
    var front, step := steps[..|steps| - 1], steps[|steps| - 1];
    && InOrder(front, t)
    && (step.Act? && step.actor == t && step.action.LeaveOne? ==>
          ModeOf(step.action.alsoBeside) in ThreadsIn(front, t))
  }

  /** The writer's word of a phase that has one. */
  function WritingOf(phase: Phase): Option<bool> {
    match phase
    case Locked(writing) => Some(writing)
    case Looked(_, writing) => Some(writing)
    case Emptied(_, writing) => Some(writing)
    case Signed(_, writing) => Some(writing)
    case Holding(_, writing) => Some(writing)
    case _ => None
  }

  /** A phase says of its process's threads what is so: how many are inside, whether one writes, and never two do. */
  predicate Tallied(phase: Phase, modes: Modes) {
    match WritingOf(phase)
    case None => modes == multiset{}
    case Some(writing) =>
      && (writing <==> Writer in modes) && modes[Writer] <= 1
      && |modes| == if phase.Holding? then phase.holders else 1
  }

  ghost predicate TalliedAt(h: Host, t: Token, modes: Modes) {
    if t in h.processes then Tallied(h.processes[t].phase, modes) else modes == multiset{}
  }

  lemma OneMore(modes: Modes, m: Mode)
    ensures |modes + multiset{m}| == |modes| + 1
  {
  }

  lemma OneFewer(modes: Modes, m: Mode)
    requires m in modes
    ensures |modes - multiset{m}| == |modes| - 1
  {
    assert modes - multiset{m} + multiset{m} == modes;
    OneMore(modes - multiset{m}, m);
  }

  lemma EnterTallied(holders: nat, writing: bool, beside: bool, modes: Modes)
    requires Tallied(Holding(holders, writing), modes) && !(writing && !beside)
    ensures Tallied(Holding(holders + 1, writing || !beside), modes + multiset{ModeOf(beside)})
  {
    OneMore(modes, ModeOf(beside));
  }

  lemma LeaveTallied(holders: nat, writing: bool, beside: bool, modes: Modes)
    requires holders >= 1 && Tallied(Holding(holders, writing), modes) && ModeOf(beside) in modes
    ensures Tallied(Holding(holders - 1, writing && beside), modes - multiset{ModeOf(beside)})
  {
    OneFewer(modes, ModeOf(beside));
  }

  lemma ActTallied(f: File, p: Process, t: Token, a: Action, now: nat, modes: Modes)
    requires Enabled(f, p, a, t) && Tallied(p.phase, modes)
    requires a.LeaveOne? ==> ModeOf(a.alsoBeside) in modes
    ensures Tallied(Acted(f, p, a, t, now).1.phase, ModesAfter(modes, a))
  {
    hide Read, Landed, Noticed, Left.EndedElsewhere, Tallied;
    if a.Enter? {
      EnterTallied(p.phase.holders, p.phase.writing, a.beside, modes);
    } else if a.LeaveOne? {
      LeaveTallied(p.phase.holders, p.phase.writing, a.alsoBeside, modes);
    } else {
      OtherTallied(f, p, t, a, now, modes);
    }
  }

  lemma OtherTallied(f: File, p: Process, t: Token, a: Action, now: nat, modes: Modes)
    requires Enabled(f, p, a, t) && Tallied(p.phase, modes) && !a.Enter? && !a.LeaveOne?
    ensures Tallied(Acted(f, p, a, t, now).1.phase, ModesAfter(modes, a))
  {
    hide Read, Landed, Noticed, Left.EndedElsewhere;
  }

  lemma StepTallied(h: Host, t: Token, step: Step, modes: Modes)
    requires CanStep(h, step) && TalliedAt(h, t, modes)
    requires step.Act? && step.actor == t && step.action.LeaveOne? ==> ModeOf(step.action.alsoBeside) in modes
    requires t in h.processes ==> t in h.born
    ensures TalliedAt(Next(h, step), t, ThreadsAfter(modes, step, t))
  {
    hide Acted, Enabled, TurnsAfter, ModesAfter;
    if step.Act? && step.actor == t {
      ActTallied(h.file, h.processes[t], t, step.action, h.clock, modes);
    }
  }

  lemma BornHere(h: Host, t: Token)
    requires Inv(h)
    ensures t in h.processes ==> t in h.born
  {
    hide Ordered, Written, InTurn, Known, Recognized, LookedAt;
  }

  /**
   Over every run in which each thread goes out in the mode it came in: a process's claim counts the threads inside,
   says one writes exactly where one of them came in to write, and never two did.
   */
  lemma {:induction false} ReachedTallied(steps: seq<Step>, t: Token)
    requires Reached(steps).Some? && InOrder(steps, t)
    ensures TalliedAt(Reached(steps).value, t, ThreadsIn(steps, t))
    decreases |steps|
  {
    hide CanStep, Next, TalliedAt, ThreadsAfter, Inv;
    if steps == [] {
      NobodyYet(t);
    } else {
      var front, step := steps[..|steps| - 1], steps[|steps| - 1];
      ReachedTallied(front, t);
      ReachedInv(front);
      BornHere(Reached(front).value, t);
      StepTallied(Reached(front).value, t, step, ThreadsIn(front, t));
    }
  }

  lemma NobodyYet(t: Token)
    ensures TalliedAt(Fresh, t, multiset{})
  {
  }

  lemma JoinsHere(f: File, p: Process, t: Token, alongside: bool, cycle: int, modes: Modes)
    requires Tallied(p.phase, modes) && p.phase.Holding?
    ensures Enabled(f, p, Enter(alongside), t) <==> alongside || Writer !in modes
    ensures Enabled(f, p, Note(cycle, Whole), t) <==> Writer in modes
  {
  }

  /**
   So a thread can join a key its process holds exactly where it comes in beside the rest or no writer is inside, and
   can note on it exactly where one is.
   */
  lemma JoinsExactly(steps: seq<Step>, t: Token, alongside: bool, cycle: int)
    requires Reached(steps).Some? && InOrder(steps, t)
    requires t in Reached(steps).value.processes && Reached(steps).value.processes[t].phase.Holding?
    ensures CanStep(Reached(steps).value, Act(t, Enter(alongside))) <==> alongside || Writer !in ThreadsIn(steps, t)
    ensures CanStep(Reached(steps).value, Act(t, Note(cycle, Whole))) <==> Writer in ThreadsIn(steps, t)
  {
    hide Reached, ThreadsIn, InOrder, Enabled, Tallied;
    ReachedTallied(steps, t);
    var h := Reached(steps).value;
    JoinsHere(h.file, h.processes[t], t, alongside, cycle, ThreadsIn(steps, t));
  }
}
