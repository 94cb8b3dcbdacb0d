/**
 One process's moves on its host: what it does step by step, the lock as it found it wherever it looked, and that
 moves played out on one process alone are a run of the whole host, whatever the others do between them.
 */
module HostMoves {
  import opened Text
  import opened HostExclusion
  import Model = SchedulerModel

  datatype Move = Move(found: Locks, step: Step)

  /** A process as it stands beside the lock as it last knew it, and what is left of it behind its last move. */
  datatype Side = There(locks: Locks, process: Process) | Gone(locks: Locks)

  function Actor(step: Step): Option<Pid> {
    match step
    case Arrive(_) => None
    case TakePresence(p) => Some(p)
    case TryHost(p) => Some(p)
    case OpenScheduler(p, _, _) => Some(p)
    case Work(p, _) => Some(p)
    case EnterPass(p) => Some(p)
    case EndWait(p) => Some(p)
    case HandOver(p) => Some(p)
    case Begin(p) => Some(p)
    case Finish(p) => Some(p)
    case GiveBack(p) => Some(p)
    case Restore(p) => Some(p)
    case LeaveBarrier(p) => Some(p)
    case Drain(p) => Some(p)
    case Depart(p) => Some(p)
    case Crash(p) => Some(p)
  }

  /** The steps that ask the lock or change it. */
  predicate Looks(step: Step) {
    step.TakePresence? || step.TryHost? || step.HandOver? || step.GiveBack? || step.Restore? || step.Depart?
    || step.Crash?
  }

  /** Others may have moved the lock, but no hold of this process's. */
  predicate Alike(l: Locks, found: Locks, me: Pid) {
    && (me in l.shared <==> me in found.shared)
    && (l.exclusive == Some(me) <==> found.exclusive == Some(me))
  }

  /** A host with nobody else on it. */
  function Solo(locks: Locks, me: Pid, process: Process): Host { Host(locks, map[me := process], me + 1) }

  function SideOf(h: Host, me: Pid): Side {
    if me in h.processes then There(h.locks, h.processes[me]) else Gone(h.locks)
  }

  function FoundBy(side: Side, m: Move): Locks { if Looks(m.step) then m.found else side.locks }

  /** What one move makes of a side, or none where the process cannot make it. */
  function Made(side: Side, me: Pid, m: Move): Option<Side> {
    if side.Gone? || Actor(m.step) != Some(me) || !Alike(side.locks, FoundBy(side, m), me) then None
    else
      var h := Solo(FoundBy(side, m), me, side.process);
      if CanStep(h, m.step) then Some(SideOf(Next(h, m.step), me)) else None
  }

  function Played(side: Side, me: Pid, moves: seq<Move>): Option<Side>
    decreases |moves|
  {
    if moves == [] then Some(side)
    else
      var next := Made(side, me, moves[0]);
      if next.None? then None else Played(next.value, me, moves[1..])
  }

  lemma {:induction false} PlayedOn(side: Side, me: Pid, moves: seq<Move>, more: seq<Move>)
    requires Played(side, me, moves).Some?
    ensures Played(side, me, moves + more) == Played(Played(side, me, moves).value, me, more)
    decreases |moves|
  {
    hide Made;
    if moves == [] {
      assert moves + more == more;
    } else {
      assert (moves + more)[1..] == moves[1..] + more;
      PlayedOn(Made(side, me, moves[0]).value, me, moves[1..], more);
    }
  }

  lemma PlayedOne(start: Side, me: Pid, moves: seq<Move>, side: Side, m: Move)
    requires Played(start, me, moves) == Some(side)
    ensures Played(start, me, moves + [m]) == Made(side, me, m)
  {
    hide Made;
    PlayedOn(start, me, moves, [m]);
    assert [m][1..] == [];
  }

  /** What a process's threads do to its scheduler, as moves. */
  function Works(me: Pid, locks: Locks, steps: seq<Model.Step>): seq<Move> {
    if steps == [] then [] else [Move(locks, Work(me, steps[0]))] + Works(me, locks, steps[1..])
  }

  predicate ThreadSteps(steps: seq<Model.Step>) { forall step | step in steps :: OfThreads(step) }

  lemma {:induction false} WorksPlayed(side: Side, me: Pid, s: Model.State, steps: seq<Model.Step>)
    requires side.There? && side.process.scheduler == Some(s)
    requires ThreadSteps(steps) && Model.Ran(s, steps).Some?
    ensures Played(side, me, Works(me, side.locks, steps))
         == Some(There(side.locks, side.process.(scheduler := Some(Model.Ran(s, steps).value))))
    decreases |steps|
  {
    hide OfThreads;
    if steps != [] {
      assert steps[0] in steps && forall step | step in steps[1..] :: step in steps;
      var m := Move(side.locks, Work(me, steps[0]));
      var next := side.(process := side.process.(scheduler := Some(Model.Next(s, steps[0]))));
      OneWork(side, me, s, steps[0]);
      WorksPlayed(next, me, Model.Next(s, steps[0]), steps[1..]);
      assert ([m] + Works(me, side.locks, steps[1..]))[1..] == Works(me, side.locks, steps[1..]);
    }
  }

  lemma OneWork(side: Side, me: Pid, s: Model.State, step: Model.Step)
    requires side.There? && side.process.scheduler == Some(s) && OfThreads(step) && Model.CanStep(s, step)
    ensures Made(side, me, Move(side.locks, Work(me, step)))
         == Some(There(side.locks, side.process.(scheduler := Some(Model.Next(s, step)))))
  {
    hide OfThreads, Model.CanStep, Model.Next;
  }

  // ----- Moves on a host with others on it

  function Ran(h: Host, steps: seq<Step>): Option<Host>
    decreases |steps|
  {
    if steps == [] then Some(h)
    else if CanStep(h, steps[0]) then Ran(Next(h, steps[0]), steps[1..])
    else None
  }

  predicate ByOthers(steps: seq<Step>, me: Pid) { forall step | step in steps :: Actor(step) != Some(me) }

  /** How moves went with others' steps ahead of each: the lock was not as found, a move could not be made, or a run. */
  datatype Woven = Parted | Stuck | Done(host: Host, steps: seq<Step>)

  function Weave(h: Host, me: Pid, between: seq<seq<Step>>, moves: seq<Move>): Woven
    requires |between| == |moves|
    decreases |moves|
  {
    if moves == [] then Done(h, [])
    else
      var met, step := Ran(h, between[0]), moves[0].step;
      if met.None? || !ByOthers(between[0], me) || (Looks(step) && met.value.locks != moves[0].found) then Parted
      else if !CanStep(met.value, step) then Stuck
      else
        var rest := Weave(Next(met.value, step), me, between[1..], moves[1..]);
        if rest.Done? then Done(rest.host, between[0] + [step] + rest.steps) else rest
  }

  /** A process's own step is the same step on a host of its own. */
  lemma OwnStep(h: Host, me: Pid, locks: Locks, step: Step)
    requires me in h.processes && Actor(step) == Some(me) && (Looks(step) ==> locks == h.locks)
    ensures var solo := Solo(locks, me, h.processes[me]);
            && (CanStep(h, step) <==> CanStep(solo, step))
            && (CanStep(h, step) ==>
                  var n, alone := Next(h, step), Next(solo, step);
                  && (me in n.processes <==> me in alone.processes)
                  && (me in n.processes ==> n.processes[me] == alone.processes[me])
                  && (Looks(step) ==> n.locks == alone.locks))
  {
    hide Model.CanStep, Model.Next, OfThreads;
  }

  lemma {:induction false} OthersRun(h: Host, me: Pid, steps: seq<Step>)
    requires Inv(h) && me in h.processes && Ran(h, steps).Some? && ByOthers(steps, me)
    ensures var n := Ran(h, steps).value; Inv(n) && me in n.processes && n.processes[me] == h.processes[me]
    decreases |steps|
  {
    hide Inv, CanStep, Next;
    if steps != [] {
      assert steps[0] in steps && forall step | step in steps[1..] :: step in steps;
      StepKeeps(h, steps[0]);
      OthersStep(h, me, steps[0]);
      OthersRun(Next(h, steps[0]), me, steps[1..]);
    }
  }

  lemma OthersStep(h: Host, me: Pid, step: Step)
    requires Inv(h) && me in h.processes && CanStep(h, step) && Actor(step) != Some(me)
    ensures me in Next(h, step).processes && Next(h, step).processes[me] == h.processes[me]
  {
    hide LocksTold, Sound, Model.CanStep, Model.Next, OfThreads;
    assert me < h.born;
  }

  /**
   What a process plays on its own side is a run of any host it stands on: with any steps of the others ahead of each
   move, so long as they leave the lock as the move found it, no move is ever stuck, and behind the last the process
   is what was played, and the lock too where that move was on it.
   */
  lemma {:induction false} PlayedOnHost(h: Host, me: Pid, locks: Locks, between: seq<seq<Step>>, moves: seq<Move>)
    requires Inv(h) && me in h.processes && |between| == |moves|
    requires Played(There(locks, h.processes[me]), me, moves).Some?
    ensures var woven, side := Weave(h, me, between, moves), Played(There(locks, h.processes[me]), me, moves).value;
            && !woven.Stuck?
            && (woven.Done? ==>
                  && Inv(woven.host) && Ran(h, woven.steps) == Some(woven.host)
                  && (me in woven.host.processes <==> side.There?)
                  && (side.There? ==> woven.host.processes[me] == side.process)
                  && (moves != [] && Looks(moves[|moves| - 1].step) ==> woven.host.locks == side.locks))
    decreases |moves|
  {
    hide Inv, CanStep, Next, Alike;
    if moves != [] {
      var m, met := moves[0], Ran(h, between[0]);
      if met.Some? && ByOthers(between[0], me) && (Looks(m.step) ==> met.value.locks == m.found) {
        OthersRun(h, me, between[0]);
        MoveOnHost(met.value, me, locks, m);
        StepKeeps(met.value, m.step);
        var n, next := Next(met.value, m.step), Made(There(locks, h.processes[me]), me, m).value;
        if next.Gone? {
          GonePlays(next, me, moves[1..]);
        } else {
          PlayedOnHost(n, me, next.locks, between[1..], moves[1..]);
        }
        var rest := Weave(n, me, between[1..], moves[1..]);
        if rest.Done? {
          RanThrough(h, between[0], m.step, rest.steps);
        }
      }
    }
  }

  lemma MoveOnHost(h: Host, me: Pid, locks: Locks, m: Move)
    requires me in h.processes && (Looks(m.step) ==> h.locks == m.found)
    requires Made(There(locks, h.processes[me]), me, m).Some?
    ensures CanStep(h, m.step)
    ensures var n, next := Next(h, m.step), Made(There(locks, h.processes[me]), me, m).value;
            && (me in n.processes <==> next.There?)
            && (next.There? ==> n.processes[me] == next.process)
            && (Looks(m.step) ==> n.locks == next.locks)
  {
    hide CanStep, Next;
    OwnStep(h, me, FoundBy(There(locks, h.processes[me]), m), m.step);
  }

  lemma GonePlays(side: Side, me: Pid, moves: seq<Move>)
    requires side.Gone? && Played(side, me, moves).Some?
    ensures moves == [] && Played(side, me, moves) == Some(side)
  {
  }

  lemma {:induction false} RanOn(h: Host, steps: seq<Step>, more: seq<Step>)
    requires Ran(h, steps).Some?
    ensures Ran(h, steps + more) == Ran(Ran(h, steps).value, more)
    decreases |steps|
  {
    hide CanStep, Next;
    if steps == [] {
      assert steps + more == more;
    } else {
      assert (steps + more)[1..] == steps[1..] + more;
      RanOn(Next(h, steps[0]), steps[1..], more);
    }
  }

  lemma RanThrough(h: Host, first: seq<Step>, step: Step, rest: seq<Step>)
    requires Ran(h, first).Some? && CanStep(Ran(h, first).value, step)
    ensures Ran(h, first + [step] + rest) == Ran(Next(Ran(h, first).value, step), rest)
  {
    hide CanStep, Next;
    RanOn(h, first, [step] + rest);
    assert first + [step] + rest == first + ([step] + rest);
    assert ([step] + rest)[1..] == rest;
  }

  /** The runs of `HostExclusion`, continued. */
  lemma {:induction false} ReachedOn(run: seq<Step>, steps: seq<Step>)
    requires Reached(run).Some? && Ran(Reached(run).value, steps).Some?
    ensures Reached(run + steps) == Ran(Reached(run).value, steps)
    decreases |steps|
  {
    hide CanStep, Next;
    if steps == [] {
      assert run + steps == run;
    } else {
      var on := run + [steps[0]];
      assert on[..|on| - 1] == run && on[|on| - 1] == steps[0];
      ReachedOn(on, steps[1..]);
      assert run + steps == on + steps[1..];
    }
  }

  /**
   Over every run that a process's moves are woven into: where they have just begun maintenance, the host is that
   process's alone and nothing of any live process is in flight or can be admitted.
   */
  lemma BegunAlone(run: seq<Step>, me: Pid, locks: Locks, between: seq<seq<Step>>, moves: seq<Move>)
    requires Reached(run).Some? && me in Reached(run).value.processes && |between| == |moves|
    requires var side := Played(There(locks, Reached(run).value.processes[me]), me, moves);
             side.Some? && side.value.There? && side.value.process.place == Maintaining
    ensures var woven := Weave(Reached(run).value, me, between, moves);
            woven.Done? ==>
              && Reached(run + woven.steps) == Some(woven.host)
              && woven.host.locks == Locks({}, Some(me))
              && forall q | q in woven.host.processes :: Still(woven.host.processes[q])
  {
    hide Inv, Still, Weave, Played;
    ReachedInv(run);
    var h := Reached(run).value;
    PlayedOnHost(h, me, locks, between, moves);
    var woven := Weave(h, me, between, moves);
    if woven.Done? {
      ReachedOn(run, woven.steps);
      MaintenanceAlone(run + woven.steps, me);
    }
  }
}
