/**
 The scheduler every repository tick shares, as it runs: sets and counts updated in place under one
 lock, each critical section proved to be its step of `SchedulerModel`.
 */
module SchedulerService {
  import opened Text
  import opened SchedulerModel

  /** The steps of several wakes, one after another. */
  function Flat(wakes: seq<seq<Step>>): seq<Step> {
    if wakes == [] then [] else wakes[0] + Flat(wakes[1..])
  }

  lemma {:induction false} RanSplit(s: State, first: seq<Step>, rest: seq<Step>)
    requires Ran(s, first + rest).Some?
    ensures Ran(s, first).Some? && Ran(s, first + rest) == Ran(Ran(s, first).value, rest)
    decreases |first|
  {
    if first == [] {
      assert first + rest == rest;
    } else {
      assert (first + rest)[1..] == first[1..] + rest;
      RanSplit(Next(s, first[0]), first[1..], rest);
    }
  }

  lemma {:induction false} RanJoin(s: State, first: seq<Step>, rest: seq<Step>)
    requires Ran(s, first).Some?
    ensures Ran(s, first + rest) == Ran(Ran(s, first).value, rest)
    decreases |first|
  {
    if first == [] {
      assert first + rest == rest;
    } else {
      assert (first + rest)[1..] == first[1..] + rest;
      RanJoin(Next(s, first[0]), first[1..], rest);
    }
  }

  lemma StepHolds(s: State, who: Holder, step: Step)
    requires Inv(s) && s.hold == Some(who) && CanStep(s, step) && step != Step.GiveBarrier(who)
    ensures Next(s, step).hold == Some(who)
  {
    hide Accounted, OneFamily, Capped, EachOnce;
  }

  /** Nobody but its holder gives a hold back. */
  lemma {:induction false} HoldStays(s: State, who: Holder, steps: seq<Step>)
    requires Inv(s) && s.hold == Some(who) && Ran(s, steps).Some?
    requires forall step | step in steps :: step != Step.GiveBarrier(who)
    ensures Ran(s, steps).value.hold == Some(who) && Ran(s, steps).value.barred
    decreases |steps|
  {
    hide Next, Accounted, OneFamily, Capped, EachOnce;
    if steps != [] {
      assert steps[0] in steps;
      assert forall step | step in steps[1..] :: step in steps;
      StepKeeps(s, steps[0]);
      StepHolds(s, who, steps[0]);
      HoldStays(Next(s, steps[0]), who, steps[1..]);
    }
  }

  /** What a waiting holder's wakes may hold: anything but its own answer or its own hold given back. */
  predicate OfOthers(steps: seq<Step>, who: Holder) {
    forall step | step in steps :: !step.Quiesce? && step != Step.GiveBarrier(who)
  }

  lemma NextWake(start: State, took: seq<Step>, wakes: seq<seq<Step>>, now: State, who: Holder)
    requires wakes != [] && Ran(start, took) == Some(now)
    requires Inv(now) && now.hold == Some(who)
    requires Ran(start, took + Flat(wakes)).Some? && OfOthers(Flat(wakes), who)
    ensures OfOthers(Flat(wakes[1..]), who) && forall step | step in wakes[0] :: !step.Quiesce?
    ensures Ran(now, wakes[0]).Some? && Ran(now, wakes[0]).value.hold == Some(who)
    ensures Ran(start, took + wakes[0]) == Ran(now, wakes[0])
    ensures took + Flat(wakes) == (took + wakes[0]) + Flat(wakes[1..])
  {
    hide Inv, Ran, CanStep, Next;
    var first, rest := wakes[0], Flat(wakes[1..]);
    assert Flat(wakes) == first + rest;
    assert forall step | step in first :: step in Flat(wakes);
    assert forall step | step in rest :: step in Flat(wakes);
    RanSplit(start, took, Flat(wakes));
    RanSplit(now, first, rest);
    HoldStays(now, who, first);
    RanJoin(start, took, first);
  }

  lemma QuietAnswered(s: State, who: Holder)
    requires Inv(s) && s.hold == Some(who)
    ensures var (n, quiet) := Quiesced(s); Inv(n) && n == s.(quiet := quiet)
    ensures Quiesced(s).1 <==> s.live == map[] && s.claims == {} && !s.closed
  {
    QuietMeans(s, who);
    BarrierKeeps(s, Quiesced(s).0);
  }

  class IssueScheduler {
    const globalCap: int
    const perRepoCap: int
    var active: set<Key>
    var tracked: set<Key>
    var perRepo: map<string, int>
    var families: set<string>
    var completed: seq<Future>
    var closed: bool
    var barred: bool
    var live: Running   // what each accepted future's completion callback closes over
    ghost var claims: set<Key>
    ghost var reaped: seq<Future>
    var accepted: nat
    ghost var hold: Option<Holder>
    ghost var quiet: bool

    ghost function View(): State
      reads this
    {
      State(globalCap, perRepoCap, active, tracked, perRepo, families, completed, closed, barred,
            live, claims, reaped, accepted, hold, quiet)
    }

    constructor (globalCap: int, perRepoCap: int)
      ensures View() == New(globalCap, perRepoCap) && Inv(View())
    {
      this.globalCap, this.perRepoCap := AtLeastOne(globalCap), AtLeastOne(perRepoCap);
      active, tracked, perRepo, families, completed := {}, {}, map[], {}, [];
      closed, barred, accepted := false, false, 0;
      live, claims, reaped, hold, quiet := map[], {}, [], None, false;
      new;
      NewInv(globalCap, perRepoCap);
    }

    method ReserveSlot(sub: Submission)
      modifies this`active, this`tracked, this`perRepo, this`families
      ensures View() == Reserved(old(View()), sub)
    {
      if sub.capExempt {
        tracked := tracked + {sub.Key()};
      } else {
        active := active + {sub.Key()};
        var repoActive := if sub.slug in perRepo then perRepo[sub.slug] else 0;
        perRepo := perRepo[sub.slug := repoActive + 1];
      }
      if sub.family {
        families := families + {sub.slug};
      }
    }

    method ReleaseSlot(sub: Submission)
      modifies this`active, this`tracked, this`perRepo, this`families
      ensures View() == Released(old(View()), sub)
    {
      if sub.capExempt {
        tracked := tracked - {sub.Key()};
      } else {
        active := active - {sub.Key()};
        var repoActive := if sub.slug in perRepo then perRepo[sub.slug] else 0;
        if repoActive <= 1 {
          perRepo := perRepo - {sub.slug};
        } else {
          perRepo := perRepo[sub.slug := repoActive - 1];
        }
      }
      if sub.family {
        families := families - {sub.slug};
      }
    }

    method SkipReasonLocked(sub: Submission) returns (reason: Option<Reason>)
      ensures reason == SkipReason(View(), sub)
    {
      if closed {
        return Some(Closed);
      }
      if barred {
        return Some(Maintenance);
      }
      if sub.Key() in active || sub.Key() in tracked {
        return Some(DuplicateActive);
      }
      if !sub.capExempt {
        if |active| >= globalCap {
          return Some(GlobalCap);
        }
        var repoActive := if sub.slug in perRepo then perRepo[sub.slug] else 0;
        if repoActive >= sub.perRepoCap {
          return Some(PerRepoCap);
        }
      }
      if sub.family && sub.slug in families {
        return Some(FamilySlotHeld);
      }
      reason := None;
    }

    /** Admit and dispatch one worker; `taken` is whether its executor accepts the work. */
    method Submit(request: Request, taken: bool) returns (admitted: bool)
      requires Inv(View())
      modifies this
      ensures Inv(View())
      ensures (View(), admitted) == Submitted(old(View()), request, taken)
    {
      hide Inv, SkipReason;
      SubmitKeeps(View(), request, taken);
      var sub := Normalized(request, perRepoCap);
      var reason := SkipReasonLocked(sub);
      if reason.Some? {
        return false;
      }
      ReserveSlot(sub);
      if !taken {
        ReleaseSlot(sub);
        return false;
      }
      live := live[accepted := sub];
      accepted := accepted + 1;
      admitted := true;
    }

    /** A worker's future completed: its slot goes back and the future waits to be reaped. */
    method OnWorkerDone(future: Future)
      requires Inv(View()) && future in live
      modifies this
      ensures Inv(View()) && View() == Done(old(View()), future)
    {
      hide Inv;
      DoneKeeps(View(), future);
      ReleaseSlot(live[future]);
      completed := completed + [future];
      live := live - {future};
    }

    /** Drain the completed futures, each once. */
    method Drain() returns (drained: nat)
      requires Inv(View())
      modifies this`completed, this`reaped
      ensures Inv(View()) && View() == Reaped(old(View()))
      ensures drained == |old(completed)|
    {
      ReapKeeps(View());
      var futures := completed;
      completed := [];
      reaped := reaped + futures;
      drained := |futures|;
    }

    method Close()
      requires Inv(View())
      modifies this`closed
      ensures Inv(View()) && View() == ShutDown(old(View()))
    {
      BarrierKeeps(View(), ShutDown(View()));
      closed := true;
    }

    /**
     `shutdown`. `working` is what other threads did while the executors were stopped; with `wait` these return only
     once every worker has.
     */
    method Shutdown(wait: bool, working: seq<Step>)
      requires Inv(View())
      requires Ran(ShutDown(View()), working).Some? && forall step | step in working :: !step.Quiesce?
      requires wait ==> Ran(ShutDown(View()), working).value.live == map[]
      modifies this
      ensures Inv(View()) && View() == Reaped(Ran(ShutDown(old(View())), working).value)
      ensures closed && completed == [] && accepted == old(accepted)
      ensures wait ==> live == map[] && active == {} && tracked == claims
      ensures wait ==> forall f: Future :: multiset(reaped)[f] == if f < old(accepted) then 1 else 0
    {
      hide Inv;
      Close();
      ClosedStays(View(), working);
      TakeAll(working);
      var _ := Drain();
      if wait {
        AllReaped(View());
      }
    }

    /** `reap`, its thread taken by the signal handler right behind reading the batch. */
    method DrainAcross() returns (drained: nat)
      requires Inv(View())
      modifies this
      ensures View() == ReapedAcross(old(View())) && drained == |old(completed)|
    {
      var futures := completed;
      RanNone(ShutDown(View()));
      Shutdown(false, []);
      completed := [];
      reaped := reaped + futures;
      drained := |futures|;
    }

    /** `track_active`, on the way in: whether the claim was admitted. */
    method Claim(key: Key) returns (claimed: bool)
      requires Inv(View())
      modifies this`tracked, this`claims
      ensures Inv(View()) && (View(), claimed) == Tracked(old(View()), key)
    {
      TrackKeeps(View(), key);
      claimed := !barred && key !in active && key !in tracked;
      if claimed {
        tracked := tracked + {key};
        claims := claims + {key};
      }
    }

    /** `track_active`, on the way out of a body whose claim was admitted. */
    method Unclaim(key: Key)
      requires Inv(View()) && key in claims
      modifies this`tracked, this`claims
      ensures Inv(View()) && View() == Untracked(old(View()), key)
    {
      UntrackKeeps(View(), key);
      tracked := tracked - {key};
      claims := claims - {key};
    }

    /** `maintenance_barrier`, on the way in: whether this caller now holds admission closed. */
    method TakeBarrier(who: Holder) returns (held: bool)
      requires Inv(View())
      modifies this`barred, this`hold, this`quiet
      ensures Inv(View()) && (View(), held) == BarrierTaken(old(View()), who)
    {
      BarrierKeeps(View(), BarrierTaken(View(), who).0);
      held := !closed && !barred;
      if held {
        barred, hold, quiet := true, Some(who), false;
      }
    }

    method GiveBarrier(ghost who: Holder)
      requires Inv(View()) && hold == Some(who)
      modifies this`barred, this`hold, this`quiet
      ensures Inv(View()) && View() == BarrierGiven(old(View()))
    {
      BarrierKeeps(View(), BarrierGiven(View()));
      barred, hold, quiet := false, None, false;
    }

    /** One critical section another thread takes while this lock is free. */
    method Take(step: Step)
      requires Inv(View()) && CanStep(View(), step) && !step.Quiesce?
      modifies this
      ensures Inv(View()) && View() == Next(old(View()), step)
    {
      match step {
        case Submit(request, taken) => var _ := Submit(request, taken);
        case Complete(future) => OnWorkerDone(future);
        case Reap => var _ := Drain();
        case Shutdown => Close();
        case Track(key) => var _ := Claim(key);
        case Untrack(key) => Unclaim(key);
        case TakeBarrier(who) => var _ := TakeBarrier(who);
        case GiveBarrier(who) => GiveBarrier(who);
        case Quiesce(_) =>
      }
    }

    method TakeAll(steps: seq<Step>)
      requires Inv(View()) && Ran(View(), steps).Some?
      requires forall step | step in steps :: !step.Quiesce?
      modifies this
      ensures Inv(View()) && Ran(old(View()), steps) == Some(View())
    {
      var i := 0;
      while i < |steps|
        invariant 0 <= i <= |steps|
        invariant Inv(View()) && Ran(View(), steps[i..]) == Ran(old(View()), steps)
      {
        Take(steps[i]);
        i := i + 1;
      }
    }

    /**
     Wait until nothing is in flight: `wakes` is what other threads did while each wait had the lock
     free, and its end is the deadline. A close ends the wait as the deadline does. `took` is what had
     been done by the time of the answer.
     */
    method WaitQuiet(who: Holder, wakes: seq<seq<Step>>) returns (answer: bool, ghost took: seq<Step>)
      requires Inv(View()) && hold == Some(who)
      requires Ran(View(), Flat(wakes)).Some? && OfOthers(Flat(wakes), who)
      modifies this
      ensures took <= Flat(wakes) && Ran(old(View()), took).Some?
      ensures (View(), answer) == SchedulerModel.Quiesced(Ran(old(View()), took).value)
      ensures Inv(View()) && hold == Some(who)
      ensures answer <==> live == map[] && claims == {} && !closed
      ensures !Pending(old(View())) ==> took == []
    {
      hide Inv, Ran, Flat, OfOthers, CanStep, Next;
      ghost var start := View();
      RanNone(start);
      var rest := wakes;
      took := [];
      assert took + Flat(rest) == Flat(wakes);
      while (active != {} || tracked != {}) && rest != [] && !closed
        invariant Inv(View()) && hold == Some(who)
        invariant Ran(start, took) == Some(View())
        invariant took + Flat(rest) == Flat(wakes) && OfOthers(Flat(rest), who)
        invariant took != [] ==> Pending(start)
        decreases |rest|
      {
        NextWake(start, took, rest, View(), who);
        TakeAll(rest[0]);
        took := took + rest[0];
        rest := rest[1..];
      }
      QuietAnswered(View(), who);
      answer := active == {} && tracked == {} && !closed;
      quiet := answer;
    }

    method ActiveCount(slug: Option<string>) returns (count: int)
      requires Inv(View())
      ensures count == if slug.None? then |active| else |InRepo(active, slug.value)|
    {
      if slug.None? {
        return |active|;
      }
      count := if slug.value in perRepo then perRepo[slug.value] else 0;
    }

    method IsActive(key: Key) returns (owned: bool)
      requires Inv(View())
      ensures owned <==> key in claims || key in KeysOf(live, true) || key in KeysOf(live, false)
    {
      owned := key in active || key in tracked;
    }
  }
}
