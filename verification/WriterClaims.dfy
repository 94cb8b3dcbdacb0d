/**
 One process's `_Holdings` over one issue key: the methods as they run, each proved to be a run of
 the protocol's own actions, so that what `ClaimProtocol` proves of every run is true of them.
 */
module WriterClaims {
  import opened Text
  import opened ClaimRecords
  import opened ClaimProtocol
  import opened ClaimThreads

  /** A process's side after `actions`, or None where one of them could not be taken. */
  function Played(side: (File, Process), actions: seq<Action>, me: Token, now: nat): Option<(File, Process)>
    decreases |actions|
  {
    if actions == [] then Some(side)
    else if !Enabled(side.0, side.1, actions[0], me) then None
    else Played(Acted(side.0, side.1, actions[0], me, now), actions[1..], me, now)
  }

  lemma PlayedFirst(side: (File, Process), a: Action, rest: seq<Action>, me: Token, now: nat)
    requires Enabled(side.0, side.1, a, me)
    ensures Played(side, [a] + rest, me, now) == Played(Acted(side.0, side.1, a, me, now), rest, me, now)
  {
    assert ([a] + rest)[1..] == rest;
  }

  /** What can go wrong in taking the key, other than another process holding it. */
  datatype Trouble = NoTrouble | Unread | Unemptied | Unsigned(n: nat, cutBack: bool)

  datatype Answer = Granted | HeldHere | HeldElsewhere | Raised

  /** The actions a join takes, by what it finds held and what goes wrong. */
  function JoinActions(side: (File, Process), alongside: bool, trouble: Trouble): seq<Action> {
    if side.1.phase.Holding? then
      if side.1.phase.writing && !alongside then [] else [Enter(alongside)]
    else if side.0.owner.Some? then []
    else
      match trouble
      case NoTrouble => [Lock(alongside), Look, Empty, Sign(Whole), Find]
      case Unread => [Lock(alongside), Raise]
      case Unemptied => [Lock(alongside), Look, Raise]
      case Unsigned(n, cutBack) => [Lock(alongside), Look, Empty, Sign(Cut(n, cutBack))]
  }

  function JoinAnswer(side: (File, Process), alongside: bool, trouble: Trouble): Answer {
    if side.1.phase.Holding? then
      if side.1.phase.writing && !alongside then HeldHere else Granted
    else if side.0.owner.Some? then HeldElsewhere
    else if trouble.NoTrouble? then Granted else Raised
  }

  function LeaveActions(side: (File, Process), alongside: bool, stamped: Landing): seq<Action> {
    if side.1.phase.Holding? && side.1.phase.holders > 1 then [LeaveOne(alongside)]
    else [LetGo, Stamp(stamped), Unlock]
  }

  /** A side whose lock this process took, read the file under, and emptied it. */
  function Opened(side: (File, Process), alongside: bool, me: Token): (File, Process) {
    (File("", Some(me)), side.1.(phase := Emptied(Read(side.0.text), !alongside)))
  }

  lemma LockRaised(side: (File, Process), alongside: bool, me: Token, now: nat)
    requires side.1.phase.Idle? && side.0.owner.None?
    ensures Played(side, [Lock(alongside), Raise], me, now) == Some(side)
  {
    hide Read, Left.EndedElsewhere;
    assert [Lock(alongside), Raise] == [Lock(alongside)] + [Raise];
    PlayedFirst(side, Lock(alongside), [Raise], me, now);
  }

  lemma LookRaised(side: (File, Process), alongside: bool, me: Token, now: nat)
    requires side.1.phase.Idle? && side.0.owner.None?
    ensures Played(side, [Lock(alongside), Look, Raise], me, now) == Some(side)
  {
    hide Read, Left.EndedElsewhere;
    assert [Lock(alongside), Look, Raise] == [Lock(alongside)] + [Look, Raise] && [Look, Raise] == [Look] + [Raise];
    PlayedFirst(side, Lock(alongside), [Look, Raise], me, now);
    var locked := Acted(side.0, side.1, Lock(alongside), me, now);
    PlayedFirst(locked, Look, [Raise], me, now);
  }

  lemma JoinOpens(side: (File, Process), alongside: bool, rest: seq<Action>, me: Token, now: nat)
    requires side.1.phase.Idle? && side.0.owner.None?
    ensures Played(side, [Lock(alongside), Look, Empty] + rest, me, now)
         == Played(Opened(side, alongside, me), rest, me, now)
  {
    hide Read, Left.EndedElsewhere, Played;
    var all := [Lock(alongside), Look, Empty] + rest;
    assert all == [Lock(alongside)] + ([Look] + ([Empty] + rest));
    PlayedFirst(side, Lock(alongside), [Look] + ([Empty] + rest), me, now);
    var locked := Acted(side.0, side.1, Lock(alongside), me, now);
    PlayedFirst(locked, Look, [Empty] + rest, me, now);
    var looked := Acted(locked.0, locked.1, Look, me, now);
    PlayedFirst(looked, Empty, rest, me, now);
  }

  lemma SignPlayed(side: (File, Process), alongside: bool, trouble: Trouble, me: Token, now: nat)
    requires side.1.phase.Idle? && side.0.owner.None?
    requires trouble.NoTrouble? || (trouble.Unsigned? && trouble.n <= |HolderLine(me)|)
    ensures var rest := if trouble.Unsigned? then [Sign(Cut(trouble.n, trouble.cutBack))] else [Sign(Whole), Find];
            Played(Opened(side, alongside, me), rest, me, now) ==
            Some(if trouble.Unsigned? then
                   (File("" + Landed(HolderLine(me), Cut(trouble.n, trouble.cutBack)), None), side.1)
                 else
                   (File("" + Landed(HolderLine(me), Whole), Some(me)),
                    Process(Holding(1, !alongside),
                            Noticed(side.1.elsewhere, Read(side.0.text).EndedElsewhere(me, now), now))))
  {
    hide Read, Left.EndedElsewhere, Landed;
    if trouble.NoTrouble? {
      assert [Sign(Whole), Find] == [Sign(Whole)] + [Find];
      PlayedFirst(Opened(side, alongside, me), Sign(Whole), [Find], me, now);
    } else {
      var cut := Sign(Cut(trouble.n, trouble.cutBack));
      assert [cut] == [cut] + [];
      PlayedFirst(Opened(side, alongside, me), cut, [], me, now);
    }
  }

  /** The side a join leaves: what the actions of its attempt come to. */
  lemma JoinPlayed(side: (File, Process), alongside: bool, trouble: Trouble, me: Token, now: nat)
    requires side.1.phase.Idle? && side.0.owner.None?
    requires trouble.Unsigned? ==> trouble.n <= |HolderLine(me)|
    ensures Played(side, JoinActions(side, alongside, trouble), me, now) ==
            Some(match trouble
                 case Unread => side
                 case Unemptied => side
                 case Unsigned(n, cutBack) =>
                   (File("" + Landed(HolderLine(me), Cut(n, cutBack)), None), side.1)
                 case NoTrouble =>
                   (File("" + Landed(HolderLine(me), Whole), Some(me)),
                    Process(Holding(1, !alongside),
                            Noticed(side.1.elsewhere, Read(side.0.text).EndedElsewhere(me, now), now))))
  {
    hide Acted, Enabled, Played, Read, Left.EndedElsewhere, Landed;
    match trouble
    case Unread =>
      LockRaised(side, alongside, me, now);
    case Unemptied =>
      LookRaised(side, alongside, me, now);
    case Unsigned(n, cutBack) =>
      assert JoinActions(side, alongside, trouble) == [Lock(alongside), Look, Empty] + [Sign(Cut(n, cutBack))];
      JoinOpens(side, alongside, [Sign(Cut(n, cutBack))], me, now);
      SignPlayed(side, alongside, trouble, me, now);
    case NoTrouble =>
      assert JoinActions(side, alongside, trouble) == [Lock(alongside), Look, Empty] + [Sign(Whole), Find];
      JoinOpens(side, alongside, [Sign(Whole), Find], me, now);
      SignPlayed(side, alongside, trouble, me, now);
  }

  lemma LeavePlayed(side: (File, Process), alongside: bool, stamped: Landing, me: Token, now: nat)
    requires side.1.phase.Holding? && side.1.phase.holders == 1 && LandsOf(ReleasedLine(now), stamped)
    ensures Played(side, LeaveActions(side, alongside, stamped), me, now) ==
            Some((File(side.0.text + Landed(ReleasedLine(now), stamped), None), side.1.(phase := Idle)))
  {
    var letting := Acted(side.0, side.1, LetGo, me, now);
    assert [LetGo, Stamp(stamped), Unlock] == [LetGo] + [Stamp(stamped), Unlock];
    PlayedFirst(side, LetGo, [Stamp(stamped), Unlock], me, now);
    assert [Stamp(stamped), Unlock] == [Stamp(stamped)] + [Unlock];
    PlayedFirst(letting, Stamp(stamped), [Unlock], me, now);
  }

  /** The side of a process whose thread came in beside those inside, or one of several went out, or was turned away. */
  lemma CountedPlayed(side: (File, Process), alongside: bool, me: Token, now: nat)
    requires side.1.phase.Holding?
    ensures Played(side, [], me, now) == Some(side)
    ensures !(side.1.phase.writing && !alongside) ==>
              Played(side, [Enter(alongside)], me, now)
              == Some((side.0, side.1.(phase := Holding(side.1.phase.holders + 1, side.1.phase.writing || !alongside))))
    ensures side.1.phase.holders > 1 ==>
              Played(side, [LeaveOne(alongside)], me, now)
              == Some((side.0, side.1.(phase := Holding(side.1.phase.holders - 1, side.1.phase.writing && alongside))))
  {
    assert [Enter(alongside)][1..] == [] && [LeaveOne(alongside)][1..] == [];
  }

  /** The key's file as every process of the host meets it: its text, and whose lock is on it. */
  class ClaimFile {
    var text: string
    var owner: Option<Token>

    constructor ()
      ensures text == "" && owner == None
    {
      text, owner := "", None;
    }

    /** Add one whole record, or none: a write that lands part of it is cut back and raised. */
    method Recorded(line: string, landing: Landing) returns (raised: bool)
      requires LandsOf(line, landing)
      modifies this`text
      ensures text == old(text) + Landed(line, landing)
      ensures raised == landing.Cut?
    {
      var record := Record(line);
      var began := |text|;
      match landing {
        case Whole =>
          text := text + record;
          return false;
        case Cut(n, cutBack) =>
          assert record[..n] == line[..n];
          text := text + record[..n];
          if cutBack {
            text := text[..began];
            assert text == old(text) + "";
          }
          return true;
      }
    }
  }

  /** How many of this process's threads are inside the key it has locked, and whether one of them writes. */
  datatype Inside = Inside(holders: nat, writing: bool)

  /** What is held counts the threads inside, says one writes where one came in to write, and never two did. */
  predicate Tells(held: Option<Inside>, modes: Modes) {
    match held
    case None => modes == multiset{}
    case Some(inside) =>
      inside.holders == |modes| && (inside.writing <==> Writer in modes) && modes[Writer] <= 1
  }

  lemma JoinTells(inside: Inside, modes: Modes, alongside: bool)
    requires Tells(Some(inside), modes)
    ensures inside.writing && !alongside <==> !alongside && Writer in modes
    ensures inside.writing ==> Writer in modes
    ensures !(inside.writing && !alongside) ==>
              Tells(Some(Inside(inside.holders + 1, inside.writing || !alongside)), With(modes, alongside))
  {
    OneMore(modes, ModeOf(alongside));
  }

  lemma NobodyIn(modes: Modes)
    requires Tells(None, modes)
    ensures modes == multiset{}
  {
  }

  lemma NobodyTold()
    ensures Tells(None, multiset{})
  {
  }

  lemma FirstTells(alongside: bool)
    ensures Tells(Some(Inside(1, !alongside)), With(multiset{}, alongside))
  {
  }

  lemma LeaveTells(inside: Inside, modes: Modes, alongside: bool)
    requires inside.holders >= 1 && Tells(Some(inside), modes) && ModeOf(alongside) in modes
    ensures var left := Without(modes, alongside);
            if inside.holders == 1 then left == multiset{}
            else left != multiset{} && Tells(Some(Inside(inside.holders - 1, inside.writing && alongside)), left)
  {
    OneFewer(modes, ModeOf(alongside));
  }

  class Holdings {
    const token: Token
    const file: ClaimFile
    var held: Option<Inside>
    var elsewhere: Option<nat>
    ghost var modes: Modes   // how each thread inside came in

    ghost predicate Valid()
      reads this, file
    {
      && (held.Some? ==> file.owner == Some(token) && held.value.holders >= 1)
      && (held.None? ==> file.owner != Some(token))
    }

    /** This process's side of the protocol. */
    function Side(): (File, Process)
      reads this, file
    {
      (File(file.text, file.owner),
       Process(if held.Some? then Holding(held.value.holders, held.value.writing) else Idle, elsewhere))
    }

    constructor (token: Token, file: ClaimFile)
      requires file.owner != Some(token)
      ensures this.token == token && this.file == file
      ensures Valid() && Side() == (File(file.text, file.owner), Process(Idle, None))
      ensures modes == multiset{} && Tells(held, modes)
    {
      this.token, this.file, this.held, this.elsewhere, modes := token, file, None, None, multiset{};
    }

    /** `_found`: what the leavings say of another process's end, kept where it is the latest yet. */
    method Found(left: Left, now: nat)
      modifies this`elsewhere
      ensures elsewhere == Noticed(old(elsewhere), left.EndedElsewhere(token, now), now)
    {
      var ended := left.EndedElsewhere(token, now);
      if ended.Some? && ended.value <= now {
        if elsewhere.None? || elsewhere.value < ended.value {
          elsewhere := ended;
        }
      }
    }

    /** A fresh lock of the key, taken for one thread, or why it was not. */
    method Take(alongside: bool, now: nat, trouble: Trouble) returns (answer: Answer)
      requires Valid() && held.None? && (trouble.Unsigned? ==> trouble.n <= |HolderLine(token)|)
      modifies this`held, this`elsewhere, this`modes, file
      ensures Valid()
      ensures modes == if answer.Granted? then With(old(modes), alongside) else old(modes)
      ensures held == if answer.Granted? then Some(Inside(1, !alongside)) else None
      ensures answer == if old(file.owner).Some? then HeldElsewhere else if trouble.NoTrouble? then Granted else Raised
      ensures Played(old(Side()), JoinActions(old(Side()), alongside, trouble), token, now) == Some(Side())
    {
      if file.owner.Some? {
        return HeldElsewhere;
      }
      JoinPlayed(Side(), alongside, trouble, token, now);
      file.owner := Some(token);
      if trouble.Unread? {
        file.owner := None;
        return Raised;
      }
      var left := Read(file.text);
      if trouble.Unemptied? {
        file.owner := None;
        return Raised;
      }
      file.text := "";
      var landing := if trouble.Unsigned? then Cut(trouble.n, trouble.cutBack) else Whole;
      var raised := file.Recorded(HolderLine(token), landing);
      if raised {
        file.owner := None;
        return Raised;
      }
      Found(left, now);
      held := Some(Inside(1, !alongside));
      modes := With(modes, alongside);
      answer := Granted;
    }

    /** One thread comes in: counted beside those inside, by a fresh lock, or turned away. */
    method Join(alongside: bool, now: nat, trouble: Trouble) returns (answer: Answer)
      requires Valid() && (trouble.Unsigned? ==> trouble.n <= |HolderLine(token)|)
      modifies this`held, this`elsewhere, this`modes, file
      ensures Valid()
      ensures modes == if answer.Granted? then With(old(modes), alongside) else old(modes)
      ensures old(Tells(held, modes)) ==>
                && Tells(held, modes)
                && (old(held).Some? ==> answer == if !alongside && Writer in old(modes) then HeldHere else Granted)
      ensures old(held).None? ==>
                answer == if old(file.owner).Some? then HeldElsewhere
                          else if trouble.NoTrouble? then Granted else Raised
      ensures answer == JoinAnswer(old(Side()), alongside, trouble)
      ensures Played(old(Side()), JoinActions(old(Side()), alongside, trouble), token, now) == Some(Side())
    {
      hide Tells, Played, With, Without;
      if held.None? {
        if Tells(held, modes) {
          assert modes == multiset{} by { NobodyIn(modes); }
          FirstTells(alongside);
        }
        answer := Take(alongside, now, trouble);
        return;
      }
      if Tells(held, modes) {
        JoinTells(held.value, modes, alongside);
      }
      CountedPlayed(Side(), alongside, token, now);
      if held.value.writing && !alongside {
        return HeldHere;
      }
      held := Some(Inside(held.value.holders + 1, held.value.writing || !alongside));
      modes := With(modes, alongside);
      answer := Granted;
    }

    /** One note on the key, written only under a writer of this process: False and no write otherwise. */
    method Noted(cycle: int, now: nat, landing: Landing) returns (wrote: bool, raised: bool)
      requires Valid() && LandsOf(RetiringLine(cycle), landing)
      modifies file`text
      ensures Valid() && (Tells(held, modes) ==> (wrote || raised <==> Writer in modes))
      ensures wrote <==> held.Some? && held.value.writing && landing.Whole?
      ensures raised <==> held.Some? && held.value.writing && landing.Cut?
      ensures var writes := held.Some? && held.value.writing;
              Played(old(Side()), if writes then [Note(cycle, landing)] else [], token, now) == Some(Side())
    {
      if held.None? || !held.value.writing {
        return false, false;
      }
      raised := file.Recorded(RetiringLine(cycle), landing);
      wrote := !raised;
    }

    /** The release stamped, where that lands, and the lock let go. */
    method LetGoLast(now: nat, landing: Landing)
      requires Valid() && held.Some? && held.value.holders == 1 && LandsOf(ReleasedLine(now), landing)
      modifies this`held, file
      ensures Valid() && held.None?
      ensures Played(old(Side()), [LetGo, Stamp(landing), Unlock], token, now) == Some(Side())
    {
      hide Landed, Played;
      LeavePlayed(Side(), false, landing, token, now);
      held := None;
      var _ := file.Recorded(ReleasedLine(now), landing);
      file.owner := None;
    }

    /** One thread goes out; behind the last of them the release is stamped, where that lands, and the lock let go. */
    method Leave(alongside: bool, now: nat, landing: Landing)
      requires Valid() && held.Some? && LandsOf(ReleasedLine(now), landing)
      modifies this`held, this`modes, file
      ensures Valid()
      ensures modes == Without(old(modes), alongside)
      ensures old(Tells(held, modes)) && ModeOf(alongside) in old(modes) ==>
                Tells(held, modes) && (held.None? <==> modes == multiset{})
      ensures Played(old(Side()), LeaveActions(old(Side()), alongside, landing), token, now) == Some(Side())
      ensures held.None? <==> old(held).value.holders == 1
    {
      hide Tells, Played, Landed, With, Without;
      CountedPlayed(Side(), alongside, token, now);
      if Tells(held, modes) && ModeOf(alongside) in modes {
        LeaveTells(held.value, modes, alongside);
        NobodyTold();
      }
      modes := Without(modes, alongside);
      var holders := held.value.holders - 1;
      if holders > 0 {
        held := Some(Inside(holders, held.value.writing && alongside));
        return;
      }
      LetGoLast(now, landing);
    }

    /** Whether the latest end of another's known here is before `moment`. */
    method Undisturbed(moment: nat) returns (undisturbed: bool)
      requires Valid()
      ensures undisturbed <==> UndisturbedSince(Side().1, moment)
    {
      undisturbed := elsewhere.None? || elsewhere.value < moment;
    }
  }

  // ----- A method's actions on a host with others on it

  function Ran(h: Host, steps: seq<Step>): Option<Host>
    decreases |steps|
  {
    if steps == [] then Some(h)
    else if CanStep(h, steps[0]) then Ran(Next(h, steps[0]), steps[1..])
    else None
  }

  /** A step of another process, or of the clock. */
  predicate OfOthers(step: Step, t: Token) {
    match step
    case Start(_) => true
    case Act(actor, _) => actor != t
    case Die(dying) => dying != t
    case Tick(_) => true
    case Restart => false
  }

  predicate ByOthers(steps: seq<Step>, t: Token) { forall step | step in steps :: OfOthers(step, t) }

  /** The actions that read the clock. */
  predicate Timed(a: Action) { a.Find? || a.LetGo? }

  /** Whether a process's action meets what it was played on: the file it locks, the moment it reads. */
  predicate MetAs(h: Host, a: Action, file: File, now: nat) {
    (a.Lock? ==> h.file == file) && (Timed(a) ==> h.clock == now)
  }

  /** How actions went with others' steps ahead of each: not met as played, an action not possible, or a run. */
  datatype Woven = Parted | Stuck | Done(host: Host, steps: seq<Step>)

  function Weave(h: Host, t: Token, side: (File, Process), between: seq<seq<Step>>, actions: seq<Action>, now: nat)
    : Woven
    requires |between| == |actions| && Played(side, actions, t, now).Some?
    decreases |actions|
  {
    if actions == [] then Done(h, [])
    else
      var met, step := Ran(h, between[0]), Act(t, actions[0]);
      if met.None? || !ByOthers(between[0], t) || !MetAs(met.value, actions[0], side.0, now) then Parted
      else if !CanStep(met.value, step) then Stuck
      else
        var next := Acted(side.0, side.1, actions[0], t, now);
        var rest := Weave(Next(met.value, step), t, next, between[1..], actions[1..], now);
        if rest.Done? then Done(rest.host, between[0] + [step] + rest.steps) else rest
  }

  lemma OwnerAlone(h: Host, t: Token)
    requires Inv(h) && t in h.processes
    ensures t in h.born && (h.processes[t].phase.Idle? <==> h.file.owner != Some(t))
  {
    hide Ordered, Written, InTurn, Known, Recognized, LookedAt;
  }

  lemma OthersAct(h: Host, t: Token, u: Token, a: Action)
    requires Inv(h) && t in h.processes && u in h.processes && u != t && Enabled(h.file, h.processes[u], a, u)
    ensures h.processes[t].phase.Idle?
  {
    hide Inv;
    OwnerAlone(h, t);
    OwnerAlone(h, u);
  }

  /** Others leave a process as it is, and the file too while it is inside its claim. */
  lemma OthersStep(h: Host, t: Token, step: Step)
    requires Inv(h) && t in h.processes && CanStep(h, step) && OfOthers(step, t)
    ensures var n := Next(h, step);
            && t in n.processes && n.processes[t] == h.processes[t]
            && (!h.processes[t].phase.Idle? ==> n.file == h.file)
  {
    hide Inv, TurnsAfter, Acted, Ended, Enabled;
    OwnerAlone(h, t);
    if step.Act? {
      OthersAct(h, t, step.actor, step.action);
    } else if step.Die? {
      OwnerAlone(h, step.dying);
    }
  }

  lemma {:induction false} OthersRun(h: Host, t: Token, steps: seq<Step>)
    requires Inv(h) && t in h.processes && Ran(h, steps).Some? && ByOthers(steps, t)
    ensures var n := Ran(h, steps).value;
            && Inv(n) && t in n.processes && n.processes[t] == h.processes[t]
            && (!h.processes[t].phase.Idle? ==> n.file == h.file)
    decreases |steps|
  {
    hide Inv, CanStep, Next, OfOthers;
    if steps != [] {
      assert steps[0] in steps && forall step | step in steps[1..] :: step in steps;
      StepKeeps(h, steps[0]);
      OthersStep(h, t, steps[0]);
      OthersRun(Next(h, steps[0]), t, steps[1..]);
    }
  }

  /** An action met as it was played is possible, and does what it did there. */
  lemma ActionMet(h: Host, t: Token, side: (File, Process), a: Action, now: nat)
    requires t in h.processes && h.processes[t] == side.1 && (!side.1.phase.Idle? ==> h.file == side.0)
    requires Enabled(side.0, side.1, a, t) && MetAs(h, a, side.0, now)
    ensures CanStep(h, Act(t, a))
    ensures var n, next := Next(h, Act(t, a)), Acted(side.0, side.1, a, t, now);
            t in n.processes && n.processes[t] == next.1 && n.file == next.0
  {
    hide Read, Landed, TurnsAfter, Noticed, Left.EndedElsewhere;
  }

  lemma {:induction false} WovenRun(h: Host, t: Token, side: (File, Process), between: seq<seq<Step>>,
                                    actions: seq<Action>, now: nat)
    requires Inv(h) && t in h.processes && |between| == |actions|
    requires h.processes[t] == side.1 && (!side.1.phase.Idle? ==> h.file == side.0)
    requires Played(side, actions, t, now).Some?
    ensures var woven, after := Weave(h, t, side, between, actions, now), Played(side, actions, t, now).value;
            && !woven.Stuck?
            && (woven.Done? ==>
                  && Ran(h, woven.steps) == Some(woven.host)
                  && t in woven.host.processes && woven.host.processes[t] == after.1
                  && (actions != [] ==> woven.host.file == after.0))
    decreases |actions|
  {
    hide Inv, CanStep, Next, Acted, Enabled, MetAs, ByOthers;
    if actions != [] {
      var a, met := actions[0], Ran(h, between[0]);
      if met.Some? && ByOthers(between[0], t) && MetAs(met.value, a, side.0, now) {
        OthersRun(h, t, between[0]);
        ActionMet(met.value, t, side, a, now);
        StepKeeps(met.value, Act(t, a));
        var n, next := Next(met.value, Act(t, a)), Acted(side.0, side.1, a, t, now);
        WovenRun(n, t, next, between[1..], actions[1..], now);
        var rest := Weave(n, t, next, between[1..], actions[1..], now);
        if rest.Done? {
          RanThrough(h, between[0], Act(t, a), rest.steps);
        }
      }
    }
  }

  /** With nothing between them, actions played on the host as it stands go through. */
  lemma {:induction false} PlayedAtOnce(h: Host, t: Token, actions: seq<Action>)
    requires Inv(h) && t in h.processes && Played((h.file, h.processes[t]), actions, t, h.clock).Some?
    ensures Weave(h, t, (h.file, h.processes[t]), seq(|actions|, _ => []), actions, h.clock).Done?
    decreases |actions|
  {
    hide Inv, CanStep, Acted, Enabled;
    if actions != [] {
      var side, between := (h.file, h.processes[t]), seq(|actions|, _ => []);
      assert ByOthers([], t) && Ran(h, between[0]) == Some(h) && between[1..] == seq(|actions[1..]|, _ => []);
      ActionMet(h, t, side, actions[0], h.clock);
      StepKeeps(h, Act(t, actions[0]));
      PlayedAtOnce(Next(h, Act(t, actions[0])), t, actions[1..]);
    }
  }

  lemma {:induction false} RanOn(h: Host, steps: seq<Step>, more: seq<Step>)
    requires Ran(h, steps).Some?
    ensures Ran(h, steps + more) == Ran(Ran(h, steps).value, more)
    decreases |steps|
  {
    hide CanStep, Next;
    if steps == [] {
      assert steps + more == more;
    } else {
      assert (steps + more)[1..] == steps[1..] + more;
      RanOn(Next(h, steps[0]), steps[1..], more);
    }
  }

  lemma RanThrough(h: Host, first: seq<Step>, step: Step, rest: seq<Step>)
    requires Ran(h, first).Some? && CanStep(Ran(h, first).value, step)
    ensures Ran(h, first + [step] + rest) == Ran(Next(Ran(h, first).value, step), rest)
  {
    hide CanStep, Next;
    RanOn(h, first, [step] + rest);
    assert first + [step] + rest == first + ([step] + rest);
    assert ([step] + rest)[1..] == rest;
  }

  lemma {:induction false} ReachedOn(run: seq<Step>, steps: seq<Step>)
    requires Reached(run).Some? && Ran(Reached(run).value, steps).Some?
    ensures Reached(run + steps) == Ran(Reached(run).value, steps)
    decreases |steps|
  {
    hide CanStep, Next;
    if steps == [] {
      assert run + steps == run;
    } else {
      var on := run + [steps[0]];
      assert on[..|on| - 1] == run && on[|on| - 1] == steps[0];
      ReachedOn(on, steps[1..]);
      assert run + steps == on + steps[1..];
    }
  }

  /**
   What a method plays over a process's side is a run of the host it is on, whatever other processes do and however the
   clock moves between its actions: so long as a lock finds the file the method found, and what reads the clock the
   moment it read, no action is ever stuck, and the process and its file end as they were played.
   */
  lemma PlayedOnHost(run: seq<Step>, t: Token, side: (File, Process), between: seq<seq<Step>>, actions: seq<Action>,
                     now: nat)
    requires Reached(run).Some? && t in Reached(run).value.processes && |between| == |actions|
    requires var h := Reached(run).value; h.processes[t] == side.1 && (!side.1.phase.Idle? ==> h.file == side.0)
    requires Played(side, actions, t, now).Some?
    ensures var woven := Weave(Reached(run).value, t, side, between, actions, now);
            var after := Played(side, actions, t, now).value;
            && !woven.Stuck?
            && (woven.Done? ==>
                  && Reached(run + woven.steps) == Some(woven.host)
                  && t in woven.host.processes && woven.host.processes[t] == after.1
                  && (actions != [] ==> woven.host.file == after.0))
  {
    hide Inv, Weave, Played;
    var h := Reached(run).value;
    ReachedInv(run);
    WovenRun(h, t, side, between, actions, now);
    var woven := Weave(h, t, side, between, actions, now);
    if woven.Done? {
      ReachedOn(run, woven.steps);
    }
  }
}
