/**
 The issue writer claim as every process of a host takes it: one exclusive lock per key, over the
 file whose text `ClaimRecords` reads.

 An action is one thing a process does under its claim, each of them a moment at which another
 process may act, the clock may move, or the process may die. A host also starts processes,
 loses them, and restarts: the clock begins again, every process is gone, the file stays.
 */
module ClaimProtocol {
  import opened Text
  import opened Decimal
  import opened ClaimRecords

  datatype Phase =
    | Idle
    | Locked(writing: bool)
    | Looked(left: Left, writing: bool)
    | Emptied(left: Left, writing: bool)
    | Signed(left: Left, writing: bool)
    | Holding(holders: nat, writing: bool)
    | LettingGo(stamp: nat)
    | Stamped

  /** One process's side: where it is, and the latest end of another's hold it has found. */
  datatype Process = Process(phase: Phase, elsewhere: Option<nat>)

  datatype File = File(text: string, owner: Option<Token>)

  /** How a record's write came out: whole, or its first `n` characters, cut back or left. */
  datatype Landing = Whole | Cut(n: nat, cutBack: bool)

  datatype Action =
    | Lock(alongside: bool)
    | Look
    | Raise
    | Empty
    | Sign(signed: Landing)
    | Find
    | Enter(beside: bool)
    | Note(cycle: int, noted: Landing)
    | LeaveOne(alsoBeside: bool)
    | LetGo
    | Stamp(stamped: Landing)
    | Unlock

  predicate LandsOf(line: string, landing: Landing) {
    landing.Cut? ==> landing.n <= |line|
  }

  /** What a write of `line` leaves on the file: all of it with its line end, nothing, or its cut remains. */
  function Landed(line: string, landing: Landing): string
    requires LandsOf(line, landing)
  {
    match landing
    case Whole => Record(line)
    case Cut(n, cutBack) => if cutBack then "" else line[..n]
  }

  predicate Enabled(f: File, p: Process, a: Action, me: Token) {
    match a
    case Lock(_) => p.phase.Idle? && f.owner.None?
    case Look => p.phase.Locked?
    case Raise => p.phase.Locked? || p.phase.Looked?
    case Empty => p.phase.Looked?
    case Sign(landing) => p.phase.Emptied? && LandsOf(HolderLine(me), landing)
    case Find => p.phase.Signed?
    case Enter(beside) => p.phase.Holding? && !(p.phase.writing && !beside)
    case Note(cycle, landing) => p.phase.Holding? && p.phase.writing && LandsOf(RetiringLine(cycle), landing)
    case LeaveOne(_) => p.phase.Holding? && p.phase.holders > 1
    case LetGo => p.phase.Holding? && p.phase.holders == 1
    case Stamp(landing) => p.phase.LettingGo? && LandsOf(ReleasedLine(p.phase.stamp), landing)
    case Unlock => p.phase.Stamped?
  }

  /**
   What finding `ended` at `now` leaves a process knowing: nothing new of its own hold or of an earlier boot's
   stamp.
   */
  function Noticed(known: Option<nat>, ended: Option<nat>, now: nat): Option<nat> {
    if ended.None? || ended.value > now then known
    else if known.None? || known.value < ended.value then ended
    else known
  }

  function Acted(f: File, p: Process, a: Action, me: Token, now: nat): (File, Process)
    requires Enabled(f, p, a, me)
  {
    match a
    case Lock(alongside) => (f.(owner := Some(me)), p.(phase := Locked(!alongside)))
    case Look => (f, p.(phase := Looked(Read(f.text), p.phase.writing)))
    case Raise => (f.(owner := None), p.(phase := Idle))
    case Empty => (f.(text := ""), p.(phase := Emptied(p.phase.left, p.phase.writing)))
    case Sign(landing) =>
      var text := f.text + Landed(HolderLine(me), landing);
      if landing.Whole? then (f.(text := text), p.(phase := Signed(p.phase.left, p.phase.writing)))
      else (File(text, None), p.(phase := Idle))
    case Find =>
      (f, Process(Holding(1, p.phase.writing),
                  Noticed(p.elsewhere, p.phase.left.EndedElsewhere(me, now), now)))
    case Enter(beside) => (f, p.(phase := Holding(p.phase.holders + 1, p.phase.writing || !beside)))
    case Note(cycle, landing) => (f.(text := f.text + Landed(RetiringLine(cycle), landing)), p)
    case LeaveOne(beside) => (f, p.(phase := Holding(p.phase.holders - 1, p.phase.writing && beside)))
    case LetGo => (f, p.(phase := LettingGo(now)))
    case Stamp(landing) =>
      (f.(text := f.text + Landed(ReleasedLine(p.phase.stamp), landing)), p.(phase := Stamped))
    case Unlock => (f.(owner := None), p.(phase := Idle))
  }

  /** `_Holdings.undisturbed_since`: every hold of another process found here ended before `moment`. */
  predicate UndisturbedSince(p: Process, moment: nat) {
    p.elsewhere.None? || p.elsewhere.value < moment
  }

  // ----- The host: every process, the clock, and a history of the holds there have been

  /** One hold in the history, from its process emptying the file, signed or not. */
  datatype Turn = Turn(hold: Hold, boot: nat, began: nat)

  datatype Host = Host(
    file: File,
    clock: nat,
    boot: nat,
    processes: map<Token, Process>,
    born: set<Token>,
    turns: seq<Turn>,
    seen: map<Token, nat>)   // how many turns each process had behind it when it last took the claim

  datatype Step =
    | Start(newborn: Token)
    | Act(actor: Token, action: Action)
    | Die(dying: Token)
    | Tick(elapsed: nat)
    | Restart

  const Fresh := Host(File("", None), 0, 0, map[], {}, [], map[])

  predicate CanStep(h: Host, step: Step) {
    match step
    case Start(t) => t !in h.born
    case Act(t, a) => t in h.processes && Enabled(h.file, h.processes[t], a, t)
    case Die(t) => t in h.processes
    case Tick(_) => true
    case Restart => true
  }

  /** The history with its latest hold changed. */
  function Latest(turns: seq<Turn>, hold: Hold): (changed: seq<Turn>)
    requires |turns| > 0
    ensures |changed| == |turns|
  {
    turns[..|turns| - 1] + [turns[|turns| - 1].(hold := hold)]
  }

  function LastHold(turns: seq<Turn>): Hold
    requires |turns| > 0
  {
    turns[|turns| - 1].hold
  }

  /** Whether a process in `phase` is inside a hold that has not ended. */
  predicate Standing(phase: Phase) {
    phase.Emptied? || phase.Signed? || phase.Holding?
  }

  function Ended(turns: seq<Turn>, at: nat): seq<Turn> {
    if turns == [] then [] else Latest(turns, LastHold(turns).(ended := Some(at)))
  }

  function TurnsAfter(h: Host, t: Token, a: Action): seq<Turn> {
    match a
    case Empty => h.turns + [Turn(Hold(t, [], None), h.boot, h.clock)]
    case Sign(Cut(_, _)) => Ended(h.turns, h.clock)
    case Note(cycle, Whole) =>
      if h.turns == [] then [] else Latest(h.turns, LastHold(h.turns).(notes := LastHold(h.turns).notes + [cycle]))
    case LetGo => Ended(h.turns, h.clock)
    case _ => h.turns
  }

  function Next(h: Host, step: Step): Host
    requires CanStep(h, step)
  {
    match step
    case Start(t) =>
      h.(processes := h.processes[t := Process(Idle, None)], born := h.born + {t}, seen := h.seen[t := 0])
    case Act(t, a) =>
      var (file, process) := Acted(h.file, h.processes[t], a, t, h.clock);
      h.(file := file, processes := h.processes[t := process], turns := TurnsAfter(h, t, a),
         seen := if a.Find? then h.seen[t := |h.turns|] else h.seen)
    case Die(t) =>
      h.(file := if h.file.owner == Some(t) then h.file.(owner := None) else h.file,
         processes := h.processes - {t}, seen := h.seen - {t},
         turns := if Standing(h.processes[t].phase) then Ended(h.turns, h.clock) else h.turns)
    case Tick(elapsed) => h.(clock := h.clock + elapsed)
    case Restart =>
      h.(file := h.file.(owner := None), clock := 0, boot := h.boot + 1, processes := map[], seen := map[],
         turns := if OpenTurn(h) then Ended(h.turns, h.clock) else h.turns)
  }

  predicate OpenTurn(h: Host) {
    h.file.owner.Some? && h.file.owner.value in h.processes && Standing(h.processes[h.file.owner.value].phase)
  }

  /** The host a run of steps leads to from a namespace never used, or None where a step could not be taken. */
  function Reached(steps: seq<Step>): Option<Host>
    decreases |steps|
  {
    if steps == [] then Some(Fresh)
    else
      var before := Reached(steps[..|steps| - 1]);
      var step := steps[|steps| - 1];
      if before.Some? && CanStep(before.value, step) then Some(Next(before.value, step)) else None
  }

  // ----- What every step keeps

  ghost predicate Owned(h: Host) {
    && h.processes.Keys == h.seen.Keys && h.processes.Keys <= h.born
    && (forall t | t in h.processes :: h.processes[t].phase.Idle? <==> h.file.owner != Some(t))
    && (h.file.owner.Some? ==> h.file.owner.value in h.processes)
  }

  /** Turns follow one another: each ended before the next began, on one boot's clock. */
  ghost predicate Ordered(h: Host) {
    && (forall i | 0 <= i < |h.turns| ::
          && h.turns[i].hold.token in h.born
          && h.turns[i].boot <= h.boot
          && (h.turns[i].boot == h.boot ==> h.turns[i].began <= h.clock)
          && (h.turns[i].hold.ended.Some? || (i == |h.turns| - 1 && OpenTurn(h)))
          && (h.turns[i].hold.ended.Some? && h.turns[i].boot == h.boot
              ==> h.turns[i].began <= h.turns[i].hold.ended.value <= h.clock))
    && (forall i, j | 0 <= i < j < |h.turns| ::
          && h.turns[i].boot <= h.turns[j].boot
          && (h.turns[i].boot == h.turns[j].boot
              ==> h.turns[i].hold.ended.Some? && h.turns[i].hold.ended.value <= h.turns[j].began))
  }

  ghost predicate Written(h: Host) {
    || Unsigned(h.file.text)
    || (|h.turns| > 0 && Describes(h.file.text, LastHold(h.turns)))
  }

  /** A process past emptying the file is in the latest turn, and the file is as far as it has written it. */
  ghost predicate InTurn(h: Host)
    requires Owned(h)
  {
    h.file.owner.Some? ==>
      var t := h.file.owner.value;
      var phase := h.processes[t].phase;
      && (phase.Emptied? || phase.Signed? || phase.Holding? || phase.LettingGo? || phase.Stamped?
          ==> |h.turns| > 0 && LastHold(h.turns).token == t)
      && (Standing(phase) ==> LastHold(h.turns).ended.None? && h.turns[|h.turns| - 1].boot == h.boot)
      && (phase.Emptied? ==> h.file.text == "")
      && (phase.Signed? || phase.Holding? || phase.LettingGo? || phase.Stamped?
          ==> Describes(h.file.text, LastHold(h.turns)))
      && (phase.LettingGo? ==> LastHold(h.turns).ended == Some(phase.stamp))
      && (phase.Holding? || phase.LettingGo? || phase.Stamped? ==> h.seen[t] == |h.turns|)
      && (phase.Holding? ==> phase.holders >= 1)
  }

  /** `elsewhere` is no sooner than any other process's end among the first `n` turns of this boot. */
  ghost predicate Covers(h: Host, t: Token, elsewhere: Option<nat>, n: nat) {
    n <= |h.turns| &&
    forall i | 0 <= i < n && h.turns[i].boot == h.boot && h.turns[i].hold.token != t ::
      && h.turns[i].hold.ended.Some? && elsewhere.Some?
      && h.turns[i].hold.ended.value <= elsewhere.value
  }

  ghost predicate Known(h: Host)
    requires Owned(h)
  {
    forall t | t in h.processes :: Covers(h, t, h.processes[t].elsewhere, h.seen[t])
  }

  predicate Signing(phase: Phase) {
    phase.Emptied? || phase.Signed?
  }

  /** A file this live process signed was left by its own latest hold, and it has seen every turn before that. */
  ghost predicate Recognized(h: Host)
    requires Owned(h)
  {
    forall t | t in h.processes && !Signing(h.processes[t].phase) && !Unsigned(h.file.text)
               && |h.turns| > 0 && LastHold(h.turns).token == t ::
      h.seen[t] == |h.turns|
  }

  /** Whatever the leavings are read as from now on, they end no sooner than any of the first `n` turns. */
  ghost predicate Answers(h: Host, t: Token, left: Left, n: nat)
    requires Owned(h) && t in h.processes
  {
    && n <= |h.turns|
    && forall now: nat {:trigger left.EndedElsewhere(t, now)} | h.clock <= now ::
      var ended := left.EndedElsewhere(t, now);
      && (ended.None? ==> h.seen[t] >= n)
      && (ended.Some? ==>
            forall i | 0 <= i < n && h.turns[i].boot == h.boot ::
              && h.turns[i].hold.ended.Some?
              && h.turns[i].hold.ended.value <= ended.value <= now)
  }

  ghost predicate LookedAt(h: Host)
    requires Owned(h)
  {
    h.file.owner.Some? ==>
      var t := h.file.owner.value;
      var phase := h.processes[t].phase;
      && (phase.Looked? ==> Answers(h, t, phase.left, |h.turns|))
      && (phase.Emptied? || phase.Signed? ==> |h.turns| > 0 && Answers(h, t, phase.left, |h.turns| - 1))
  }

  ghost predicate Inv(h: Host) {
    Owned(h) && Ordered(h) && Written(h) && InTurn(h) && Known(h) && Recognized(h) && LookedAt(h)
  }

  lemma FreshInv()
    ensures Inv(Fresh)
  {
  }

  // ----- Each step keeps it

  lemma LastBorn(h: Host)
    requires Ordered(h)
    ensures |h.turns| > 0 ==> LastHold(h.turns).token in h.born
  {
  }

  lemma StartStands(h: Host, t: Token)
    requires Inv(h) && CanStep(h, Start(t))
    ensures var n := Next(h, Start(t)); Owned(n) && Ordered(n) && Written(n) && InTurn(n)
  {
    hide Describes, Read, Left.EndedElsewhere, Unsigned, Landed, Known, Recognized, LookedAt;
  }

  lemma StartKnown(h: Host, t: Token)
    requires Inv(h) && CanStep(h, Start(t)) && Owned(Next(h, Start(t)))
    ensures var n := Next(h, Start(t)); Known(n) && Recognized(n) && LookedAt(n)
  {
    hide Describes, Read, Left.EndedElsewhere, Unsigned, Landed, Ordered, Written, InTurn;
    LastBorn(h);
  }

  lemma StartKeeps(h: Host, t: Token)
    requires Inv(h) && CanStep(h, Start(t))
    ensures Inv(Next(h, Start(t)))
  {
    hide Next, CanStep, Owned, Ordered, Written, InTurn, Known, Recognized, LookedAt;
    StartStands(h, t);
    StartKnown(h, t);
  }

  lemma TickKeeps(h: Host, elapsed: nat)
    requires Inv(h)
    ensures Inv(Next(h, Tick(elapsed)))
  {
    var n := Next(h, Tick(elapsed));
    assert Owned(n) && Ordered(n);
  }

  lemma LockStands(h: Host, t: Token, alongside: bool)
    requires Inv(h) && CanStep(h, Act(t, Lock(alongside)))
    ensures var n := Next(h, Act(t, Lock(alongside))); Owned(n) && Ordered(n) && Written(n) && InTurn(n)
  {
    hide Describes, Read, Left.EndedElsewhere, Unsigned, Landed, Known, Recognized, LookedAt;
  }

  lemma LockKnown(h: Host, t: Token, alongside: bool)
    requires Inv(h) && CanStep(h, Act(t, Lock(alongside))) && Owned(Next(h, Act(t, Lock(alongside))))
    ensures var n := Next(h, Act(t, Lock(alongside))); Known(n) && Recognized(n) && LookedAt(n)
  {
    hide Describes, Read, Left.EndedElsewhere, Unsigned, Landed, Ordered, Written;
  }

  lemma LockKeeps(h: Host, t: Token, alongside: bool)
    requires Inv(h) && CanStep(h, Act(t, Lock(alongside)))
    ensures Inv(Next(h, Act(t, Lock(alongside))))
  {
    hide Next, CanStep, Owned, Ordered, Written, InTurn, Known, Recognized, LookedAt;
    LockStands(h, t, alongside);
    LockKnown(h, t, alongside);
  }

  lemma EndedBefore(h: Host, i: int)
    requires Ordered(h) && 0 <= i < |h.turns| && !OpenTurn(h)
    requires h.turns[i].boot == h.boot
    ensures h.turns[|h.turns| - 1].boot == h.boot
    ensures h.turns[i].hold.ended.Some? && LastHold(h.turns).ended.Some?
    ensures h.turns[i].hold.ended.value <= LastHold(h.turns).ended.value <= h.clock
  {
  }

  /** What a process reads under the lock answers for every turn there has been. */
  lemma LookAnswers(h: Host, t: Token)
    requires Inv(h) && h.file.owner == Some(t) && h.processes[t].phase.Locked?
    ensures Answers(h, t, Read(h.file.text), |h.turns|)
  {
    var left := Read(h.file.text);
    if Unsigned(h.file.text) {
      UnsignedRead(h.file.text);
    } else {
      DescribedRead(h.file.text, LastHold(h.turns));
    }
    forall now: nat | h.clock <= now
      ensures var ended := left.EndedElsewhere(t, now);
              && (ended.None? ==> h.seen[t] >= |h.turns|)
              && (ended.Some? ==> forall i | 0 <= i < |h.turns| && h.turns[i].boot == h.boot ::
                    && h.turns[i].hold.ended.Some?
                    && h.turns[i].hold.ended.value <= ended.value <= now)
    {
      forall i | 0 <= i < |h.turns| && h.turns[i].boot == h.boot
        ensures h.turns[i].hold.ended.Some? && LastHold(h.turns).ended.Some?
        ensures h.turns[i].hold.ended.value <= LastHold(h.turns).ended.value <= h.clock
      {
        EndedBefore(h, i);
      }
    }
  }

  lemma LookStands(h: Host, t: Token)
    requires Inv(h) && CanStep(h, Act(t, Look))
    ensures var n := Next(h, Act(t, Look)); Owned(n) && Ordered(n) && Written(n) && InTurn(n)
  {
    hide Describes, Read, Left.EndedElsewhere, Unsigned, Landed, Known, Recognized, LookedAt;
  }

  lemma LookKnown(h: Host, t: Token)
    requires Inv(h) && CanStep(h, Act(t, Look)) && Owned(Next(h, Act(t, Look)))
    ensures var n := Next(h, Act(t, Look)); Known(n) && Recognized(n) && LookedAt(n)
  {
    hide Describes, Read, Left.EndedElsewhere, Unsigned, Landed, Ordered, Written, InTurn;
    LookAnswers(h, t);
  }

  lemma LookKeeps(h: Host, t: Token)
    requires Inv(h) && CanStep(h, Act(t, Look))
    ensures Inv(Next(h, Act(t, Look)))
  {
    hide Next, CanStep, Owned, Ordered, Written, InTurn, Known, Recognized, LookedAt;
    LookStands(h, t);
    LookKnown(h, t);
  }

  lemma RaiseStands(h: Host, t: Token)
    requires Inv(h) && CanStep(h, Act(t, Raise))
    ensures var n := Next(h, Act(t, Raise)); Owned(n) && Ordered(n) && Written(n) && InTurn(n)
  {
    hide Describes, Read, Left.EndedElsewhere, Unsigned, Landed, Known, Recognized, LookedAt;
  }

  lemma RaiseKnown(h: Host, t: Token)
    requires Inv(h) && CanStep(h, Act(t, Raise)) && Owned(Next(h, Act(t, Raise)))
    ensures var n := Next(h, Act(t, Raise)); Known(n) && Recognized(n) && LookedAt(n)
  {
    hide Describes, Read, Left.EndedElsewhere, Unsigned, Landed, Ordered, Written;
  }

  lemma RaiseKeeps(h: Host, t: Token)
    requires Inv(h) && CanStep(h, Act(t, Raise))
    ensures Inv(Next(h, Act(t, Raise)))
  {
    hide Next, CanStep, Owned, Ordered, Written, InTurn, Known, Recognized, LookedAt;
    RaiseStands(h, t);
    RaiseKnown(h, t);
  }

  lemma EmptyStands(h: Host, t: Token)
    requires Inv(h) && CanStep(h, Act(t, Empty))
    ensures var n := Next(h, Act(t, Empty)); Owned(n) && Ordered(n) && Written(n) && InTurn(n)
  {
    hide Describes, Read, Left.EndedElsewhere, Landed, Known, Recognized, LookedAt;
  }

  lemma EmptyKnown(h: Host, t: Token)
    requires Inv(h) && CanStep(h, Act(t, Empty)) && Owned(Next(h, Act(t, Empty)))
    ensures var n := Next(h, Act(t, Empty)); Known(n) && Recognized(n) && LookedAt(n)
  {
    hide Describes, Read, Left.EndedElsewhere, Unsigned, Landed, Ordered, Written;
  }

  lemma EmptyKeeps(h: Host, t: Token)
    requires Inv(h) && CanStep(h, Act(t, Empty))
    ensures Inv(Next(h, Act(t, Empty)))
  {
    hide Next, CanStep, Owned, Ordered, Written, InTurn, Known, Recognized, LookedAt;
    EmptyStands(h, t);
    EmptyKnown(h, t);
  }

  /** Ending the open turn now keeps the turns in their order, and what each process has seen of them. */
  lemma EndingOrdered(h: Host, n: Host)
    requires Inv(h) && OpenTurn(h) && n.turns == Ended(h.turns, h.clock)
    requires n.boot == h.boot && n.clock == h.clock && n.born == h.born && !OpenTurn(n)
    ensures Ordered(n)
    ensures forall t: Token, elsewhere, k: nat | Covers(h, t, elsewhere, k) :: Covers(n, t, elsewhere, k)
  {
    assert h.turns != [];
    var last := |h.turns| - 1;
    assert h.turns[last].began <= h.clock;
    forall t: Token, elsewhere, k: nat | Covers(h, t, elsewhere, k)
      ensures Covers(n, t, elsewhere, k)
    {
      forall i | 0 <= i < k && n.turns[i].boot == n.boot && n.turns[i].hold.token != t
        ensures n.turns[i].hold.ended.Some? && elsewhere.Some?
        ensures n.turns[i].hold.ended.value <= elsewhere.value
      {
        assert h.turns[i].hold.token == n.turns[i].hold.token;
        assert h.turns[i].hold.ended.Some?;
        assert i != last;
      }
    }
  }

  /** Nobody came to know or see anything, and what they saw ends where it did. */
  lemma KnownAlike(h: Host, n: Host)
    requires Owned(h) && Known(h) && Owned(n)
    requires forall t | t in n.processes ::
               t in h.processes && n.processes[t].elsewhere == h.processes[t].elsewhere && n.seen[t] == h.seen[t]
    requires forall t: Token, elsewhere, k: nat | Covers(h, t, elsewhere, k) :: Covers(n, t, elsewhere, k)
    ensures Known(n)
  {
    hide Covers;
    forall t | t in n.processes
      ensures Covers(n, t, n.processes[t].elsewhere, n.seen[t])
    {
      assert Covers(h, t, h.processes[t].elsewhere, h.seen[t]);
    }
  }

  lemma SignWholeStands(h: Host, t: Token)
    requires Inv(h) && CanStep(h, Act(t, Sign(Whole)))
    ensures var n := Next(h, Act(t, Sign(Whole))); Owned(n) && Ordered(n) && Written(n) && InTurn(n)
  {
    hide Describes, Left.EndedElsewhere, Unsigned, Read, Known, Recognized, LookedAt;
    assert h.file.text + Landed(HolderLine(t), Whole) == Landed(HolderLine(t), Whole);
    SignatureLanded(LastHold(h.turns));
  }

  lemma SignWholeKnown(h: Host, t: Token)
    requires Inv(h) && CanStep(h, Act(t, Sign(Whole))) && Owned(Next(h, Act(t, Sign(Whole))))
    ensures var n := Next(h, Act(t, Sign(Whole))); Known(n) && Recognized(n) && LookedAt(n)
  {
    hide Describes, Read, Left.EndedElsewhere, Unsigned, Landed, Ordered, Written;
  }

  lemma SignWholeKeeps(h: Host, t: Token)
    requires Inv(h) && CanStep(h, Act(t, Sign(Whole)))
    ensures Inv(Next(h, Act(t, Sign(Whole))))
  {
    hide Next, CanStep, Owned, Ordered, Written, InTurn, Known, Recognized, LookedAt;
    SignWholeStands(h, t);
    SignWholeKnown(h, t);
  }

  lemma SignCutKeeps(h: Host, t: Token, landing: Landing)
    requires Inv(h) && CanStep(h, Act(t, Sign(landing))) && landing.Cut?
    ensures Inv(Next(h, Act(t, Sign(landing))))
  {
    var n := Next(h, Act(t, Sign(landing)));
    assert h.file.text + Landed(HolderLine(t), landing) == Landed(HolderLine(t), landing);
    TokenWhole(t);
    assert Unsigned(n.file.text);
    assert Owned(n);
    EndingOrdered(h, n);
    KnownAlike(h, n);
  }

  lemma SignKeeps(h: Host, t: Token, landing: Landing)
    requires Inv(h) && CanStep(h, Act(t, Sign(landing)))
    ensures Inv(Next(h, Act(t, Sign(landing))))
  {
    if landing.Whole? {
      SignWholeKeeps(h, t);
    } else {
      SignCutKeeps(h, t, landing);
    }
  }

  /** What `_found` notes as it is granted covers every turn but its own. */
  lemma FindCovers(h: Host, t: Token)
    requires Inv(h) && CanStep(h, Act(t, Find))
    ensures var left := h.processes[t].phase.left;
            var elsewhere := Noticed(h.processes[t].elsewhere, left.EndedElsewhere(t, h.clock), h.clock);
            Covers(h, t, elsewhere, |h.turns|)
  {
    hide Describes, Read, Left.EndedElsewhere, Unsigned, Ordered, Written, Recognized;
    var left := h.processes[t].phase.left;
    var ended := left.EndedElsewhere(t, h.clock);
    var before := h.processes[t].elsewhere;
    var elsewhere := Noticed(before, ended, h.clock);
    assert Answers(h, t, left, |h.turns| - 1);
    assert Covers(h, t, before, h.seen[t]);
    forall i | 0 <= i < |h.turns| && h.turns[i].boot == h.boot && h.turns[i].hold.token != t
      ensures h.turns[i].hold.ended.Some? && elsewhere.Some?
      ensures h.turns[i].hold.ended.value <= elsewhere.value
    {
      assert i < |h.turns| - 1;
      if ended.None? {
        assert i < h.seen[t];
      }
    }
  }

  lemma FindStands(h: Host, t: Token)
    requires Inv(h) && CanStep(h, Act(t, Find))
    ensures var n := Next(h, Act(t, Find)); Owned(n) && Ordered(n) && Written(n) && InTurn(n)
  {
    hide Describes, Read, Left.EndedElsewhere, Unsigned, Landed, Known, Recognized, LookedAt;
  }

  lemma FindKnown(h: Host, t: Token)
    requires Inv(h) && CanStep(h, Act(t, Find)) && Owned(Next(h, Act(t, Find)))
    ensures var n := Next(h, Act(t, Find)); Known(n) && Recognized(n) && LookedAt(n)
  {
    hide Describes, Read, Left.EndedElsewhere, Unsigned, Landed, Ordered, Written;
    FindCovers(h, t);
    var n := Next(h, Act(t, Find));
    forall other | other in n.processes
      ensures Covers(n, other, n.processes[other].elsewhere, n.seen[other])
    {
      if other != t {
        assert Covers(h, other, h.processes[other].elsewhere, h.seen[other]);
      }
    }
  }

  lemma FindKeeps(h: Host, t: Token)
    requires Inv(h) && CanStep(h, Act(t, Find))
    ensures Inv(Next(h, Act(t, Find)))
  {
    hide Next, CanStep, Owned, Ordered, Written, InTurn, Known, Recognized, LookedAt;
    FindStands(h, t);
    FindKnown(h, t);
  }

  /** The turns are in order whatever else of the host changed, while the open one stays open. */
  lemma OrderedAlike(h: Host, n: Host)
    requires Ordered(h) && n == h.(file := n.file, processes := n.processes) && OpenTurn(n) == OpenTurn(h)
    ensures Ordered(n)
  {
  }

  /** A holder come or gone beside others changes who is counted and nothing else. */
  lemma HoldersKeep(h: Host, n: Host, t: Token)
    requires Inv(h) && t in h.processes && h.processes[t].phase.Holding? && t in n.processes
    requires n == h.(processes := h.processes[t := n.processes[t]])
    requires n.processes[t].phase.Holding? && n.processes[t].phase.holders >= 1
    requires n.processes[t].elsewhere == h.processes[t].elsewhere
    ensures Inv(n)
  {
    hide Describes, Read, Left.EndedElsewhere, Unsigned, Ordered;
    assert Owned(n) && Written(n);
    OrderedAlike(h, n);
    forall other | other in n.processes
      ensures Covers(n, other, n.processes[other].elsewhere, n.seen[other])
    {
      assert Covers(h, other, h.processes[other].elsewhere, h.seen[other]);
    }
    assert Known(n) && InTurn(n) && Recognized(n) && LookedAt(n);
  }

  lemma EnterKeeps(h: Host, t: Token, beside: bool)
    requires Inv(h) && CanStep(h, Act(t, Enter(beside)))
    ensures Inv(Next(h, Act(t, Enter(beside))))
  {
    hide Inv;
    HoldersKeep(h, Next(h, Act(t, Enter(beside))), t);
  }

  lemma NoteDescribed(text: string, hold: Hold, cycle: int, landing: Landing)
    requires Describes(text, hold) && LandsOf(RetiringLine(cycle), landing)
    ensures Describes(text + Landed(RetiringLine(cycle), landing),
                      if landing.Whole? then hold.(notes := hold.notes + [cycle]) else hold)
  {
    var noted := hold.(notes := hold.notes + [cycle]);
    PartitionAt(RETIRING, SpellInt(cycle), '=');
    assert RetiringLine(cycle) == RETIRING + ['='] + SpellInt(cycle);
    SpellIntDecimal(cycle);
    assert '\n' !in SpellInt(cycle);
    if landing.Whole? {
      WholeLanded(text, hold, RETIRING, SpellInt(cycle), noted);
    } else if !landing.cutBack {
      TornLanded(text, hold, RETIRING, SpellInt(cycle), landing.n, hold);
    } else {
      assert text + "" == text;
    }
  }

  /** A note on the latest hold moves no turn's moments and nobody's knowledge of them. */
  lemma NotingOrdered(h: Host, n: Host, cycle: int)
    requires Inv(h) && OpenTurn(h) && h.turns != []
    requires n == h.(file := n.file, turns := n.turns) && n.file.owner == h.file.owner
    requires n.turns == Latest(h.turns, LastHold(h.turns).(notes := LastHold(h.turns).notes + [cycle]))
    ensures Ordered(n)
    ensures forall t: Token, elsewhere, k: nat | Covers(h, t, elsewhere, k) :: Covers(n, t, elsewhere, k)
  {
    hide Describes, Read, Left.EndedElsewhere, Unsigned, Landed;
    assert forall i | 0 <= i < |h.turns| ::
        && n.turns[i] == h.turns[i].(hold := n.turns[i].hold)
        && n.turns[i].hold.ended == h.turns[i].hold.ended
        && n.turns[i].hold.token == h.turns[i].hold.token;
  }

  /** The same turns told of, the latest with another note perhaps, and a file that describes it. */
  lemma NoteTells(h: Host, n: Host, t: Token)
    requires Inv(h) && h.file.owner == Some(t) && t in h.processes && h.processes[t].phase.Holding?
    requires n == h.(file := n.file, turns := n.turns) && n.file.owner == h.file.owner
    requires |n.turns| == |h.turns| > 0 && n.turns[|h.turns| - 1].boot == h.turns[|h.turns| - 1].boot
    requires LastHold(n.turns).token == LastHold(h.turns).token && LastHold(n.turns).ended == LastHold(h.turns).ended
    requires Describes(n.file.text, LastHold(n.turns)) && Ordered(n)
    requires forall u: Token, elsewhere, k: nat | Covers(h, u, elsewhere, k) :: Covers(n, u, elsewhere, k)
    ensures Inv(n)
  {
    hide Read, Left.EndedElsewhere, Unsigned, Ordered, Describes;
    assert Owned(n) && Written(n);
    KnownAlike(h, n);
    assert InTurn(n) && Recognized(n) && LookedAt(n);
  }

  lemma NoteKeeps(h: Host, t: Token, cycle: int, landing: Landing)
    requires Inv(h) && CanStep(h, Act(t, Note(cycle, landing)))
    ensures Inv(Next(h, Act(t, Note(cycle, landing))))
  {
    hide Describes, Read, Left.EndedElsewhere, Unsigned, Landed, Ordered, Written, Known, Recognized, LookedAt;
    var n := Next(h, Act(t, Note(cycle, landing)));
    NoteDescribed(h.file.text, LastHold(h.turns), cycle, landing);
    if landing.Whole? {
      NotingOrdered(h, n, cycle);
    } else {
      OrderedAlike(h, n);
    }
    NoteTells(h, n, t);
  }

  lemma LeaveOneKeeps(h: Host, t: Token, beside: bool)
    requires Inv(h) && CanStep(h, Act(t, LeaveOne(beside)))
    ensures Inv(Next(h, Act(t, LeaveOne(beside))))
  {
    hide Inv;
    HoldersKeep(h, Next(h, Act(t, LeaveOne(beside))), t);
  }

  lemma LetGoStands(h: Host, t: Token)
    requires Inv(h) && CanStep(h, Act(t, LetGo))
    ensures var n := Next(h, Act(t, LetGo)); Owned(n) && Ordered(n) && Written(n) && InTurn(n)
  {
    hide Describes, Read, Left.EndedElsewhere, Unsigned, Landed, Known, Recognized, LookedAt;
    EndingOrdered(h, Next(h, Act(t, LetGo)));
    EndedDescribed(h);
  }

  lemma LetGoKnown(h: Host, t: Token)
    requires Inv(h) && CanStep(h, Act(t, LetGo)) && Owned(Next(h, Act(t, LetGo)))
    ensures var n := Next(h, Act(t, LetGo)); Known(n) && Recognized(n) && LookedAt(n)
  {
    hide Describes, Read, Left.EndedElsewhere, Unsigned, Landed, Ordered, Written;
    var n := Next(h, Act(t, LetGo));
    EndingOrdered(h, n);
    KnownAlike(h, n);
  }

  lemma LetGoKeeps(h: Host, t: Token)
    requires Inv(h) && CanStep(h, Act(t, LetGo))
    ensures Inv(Next(h, Act(t, LetGo)))
  {
    hide Next, CanStep, Owned, Ordered, Written, InTurn, Known, Recognized, LookedAt;
    LetGoStands(h, t);
    LetGoKnown(h, t);
  }

  /** A hold's end is nothing its file says before it is stamped. */
  lemma EndedDescribed(h: Host)
    requires |h.turns| > 0 && Describes(h.file.text, LastHold(h.turns)) && LastHold(h.turns).ended.None?
    ensures Describes(h.file.text, LastHold(Ended(h.turns, h.clock)))
  {
  }

  /** A stamp, whole or in remains, leaves the file describing the hold it ends. */
  lemma StampDescribed(text: string, hold: Hold, stamp: nat, landing: Landing)
    requires Describes(text, hold) && hold.ended == Some(stamp) && LandsOf(ReleasedLine(stamp), landing)
    ensures Describes(text + Landed(ReleasedLine(stamp), landing), hold)
  {
    hide Describes;
    PartitionAt(RELEASED, Spell(stamp), '=');
    assert ReleasedLine(stamp) == RELEASED + ['='] + Spell(stamp);
    assert '\n' !in Spell(stamp);
    if landing.Whole? {
      WholeLanded(text, hold, RELEASED, Spell(stamp), hold);
    } else if !landing.cutBack {
      TornLanded(text, hold, RELEASED, Spell(stamp), landing.n, hold);
    } else {
      assert text + "" == text;
    }
  }

  lemma StampStands(h: Host, t: Token, landing: Landing)
    requires Inv(h) && CanStep(h, Act(t, Stamp(landing)))
    ensures var n := Next(h, Act(t, Stamp(landing))); Owned(n) && Ordered(n) && Written(n) && InTurn(n)
  {
    hide Describes, Read, Left.EndedElsewhere, Unsigned, Landed, Known, Recognized, LookedAt;
    StampDescribed(h.file.text, LastHold(h.turns), h.processes[t].phase.stamp, landing);
  }

  lemma StampKnown(h: Host, t: Token, landing: Landing)
    requires Inv(h) && CanStep(h, Act(t, Stamp(landing))) && Owned(Next(h, Act(t, Stamp(landing))))
    ensures var n := Next(h, Act(t, Stamp(landing))); Known(n) && Recognized(n) && LookedAt(n)
  {
    hide Describes, Read, Left.EndedElsewhere, Unsigned, Landed, Ordered, Written;
  }

  lemma StampKeeps(h: Host, t: Token, landing: Landing)
    requires Inv(h) && CanStep(h, Act(t, Stamp(landing)))
    ensures Inv(Next(h, Act(t, Stamp(landing))))
  {
    hide Next, CanStep, Owned, Ordered, Written, InTurn, Known, Recognized, LookedAt;
    StampStands(h, t, landing);
    StampKnown(h, t, landing);
  }

  lemma UnlockStands(h: Host, t: Token)
    requires Inv(h) && CanStep(h, Act(t, Unlock))
    ensures var n := Next(h, Act(t, Unlock)); Owned(n) && Ordered(n) && Written(n) && InTurn(n)
  {
    hide Describes, Read, Left.EndedElsewhere, Unsigned, Landed, Known, Recognized, LookedAt;
  }

  lemma UnlockKnown(h: Host, t: Token)
    requires Inv(h) && CanStep(h, Act(t, Unlock)) && Owned(Next(h, Act(t, Unlock)))
    ensures var n := Next(h, Act(t, Unlock)); Known(n) && Recognized(n) && LookedAt(n)
  {
    hide Describes, Read, Left.EndedElsewhere, Unsigned, Landed, Ordered, Written;
  }

  lemma UnlockKeeps(h: Host, t: Token)
    requires Inv(h) && CanStep(h, Act(t, Unlock))
    ensures Inv(Next(h, Act(t, Unlock)))
  {
    hide Next, CanStep, Owned, Ordered, Written, InTurn, Known, Recognized, LookedAt;
    UnlockStands(h, t);
    UnlockKnown(h, t);
  }

  lemma DieStands(h: Host, t: Token, n: Host)
    requires Inv(h) && CanStep(h, Die(t)) && n == Next(h, Die(t)) && Owned(n) && Ordered(n)
    ensures Written(n) && InTurn(n)
  {
    hide Describes, Read, Left.EndedElsewhere, Landed, Known, Recognized, LookedAt, Ordered, Unsigned;
    if |h.turns| > 0 && LastHold(h.turns).ended.None? && Describes(h.file.text, LastHold(h.turns)) {
      EndedDescribed(h);
    }
  }

  lemma DieKnown(h: Host, t: Token, n: Host)
    requires Inv(h) && CanStep(h, Die(t)) && n == Next(h, Die(t)) && Owned(n)
    ensures Recognized(n) && LookedAt(n)
  {
    hide Describes, Read, Left.EndedElsewhere, Unsigned, Landed, Ordered, Written, Known;
    assert h.file.owner != Some(t) ==> n.turns == h.turns;
    assert |h.turns| > 0 ==> LastHold(n.turns).token == LastHold(h.turns).token;
  }

  lemma DieTells(h: Host, t: Token, n: Host)
    requires Inv(h) && CanStep(h, Die(t)) && n == Next(h, Die(t)) && Owned(n) && Ordered(n)
    requires forall u: Token, elsewhere, k: nat | Covers(h, u, elsewhere, k) :: Covers(n, u, elsewhere, k)
    ensures Inv(n)
  {
    hide Ordered, Written, InTurn, Recognized, LookedAt, Known, Covers;
    KnownAlike(h, n);
    DieStands(h, t, n);
    DieKnown(h, t, n);
  }

  lemma DieKeeps(h: Host, t: Token)
    requires Inv(h) && CanStep(h, Die(t))
    ensures Inv(Next(h, Die(t)))
  {
    var n := Next(h, Die(t));
    assert Owned(n);
    if Standing(h.processes[t].phase) {
      EndingOrdered(h, n);
    } else {
      assert n.turns == h.turns;
      assert Ordered(n);
    }
    DieTells(h, t, n);
  }

  lemma RestartStands(h: Host)
    requires Inv(h)
    ensures var n := Next(h, Restart); Owned(n) && Ordered(n) && Written(n) && InTurn(n)
  {
    hide Describes, Read, Left.EndedElsewhere, Unsigned, Landed, Known, Recognized, LookedAt;
    if |h.turns| > 0 && LastHold(h.turns).ended.None? && Describes(h.file.text, LastHold(h.turns)) {
      EndedDescribed(h);
    }
  }

  lemma RestartKnown(h: Host)
    requires Inv(h) && Owned(Next(h, Restart))
    ensures var n := Next(h, Restart); Known(n) && Recognized(n) && LookedAt(n)
  {
    hide Describes, Read, Left.EndedElsewhere, Unsigned, Landed, Ordered, Written, InTurn;
  }

  lemma RestartKeeps(h: Host)
    requires Inv(h)
    ensures Inv(Next(h, Restart))
  {
    hide Next, CanStep, Owned, Ordered, Written, InTurn, Known, Recognized, LookedAt;
    RestartStands(h);
    RestartKnown(h);
  }

  lemma StepKeeps(h: Host, step: Step)
    requires Inv(h) && CanStep(h, step)
    ensures Inv(Next(h, step))
  {
    match step
    case Start(t) => StartKeeps(h, t);
    case Die(t) => DieKeeps(h, t);
    case Tick(elapsed) => TickKeeps(h, elapsed);
    case Restart => RestartKeeps(h);
    case Act(t, a) =>
      match a
      case Lock(alongside) => LockKeeps(h, t, alongside);
      case Look => LookKeeps(h, t);
      case Raise => RaiseKeeps(h, t);
      case Empty => EmptyKeeps(h, t);
      case Sign(landing) => SignKeeps(h, t, landing);
      case Find => FindKeeps(h, t);
      case Enter(beside) => EnterKeeps(h, t, beside);
      case Note(cycle, landing) => NoteKeeps(h, t, cycle, landing);
      case LeaveOne(beside) => LeaveOneKeeps(h, t, beside);
      case LetGo => LetGoKeeps(h, t);
      case Stamp(landing) => StampKeeps(h, t, landing);
      case Unlock => UnlockKeeps(h, t);
  }

  /** The invariant over every run. */
  lemma {:induction false} ReachedInv(steps: seq<Step>)
    requires Reached(steps).Some?
    ensures Inv(Reached(steps).value)
    decreases |steps|
  {
    if steps == [] {
      FreshInv();
    } else {
      ReachedInv(steps[..|steps| - 1]);
      StepKeeps(Reached(steps[..|steps| - 1]).value, steps[|steps| - 1]);
    }
  }

  /** Over every run, one process at a time is anywhere between its lock and its unlock. */
  lemma OneClaimant(steps: seq<Step>, t: Token, u: Token)
    requires Reached(steps).Some?
    requires var h := Reached(steps).value;
             t in h.processes && u in h.processes && !h.processes[t].phase.Idle? && !h.processes[u].phase.Idle?
    ensures t == u
  {
    ReachedInv(steps);
  }

  /**
   Over every run: where a process inside its claim is told it was undisturbed since `moment`, every
   hold of the key by any other process, one that only emptied the file included, is of an earlier
   boot or ended before that moment.
   */
  lemma UndisturbedSound(steps: seq<Step>, t: Token, moment: nat)
    requires Reached(steps).Some?
    requires var h := Reached(steps).value;
             t in h.processes && h.processes[t].phase.Holding? && UndisturbedSince(h.processes[t], moment)
    ensures var h := Reached(steps).value;
            forall i | 0 <= i < |h.turns| && h.turns[i].hold.token != t ::
              || h.turns[i].boot < h.boot
              || (h.turns[i].hold.ended.Some? && h.turns[i].hold.ended.value < moment)
  {
    ReachedInv(steps);
    var h := Reached(steps).value;
    assert Covers(h, t, h.processes[t].elsewhere, |h.turns|);
  }

  /**
   Over every run, and for a read of the file cut anywhere: a cycle a contender is told of is one the
   latest hold, the one whose signature stands on the file, wrote as a whole note.
   */
  lemma NotedSound(steps: seq<Step>, n: nat)
    requires Reached(steps).Some? && n <= |Reached(steps).value.file.text|
    requires NotedRetirement(Reached(steps).value.file.text[..n]).Some?
    ensures var h := Reached(steps).value;
            && |h.turns| > 0
            && Read(h.file.text).Get(HOLDER) == LastHold(h.turns).token
            && NotedRetirement(h.file.text[..n]).value in LastHold(h.turns).notes
  {
    ReachedInv(steps);
    var h := Reached(steps).value;
    var seen := h.file.text[..n];
    if Unsigned(seen) {
      UnsignedRead(seen);
      assert false;
    }
    assert !Unsigned(h.file.text);
    DescribedRead(h.file.text, LastHold(h.turns));
    PrefixDescribed(h.file.text, LastHold(h.turns), n);
    DescribedRead(seen, LastHold(h.turns));
  }
}
