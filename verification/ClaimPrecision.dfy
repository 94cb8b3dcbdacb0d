/**
 How much a holder is told of the others' holds, and exactly when it is no more than there was. Beside a run stand
 the traces of its turns: how far each hold's own records came to stand on the file, and when it found the file.
 */
module ClaimPrecision {
  import opened Text
  import opened Decimal
  import opened ClaimRecords
  import opened ClaimProtocol

  datatype Mark = Bare | Named | Told

  datatype Trace = Trace(mark: Mark, found: Option<nat>)

  function Retraced(traces: seq<Trace>, mark: Mark, found: Option<nat>): (later: seq<Trace>)
    ensures |later| == |traces|
    ensures forall i | 0 <= i < |traces| - 1 :: later[i] == traces[i]
  {
    if traces == [] then [] else traces[..|traces| - 1] + [Trace(mark, found)]
  }

  function LastMark(traces: seq<Trace>): Mark { if traces == [] then Bare else traces[|traces| - 1].mark }

  function LastFound(traces: seq<Trace>): Option<nat> { if traces == [] then None else traces[|traces| - 1].found }

  /** The traces once a host took a step: a stamp tells where it lands whole behind no remains. */
  function TracesAfter(h: Host, traces: seq<Trace>, step: Step): seq<Trace> {
    match step
    case Act(_, Empty) => traces + [Trace(Bare, None)]
    case Act(_, Sign(Whole)) => Retraced(traces, Named, LastFound(traces))
    case Act(_, Find) => Retraced(traces, LastMark(traces), Some(h.clock))
    case Act(_, Stamp(Whole)) =>
      if Read(h.file.text).unfinished then traces else Retraced(traces, Told, LastFound(traces))
    case _ => traces
  }

  function Traces(steps: seq<Step>): seq<Trace>
    requires Reached(steps).Some?
    decreases |steps|
  {
    if steps == [] then []
    else
      var before := steps[..|steps| - 1];
      TracesAfter(Reached(before).value, Traces(before), steps[|steps| - 1])
  }

  /** What a hold that found the file at `found` was told of the one it took over from: an end, or nothing. */
  function Says(h: Host, traces: seq<Trace>, j: nat, found: nat): Option<nat>
    requires j < |h.turns| == |traces|
  {
    if j == 0 then Some(found)
    else
      var before, mark := h.turns[j - 1].hold, traces[j - 1].mark;
      if before.token == h.turns[j].hold.token && mark != Bare then None
      else if mark == Told then before.ended
      else Some(found)
  }

  /** A hold of `t` that was told of an end, and not of one later than the clock then stood. */
  predicate Heard(h: Host, traces: seq<Trace>, t: Token, j: nat) {
    && j < |h.turns| == |traces| && h.turns[j].hold.token == t && traces[j].found.Some?
    && var said := Says(h, traces, j, traces[j].found.value); said.Some? && said.value <= traces[j].found.value
  }

  function Said(h: Host, traces: seq<Trace>, t: Token, j: nat): nat
    requires Heard(h, traces, t, j)
  {
    Says(h, traces, j, traces[j].found.value).value
  }

  /** Another process's hold of this boot. */
  predicate Other(h: Host, t: Token, i: nat) {
    i < |h.turns| && h.turns[i].boot == h.boot && h.turns[i].hold.token != t
  }

  /** Every other process's hold of this boot ended before `moment`. */
  ghost predicate EndedBefore(h: Host, t: Token, moment: nat) {
    forall i: nat | Other(h, t, i) :: h.turns[i].hold.ended.Some? && h.turns[i].hold.ended.value < moment
  }

  /** Some other process's hold of this boot ended at `at` or later. */
  ghost predicate EndedSince(h: Host, t: Token, at: nat) {
    exists i: nat :: Other(h, t, i) && h.turns[i].hold.ended.Some? && at <= h.turns[i].hold.ended.value
  }

  // ----- What every step keeps

  /**
   What a text says of the hold that left it, as far as its records came: nothing, its signer alone, or its end
   too.
   */
  ghost predicate LeftBy(text: string, hold: Hold, mark: Mark) {
    match mark
    case Bare => Unsigned(text)
    case Named => Describes(text, hold.(ended := None))
    case Told => Tells(Read(text), hold, Told)
  }

  /** What leavings say of the hold that left them. */
  predicate Tells(left: Left, hold: Hold, mark: Mark) {
    match mark
    case Bare => left.Get(HOLDER) == ""
    case Named => left.Get(HOLDER) == hold.token && !IsDecimal(left.Get(RELEASED))
    case Told =>
      && left.Get(HOLDER) == hold.token
      && hold.ended.Some? && left.Get(RELEASED) == Spell(hold.ended.value) && !left.unfinished
  }

  /** What leavings say where `j` turns had been when they were left. */
  predicate TellsOf(h: Host, traces: seq<Trace>, left: Left, j: nat) {
    && j <= |h.turns| == |traces|
    && (if j == 0 then left.Get(HOLDER) == "" else Tells(left, h.turns[j - 1].hold, traces[j - 1].mark))
  }

  /** How far the holder came and its trace agree. */
  ghost predicate Phased(h: Host, traces: seq<Trace>) {
    && |traces| == |h.turns|
    && (h.file.owner.Some? && h.file.owner.value in h.processes ==>
          var phase := h.processes[h.file.owner.value].phase;
          && (phase.Emptied? ==> traces != [] && LastMark(traces) == Bare)
          && (phase.Signed? || phase.Holding? || phase.LettingGo? ==> traces != [] && LastMark(traces) == Named)
          && (Signing(phase) ==> LastFound(traces).None?))
  }

  ghost predicate FileTells(h: Host, traces: seq<Trace>) {
    |traces| == |h.turns| ==>
      if h.turns == [] then Unsigned(h.file.text) else LeftBy(h.file.text, LastHold(h.turns), LastMark(traces))
  }

  /** What the holder read is what the hold before its own left. */
  ghost predicate LeftTells(h: Host, traces: seq<Trace>) {
    h.file.owner.Some? && h.file.owner.value in h.processes ==>
      var phase := h.processes[h.file.owner.value].phase;
      && (phase.Looked? ==> TellsOf(h, traces, phase.left, |h.turns|))
      && (Signing(phase) ==> |h.turns| > 0 && TellsOf(h, traces, phase.left, |h.turns| - 1))
  }

  /** `elsewhere` is the latest end its holds heard of. */
  ghost predicate Grounded(h: Host, traces: seq<Trace>, t: Token) {
    t in h.processes ==>
      var elsewhere := h.processes[t].elsewhere;
      && (elsewhere.Some? ==> exists j :: Heard(h, traces, t, j) && Said(h, traces, t, j) == elsewhere.value)
      && (forall j | Heard(h, traces, t, j) :: elsewhere.Some? && Said(h, traces, t, j) <= elsewhere.value)
  }

  ghost predicate Precise(h: Host, traces: seq<Trace>) {
    Phased(h, traces) && FileTells(h, traces) && LeftTells(h, traces) && forall t :: Grounded(h, traces, t)
  }

  /** While a hold stands, the latest turn is its own and has not ended. */
  lemma StandingOpen(h: Host, t: Token)
    requires Inv(h) && t in h.processes && Standing(h.processes[t].phase)
    ensures |h.turns| > 0 && LastHold(h.turns).ended.None?
  {
    hide Describes, Ordered, Known, Recognized, LookedAt, Written;
    assert h.file.owner == Some(t);
  }

  /** Turns as a step leaves them: none lost, none another's or of another boot, no end moved. */
  ghost predicate Carried(before: seq<Turn>, after: seq<Turn>) {
    && |before| <= |after|
    && (forall i | 0 <= i < |before| ::
          && after[i].hold.token == before[i].hold.token && after[i].boot == before[i].boot
          && (before[i].hold.ended.Some? ==> after[i].hold.ended == before[i].hold.ended))
  }

  lemma EndedCarried(turns: seq<Turn>, at: nat)
    requires turns != [] ==> LastHold(turns).ended.None?
    ensures Carried(turns, Ended(turns, at))
  {
  }

  lemma NotedCarried(turns: seq<Turn>, notes: seq<int>)
    requires turns != []
    ensures Carried(turns, Latest(turns, LastHold(turns).(notes := notes)))
  {
    var last, hold := |turns| - 1, LastHold(turns).(notes := notes);
    var after := Latest(turns, hold);
    assert after[last] == turns[last].(hold := hold);
    assert forall i | 0 <= i < last :: after[i] == turns[i];
    hide Latest;
  }

  lemma AddedCarried(turns: seq<Turn>, turn: Turn)
    ensures Carried(turns, turns + [turn])
  {
  }

  lemma CarriedSame(turns: seq<Turn>)
    ensures Carried(turns, turns)
  {
  }

  lemma ActsCarried(h: Host, t: Token, a: Action)
    requires Inv(h) && CanStep(h, Act(t, a))
    ensures Carried(h.turns, TurnsAfter(h, t, a))
  {
    hide Inv, Ended, Latest, Carried;
    CarriedSame(h.turns);
    if Standing(h.processes[t].phase) {
      StandingOpen(h, t);
      EndedCarried(h.turns, h.clock);
    }
    match a
    case Empty => AddedCarried(h.turns, Turn(Hold(t, [], None), h.boot, h.clock));
    case Note(cycle, _) => NotedCarried(h.turns, LastHold(h.turns).notes + [cycle]);
    case _ =>
  }

  lemma KeepsTurns(h: Host, step: Step)
    requires Inv(h) && CanStep(h, step)
    ensures Carried(h.turns, Next(h, step).turns)
  {
    hide Inv, Ended, TurnsAfter, Acted, Enabled, Carried;
    CarriedSame(h.turns);
    match step
    case Act(t, a) => ActsCarried(h, t, a);
    case Die(t) =>
      if Standing(h.processes[t].phase) {
        StandingOpen(h, t);
        EndedCarried(h.turns, h.clock);
      }
    case Restart =>
      if OpenTurn(h) {
        StandingOpen(h, h.file.owner.value);
        EndedCarried(h.turns, h.clock);
      }
    case _ =>
  }

  /** A step moves no trace but the latest, and adds one where it adds a turn. */
  lemma KeepsTraces(h: Host, traces: seq<Trace>, step: Step)
    requires Inv(h) && CanStep(h, step) && |traces| == |h.turns|
    ensures var n, after := Next(h, step), TracesAfter(h, traces, step);
            && |after| == |n.turns|
            && forall i | 0 <= i < |traces| - 1 :: after[i] == traces[i]
  {
    hide Describes, Read, Left.EndedElsewhere, Unsigned, Landed, Known, Recognized, LookedAt, Written, Ordered;
  }

  /** Only its own process's find gives a turn its moment. */
  lemma KeepsFound(h: Host, traces: seq<Trace>, step: Step, j: nat)
    requires Inv(h) && CanStep(h, step) && j < |traces| == |h.turns|
    requires step.Act? && step.action.Find? ==> h.turns[j].hold.token != step.actor || j < |h.turns| - 1
    ensures j < |TracesAfter(h, traces, step)| && TracesAfter(h, traces, step)[j].found == traces[j].found
  {
    hide Describes, Read, Left.EndedElsewhere, Unsigned, Landed, Known, Recognized, LookedAt, Written, Ordered;
  }

  /** A turn that another came behind has ended. */
  lemma PassedEnded(h: Host, i: nat)
    requires Inv(h) && i + 1 < |h.turns|
    ensures h.turns[i].hold.ended.Some?
  {
    hide Written, InTurn, Known, Recognized, LookedAt;
  }

  /** What a hold was told stands: it rests on turns and traces behind it. */
  lemma SaysKept(h: Host, traces: seq<Trace>, step: Step, j: nat, found: nat)
    requires Inv(h) && CanStep(h, step) && j < |traces| == |h.turns|
    ensures var n, after := Next(h, step), TracesAfter(h, traces, step);
            j < |n.turns| == |after| && Says(n, after, j, found) == Says(h, traces, j, found)
  {
    hide Inv, CanStep, Next, TracesAfter;
    KeepsTurns(h, step);
    KeepsTraces(h, traces, step);
    if j > 0 {
      PassedEnded(h, j - 1);
    }
  }

  /** Another's step, or one that is no find, leaves what a process's holds heard. */
  lemma HeardKept(h: Host, traces: seq<Trace>, step: Step, t: Token, j: nat)
    requires Inv(h) && CanStep(h, step) && j < |traces| == |h.turns|
    requires step == Act(t, Find) ==> j < |h.turns| - 1
    ensures var n, after := Next(h, step), TracesAfter(h, traces, step);
            && (Heard(n, after, t, j) <==> Heard(h, traces, t, j))
            && (Heard(h, traces, t, j) ==> Said(n, after, t, j) == Said(h, traces, t, j))
  {
    hide Inv, CanStep, Next, TracesAfter, Says;
    KeepsTurns(h, step);
    KeepsTraces(h, traces, step);
    if h.turns[j].hold.token == t {
      KeepsFound(h, traces, step, j);
      if traces[j].found.Some? {
        SaysKept(h, traces, step, j, traces[j].found.value);
      }
    }
  }

  /** A turn a step adds has found nothing yet. */
  lemma NothingNewHeard(h: Host, traces: seq<Trace>, step: Step, t: Token, j: nat)
    requires Inv(h) && CanStep(h, step) && |traces| == |h.turns| <= j
    ensures !Heard(Next(h, step), TracesAfter(h, traces, step), t, j)
  {
    hide Describes, Read, Left.EndedElsewhere, Unsigned, Landed, Known, Recognized, LookedAt, Written, Ordered, InTurn,
         Says;
  }

  /** What leavings are read as: what their hold's trace says of them. */
  lemma TellsEnded(left: Left, hold: Hold, mark: Mark, t: Token, now: nat)
    requires Tells(left, hold, mark)
    ensures left.EndedElsewhere(t, now)
         == if mark != Bare && hold.token == t then None else if mark == Told then hold.ended else Some(now)
  {
    assert |hold.token| == 32 && |t| == 32;
  }

  lemma NobodyEnded(left: Left, t: Token, now: nat)
    requires left.Get(HOLDER) == ""
    ensures left.EndedElsewhere(t, now) == Some(now)
  {
    assert |t| == 32;
  }

  /** What a process is told as it finds the file is what its new hold's trace says. */
  lemma FindSays(h: Host, traces: seq<Trace>, t: Token)
    requires Inv(h) && LeftTells(h, traces) && CanStep(h, Act(t, Find))
    ensures |h.turns| == |traces| > 0 && LastHold(h.turns).token == t
    ensures Says(h, traces, |h.turns| - 1, h.clock) == h.processes[t].phase.left.EndedElsewhere(t, h.clock)
  {
    hide Describes, Read, Left.EndedElsewhere, Unsigned, Landed, Known, Recognized, LookedAt, Written, Ordered, Tells;
    var left, last := h.processes[t].phase.left, |h.turns| - 1;
    assert h.file.owner == Some(t) && TellsOf(h, traces, left, last);
    if last == 0 {
      NobodyEnded(left, t, h.clock);
    } else {
      TellsEnded(left, h.turns[last - 1].hold, traces[last - 1].mark, t, h.clock);
    }
  }

  /** What the find itself hears, where it hears anything: the end it was told, if the clock had come to it. */
  lemma FindHeard(h: Host, traces: seq<Trace>, t: Token)
    requires Inv(h) && LeftTells(h, traces) && CanStep(h, Act(t, Find))
    ensures var n, after, last := Next(h, Act(t, Find)), TracesAfter(h, traces, Act(t, Find)), |h.turns| - 1;
            var ended := h.processes[t].phase.left.EndedElsewhere(t, h.clock);
            && last >= 0 && n.turns == h.turns
            && n.processes[t].elsewhere == Noticed(h.processes[t].elsewhere, ended, h.clock)
            && (Heard(n, after, t, last) <==> ended.Some? && ended.value <= h.clock)
            && (Heard(n, after, t, last) ==> Said(n, after, t, last) == ended.value)
  {
    hide Inv, LeftTells, Left.EndedElsewhere, Noticed, Read, Says, Tells, TracesAfter;
    FindSays(h, traces, t);
    SaysKept(h, traces, Act(t, Find), |h.turns| - 1, h.clock);
    FindTraced(h, traces, t);
  }

  lemma FindTraced(h: Host, traces: seq<Trace>, t: Token)
    requires traces != []
    ensures var after := TracesAfter(h, traces, Act(t, Find));
            |after| == |traces| && after[|after| - 1].found == Some(h.clock)
  {
  }

  lemma FindsHere(h: Host, t: Token)
    requires Inv(h) && CanStep(h, Act(t, Find))
    ensures t in h.processes && h.processes[t].phase.Signed? && h.file.owner == Some(t)
    ensures t in Next(h, Act(t, Find)).processes
  {
    hide Ordered, Written, InTurn, Known, Recognized, LookedAt;
  }

  lemma HeardWithin(h: Host, traces: seq<Trace>, t: Token, j: nat)
    requires Heard(h, traces, t, j)
    ensures j < |h.turns| == |traces| && h.turns[j].hold.token == t && traces[j].found.Some?
  {
    hide Says;
  }

  /** A process about to find the file heard what it heard by the holds ahead of this one. */
  lemma UnfoundYet(h: Host, traces: seq<Trace>, t: Token, j: nat)
    requires Phased(h, traces) && h.file.owner == Some(t) && t in h.processes && h.processes[t].phase.Signed?
    requires Heard(h, traces, t, j)
    ensures j < |h.turns| - 1
  {
    hide Says;
  }

  lemma FindGrounded(h: Host, traces: seq<Trace>, t: Token)
    requires Inv(h) && Phased(h, traces) && LeftTells(h, traces) && Grounded(h, traces, t) && CanStep(h, Act(t, Find))
    ensures Grounded(Next(h, Act(t, Find)), TracesAfter(h, traces, Act(t, Find)), t)
  {
    hide Inv, Phased, LeftTells, Left.EndedElsewhere, Heard, Said, CanStep, Next, TracesAfter;
    var n, after, last := Next(h, Act(t, Find)), TracesAfter(h, traces, Act(t, Find)), |h.turns| - 1;
    FindHeard(h, traces, t);
    FindSays(h, traces, t);
    FindsHere(h, t);
    var known, ended := h.processes[t].elsewhere, h.processes[t].phase.left.EndedElsewhere(t, h.clock);
    forall j: nat | j < last
      ensures Heard(n, after, t, j) <==> Heard(h, traces, t, j)
      ensures Heard(h, traces, t, j) ==> Said(n, after, t, j) == Said(h, traces, t, j)
    {
      HeardKept(h, traces, Act(t, Find), t, j);
    }
    forall j: nat | Heard(n, after, t, j)
      ensures j <= last
    {
      HeardWithin(n, after, t, j);
    }
    forall j: nat | Heard(h, traces, t, j)
      ensures j < last
    {
      UnfoundYet(h, traces, t, j);
    }
    if n.processes[t].elsewhere.Some? {
      if n.processes[t].elsewhere == known {
        var j :| Heard(h, traces, t, j) && Said(h, traces, t, j) == known.value;
        assert Heard(n, after, t, j) && Said(n, after, t, j) == known.value;
      } else {
        assert Heard(n, after, t, last) && Said(n, after, t, last) == n.processes[t].elsewhere.value;
      }
    }
  }

  /** A process that found nothing since is told of no more and no less than before. */
  lemma GroundedKept(h: Host, traces: seq<Trace>, step: Step, t: Token)
    requires Inv(h) && Phased(h, traces) && Grounded(h, traces, t) && CanStep(h, step)
    requires step != Act(t, Find) && !step.Restart? && !(step.Start? && step.newborn == t)
    ensures Grounded(Next(h, step), TracesAfter(h, traces, step), t)
  {
    hide Inv, Heard, Said, CanStep, Next, TracesAfter;
    var n, after := Next(h, step), TracesAfter(h, traces, step);
    UnfoundSince(h, step, t);
    forall j: nat
      ensures Heard(n, after, t, j) <==> Heard(h, traces, t, j)
      ensures Heard(h, traces, t, j) ==> Said(n, after, t, j) == Said(h, traces, t, j)
    {
      if j < |h.turns| {
        HeardKept(h, traces, step, t, j);
      } else {
        NothingNewHeard(h, traces, step, t, j);
        if Heard(h, traces, t, j) {
          HeardWithin(h, traces, t, j);
        }
      }
    }
    if t in n.processes && n.processes[t].elsewhere.Some? {
      var j :| Heard(h, traces, t, j) && Said(h, traces, t, j) == h.processes[t].elsewhere.value;
      assert Heard(n, after, t, j);
    }
  }

  /** A process just started has held nothing, and knows nothing. */
  lemma NewGrounded(h: Host, traces: seq<Trace>, step: Step, t: Token)
    requires Inv(h) && |traces| == |h.turns| && CanStep(h, step)
    requires step.Restart? || (step.Start? && step.newborn == t)
    ensures Grounded(Next(h, step), TracesAfter(h, traces, step), t)
  {
    hide Says, Written, InTurn, Known, Recognized, LookedAt;
  }

  lemma GroundedStep(h: Host, traces: seq<Trace>, step: Step, t: Token)
    requires Inv(h) && Precise(h, traces) && CanStep(h, step)
    ensures Grounded(Next(h, step), TracesAfter(h, traces, step), t)
  {
    hide Inv, Precise, Phased, Grounded, FileTells, LeftTells, CanStep, Next, TracesAfter;
    PreciseParts(h, traces, t);
    if step == Act(t, Find) {
      FindGrounded(h, traces, t);
    } else if step.Restart? || (step.Start? && step.newborn == t) {
      assert |traces| == |h.turns| by { OneEach(h, traces); }
      NewGrounded(h, traces, step, t);
    } else {
      GroundedKept(h, traces, step, t);
    }
  }

  lemma OneEach(h: Host, traces: seq<Trace>)
    requires Phased(h, traces)
    ensures |traces| == |h.turns|
  {
  }

  lemma PreciseParts(h: Host, traces: seq<Trace>, t: Token)
    requires Precise(h, traces)
    ensures Phased(h, traces) && FileTells(h, traces) && LeftTells(h, traces) && Grounded(h, traces, t)
  {
    hide Grounded, Phased, FileTells, LeftTells;
  }

  lemma UnfoundSince(h: Host, step: Step, t: Token)
    requires Inv(h) && CanStep(h, step) && step != Act(t, Find) && !step.Restart? && !(step.Start? && step.newborn == t)
    ensures t in Next(h, step).processes ==>
              t in h.processes && Next(h, step).processes[t].elsewhere == h.processes[t].elsewhere
  {
    hide TurnsAfter, Read, Landed, Ordered, Written, InTurn, Known, Recognized, LookedAt;
  }

  lemma PhasedStep(h: Host, traces: seq<Trace>, step: Step)
    requires Inv(h) && Phased(h, traces) && CanStep(h, step)
    ensures Phased(Next(h, step), TracesAfter(h, traces, step))
  {
    hide Read, Landed, Ordered, Written, Known, Recognized, LookedAt, Describes;
    KeepsTraces(h, traces, step);
  }

  // ----- The file and what is read of it

  lemma LeftRead(text: string, hold: Hold, mark: Mark)
    requires LeftBy(text, hold, mark)
    ensures Tells(Read(text), hold, mark)
  {
    hide Read, DescribedLines;
    match mark
    case Bare => UnsignedRead(text);
    case Named => DescribedRead(text, hold.(ended := None));
    case Told =>
  }

  /** What a process reads under the lock is what the latest hold left. */
  lemma LookTells(h: Host, traces: seq<Trace>)
    requires |traces| == |h.turns| && FileTells(h, traces)
    ensures TellsOf(h, traces, Read(h.file.text), |h.turns|)
  {
    hide Read, LeftBy, Tells, Unsigned;
    if h.turns == [] {
      UnsignedRead(h.file.text);
    } else {
      LeftRead(h.file.text, LastHold(h.turns), LastMark(traces));
    }
  }

  lemma LeftActed(h: Host, traces: seq<Trace>, t: Token, a: Action)
    requires Inv(h) && Phased(h, traces) && FileTells(h, traces) && LeftTells(h, traces) && CanStep(h, Act(t, a))
    ensures LeftTells(Next(h, Act(t, a)), TracesAfter(h, traces, Act(t, a)))
  {
    hide Read, Landed, Ordered, Written, Known, Recognized, LookedAt, Describes, Tells, FileTells, Noticed,
         Left.EndedElsewhere;
    KeepsTraces(h, traces, Act(t, a));
    LookTells(h, traces);
  }

  lemma LeftUnacted(h: Host, traces: seq<Trace>, step: Step)
    requires Inv(h) && LeftTells(h, traces) && CanStep(h, step) && !step.Act?
    ensures LeftTells(Next(h, step), TracesAfter(h, traces, step))
  {
    hide Read, Landed, Ordered, Written, Known, Recognized, LookedAt, Describes, Tells, FileTells, Noticed,
         Left.EndedElsewhere;
  }

  lemma LeftStep(h: Host, traces: seq<Trace>, step: Step)
    requires Inv(h) && Phased(h, traces) && FileTells(h, traces) && LeftTells(h, traces) && CanStep(h, step)
    ensures LeftTells(Next(h, step), TracesAfter(h, traces, step))
  {
    hide Inv, Phased, FileTells, LeftTells, CanStep, Next, TracesAfter;
    if step.Act? {
      LeftActed(h, traces, step.actor, step.action);
    } else {
      LeftUnacted(h, traces, step);
    }
  }

  /** The actions that write under a hold. */
  predicate Writes(a: Action) { a.Sign? || a.Note? || a.Stamp? }

  lemma FileUnwritten(h: Host, traces: seq<Trace>, step: Step)
    requires Inv(h) && Phased(h, traces) && FileTells(h, traces) && CanStep(h, step)
    requires !(step.Act? && Writes(step.action))
    ensures FileTells(Next(h, step), TracesAfter(h, traces, step))
  {
    hide Read, Landed, Ordered, Written, Known, Recognized, LookedAt, Describes, Left.EndedElsewhere;
    KeepsTraces(h, traces, step);
  }

  lemma FileSigned(h: Host, traces: seq<Trace>, t: Token, landing: Landing)
    requires Inv(h) && Phased(h, traces) && CanStep(h, Act(t, Sign(landing)))
    ensures FileTells(Next(h, Act(t, Sign(landing))), TracesAfter(h, traces, Act(t, Sign(landing))))
  {
    hide Read, Ordered, Written, Known, Recognized, LookedAt, Describes, Left.EndedElsewhere;
    assert h.file.owner == Some(t) && h.file.text == "" && LastHold(h.turns).token == t;
    assert "" + Landed(HolderLine(t), landing) == Landed(HolderLine(t), landing);
    if landing.Whole? {
      SignatureLanded(LastHold(h.turns).(ended := None));
    } else {
      TokenWhole(t);
    }
  }

  lemma FileNoted(h: Host, traces: seq<Trace>, t: Token, cycle: int, landing: Landing)
    requires Inv(h) && Phased(h, traces) && FileTells(h, traces) && CanStep(h, Act(t, Note(cycle, landing)))
    ensures FileTells(Next(h, Act(t, Note(cycle, landing))), TracesAfter(h, traces, Act(t, Note(cycle, landing))))
  {
    hide Read, Landed, Ordered, Written, Known, Recognized, LookedAt, Describes, Left.EndedElsewhere;
    assert h.file.owner == Some(t);
    NoteDescribed(h.file.text, LastHold(h.turns).(ended := None), cycle, landing);
  }

  /** A stamp run into remains is no stamp a reader takes. */
  lemma StampRunOn(text: string, hold: Hold, stamp: nat)
    requires Describes(text, hold) && Read(text).unfinished
    ensures Describes(text + Record(ReleasedLine(stamp)), hold)
  {
    var lines := Split(text, '\n');
    var tail := lines[|lines| - 1];
    var line := ReleasedLine(stamp);
    assert '\n' !in line by {
      KeyWhole(RELEASED);
      assert '\n' !in Spell(stamp);
    }
    SplitLineAdded(text, line, '\n');
    assert Split(text + Record(line), '\n') == lines[..|lines| - 1] + [tail + line, []];
    RunTogether(tail, RELEASED, Spell(stamp), hold);
  }

  lemma StampTorn(text: string, hold: Hold, stamp: nat, n: nat)
    requires Describes(text, hold) && n <= |ReleasedLine(stamp)|
    ensures Describes(text + ReleasedLine(stamp)[..n], hold)
  {
    hide Describes;
    assert '\n' !in Spell(stamp);
    TornLanded(text, hold, RELEASED, Spell(stamp), n, hold);
  }

  /** A stamp that lands whole behind no remains is read as just that. */
  lemma StampTold(text: string, hold: Hold, stamp: nat)
    requires Describes(text, hold.(ended := None)) && !Read(text).unfinished && hold.ended == Some(stamp)
    ensures Tells(Read(text + Record(ReleasedLine(stamp))), hold, Told)
  {
    hide Split;
    DescribedRead(text, hold.(ended := None));
    KeysApart();
    assert '\n' !in Spell(stamp);
    WholeLineRead(text, RELEASED, Spell(stamp));
  }

  lemma FileStamped(h: Host, traces: seq<Trace>, t: Token, landing: Landing)
    requires Inv(h) && Phased(h, traces) && FileTells(h, traces) && CanStep(h, Act(t, Stamp(landing)))
    ensures FileTells(Next(h, Act(t, Stamp(landing))), TracesAfter(h, traces, Act(t, Stamp(landing))))
  {
    hide Read, Ordered, Written, Known, Recognized, LookedAt, Describes, Left.EndedElsewhere, Tells;
    assert h.file.owner == Some(t);
    var text, hold, stamp := h.file.text, LastHold(h.turns), h.processes[t].phase.stamp;
    assert hold.ended == Some(stamp) && Describes(text, hold.(ended := None));
    if landing.Whole? {
      if Read(text).unfinished {
        StampRunOn(text, hold.(ended := None), stamp);
      } else {
        StampTold(text, hold, stamp);
      }
    } else if !landing.cutBack {
      StampTorn(text, hold.(ended := None), stamp, landing.n);
    } else {
      assert text + "" == text;
    }
  }

  lemma FileStep(h: Host, traces: seq<Trace>, step: Step)
    requires Inv(h) && Phased(h, traces) && FileTells(h, traces) && CanStep(h, step)
    ensures FileTells(Next(h, step), TracesAfter(h, traces, step))
  {
    hide Inv, Phased, FileTells, CanStep, Next, TracesAfter;
    if step.Act? && Writes(step.action) {
      match step.action
      case Sign(landing) => FileSigned(h, traces, step.actor, landing);
      case Note(cycle, landing) => FileNoted(h, traces, step.actor, cycle, landing);
      case Stamp(landing) => FileStamped(h, traces, step.actor, landing);
    } else {
      FileUnwritten(h, traces, step);
    }
  }

  lemma PreciseStep(h: Host, traces: seq<Trace>, step: Step)
    requires Inv(h) && Precise(h, traces) && CanStep(h, step)
    ensures Precise(Next(h, step), TracesAfter(h, traces, step))
  {
    hide Inv, Phased, FileTells, LeftTells, Grounded, CanStep, Next, TracesAfter;
    assert Phased(h, traces);
    PhasedStep(h, traces, step);
    FileStep(h, traces, step);
    LeftStep(h, traces, step);
    forall t
      ensures Grounded(Next(h, step), TracesAfter(h, traces, step), t)
    {
      GroundedStep(h, traces, step, t);
    }
  }

  /**
   Over every run: the file tells of the latest hold, and what a holder read tells of the one before its own, as far as
   that hold's records landed; and `elsewhere` is the latest end any hold of its process was told of.
   */
  lemma {:induction false} ReachedPrecise(steps: seq<Step>)
    requires Reached(steps).Some?
    ensures Precise(Reached(steps).value, Traces(steps))
    decreases |steps|
  {
    hide Inv, CanStep, Next, TracesAfter;
    if steps == [] {
      FreshPrecise();
    } else {
      var before := steps[..|steps| - 1];
      ReachedInv(before);
      ReachedPrecise(before);
      PreciseStep(Reached(before).value, Traces(before), steps[|steps| - 1]);
    }
  }

  lemma FreshPrecise()
    ensures Precise(Fresh, [])
  {
  }

  // ----- When the answer is exact

  /** What a holder is told and what there was, at one host. */
  lemma ToldCovers(h: Host, traces: seq<Trace>, t: Token)
    requires Inv(h) && Precise(h, traces) && t in h.processes && h.processes[t].phase.Holding?
    ensures var elsewhere := h.processes[t].elsewhere;
            && (forall i: nat | Other(h, t, i) ::
                  h.turns[i].hold.ended.Some? && elsewhere.Some? && h.turns[i].hold.ended.value <= elsewhere.value)
            && (elsewhere.Some? ==> exists j :: Heard(h, traces, t, j) && Said(h, traces, t, j) == elsewhere.value)
            && (forall j | Heard(h, traces, t, j) :: elsewhere.Some? && Said(h, traces, t, j) <= elsewhere.value)
  {
    hide Ordered, Written, LookedAt, Recognized, Describes, Read, FileTells, LeftTells, Phased, Heard, Said;
    assert h.seen[t] == |h.turns|;
    assert Covers(h, t, h.processes[t].elsewhere, |h.turns|);
    assert Grounded(h, traces, t);
  }

  /** The answers a holder gets are those that are true of the holds there were. */
  ghost predicate AnswersTruly(h: Host, t: Token)
    requires t in h.processes
  {
    forall moment :: UndisturbedSince(h.processes[t], moment) <==> EndedBefore(h, t, moment)
  }

  /** For each end this process's holds were told of, another's hold of this boot ended then or later. */
  ghost predicate HeardOfHolds(h: Host, traces: seq<Trace>, t: Token) {
    forall j | Heard(h, traces, t, j) :: EndedSince(h, t, Said(h, traces, t, j))
  }

  /**
   Over every run: a holder is told it was undisturbed since exactly the moments every other process's hold of this boot
   ended before, if and only if for each end its own holds were told of, such a hold ended then or later. An end told
   of is the stamp of the hold taken over, or the moment that was found where it was not stamped whole.
   */
  lemma UndisturbedTruly(steps: seq<Step>, t: Token)
    requires Reached(steps).Some?
    requires var h := Reached(steps).value; t in h.processes && h.processes[t].phase.Holding?
    ensures var h := Reached(steps).value; AnswersTruly(h, t) <==> HeardOfHolds(h, Traces(steps), t)
  {
    hide Inv, Precise, Heard, Said;
    ReachedInv(steps);
    ReachedPrecise(steps);
    var h, traces := Reached(steps).value, Traces(steps);
    ToldCovers(h, traces, t);
    var elsewhere := h.processes[t].elsewhere;
    if AnswersTruly(h, t) {
      forall j | Heard(h, traces, t, j)
        ensures EndedSince(h, t, Said(h, traces, t, j))
      {
        assert !UndisturbedSince(h.processes[t], elsewhere.value);
        assert !EndedBefore(h, t, elsewhere.value);
      }
    }
    if HeardOfHolds(h, traces, t) {
      forall moment
        ensures UndisturbedSince(h.processes[t], moment) <==> EndedBefore(h, t, moment)
      {
        if elsewhere.Some? {
          var j :| Heard(h, traces, t, j) && Said(h, traces, t, j) == elsewhere.value;
          assert EndedSince(h, t, elsewhere.value);
        }
      }
    }
  }

  /** Every hold of `t` was taken over from one it signed itself, or from one another process of this boot stamped. */
  predicate TookOver(h: Host, traces: seq<Trace>, t: Token) {
    && |h.turns| == |traces|
    && forall j | 0 <= j < |h.turns| && h.turns[j].hold.token == t ::
         && j > 0
         && (if h.turns[j - 1].hold.token == t then traces[j - 1].mark != Bare
             else traces[j - 1].mark == Told && Other(h, t, j - 1))
  }

  lemma TookOverSaid(h: Host, traces: seq<Trace>, t: Token, j: nat)
    requires TookOver(h, traces, t) && Heard(h, traces, t, j)
    ensures EndedSince(h, t, Said(h, traces, t, j))
  {
    assert Other(h, t, j - 1);
  }

  /** So where nothing was taken over unstamped, what a holder is told is exact: it is held to no end but the latest. */
  lemma UndisturbedExact(steps: seq<Step>, t: Token, moment: nat)
    requires Reached(steps).Some?
    requires var h := Reached(steps).value;
             t in h.processes && h.processes[t].phase.Holding? && TookOver(h, Traces(steps), t)
    ensures var h := Reached(steps).value;
            UndisturbedSince(h.processes[t], moment) <==> EndedBefore(h, t, moment)
  {
    hide Traces, TookOver, Heard, Said, EndedSince, EndedBefore;
    var h, traces := Reached(steps).value, Traces(steps);
    forall j | Heard(h, traces, t, j)
      ensures EndedSince(h, t, Said(h, traces, t, j))
    {
      TookOverSaid(h, traces, t, j);
    }
    UndisturbedTruly(steps, t);
    assert AnswersTruly(h, t);
  }

  lemma Stepped(run: seq<Step>, h: Host, step: Step)
    requires Reached(run) == Some(h) && CanStep(h, step)
    ensures Reached(run + [step]) == Some(Next(h, step))
  {
    hide CanStep, Next;
    assert (run + [step])[..|run|] == run;
  }

  /** A process started at `now` on a namespace never used, with the lock taken and the file read. */
  function LookedFirst(t: Token, now: nat): seq<Step> {
    [Start(t)] + [Tick(now)] + [Act(t, Lock(false))] + [Act(t, Look)]
  }

  function Alone(t: Token, owner: Option<Token>, phase: Phase, now: nat): Host {
    Host(File("", owner), now, 0, map[t := Process(phase, None)], {t}, [], map[t := 0])
  }

  lemma FirstLooks(t: Token, now: nat)
    ensures Reached(LookedFirst(t, now)) == Some(Alone(t, Some(t), Looked(Read(""), true), now))
  {
    hide Read;
    assert Reached([]) == Some(Fresh) && [] + [Start(t)] == [Start(t)];
    Stepped([], Fresh, Start(t));
    assert Next(Fresh, Start(t)) == Alone(t, None, Idle, 0);
    Stepped([Start(t)], Alone(t, None, Idle, 0), Tick(now));
    var ticked := Alone(t, None, Idle, now);
    Stepped([Start(t)] + [Tick(now)], ticked, Act(t, Lock(false)));
    var locked := Alone(t, Some(t), Locked(true), now);
    assert Next(ticked, Act(t, Lock(false))) == locked;
    Stepped([Start(t)] + [Tick(now)] + [Act(t, Lock(false))], locked, Act(t, Look));
    assert Next(locked, Act(t, Look)) == Alone(t, Some(t), Looked(Read(""), true), now);
  }

  lemma FirstSigns(t: Token, now: nat)
    ensures Reached(LookedFirst(t, now) + [Act(t, Empty)] + [Act(t, Sign(Whole))])
         == Some(Alone(t, Some(t), Phase.Signed(Read(""), true), now).(
                 file := File(Record(HolderLine(t)), Some(t)), turns := [Turn(Hold(t, [], None), 0, now)]))
  {
    hide Read, Record, HolderLine;
    FirstLooks(t, now);
    var run := LookedFirst(t, now);
    var looked := Alone(t, Some(t), Looked(Read(""), true), now);
    Stepped(run, looked, Act(t, Empty));
    var emptied := Alone(t, Some(t), Emptied(Read(""), true), now).(turns := [Turn(Hold(t, [], None), 0, now)]);
    assert Next(looked, Act(t, Empty)) == emptied;
    Stepped(run + [Act(t, Empty)], emptied, Act(t, Sign(Whole)));
    assert "" + Record(HolderLine(t)) == Record(HolderLine(t));
    assert Next(emptied, Act(t, Sign(Whole))).processes == map[t := Process(Phase.Signed(Read(""), true), None)];
  }

  /**
   The first hold there ever is, taken at any moment: with no other to tell of, its process is told of one just
   ended.
   */
  lemma FirstHolderDisturbed(t: Token, now: nat)
    ensures var run := LookedFirst(t, now) + [Act(t, Empty)] + [Act(t, Sign(Whole))] + [Act(t, Find)];
            && Reached(run).Some?
            && var h := Reached(run).value;
               && t in h.processes && h.processes[t] == Process(Holding(1, true), Some(now))
               && |h.turns| == 1 && h.turns[0].hold.token == t
               && !UndisturbedSince(h.processes[t], now)
               && h.file == File(Record(HolderLine(t)), Some(t)) && h.clock == now && h.born == {t}
  {
    hide Read, Record;
    var run := LookedFirst(t, now);
    FirstSigns(t, now);
    var signed := Reached(run + [Act(t, Empty)] + [Act(t, Sign(Whole))]).value;
    Stepped(run + [Act(t, Empty)] + [Act(t, Sign(Whole))], signed, Act(t, Find));
    assert '\n' !in "";
    UnsignedRead("");
    assert Read("").EndedElsewhere(t, now) == Some(now);
  }

  /** A process that never was, started over a key nobody holds, through to its find. */
  function HeldNext(u: Token): seq<Step> {
    [Start(u)] + [Act(u, Lock(false))] + [Act(u, Look)] + [Act(u, Empty)] + [Act(u, Sign(Whole))] + [Act(u, Find)]
  }

  lemma LookedNext(run: seq<Step>, h: Host, u: Token)
    requires Reached(run) == Some(h) && u !in h.born && h.file.owner.None?
    ensures var looked := h.(file := h.file.(owner := Some(u)), born := h.born + {u}, seen := h.seen[u := 0],
                             processes := h.processes[u := Process(Looked(Read(h.file.text), true), None)]);
            Reached(run + [Start(u)] + [Act(u, Lock(false))] + [Act(u, Look)]) == Some(looked)
  {
    hide Read;
    Stepped(run, h, Start(u));
    var started := Next(h, Start(u));
    Stepped(run + [Start(u)], started, Act(u, Lock(false)));
    var locked := Next(started, Act(u, Lock(false)));
    Stepped(run + [Start(u)] + [Act(u, Lock(false))], locked, Act(u, Look));
    assert Next(locked, Act(u, Look)).processes == h.processes[u := Process(Looked(Read(h.file.text), true), None)];
  }

  lemma FoundNext(run: seq<Step>, h: Host, u: Token, left: Left)
    requires Reached(run) == Some(h) && u in h.processes && h.processes[u] == Process(Looked(left, true), None)
    ensures var all := run + [Act(u, Empty)] + [Act(u, Sign(Whole))] + [Act(u, Find)];
            && Reached(all).Some? && u in Reached(all).value.processes
            && Reached(all).value.processes[u]
               == Process(Holding(1, true), Noticed(None, left.EndedElsewhere(u, h.clock), h.clock))
  {
    hide Read, Left.EndedElsewhere, Noticed;
    Stepped(run, h, Act(u, Empty));
    var emptied := Next(h, Act(u, Empty));
    Stepped(run + [Act(u, Empty)], emptied, Act(u, Sign(Whole)));
    var signed := Next(emptied, Act(u, Sign(Whole)));
    Stepped(run + [Act(u, Empty)] + [Act(u, Sign(Whole))], signed, Act(u, Find));
  }

  lemma StampingDone(h: Host, t: Token, moment: nat)
    requires t in h.processes && h.file.owner == Some(t) && h.processes[t].phase == LettingGo(moment)
    ensures CanStep(h, Act(t, Stamp(Whole)))
    ensures var n := Next(h, Act(t, Stamp(Whole)));
            && n.file == h.file.(text := h.file.text + Record(ReleasedLine(moment)))
            && n.born == h.born && t in n.processes && n.processes[t].phase == Stamped
  {
    hide Record, ReleasedLine;
  }

  lemma LettingDone(h: Host, t: Token)
    requires t in h.processes && h.file.owner == Some(t) && h.processes[t].phase == Holding(1, true)
    ensures CanStep(h, Act(t, LetGo))
    ensures var n := Next(h, Act(t, LetGo));
            n.file == h.file && n.born == h.born && t in n.processes && n.processes[t].phase == LettingGo(h.clock)
  {
  }

  lemma UnlockDone(h: Host, t: Token)
    requires t in h.processes && h.processes[t].phase == Stamped
    ensures CanStep(h, Act(t, Unlock))
    ensures var n := Next(h, Act(t, Unlock)); n.file == File(h.file.text, None) && n.born == h.born
  {
  }

  lemma RestartDone(h: Host)
    ensures CanStep(h, Restart)
    ensures var n := Next(h, Restart); n.file == File(h.file.text, None) && n.clock == 0 && n.born == h.born
  {
  }

  lemma LetGoNext(run: seq<Step>, h: Host, t: Token)
    requires Reached(run) == Some(h) && t in h.processes
    requires h.processes[t].phase == Holding(1, true) && h.file.owner == Some(t)
    ensures var all := run + [Act(t, LetGo)] + [Act(t, Stamp(Whole))] + [Act(t, Unlock)] + [Restart];
            && Reached(all).Some?
            && var n := Reached(all).value;
               n.file == File(h.file.text + Record(ReleasedLine(h.clock)), None) && n.clock == 0 && n.born == h.born
  {
    hide CanStep, Next, Reached, Record, ReleasedLine;
    LettingDone(h, t);
    Stepped(run, h, Act(t, LetGo));
    var going := Next(h, Act(t, LetGo));
    StampingDone(going, t, h.clock);
    Stepped(run + [Act(t, LetGo)], going, Act(t, Stamp(Whole)));
    var stamped := Next(going, Act(t, Stamp(Whole)));
    UnlockDone(stamped, t);
    Stepped(run + [Act(t, LetGo)] + [Act(t, Stamp(Whole))], stamped, Act(t, Unlock));
    var gone := Next(stamped, Act(t, Unlock));
    RestartDone(gone);
    Stepped(run + [Act(t, LetGo)] + [Act(t, Stamp(Whole))] + [Act(t, Unlock)], gone, Restart);
  }

  /**
   A hold stamped before a restart, at a moment the clock begun again has not come to: the next process to hold the
   key is told of nothing.
   */
  lemma EarlierBootIgnored(t: Token, u: Token, moment: nat)
    requires t != u && moment > 0
    ensures var run := LookedFirst(t, moment) + [Act(t, Empty)] + [Act(t, Sign(Whole))] + [Act(t, Find)]
                       + [Act(t, LetGo)] + [Act(t, Stamp(Whole))] + [Act(t, Unlock)] + [Restart];
            && Reached(run).Some? && Reached(run + HeldNext(u)).Some?
            && Reached(run).value.file.text == Record(HolderLine(t)) + Record(ReleasedLine(moment))
            && var h := Reached(run + HeldNext(u)).value;
               u in h.processes && h.processes[u] == Process(Holding(1, true), None)
  {
    hide Read, Record, HolderLine, ReleasedLine, Reached, Next, CanStep, Left.EndedElsewhere;
    var held := LookedFirst(t, moment) + [Act(t, Empty)] + [Act(t, Sign(Whole))] + [Act(t, Find)];
    FirstHolderDisturbed(t, moment);
    LetGoNext(held, Reached(held).value, t);
    var run := held + [Act(t, LetGo)] + [Act(t, Stamp(Whole))] + [Act(t, Unlock)] + [Restart];
    var h := Reached(run).value;
    assert u !in h.born;
    LookedNext(run, h, u);
    var looking := run + [Start(u)] + [Act(u, Lock(false))] + [Act(u, Look)];
    FoundNext(looking, Reached(looking).value, u, Read(h.file.text));
    assert looking + [Act(u, Empty)] + [Act(u, Sign(Whole))] + [Act(u, Find)] == run + HeldNext(u);
    StampedRead(t, u, moment);
  }

  lemma StampedRead(t: Token, u: Token, moment: nat)
    requires t != u
    ensures Read(Record(HolderLine(t)) + Record(ReleasedLine(moment))).EndedElsewhere(u, 0) == Some(moment)
  {
    hide Read, Left.EndedElsewhere;
    CleanReleaseReadsBack(t, [], moment, u, 0);
  }
}
