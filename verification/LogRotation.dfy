/**
 The list-read-list protocol over a log directory while a rotation moves it: renames to names a file
 never held, a log made afresh, copies made and filled, the log truncated once a copy carries it all.
 Nothing is deleted and no inode is reused.
 */
module LogRotation {
  import opened Text
  import opened EventLog

  type Name = string
  type Inode = nat

  /** The log and its copies: which file each name is, each file's bytes, and the names each file has left. */
  datatype Disk = Disk(files: map<Name, Inode>, content: map<Inode, Bytes>, left: map<Inode, set<Name>>)

  datatype Step =
    | Idle
    | Create(inode: Inode)
    | Grow(grown: Inode, more: Bytes)
    | Copy(copyName: Name, copyInode: Inode)
    | Move(from: Name, to: Name)
    | Truncate(copied: Name)

  predicate Sound(d: Disk) {
    && d.content.Keys == d.left.Keys
    && (forall x | x in d.files :: d.files[x] in d.content && x !in d.left[d.files[x]])
    && (forall x, y | x in d.files && y in d.files && d.files[x] == d.files[y] :: x == y)
  }

  predicate CanStep(d: Disk, step: Step, log: Name)
    requires Sound(d)
  {
    match step
    case Idle => true
    case Create(inode) => log !in d.files && inode !in d.content
    case Grow(inode, _) => inode in d.content
    case Copy(name, inode) => name !in d.files && name != log && inode !in d.content
    case Move(from, to) => from in d.files && to !in d.files && to != log && to !in d.left[d.files[from]]
    case Truncate(copied) =>
      && log in d.files && copied in d.files && copied != log
      && d.content[d.files[log]] <= d.content[d.files[copied]]
  }

  function Next(d: Disk, step: Step, log: Name): (n: Disk)
    requires Sound(d) && CanStep(d, step, log)
    ensures Sound(n)
  {
    match step
    case Idle => d
    case Create(inode) =>
      Disk(d.files[log := inode], d.content[inode := []], d.left[inode := {}])
    case Grow(inode, more) => d.(content := d.content[inode := d.content[inode] + more])
    case Copy(name, inode) =>
      Disk(d.files[name := inode], d.content[inode := []], d.left[inode := {}])
    case Move(from, to) =>
      var inode := d.files[from];
      d.(files := (d.files - {from})[to := inode], left := d.left[inode := d.left[inode] + {from}])
    case Truncate(_) => d.(content := d.content[d.files[log] := []])
  }

  /** The directory after `n` of a run's steps. */
  function DiskAt(start: Disk, steps: seq<Step>, n: nat, log: Name): Option<Disk>
    requires Sound(start) && n <= |steps|
    ensures var d := DiskAt(start, steps, n, log); d.Some? ==> Sound(d.value)
  {
    if n == 0 then Some(start)
    else
      var before := DiskAt(start, steps, n - 1, log);
      if before.Some? && CanStep(before.value, steps[n - 1], log) then Some(Next(before.value, steps[n - 1], log))
      else None
  }

  /** A run: where it starts, its steps, each of which could be taken. */
  datatype Run = Run(log: Name, start: Disk, steps: seq<Step>) {
    ghost predicate Valid() {
      Sound(start) && forall n | 0 <= n <= |steps| :: DiskAt(start, steps, n, log).Some?
    }

    ghost function At(n: nat): (d: Disk)
      requires Valid() && n <= |steps|
      ensures Sound(d)
    {
      DiskAt(start, steps, n, log).value
    }
  }

  lemma OneStep(r: Run, n: nat)
    requires r.Valid() && n < |r.steps|
    ensures CanStep(r.At(n), r.steps[n], r.log) && r.At(n + 1) == Next(r.At(n), r.steps[n], r.log)
  {
    assert DiskAt(r.start, r.steps, n + 1, r.log).Some?;
  }

  // ----- What a run keeps of one file

  /** Where a directory has a file, or had it and it has left that name. */
  ghost predicate Stood(d: Disk, i: Inode, x: Name) {
    (x in d.files && d.files[x] == i) || (i in d.left && x in d.left[i])
  }

  ghost predicate Placed(d: Disk, i: Inode) { exists y :: y in d.files && d.files[y] == i }

  ghost predicate OffLog(d: Disk, i: Inode, log: Name) { forall y | y in d.files && d.files[y] == i :: y != log }

  lemma StepPlaced(d: Disk, step: Step, log: Name, i: Inode)
    requires Sound(d) && CanStep(d, step, log) && Placed(d, i)
    ensures Placed(Next(d, step, log), i)
    ensures OffLog(d, i, log) ==> OffLog(Next(d, step, log), i, log)
  {
    var n := Next(d, step, log);
    var y :| y in d.files && d.files[y] == i;
    if step.Move? && step.from == y {
      assert n.files[step.to] == i;
    } else {
      assert n.files[y] == i;
    }
  }

  /** A file once in the directory stays in it, and one that is a copy is never the log again. */
  lemma {:induction false} Stays(r: Run, i: Inode, n: nat, m: nat)
    requires r.Valid() && n <= m <= |r.steps| && Placed(r.At(n), i)
    ensures Placed(r.At(m), i)
    ensures OffLog(r.At(n), i, r.log) ==> OffLog(r.At(m), i, r.log)
    decreases m - n
  {
    hide Next, CanStep;
    if n < m {
      Stays(r, i, n, m - 1);
      OneStep(r, m - 1);
      StepPlaced(r.At(m - 1), r.steps[m - 1], r.log, i);
    }
  }

  lemma StepStood(d: Disk, step: Step, log: Name, i: Inode, x: Name)
    requires Sound(d) && CanStep(d, step, log) && Stood(d, i, x)
    ensures Stood(Next(d, step, log), i, x)
    ensures i in d.left && x in d.left[i] ==> i in Next(d, step, log).left && x in Next(d, step, log).left[i]
  {
  }

  /** A name a file has stood at it stands at still, or has left for good. */
  lemma {:induction false} StoodStays(r: Run, i: Inode, x: Name, n: nat, m: nat)
    requires r.Valid() && n <= m <= |r.steps| && Stood(r.At(n), i, x)
    ensures Stood(r.At(m), i, x)
    decreases m - n
  {
    hide Next, CanStep, Stood;
    if n < m {
      StoodStays(r, i, x, n, m - 1);
      OneStep(r, m - 1);
      StepStood(r.At(m - 1), r.steps[m - 1], r.log, i, x);
    }
  }

  /** A file at one name at two moments was at it at every moment between. */
  lemma Between(r: Run, i: Inode, x: Name, n: nat, k: nat, m: nat)
    requires r.Valid() && n <= k <= m <= |r.steps|
    requires x in r.At(n).files && r.At(n).files[x] == i
    requires x in r.At(m).files && r.At(m).files[x] == i
    ensures x in r.At(k).files && r.At(k).files[x] == i
  {
    StoodStays(r, i, x, n, k);
    if !(x in r.At(k).files && r.At(k).files[x] == i) {
      LeftStays(r, i, x, k, m);
    }
  }

  lemma {:induction false} LeftStays(r: Run, i: Inode, x: Name, n: nat, m: nat)
    requires r.Valid() && n <= m <= |r.steps| && i in r.At(n).left && x in r.At(n).left[i]
    ensures i in r.At(m).left && x in r.At(m).left[i]
    decreases m - n
  {
    hide Next, CanStep;
    if n < m {
      LeftStays(r, i, x, n, m - 1);
      OneStep(r, m - 1);
      StepStood(r.At(m - 1), r.steps[m - 1], r.log, i, x);
    }
  }

  ghost function ContentAt(r: Run, i: Inode, n: nat): Bytes
    requires r.Valid()
  {
    if n <= |r.steps| && i in r.At(n).content then r.At(n).content[i] else []
  }

  /** The file a name is at a moment of the run. */
  ghost function FileAt(r: Run, n: nat, x: Name): Option<Inode>
    requires r.Valid()
  {
    if n <= |r.steps| && x in r.At(n).files then Some(r.At(n).files[x]) else None
  }

  /** From one moment to another a file only grew. */
  ghost predicate Untouched(r: Run, i: Inode, n: nat, m: nat)
    requires r.Valid()
  {
    forall k: nat | n <= k < m :: ContentAt(r, i, k) <= ContentAt(r, i, k + 1)
  }

  lemma {:induction false} UntouchedGrows(r: Run, i: Inode, n: nat, m: nat)
    requires r.Valid() && n <= m <= |r.steps| && Untouched(r, i, n, m)
    ensures ContentAt(r, i, n) <= ContentAt(r, i, m)
    decreases m - n
  {
    if n < m {
      UntouchedGrows(r, i, n, m - 1);
      assert ContentAt(r, i, m - 1) <= ContentAt(r, i, m - 1 + 1);
    }
  }

  // ----- Lines

  /** The lines a file's bytes hold whole: all but what follows the last line end. */
  function WholeLines(s: Bytes): seq<Bytes> {
    var pieces := Split(s, NEWLINE);
    pieces[..|pieces| - 1]
  }

  lemma WholeLinesKept(s: Bytes, longer: Bytes, line: Bytes)
    requires s <= longer && line in WholeLines(s)
    ensures line in WholeLines(longer)
  {
    var more := longer[|s|..];
    assert longer == s + more;
    SplitConcat(s, more, NEWLINE);
    var p, q := Split(s, NEWLINE), Split(more, NEWLINE);
    var i :| 0 <= i < |p| - 1 && p[i] == line;
    assert Glue(p, q)[i] == line;
    assert WholeLines(longer)[i] == line;
  }

  lemma WholeLineNamed(s: Bytes, line: Bytes, named: Bytes)
    requires line in WholeLines(s) && Contains(line, named)
    ensures line in Naming(Split(s, NEWLINE), named)
  {
    NamingHas(Split(s, NEWLINE), named, line);
  }

  // ----- A line that stood stays readable

  /** A copy holds `line`, whole. */
  ghost predicate OnACopy(d: Disk, c: Inode, line: Bytes, log: Name) {
    Placed(d, c) && OffLog(d, c, log) && c in d.content && line in WholeLines(d.content[c])
  }

  lemma CopyStep(d: Disk, step: Step, log: Name, c: Inode, line: Bytes)
    requires Sound(d) && CanStep(d, step, log) && OnACopy(d, c, line, log)
    ensures OnACopy(Next(d, step, log), c, line, log)
    ensures d.content[c] <= Next(d, step, log).content[c]
  {
    StepPlaced(d, step, log, c);
    if step.Grow? && step.grown == c {
      WholeLinesKept(d.content[c], d.content[c] + step.more, line);
    }
  }

  lemma UntouchedOn(r: Run, i: Inode, n: nat, m: nat)
    requires r.Valid() && n <= m < |r.steps| && Untouched(r, i, n, m)
    requires ContentAt(r, i, m) <= ContentAt(r, i, m + 1)
    ensures Untouched(r, i, n, m + 1)
  {
    hide DiskAt;
  }

  lemma CopyOn(r: Run, c: Inode, line: Bytes, n: nat, m: nat)
    requires r.Valid() && n <= m < |r.steps| && OnACopy(r.At(m), c, line, r.log) && Untouched(r, c, n, m)
    ensures OnACopy(r.At(m + 1), c, line, r.log) && Untouched(r, c, n, m + 1)
  {
    OneStep(r, m);
    CopyStep(r.At(m), r.steps[m], r.log, c, line);
    UntouchedOn(r, c, n, m);
  }

  lemma {:induction false} CopyStays(r: Run, c: Inode, line: Bytes, n: nat, m: nat)
    requires r.Valid() && n <= m <= |r.steps| && OnACopy(r.At(n), c, line, r.log)
    ensures OnACopy(r.At(m), c, line, r.log) && Untouched(r, c, n, m)
    decreases m - n
  {
    hide DiskAt, WholeLines, Placed, OffLog;
    if n < m {
      CopyStays(r, c, line, n, m - 1);
      CopyOn(r, c, line, n, m - 1);
    }
  }

  /** One step under a file holding `line`: it only grew, or the line is on a copy behind it. */
  lemma TouchedStep(d: Disk, step: Step, log: Name, i: Inode, line: Bytes)
    requires Sound(d) && CanStep(d, step, log) && i in d.content && line in WholeLines(d.content[i])
    ensures var n := Next(d, step, log);
            || d.content[i] <= n.content[i]
            || OnSomeCopy(n, line, log)
  {
    if step.Truncate? && d.files[log] == i {
      var c := d.files[step.copied];
      WholeLinesKept(d.content[i], d.content[c], line);
      assert OnACopy(Next(d, step, log), c, line, log);
    }
  }

  ghost predicate OnSomeCopy(d: Disk, line: Bytes, log: Name) { exists c :: OnACopy(d, c, line, log) }

  lemma LineStep(r: Run, i: Inode, line: Bytes, n: nat, m: nat)
    requires r.Valid() && n <= m < |r.steps|
    requires i in r.At(n).content && line in WholeLines(r.At(n).content[i])
    requires Untouched(r, i, n, m) && i in r.At(m).content
    ensures (Untouched(r, i, n, m + 1) && i in r.At(m + 1).content) || OnSomeCopy(r.At(m + 1), line, r.log)
  {
    OneStep(r, m);
    UntouchedGrows(r, i, n, m);
    WholeLinesKept(ContentAt(r, i, n), ContentAt(r, i, m), line);
    TouchedStep(r.At(m), r.steps[m], r.log, i, line);
    if ContentAt(r, i, m) <= ContentAt(r, i, m + 1) {
      UntouchedOn(r, i, n, m);
    }
  }

  /** The file has only grown from one moment to another, or the line is on a copy at the later. */
  ghost predicate Kept(r: Run, i: Inode, line: Bytes, n: nat, m: nat)
    requires r.Valid() && n <= m <= |r.steps|
  {
    (Untouched(r, i, n, m) && i in r.At(m).content) || OnSomeCopy(r.At(m), line, r.log)
  }

  lemma KeptOn(r: Run, i: Inode, line: Bytes, n: nat, m: nat)
    requires r.Valid() && n <= m < |r.steps|
    requires i in r.At(n).content && line in WholeLines(r.At(n).content[i])
    requires Kept(r, i, line, n, m)
    ensures Kept(r, i, line, n, m + 1)
  {
    var before := r.At(m);
    if OnSomeCopy(before, line, r.log) {
      var c :| OnACopy(before, c, line, r.log);
      OneStep(r, m);
      CopyStep(before, r.steps[m], r.log, c, line);
    } else {
      LineStep(r, i, line, n, m);
    }
  }

  /** A line that stood on a file is there at every later moment, the file only grown, or is on a copy. */
  lemma {:induction false} LineStays(r: Run, i: Inode, line: Bytes, n: nat, m: nat)
    requires r.Valid() && n <= m <= |r.steps|
    requires i in r.At(n).content && line in WholeLines(r.At(n).content[i])
    ensures Kept(r, i, line, n, m)
    decreases m - n
  {
    if n < m {
      LineStays(r, i, line, n, m - 1);
      KeptOn(r, i, line, n, m - 1);
    }
  }

  // ----- The reading

  /**
   One `_reads`: the moments its two listings were taken at, the moment it looked at each listed name
   ahead of the reads and behind them, when it opened each and was done with it, and what it read.
   */
  datatype Pass = Pass(
    listed: nat,
    looked: map<Name, nat>,
    begun: map<Name, nat>,
    ended: map<Name, nat>,
    read: map<Name, Bytes>,
    again: nat,
    lookedAgain: map<Name, nat>)

  /**
   The order `_reads` works in: every name looked at, the log read ahead of its copies, all of it between the
   listings.
   */
  ghost predicate Timed(r: Run, p: Pass)
    requires r.Valid()
  {
    && p.listed <= p.again <= |r.steps|
    && var names := r.At(p.listed).files.Keys;
       && p.looked.Keys == names && p.begun.Keys == names && p.ended.Keys == names && p.read.Keys == names
       && (forall x | x in names :: p.listed <= p.looked[x] && FileAt(r, p.looked[x], x).Some?)
       && (forall x, y | x in names && y in names :: p.looked[x] <= p.begun[y])
       && (forall x | x in names :: p.begun[x] <= p.ended[x] <= p.again && FileAt(r, p.begun[x], x).Some?)
       && (r.log in names ==> forall x | x in names && x != r.log :: p.ended[r.log] <= p.begun[x])
       && p.lookedAgain.Keys == r.At(p.again).files.Keys
       && (forall x | x in p.lookedAgain :: p.again <= p.lookedAgain[x] && FileAt(r, p.lookedAgain[x], x).Some?)
  }

  /** What reading a file gives: where it only grew meanwhile, at least what stood on it when it was opened. */
  ghost predicate ReadTrue(r: Run, p: Pass)
    requires r.Valid() && Timed(r, p)
  {
    forall x | x in p.read ::
      var i := FileAt(r, p.begun[x], x);
      i.Some? && Untouched(r, i.value, p.begun[x], p.ended[x]) ==> ContentAt(r, i.value, p.begun[x]) <= p.read[x]
  }

  /** The reading counts: its two listings agree, name by name and file by file. */
  ghost predicate Counts(r: Run, p: Pass)
    requires r.Valid() && Timed(r, p)
  {
    && p.looked.Keys == p.lookedAgain.Keys
    && forall x | x in p.looked :: FileAt(r, p.looked[x], x) == FileAt(r, p.lookedAgain[x], x)
  }

  /** The lines a reading answers with. */
  ghost predicate Answered(p: Pass, line: Bytes, named: Bytes) {
    exists x :: x in p.read && line in Naming(Split(p.read[x], NEWLINE), named)
  }

  /** A name that stood on one file at both looks stood on it throughout, the second listing included. */
  lemma SameFile(r: Run, p: Pass, x: Name, k: nat)
    requires r.Valid() && Timed(r, p) && Counts(r, p) && x in p.looked
    requires p.looked[x] <= k <= p.lookedAgain[x]
    ensures k <= |r.steps| && FileAt(r, k, x).Some? && FileAt(r, k, x) == FileAt(r, p.looked[x], x)
  {
    hide DiskAt;
    Between(r, r.At(p.looked[x]).files[x], x, p.looked[x], k, p.lookedAgain[x]);
  }

  /**
   In a reading that counts, a file in the directory by the second listing was read at the one name it kept
   throughout.
   */
  lemma ReadWhereItStood(r: Run, p: Pass, i: Inode, n: nat) returns (x: Name)
    requires r.Valid() && Timed(r, p) && Counts(r, p)
    requires n <= p.again && Placed(r.At(n), i)
    ensures x in p.read && FileAt(r, p.looked[x], x) == FileAt(r, p.begun[x], x) == FileAt(r, p.again, x) == Some(i)
  {
    hide DiskAt;
    Stays(r, i, n, p.again);
    x :| x in r.At(p.again).files && r.At(p.again).files[x] == i;
    assert x in p.lookedAgain && x in p.looked;
    assert p.looked[x] <= p.begun[x] <= p.again <= p.lookedAgain[x];
    SameFile(r, p, x, p.again);
    SameFile(r, p, x, p.begun[x]);
  }

  /** A copy holding a line before it is opened is read with it. */
  lemma CopyRead(r: Run, p: Pass, c: Inode, line: Bytes, named: Bytes, n: nat)
    requires r.Valid() && Timed(r, p) && Counts(r, p) && ReadTrue(r, p)
    requires n <= p.again && OnACopy(r.At(n), c, line, r.log) && Contains(line, named)
    requires forall x | x in p.begun && x != r.log :: n <= p.begun[x]
    ensures Answered(p, line, named)
  {
    hide DiskAt;
    var x := ReadWhereItStood(r, p, c, n);
    CopyStays(r, c, line, n, p.again);
    assert r.At(p.again).files[x] == c;
    assert x != r.log;
    CopyStays(r, c, line, n, p.begun[x]);
    CopyStays(r, c, line, p.begun[x], p.ended[x]);
    WholeLinesKept(ContentAt(r, c, p.begun[x]), p.read[x], line);
    WholeLineNamed(p.read[x], line, named);
  }

  /** The moments of one name's part in a reading. */
  lemma TimedAt(r: Run, p: Pass, x: Name)
    requires r.Valid() && Timed(r, p) && x in p.read
    ensures x in p.looked && x in p.begun && x in p.ended
    ensures p.listed <= p.looked[x] <= p.begun[x] <= p.ended[x] <= p.again <= |r.steps|
    ensures forall y | y in p.begun :: p.looked[x] <= p.begun[y]
    ensures x == r.log ==> forall y | y in p.begun && y != r.log :: p.ended[x] <= p.begun[y]
  {
    hide DiskAt;
  }

  lemma UntouchedParts(r: Run, i: Inode, n: nat, k: nat, m: nat)
    requires r.Valid() && n <= k <= m && Untouched(r, i, n, m)
    ensures Untouched(r, i, n, k) && Untouched(r, i, k, m)
  {
    hide ContentAt;
  }

  /** A log that only grew until the reading was done with it was read with every line it began with. */
  lemma ReadUntouched(r: Run, p: Pass, x: Name, i: Inode, line: Bytes, named: Bytes)
    requires r.Valid() && Timed(r, p) && ReadTrue(r, p) && x in p.read && FileAt(r, p.begun[x], x) == Some(i)
    requires i in r.At(p.listed).content && line in WholeLines(r.At(p.listed).content[i]) && Contains(line, named)
    requires p.listed <= p.ended[x] && Untouched(r, i, p.listed, p.ended[x])
    ensures Answered(p, line, named)
  {
    hide DiskAt, Timed, WholeLines, Contains;
    TimedAt(r, p, x);
    UntouchedParts(r, i, p.listed, p.begun[x], p.ended[x]);
    UntouchedGrows(r, i, p.listed, p.begun[x]);
    WholeLinesKept(ContentAt(r, i, p.listed), ContentAt(r, i, p.begun[x]), line);
    WholeLinesKept(ContentAt(r, i, p.begun[x]), p.read[x], line);
    WholeLineNamed(p.read[x], line, named);
  }

  /** The log's own lines: read with it, or read off the copy a rotation left them on meanwhile. */
  lemma LogRead(r: Run, p: Pass, i: Inode, line: Bytes, named: Bytes)
    requires r.Valid() && Timed(r, p) && Counts(r, p) && ReadTrue(r, p)
    requires r.log in p.read && FileAt(r, p.begun[r.log], r.log) == Some(i)
    requires i in r.At(p.listed).content && line in WholeLines(r.At(p.listed).content[i]) && Contains(line, named)
    ensures Answered(p, line, named)
  {
    hide DiskAt, Timed, Counts, ReadTrue, WholeLines, Contains, Answered, Untouched, OnACopy;
    TimedAt(r, p, r.log);
    var done := p.ended[r.log];
    LineStays(r, i, line, p.listed, done);
    if OnSomeCopy(r.At(done), line, r.log) {
      var c :| OnACopy(r.At(done), c, line, r.log);
      CopyRead(r, p, c, line, named, done);
    } else {
      ReadUntouched(r, p, r.log, i, line, named);
    }
  }

  /** A copy that only grew still holds its lines. */
  lemma StillOnCopy(r: Run, x: Name, i: Inode, line: Bytes, n: nat, m: nat)
    requires r.Valid() && n <= m <= |r.steps| && FileAt(r, m, x) == Some(i) && x != r.log
    requires i in r.At(n).content && line in WholeLines(r.At(n).content[i])
    requires Untouched(r, i, n, m) && i in r.At(m).content
    ensures OnACopy(r.At(m), i, line, r.log)
  {
    hide DiskAt, WholeLines;
    UntouchedGrows(r, i, n, m);
    WholeLinesKept(ContentAt(r, i, n), ContentAt(r, i, m), line);
  }

  /** A copy's lines: on it still when it is opened, or on another copy by then. */
  lemma ListedCopyRead(r: Run, p: Pass, x: Name, i: Inode, line: Bytes, named: Bytes)
    requires r.Valid() && Timed(r, p) && Counts(r, p) && ReadTrue(r, p)
    requires x in p.read && x != r.log && FileAt(r, p.looked[x], x) == Some(i)
    requires i in r.At(p.listed).content && line in WholeLines(r.At(p.listed).content[i]) && Contains(line, named)
    ensures Answered(p, line, named)
  {
    hide DiskAt, Timed, Counts, ReadTrue, WholeLines, Contains, Answered, Untouched;
    TimedAt(r, p, x);
    var looked := p.looked[x];
    LineStays(r, i, line, p.listed, looked);
    if Untouched(r, i, p.listed, looked) && i in r.At(looked).content {
      StillOnCopy(r, x, i, line, p.listed, looked);
    }
    var c :| OnACopy(r.At(looked), c, line, r.log);
    CopyRead(r, p, c, line, named, looked);
  }

  /**
   A reading that counts misses nothing: every whole line naming the event that stood on the log or a
   copy of it when the reading began is among the lines it answers with, whatever the rotation did.
   */
  lemma NothingMissed(r: Run, p: Pass, i: Inode, line: Bytes, named: Bytes)
    requires r.Valid() && Timed(r, p) && Counts(r, p) && ReadTrue(r, p)
    requires Placed(r.At(p.listed), i) && i in r.At(p.listed).content
    requires line in WholeLines(r.At(p.listed).content[i]) && Contains(line, named)
    ensures Answered(p, line, named)
  {
    hide DiskAt, Counts, ReadTrue, WholeLines, Contains, Answered;
    var x := ReadWhereItStood(r, p, i, p.listed);
    if x == r.log {
      LogRead(r, p, i, line, named);
    } else {
      ListedCopyRead(r, p, x, i, line, named);
    }
  }

  // ----- When a reading counts

  /** A step that puts no name on another file, and makes and takes away none. */
  predicate NamesStand(step: Step) { step.Idle? || step.Grow? || step.Truncate? }

  lemma {:induction false} FilesStand(r: Run, n: nat, m: nat)
    requires r.Valid() && n <= m <= |r.steps| && forall k | n <= k < m :: NamesStand(r.steps[k])
    ensures r.At(m).files == r.At(n).files
    decreases m - n
  {
    if n < m {
      FilesStand(r, n, m - 1);
      OneStep(r, m - 1);
    }
  }

  /** The moments one reading lies between. */
  predicate Over(p: Pass, last: nat) {
    p.again <= last && forall x | x in p.lookedAgain :: p.lookedAgain[x] <= last
  }

  /** A reading under which nothing was renamed, made or copied counts, whatever was written or truncated under it. */
  lemma StillCounts(r: Run, p: Pass, last: nat)
    requires r.Valid() && Timed(r, p) && last <= |r.steps| && Over(p, last)
    requires forall k | p.listed <= k < last :: NamesStand(r.steps[k])
    ensures Counts(r, p)
  {
    hide DiskAt, NamesStand;
    FilesStand(r, p.listed, p.again);
    forall x | x in p.looked
      ensures FileAt(r, p.looked[x], x) == FileAt(r, p.lookedAgain[x], x)
    {
      TimedAt(r, p, x);
      assert x in p.lookedAgain;
      LookedAlike(r, x, p.listed, p.looked[x], p.lookedAgain[x], last);
    }
  }

  lemma LookedAlike(r: Run, x: Name, n: nat, k: nat, m: nat, last: nat)
    requires r.Valid() && n <= k <= last && n <= m <= last <= |r.steps|
    requires forall k | n <= k < last :: NamesStand(r.steps[k])
    ensures FileAt(r, k, x) == FileAt(r, m, x)
  {
    hide DiskAt, NamesStand;
    FilesStand(r, n, k);
    FilesStand(r, n, m);
  }

  /** A reading all of whose moments are one. */
  function AtOnce(n: nat, content: map<Name, Bytes>): (p: Pass) {
    var moments := map x | x in content :: n;
    Pass(n, moments, moments, moments, content, n, moments)
  }

  /** A reading of what each name holds at one moment is in order, true and counts, whatever the run. */
  lemma AtOnceCounts(r: Run, n: nat)
    requires r.Valid() && n <= |r.steps|
    ensures var d := r.At(n);
            var p := AtOnce(n, map x | x in d.files :: d.content[d.files[x]]);
            Timed(r, p) && ReadTrue(r, p) && Counts(r, p)
  {
    hide DiskAt;
  }

  /** A file truncated while it was read may have been read as anything: only one that grew is read at least so far. */
  lemma TruncatedReads(r: Run, p: Pass, x: Name, bytes: Bytes)
    requires r.Valid() && Timed(r, p) && ReadTrue(r, p) && x in p.read
    requires !Untouched(r, FileAt(r, p.begun[x], x).value, p.begun[x], p.ended[x])
    ensures Timed(r, p.(read := p.read[x := bytes])) && ReadTrue(r, p.(read := p.read[x := bytes]))
  {
    hide DiskAt, Untouched, Timed, FileAt, ContentAt;
    TimedRead(r, p, x, bytes);
  }

  lemma TimedRead(r: Run, p: Pass, x: Name, bytes: Bytes)
    requires r.Valid() && Timed(r, p) && x in p.read
    ensures Timed(r, p.(read := p.read[x := bytes])) && FileAt(r, p.begun[x], x).Some?
  {
    hide DiskAt, FileAt, Untouched;
    assert p.read[x := bytes].Keys == p.read.Keys;
  }

  // ----- Either rotation can be run

  ghost predicate LeadsTo(start: Disk, steps: seq<Step>, log: Name, end: Disk)
    requires Sound(start)
  {
    Run(log, start, steps).Valid() && Run(log, start, steps).At(|steps|) == end
  }

  /** A directory with the log alone in it. */
  function OneLog(log: Name, held: Bytes): (d: Disk)
    ensures Sound(d)
  {
    Disk(map[log := 0], map[0 := held], map[0 := {}])
  }

  lemma StepLeads(start: Disk, steps: seq<Step>, step: Step, log: Name, d: Disk)
    requires Sound(start) && Sound(d) && LeadsTo(start, steps, log, d) && CanStep(d, step, log)
    ensures LeadsTo(start, steps + [step], log, Next(d, step, log))
  {
    hide CanStep, Next;
    var all := steps + [step];
    forall n | 0 <= n <= |steps| ensures DiskAt(start, all, n, log) == DiskAt(start, steps, n, log) {
      SameStart(start, steps, all, n, log);
    }
    assert all[|steps|] == step;
  }

  lemma {:induction false} SameStart(start: Disk, steps: seq<Step>, all: seq<Step>, n: nat, log: Name)
    requires Sound(start) && n <= |steps| <= |all| && all[..|steps|] == steps
    ensures DiskAt(start, all, n, log) == DiskAt(start, steps, n, log)
  {
    hide CanStep, Next;
    if n > 0 {
      SameStart(start, steps, all, n - 1, log);
      assert all[n - 1] == all[..|steps|][n - 1];
    }
  }

  lemma ThreeLead(start: Disk, a: Step, b: Step, c: Step, log: Name, first: Disk, second: Disk)
    requires Sound(start) && CanStep(start, a, log) && first == Next(start, a, log)
    requires CanStep(first, b, log) && second == Next(first, b, log) && CanStep(second, c, log)
    ensures LeadsTo(start, [a, b, c], log, Next(second, c, log))
  {
    hide CanStep, Next;
    assert LeadsTo(start, [], log, start);
    hide LeadsTo;
    StepLeads(start, [], a, log, start);
    assert [] + [a] == [a] && [a] + [b] == [a, b] && [a, b] + [c] == [a, b, c];
    StepLeads(start, [a], b, log, first);
    StepLeads(start, [a, b], c, log, second);
  }

  /** The log and a copy of it, and what each holds. */
  function WithCopy(log: Name, copy: Name, held: Bytes, copied: Bytes): (d: Disk)
    requires log != copy
    ensures Sound(d)
  {
    Disk(map[log := 0, copy := 1], map[0 := held, 1 := copied], map[0 := {}, 1 := {}])
  }

  lemma Copied(log: Name, copy: Name, held: Bytes)
    requires log != copy
    ensures CanStep(OneLog(log, held), Copy(copy, 1), log)
    ensures Next(OneLog(log, held), Copy(copy, 1), log) == WithCopy(log, copy, held, [])
  {
  }

  lemma Filled(log: Name, copy: Name, held: Bytes)
    requires log != copy
    ensures var d, n := WithCopy(log, copy, held, []), WithCopy(log, copy, held, held);
            && CanStep(d, Grow(1, held), log) && Next(d, Grow(1, held), log) == n
            && CanStep(n, Truncate(copy), log) && Next(n, Truncate(copy), log) == WithCopy(log, copy, [], held)
  {
    assert [] + held == held;
  }

  /** A copy made, filled, and the log truncated, can be run: the log's bytes are the copy's and it has none. */
  lemma SomeCopying(log: Name, copy: Name, held: Bytes)
    requires log != copy
    ensures LeadsTo(OneLog(log, held), [Copy(copy, 1), Grow(1, held), Truncate(copy)], log,
                    Disk(map[log := 0, copy := 1], map[0 := [], 1 := held], map[0 := {}, 1 := {}]))
  {
    hide LeadsTo, CanStep, Next;
    Copied(log, copy, held);
    Filled(log, copy, held);
    ThreeLead(OneLog(log, held), Copy(copy, 1), Grow(1, held), Truncate(copy), log,
              WithCopy(log, copy, held, []), WithCopy(log, copy, held, held));
  }

  /** The log renamed and made afresh, can be run: the copy has its bytes, and its name is on another file. */
  lemma SomeRenaming(log: Name, copy: Name, held: Bytes)
    requires log != copy
    ensures LeadsTo(OneLog(log, held), [Move(log, copy), Create(1), Grow(1, held)], log,
                    Disk(map[copy := 0, log := 1], map[0 := held, 1 := held], map[0 := {log}, 1 := {}]))
  {
    hide LeadsTo;
    var d := OneLog(log, held);
    var moved := Next(d, Move(log, copy), log);
    var made := Next(moved, Create(1), log);
    ThreeLead(d, Move(log, copy), Create(1), Grow(1, held), log, moved, made);
    assert [] + held == held;
    var none: set<Name> := {};
    assert none + {log} == {log};
    assert Next(made, Grow(1, held), log) ==
           Disk(map[copy := 0, log := 1], map[0 := held, 1 := held], map[0 := {log}, 1 := {}]);
  }
}
