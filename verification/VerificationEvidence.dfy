/**
 The commands an artifact reports and the one text they are rendered as. What a command may not carry is
 exactly what would let two sequences of commands render alike.
 */
module VerificationEvidence {
  import opened Text
  import opened PythonText
  import opened Decimal

  const FENCE := "```"
  const OPENING_FENCE := "\n\n```text\n"
  const CLOSING_FENCE := "\n```"
  const EXIT := "` -- exit "
  const RESERVED := "<!--orchestrator-"
  // Its first character stands apart: it is what tells this text from any command's rendering.
  const NOTHING_RAN :=
    "N" + ("o verification command was configured, so none ran. This artifact records that absence and is not "
           + "evidence that anything passed.")

  datatype Command = Command(command: string, status: int, output: string)

  // ----- What is refused

  /** A line of a transcript that would close the block it is rendered in. */
  predicate Fence(line: string) { FENCE <= Skip(line) }

  predicate Fenced(output: string) { exists i :: 0 <= i < |SplitLines(output)| && Fence(SplitLines(output)[i]) }

  predicate Unrenderable(command: string) {
    Strip(command) == "" || '`' in command || '\n' in command || '\r' in command
  }

  predicate Accepted(c: Command) {
    && !Unrenderable(c.command)
    && !Contains(c.command, RESERVED) && !Contains(c.output, RESERVED)
    && !Fenced(c.output)
  }

  predicate AllAccepted(commands: seq<Command>) { forall i | 0 <= i < |commands| :: Accepted(commands[i]) }

  /**
   A command is accepted exactly where it is no blank one, has neither a backtick nor a line end, neither it nor its
   transcript carries a marker, and no line of the transcript is blanks and then a fence.
   */
  lemma AcceptedExactly(c: Command)
    ensures Accepted(c) <==>
              && !Blank(c.command) && '`' !in c.command && '\n' !in c.command && '\r' !in c.command
              && !Contains(c.command, "<!--orchestrator-") && !Contains(c.output, "<!--orchestrator-")
              && !exists i :: 0 <= i < |SplitLines(c.output)| && BlanksAndFence(SplitLines(c.output)[i])
  {
    hide SplitLines, Contains, Strip, Fence, BlanksAndFence;
    BlankStripped(c.command);
    FencedIs(c.output);
  }

  lemma FencedIs(output: string)
    ensures Fenced(output) <==> exists i :: 0 <= i < |SplitLines(output)| && BlanksAndFence(SplitLines(output)[i])
  {
    hide SplitLines, Fence, BlanksAndFence;
    forall i | 0 <= i < |SplitLines(output)|
      ensures Fence(SplitLines(output)[i]) <==> BlanksAndFence(SplitLines(output)[i])
    {
      FenceIs(SplitLines(output)[i]);
    }
  }

  ghost predicate BlanksAndFence(line: string) {
    exists k :: 0 <= k <= |line| - 3 && Blank(line[..k]) && line[k..k + 3] == "```"
  }

  lemma BlankStripped(t: string)
    ensures Strip(t) == "" <==> Blank(t)
  {
    SkipIs(t);
  }

  lemma FenceIs(line: string)
    ensures Fence(line) <==> BlanksAndFence(line)
  {
    SkipIs(line);
    var ahead := |line| - |Skip(line)|;
    if Fence(line) {
      assert line[ahead..ahead + 3] == Skip(line)[..3];
    }
    if BlanksAndFence(line) {
      var k :| 0 <= k <= |line| - 3 && Blank(line[..k]) && line[k..k + 3] == "```";
      SkipTo(line, k);
      assert line[k..][..3] == line[k..k + 3];
    }
  }

  lemma {:induction false} SkipTo(t: string, k: nat)
    requires k < |t| && Blank(t[..k]) && !IsSpace(t[k])
    ensures Skip(t) == t[k..]
  {
    if k > 0 {
      assert t[..k][0] == t[0];
      assert t[1..][..k - 1] == t[..k][1..];
      SkipTo(t[1..], k - 1);
    }
  }

  // ----- Rendering

  function Transcript(output: string): string {
    if output == "" then "" else OPENING_FENCE + output + CLOSING_FENCE
  }

  function Rendered(c: Command): string { "`" + c.command + EXIT + SpellInt(c.status) + Transcript(c.output) }

  function Joined(commands: seq<Command>): string
    requires commands != []
    decreases |commands|, 0
  {
    Rendered(commands[0]) + Behind(commands[1..])
  }

  /** What follows a command's rendering: nothing, or the separator and the rest. */
  function Behind(commands: seq<Command>): string
    decreases |commands|, 1
  {
    if commands == [] then "" else "\n\n" + Joined(commands)
  }

  function RenderCommands(commands: seq<Command>): string {
    if commands == [] then NOTHING_RAN else Joined(commands)
  }

  // ----- Reading a rendering back

  /** Where the first closing fence stands. */
  function Closing(t: string): (at: Option<nat>)
    ensures at.Some? ==> at.value + 4 <= |t|
  {
    if t == "" then None
    else if CLOSING_FENCE <= t then Some(0)
    else
      var at := Closing(t[1..]);
      if at.None? then None else Some(at.value + 1)
  }

  function ReadStatus(s: string): Option<int> {
    if IsDecimal(s) then Some(Value(s))
    else if s != "" && s[0] == '-' && IsDecimal(s[1..]) then Some(-(Value(s[1..]) as int))
    else None
  }

  /** The transcript behind a command's line, and what follows it; none is an empty one. */
  function ReadTranscript(t: string): Option<(string, string)> {
    if !(OPENING_FENCE <= t) then Some(("", t))
    else
      var inner := t[|OPENING_FENCE|..];
      var at := Closing(inner);
      if at.None? then None else Some((inner[..at.value], inner[at.value + 4..]))
  }

  /** The command a rendering begins with, and what follows it. */
  function ReadCommand(t: string): Option<(Command, string)> {
    if t == "" then None
    else
      var command := Before(t[1..], '`');
      var line := t[1 + |command|..];
      if !(EXIT <= line) then None
      else
        var behind := line[|EXIT|..];
        var status := Before(behind, '\n');
        var number := ReadStatus(status);
        var transcript := ReadTranscript(behind[|status|..]);
        if number.None? || transcript.None? then None
        else Some((Command(command, number.value, transcript.value.0), transcript.value.1))
  }

  // ----- Every rendering reads back

  lemma StatusRead(z: int)
    ensures ReadStatus(SpellInt(z)) == Some(z) && '\n' !in SpellInt(z)
  {
    SpellIntDecimal(z);
    if z < 0 {
      assert SpellInt(z)[1..] == Spell(-z);
      assert !IsDecimal(SpellInt(z));
    }
  }

  predicate ClosesAt(t: string, at: nat) { at + 4 <= |t| && t[at..at + 4] == CLOSING_FENCE }

  lemma ClosesAtIs(t: string, at: nat)
    ensures ClosesAt(t, at)
        <==> at + 4 <= |t| && t[at] == '\n' && t[at + 1] == '`' && t[at + 2] == '`' && t[at + 3] == '`'
  {
    if at + 4 <= |t| {
      var four := t[at..at + 4];
      assert four[0] == t[at] && four[1] == t[at + 1] && four[2] == t[at + 2] && four[3] == t[at + 3];
      assert |CLOSING_FENCE| == 4;
    }
  }

  /** A fence right behind a newline opens a line of its own, wherever it stands in a text. */
  lemma {:induction false} FenceLine(t: string, at: nat) returns (i: nat)
    requires ClosesAt(t, at)
    ensures 0 < i < |SplitLines(t)| && FENCE <= SplitLines(t)[i]
    decreases |t|
  {
    hide ClosesAt, SplitLines;
    ClosesAtIs(t, at);
    if IsBreak(t[0]) {
      BreakSplit(t);
      var n := BreakLength(t);
      var rest := t[n..];
      if at < n {
        assert n == 2 ==> t[1] == '\n' && t[0] == '\r';
        assert at == n - 1;
        FenceFirst(rest);
        return 1;
      } else {
        ClosesAtIs(rest, at - n);
        i := FenceLine(rest, at - n);
        i := i + 1;
      }
    } else {
      WithinSplit(t);
      ClosesAtIs(t[1..], at - 1);
      i := FenceLine(t[1..], at - 1);
    }
  }

  /** A text that begins with a fence has a first line that does. */
  lemma FenceFirst(t: string)
    requires |t| >= 3 && t[0] == '`' && t[1] == '`' && t[2] == '`'
    ensures SplitLines(t) != [] && FENCE <= SplitLines(t)[0]
  {
    hide SplitLines;
    var c := SplitLines(t[3..]);
    assert t[1..][1..] == t[2..] && t[2..][1..] == t[3..];
    WithinSplit(t);
    WithinSplit(t[1..]);
    WithinSplit(t[2..]);
  }

  lemma NoFenceWithin(output: string, at: nat)
    requires !Fenced(output)
    ensures !ClosesAt(output, at)
  {
    if ClosesAt(output, at) {
      var i := FenceLine(output, at);
      assert false;
    }
  }

  /** The fence that closes an accepted transcript is the first behind its opening. */
  lemma {:induction false} ClosingFound(output: string, k: nat, rest: string)
    requires k <= |output| && !Fenced(output)
    ensures Closing(output[k..] + (CLOSING_FENCE + rest)) == Some(|output| - k)
    decreases |output| - k
  {
    hide Fenced;
    var t := output[k..] + (CLOSING_FENCE + rest);
    if k == |output| {
      assert t == CLOSING_FENCE + rest;
    } else {
      ClosingFound(output, k + 1, rest);
      assert t[1..] == output[k + 1..] + (CLOSING_FENCE + rest);
      NoFenceWithin(output, k);
      NotClosingAt(output, k, rest);
    }
  }

  lemma NotClosingAt(output: string, k: nat, rest: string)
    requires k < |output| && !ClosesAt(output, k)
    ensures !(CLOSING_FENCE <= output[k..] + (CLOSING_FENCE + rest))
  {
    var t := output[k..] + (CLOSING_FENCE + rest);
    if k + 4 <= |output| {
      assert t[..4] == output[k..k + 4];
    } else {
      assert t[|output| - k] == '\n' && CLOSING_FENCE[|output| - k] == '`';
    }
  }

  /** What can follow a command's rendering: nothing, or a separator no transcript's opening begins with. */
  predicate Parted(rest: string) {
    rest == "" || (|rest| >= 4 && rest[0] == '\n' && rest[1] == '\n' && rest[2] == '`' && rest[3] != '`')
  }

  lemma TranscriptRead(output: string, rest: string)
    requires !Fenced(output) && Parted(rest)
    ensures ReadTranscript(Transcript(output) + rest) == Some((output, rest))
  {
    var t := Transcript(output) + rest;
    if output == "" {
      assert t == rest;
      assert OPENING_FENCE[3] == '`';
    } else {
      var inner := output + (CLOSING_FENCE + rest);
      assert t == OPENING_FENCE + inner;
      assert t[|OPENING_FENCE|..] == inner;
      ClosingFound(output, 0, rest);
      assert output[0..] == output;
      assert inner[..|output|] == output && inner[|output| + 4..] == rest;
    }
  }

  lemma {:induction false} BeforeFound(head: string, c: char, rest: string)
    requires c !in head
    ensures Before(head + ([c] + rest), c) == head && Before(head, c) == head
  {
    if head == "" {
      assert head + ([c] + rest) == [c] + rest;
    } else {
      BeforeFound(head[1..], c, rest);
      assert (head + ([c] + rest))[1..] == head[1..] + ([c] + rest);
    }
  }

  lemma StatusFound(c: Command, rest: string)
    requires Parted(rest)
    ensures Before(SpellInt(c.status) + (Transcript(c.output) + rest), '\n') == SpellInt(c.status)
  {
    StatusRead(c.status);
    var tail := Transcript(c.output) + rest;
    if tail == "" {
      BeforeFound(SpellInt(c.status), '\n', "");
      assert SpellInt(c.status) + tail == SpellInt(c.status);
    } else {
      assert tail[0] == '\n' by { assert OPENING_FENCE[0] == '\n'; }
      BeforeFound(SpellInt(c.status), '\n', tail[1..]);
      assert tail == ['\n'] + tail[1..];
    }
  }

  /** What stands behind the backtick that closes a command. */
  function Line(c: Command, rest: string): string { EXIT + (SpellInt(c.status) + (Transcript(c.output) + rest)) }

  lemma LineStands(c: Command, rest: string)
    ensures Rendered(c) + rest == ['`'] + (c.command + Line(c, rest))
    ensures ['`'] <= Line(c, rest)
  {
    hide Transcript, SpellInt;
    assert EXIT[0] == '`';
  }

  lemma LineFound(c: Command, rest: string)
    requires '`' !in c.command
    ensures var t := Rendered(c) + rest;
            && t != "" && Before(t[1..], '`') == c.command
            && |t| >= 1 + |c.command| && t[1 + |c.command|..] == Line(c, rest)
  {
    hide Rendered, Line, Before;
    LineStands(c, rest);
    var line := Line(c, rest);
    assert line == ['`'] + line[1..];
    BeforeFound(c.command, '`', line[1..]);
    assert (['`'] + (c.command + line))[1..] == c.command + line;
  }

  lemma CommandRead(c: Command, rest: string)
    requires '`' !in c.command && !Fenced(c.output) && Parted(rest)
    ensures ReadCommand(Rendered(c) + rest) == Some((c, rest))
  {
    hide Fenced, Transcript, ReadTranscript, ReadStatus, Rendered, Parted;
    LineFound(c, rest);
    var status := SpellInt(c.status);
    var behind := status + (Transcript(c.output) + rest);
    assert Line(c, rest) == EXIT + behind;
    assert (EXIT + behind)[|EXIT|..] == behind;
    StatusRead(c.status);
    StatusFound(c, rest);
    assert behind[|status|..] == Transcript(c.output) + rest;
    TranscriptRead(c.output, rest);
  }

  lemma CommandSome(c: Command)
    requires Accepted(c)
    ensures c.command != "" && c.command[0] != '`'
  {
    hide Fenced, Contains;
    assert Skip("") == "";
  }

  lemma Bracketed(a: string, b: string, c: string, d: string, e: string, rest: string)
    ensures a + b + c + d + e + rest == a + (b + (c + d + e + rest))
  {
  }

  lemma SecondOf(a: string, b: string, rest: string)
    requires |a| == 1 && b != ""
    ensures var t := a + (b + rest); |t| >= 2 && t[0] == a[0] && t[1] == b[0]
  {
  }

  lemma RenderedBegins(c: Command, rest: string)
    requires Accepted(c)
    ensures var t := Rendered(c) + rest; |t| >= 2 && t[0] == '`' && t[1] != '`'
  {
    CommandSome(c);
    hide Accepted, SpellInt, Transcript;
    Bracketed("`", c.command, EXIT, SpellInt(c.status), Transcript(c.output), rest);
    SecondOf("`", c.command, EXIT + SpellInt(c.status) + Transcript(c.output) + rest);
  }

  lemma BehindParted(commands: seq<Command>)
    requires AllAccepted(commands)
    ensures Parted(Behind(commands))
  {
    hide Accepted;
    if commands != [] {
      RenderedBegins(commands[0], Behind(commands[1..]));
    }
  }

  lemma NothingRanApart(commands: seq<Command>)
    requires commands != []
    ensures RenderCommands(commands) != NOTHING_RAN
  {
    assert Rendered(commands[0])[0] == '`' && NOTHING_RAN[0] == 'N';
  }

  lemma AcceptedReadable(c: Command)
    requires Accepted(c)
    ensures '`' !in c.command && !Fenced(c.output)
  {
  }

  /** Two non-empty sequences of accepted commands that render alike, each with the same behind it, are the same. */
  lemma {:induction false} JoinedInjective(a: seq<Command>, b: seq<Command>)
    requires a != [] && b != [] && AllAccepted(a) && AllAccepted(b) && Joined(a) == Joined(b)
    ensures a == b
    decreases |a|, 0
  {
    hide Accepted, Rendered, ReadCommand, Parted, Fenced;
    AcceptedReadable(a[0]);
    AcceptedReadable(b[0]);
    assert AllAccepted(a[1..]) && AllAccepted(b[1..]);
    BehindParted(a[1..]);
    BehindParted(b[1..]);
    CommandRead(a[0], Behind(a[1..]));
    CommandRead(b[0], Behind(b[1..]));
    assert Behind(a[1..]) == Behind(b[1..]);
    BehindInjective(a[1..], b[1..]);
    assert a == [a[0]] + a[1..] && b == [b[0]] + b[1..];
  }

  lemma {:induction false} BehindInjective(a: seq<Command>, b: seq<Command>)
    requires AllAccepted(a) && AllAccepted(b) && Behind(a) == Behind(b)
    ensures a == b
    decreases |a|, 1
  {
    hide Accepted, Joined;
    if a != [] && b != [] {
      assert Behind(a)[2..] == Joined(a) && Behind(b)[2..] == Joined(b);
      JoinedInjective(a, b);
    }
  }

  /** Equal renderings are equal evidence, repeats, empty transcripts and the empty sequence among them. */
  lemma RenderInjective(a: seq<Command>, b: seq<Command>)
    requires AllAccepted(a) && AllAccepted(b)
    ensures RenderCommands(a) == RenderCommands(b) <==> a == b
  {
    hide Accepted, Joined;
    if RenderCommands(a) == RenderCommands(b) {
      if a == [] {
        if b != [] {
          NothingRanApart(b);
        }
      } else if b == [] {
        NothingRanApart(a);
      } else {
        JoinedInjective(a, b);
      }
    }
  }

  lemma FewRendered(a: Command, b: Command)
    ensures RenderCommands([a]) == Rendered(a)
    ensures RenderCommands([a, b]) == Rendered(a) + ("\n\n" + Rendered(b))
  {
    hide Rendered;
    assert [a][1..] == [] && [b][1..] == [] && [a, b][1..] == [b];
    assert Behind([]) == "" && Joined([b]) == Rendered(b) + "";
    assert Joined([a]) == Rendered(a) + "";
    assert Behind([b]) == "\n\n" + Joined([b]);
    assert Joined([a, b]) == Rendered(a) + Behind([b]);
  }

  /** A command's rendering up to its transcript. */
  function Headed(c: Command): string { "`" + c.command + EXIT + SpellInt(c.status) }

  lemma RenderedHeaded(c: Command)
    requires c.output != ""
    ensures Rendered(c) == Headed(c) + (OPENING_FENCE + (c.output + CLOSING_FENCE))
  {
    hide SpellInt;
  }

  /** Why fences are refused: a transcript carrying one renders as two commands would. */
  lemma FenceWouldCollide(first: Command, second: Command)
    requires first.output != "" && second.output != ""
    ensures var forged := first.output + (CLOSING_FENCE + ("\n\n" + Headed(second) + OPENING_FENCE)) + second.output;
            RenderCommands([first.(output := forged)]) == RenderCommands([first, second])
  {
    hide Headed, Rendered, RenderCommands;
    var forged := first.output + (CLOSING_FENCE + ("\n\n" + Headed(second) + OPENING_FENCE)) + second.output;
    var single := first.(output := forged);
    FewRendered(single, second);
    FewRendered(first, second);
    RenderedHeaded(single);
    RenderedHeaded(first);
    RenderedHeaded(second);
    HeadedAlike(first, forged);
  }

  lemma HeadedAlike(c: Command, output: string)
    ensures Headed(c.(output := output)) == Headed(c)
  {
  }
}
