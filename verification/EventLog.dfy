/**
 The audit log read back: the lines naming an event, filtered a block at a time, and the reading of
 the log and its rotated copies that misses no line while a rotation moves them.
 */
module EventLog {
  import opened Text

  newtype byte = b: int | 0 <= b < 256
  type Bytes = seq<byte>

  const NEWLINE: byte := 10

  // ----- The lines of one stream naming an event

  /** The lines holding `named`, in order: what reading the whole stream at once would keep. */
  function Naming(lines: seq<Bytes>, named: Bytes): seq<Bytes> {
    if lines == [] then []
    else (if Contains(lines[0], named) then [lines[0]] else []) + Naming(lines[1..], named)
  }

  function Flat(blocks: seq<Bytes>): Bytes {
    if blocks == [] then [] else blocks[0] + Flat(blocks[1..])
  }

  /** `bytes.rfind` of one byte: the last place it stands, or -1. */
  function LastAt(s: Bytes, d: byte): (at: int)
    ensures -1 <= at < |s|
    ensures at >= 0 ==> s[at] == d
    ensures forall k | at < k < |s| :: s[k] != d
  {
    if s == [] then -1
    else if s[|s| - 1] == d then |s| - 1
    else LastAt(s[..|s| - 1], d)
  }

  /** A block cut behind its last line end: the whole lines, and what is left. */
  function CutBehind(whole: Bytes): (cut: (Bytes, Bytes))
    ensures whole == cut.0 + cut.1 && EndsALine(cut.0) && NEWLINE !in cut.1
  {
    var last := LastAt(whole, NEWLINE);
    var head, tail := whole[..last + 1], whole[last + 1..];
    assert NEWLINE !in tail;
    assert head != [] ==> head[|head| - 1] == NEWLINE;
    (head, tail)
  }

  lemma {:induction false} NamingConcat(a: seq<Bytes>, b: seq<Bytes>, named: Bytes)
    ensures Naming(a + b, named) == Naming(a, named) + Naming(b, named)
  {
    hide Contains, OccursAt;
    if a == [] {
      assert a + b == b;
    } else {
      NamingConcat(a[1..], b, named);
      assert (a + b)[1..] == a[1..] + b && (a + b)[0] == a[0];
    }
  }

  lemma {:induction false} NamingHas(lines: seq<Bytes>, named: Bytes, line: Bytes)
    ensures line in Naming(lines, named) <==> line in lines && Contains(line, named)
  {
    if lines != [] {
      NamingHas(lines[1..], named, line);
      assert lines == [lines[0]] + lines[1..];
    }
  }

  predicate EndsALine(s: Bytes) { s == [] || s[|s| - 1] == NEWLINE }

  lemma GlueEmpty(heads: seq<Bytes>, q: seq<Bytes>)
    requires |q| >= 1
    ensures Glue(heads + [[]], q) == heads + q
  {
    var p := heads + [[]];
    assert [] + q[0] == q[0];
    assert p[..|p| - 1] == heads;
    assert [q[0]] + q[1..] == q;
    assert heads + [q[0]] + q[1..] == heads + ([q[0]] + q[1..]);
  }

  lemma NamingBesideEmpty(heads: seq<Bytes>, named: Bytes)
    requires named != []
    ensures Naming(heads + [[]], named) == Naming(heads, named)
  {
    NamingConcat(heads, [[]], named);
    assert !Contains([], named);
    var one: seq<Bytes> := [[]];
    assert one[1..] == [];
    assert Naming(one, named) == [] + Naming([], named);
  }

  /** What follows a whole number of lines is split on its own. */
  lemma NamingBehind(front: Bytes, rest: Bytes, named: Bytes)
    requires EndsALine(front) && named != []
    ensures Naming(Split(front + rest, NEWLINE), named)
         == Naming(Split(front, NEWLINE), named) + Naming(Split(rest, NEWLINE), named)
  {
    var p, q := Split(front, NEWLINE), Split(rest, NEWLINE);
    var heads := p[..|p| - 1];
    SplitConcat(front, rest, NEWLINE);
    LastPiece(front);
    assert p == heads + [[]];
    GlueEmpty(heads, q);
    NamingConcat(heads, q, named);
    NamingBesideEmpty(heads, named);
  }

  lemma LastPiece(front: Bytes)
    requires EndsALine(front)
    ensures var p := Split(front, NEWLINE); p[|p| - 1] == []
  {
    if front != [] {
      var head := front[..|front| - 1];
      assert front == head + [NEWLINE];
      SplitConcat(head, [NEWLINE], NEWLINE);
      assert [NEWLINE][1..] == [];
      assert Split([NEWLINE], NEWLINE) == [[], []];
    }
  }

  lemma NamingPiece(piece: Bytes, named: Bytes)
    requires NEWLINE !in piece
    ensures Naming(Split(piece, NEWLINE), named) == if Contains(piece, named) then [piece] else []
  {
    SplitWhole(piece, NEWLINE);
    assert [piece][1..] == [];
    assert Naming([], named) == [];
  }

  lemma ContainsGrows(part: Bytes, before: Bytes, after: Bytes, named: Bytes)
    requires Contains(part, named)
    ensures Contains(before + part + after, named)
  {
    var at :| 0 <= at <= |part| - |named| && OccursAt(part, named, at);
    var whole := before + part + after;
    assert whole[|before| + at..|before| + at + |named|] == part[at..at + |named|];
    assert OccursAt(whole, named, |before| + at);
  }

  /** A text's first line and what is behind it hold the name only where the text does. */
  lemma PartsWithout(s: Bytes, named: Bytes)
    requires NEWLINE in s && !Contains(s, named)
    ensures !Contains(Before(s, NEWLINE), named) && !Contains(After(s, NEWLINE), named)
  {
    hide Contains, Before, After;
    BeforeAfter(s, NEWLINE);
    var head, tail := Before(s, NEWLINE), After(s, NEWLINE);
    assert [] + head + ([NEWLINE] + tail) == s && head + [NEWLINE] + tail + [] == s;
    if Contains(head, named) {
      ContainsGrows(head, [], [NEWLINE] + tail, named);
    }
    if Contains(tail, named) {
      ContainsGrows(tail, head + [NEWLINE], [], named);
    }
  }

  lemma FirstLine(s: Bytes)
    requires NEWLINE in s
    ensures Split(s, NEWLINE) == [Before(s, NEWLINE)] + Split(After(s, NEWLINE), NEWLINE)
    ensures |After(s, NEWLINE)| < |s|
  {
    hide Split;
    BeforeAfter(s, NEWLINE);
    var head, tail := Before(s, NEWLINE), After(s, NEWLINE);
    assert s == head + ([NEWLINE] + tail);
    SplitFirst(head, tail, NEWLINE);
  }

  /** A stream that does not hold the name has no line that does. */
  lemma {:induction false} NamingNone(s: Bytes, named: Bytes)
    requires !Contains(s, named)
    ensures Naming(Split(s, NEWLINE), named) == []
    decreases |s|
  {
    hide Contains, Split, Before, After;
    if NEWLINE in s {
      PartsWithout(s, named);
      FirstLine(s);
      NamingNone(After(s, NEWLINE), named);
      assert ([Before(s, NEWLINE)] + Split(After(s, NEWLINE), NEWLINE))[1..] == Split(After(s, NEWLINE), NEWLINE);
    } else {
      NamingPiece(s, named);
    }
  }

  /** One block: the chunk it completes adds its own lines, and what is left holds no line end. */
  lemma OneChunk(front: Bytes, chunk: Bytes, named: Bytes)
    requires EndsALine(front) && EndsALine(chunk) && named != []
    ensures EndsALine(front + chunk)
    ensures Naming(Split(front + chunk, NEWLINE), named)
         == Naming(Split(front, NEWLINE), named)
            + if Contains(chunk, named) then Naming(Split(chunk, NEWLINE), named) else []
  {
    hide Split, Naming, Contains;
    NamingBehind(front, chunk, named);
    if !Contains(chunk, named) {
      NamingNone(chunk, named);
    }
    if chunk == [] {
      assert front + chunk == front;
    }
  }

  lemma Regrouped(front: Bytes, carried: Bytes, block: Bytes, rest: Bytes, chunk: Bytes, left: Bytes)
    requires carried + block == chunk + left
    ensures (front + chunk) + left + rest == front + carried + (block + rest)
  {
    assert (front + chunk) + left + rest == front + (chunk + left) + rest;
  }

  /** Where a reading is: whole lines behind it, each kept that names the event, and the piece it carries. */
  ghost predicate Reading(lines: seq<Bytes>, front: Bytes, carried: Bytes, rest: seq<Bytes>, all: Bytes, named: Bytes) {
    && EndsALine(front) && NEWLINE !in carried
    && front + carried + Flat(rest) == all
    && lines == Naming(Split(front, NEWLINE), named)
  }

  lemma ReadOn(lines: seq<Bytes>, front: Bytes, carried: Bytes, rest: seq<Bytes>, all: Bytes, named: Bytes,
               chunk: Bytes, left: Bytes)
    requires Reading(lines, front, carried, rest, all, named) && rest != [] && named != []
    requires carried + rest[0] == chunk + left && EndsALine(chunk) && NEWLINE !in left
    ensures var own := if Contains(chunk, named) then Naming(Split(chunk, NEWLINE), named) else [];
            Reading(lines + own, front + chunk, left, rest[1..], all, named)
  {
    OneChunk(front, chunk, named);
    Regrouped(front, carried, rest[0], Flat(rest[1..]), chunk, left);
  }

  lemma ReadOut(lines: seq<Bytes>, front: Bytes, carried: Bytes, all: Bytes, named: Bytes)
    requires Reading(lines, front, carried, [], all, named) && named != []
    ensures Naming(Split(all, NEWLINE), named) == lines + if Contains(carried, named) then [carried] else []
  {
    assert front + carried + [] == front + carried;
    NamingBehind(front, carried, named);
    NamingPiece(carried, named);
  }

  /**
   The lines of a stream that hold `named`, however the stream is cut into blocks: whole chunks are searched,
   only a chunk that names it is split, and a line cut by a block end is carried into the next.
   */
  method NamedLines(blocks: seq<Bytes>, named: Bytes) returns (lines: seq<Bytes>)
    requires named != []
    ensures lines == Naming(Split(Flat(blocks), 10), named)
  {
    var carried: Bytes := [];
    lines := [];
    ghost var front: Bytes := [];
    var rest := blocks;
    NamingPiece([], named);
    while rest != []
      invariant Reading(lines, front, carried, rest, Flat(blocks), named)
      decreases |rest|
    {
      var (chunk, left) := CutBehind(carried + rest[0]);
      ReadOn(lines, front, carried, rest, Flat(blocks), named, chunk, left);
      lines := lines + if Contains(chunk, named) then Naming(Split(chunk, NEWLINE), named) else [];
      front := front + chunk;
      carried := left;
      rest := rest[1..];
    }
    ReadOut(lines, front, carried, Flat(blocks), named);
    lines := lines + if Contains(carried, named) then [carried] else [];
  }
}
