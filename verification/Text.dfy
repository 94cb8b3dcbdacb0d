/** The string operations several owners share: splitting, partitioning, searching. */
module Text {

  datatype Option<+T> = None | Some(value: T)

  /** The pieces of `s` between the occurrences of `d`, as `str.split` gives them: always at least one. */
  function Split<T(==)>(s: seq<T>, d: T): (pieces: seq<seq<T>>)
    ensures |pieces| >= 1
  {
    if s == [] then [[]]
    else
      var rest := Split(s[1..], d);
      if s[0] == d then [[]] + rest else Lead(s[0], rest)
  }

  /** `pieces` with `c` put ahead of the first. */
  function Lead<T>(c: T, pieces: seq<seq<T>>): (led: seq<seq<T>>)
    requires |pieces| >= 1
    ensures |led| == |pieces|
  {
    [[c] + pieces[0]] + pieces[1..]
  }

  /** `s` up to the first `d`, or all of it: the head of `str.partition`. */
  function Before<T(==)>(s: seq<T>, d: T): (head: seq<T>)
    ensures d !in head && head <= s
  {
    if s == [] || s[0] == d then [] else [s[0]] + Before(s[1..], d)
  }

  /** `s` behind the first `d`, or nothing: the tail of `str.partition`. */
  function After<T(==)>(s: seq<T>, d: T): (tail: seq<T>)
  {
    if s == [] then [] else if s[0] == d then s[1..] else After(s[1..], d)
  }

  /** Whether `sub` stands in `s` at `at`. */
  predicate OccursAt<T(==)>(s: seq<T>, sub: seq<T>, at: int) {
    0 <= at <= |s| - |sub| && s[at..at + |sub|] == sub
  }

  /** Whether `sub` stands anywhere in `s`: Python's `sub in s`. */
  predicate Contains<T(==)>(s: seq<T>, sub: seq<T>) {
    exists at :: 0 <= at <= |s| - |sub| && OccursAt(s, sub, at)
  }

  /** Two runs of pieces made one, the two pieces at the seam run together. */
  function Glue<T>(p: seq<seq<T>>, q: seq<seq<T>>): (r: seq<seq<T>>)
    requires |p| >= 1 && |q| >= 1
    ensures |r| == |p| + |q| - 1
  {
    p[..|p| - 1] + [p[|p| - 1] + q[0]] + q[1..]
  }

  lemma GlueLead<T>(c: T, p: seq<seq<T>>, q: seq<seq<T>>)
    requires |p| >= 1 && |q| >= 1
    ensures Glue(Lead(c, p), q) == Lead(c, Glue(p, q))
  {
    var led := Lead(c, p);
    if |p| == 1 {
      assert [c] + (p[0] + q[0]) == [c] + p[0] + q[0];
      assert Glue(p, q) == [p[0] + q[0]] + q[1..] && Glue(led, q) == [[c] + p[0] + q[0]] + q[1..];
      assert Glue(p, q)[1..] == q[1..];
    } else {
      var last := p[|p| - 1] + q[0];
      assert led[..|p| - 1] == [[c] + p[0]] + p[1..|p| - 1];
      assert Glue(p, q) == [p[0]] + (p[1..|p| - 1] + [last] + q[1..]);
      assert Glue(p, q)[1..] == p[1..|p| - 1] + [last] + q[1..];
      assert Glue(led, q) == [[c] + p[0]] + (p[1..|p| - 1] + [last] + q[1..]);
    }
  }

  lemma GlueBehind<T>(p: seq<seq<T>>, q: seq<seq<T>>)
    requires |p| >= 1 && |q| >= 1
    ensures Glue([[]] + p, q) == [[]] + Glue(p, q)
    ensures Glue([[]], q) == q
  {
    assert [] + q[0] == q[0];
  }

  /** Two texts put together split as their own pieces do, glued at the seam. */
  lemma {:induction false} SplitConcat<T>(a: seq<T>, b: seq<T>, d: T)
    ensures Split(a + b, d) == Glue(Split(a, d), Split(b, d))
  {
    hide Glue;
    var q := Split(b, d);
    if a == [] {
      assert a + b == b;
      GlueBehind(q, q);
    } else {
      SplitConcat(a[1..], b, d);
      assert (a + b)[1..] == a[1..] + b;
      var p := Split(a[1..], d);
      if a[0] == d {
        GlueBehind(p, q);
      } else {
        GlueLead(a[0], p, q);
      }
    }
  }

  lemma {:induction false} SplitWhole<T>(s: seq<T>, d: T)
    requires d !in s
    ensures Split(s, d) == [s]
  {
    if s != [] {
      SplitWhole(s[1..], d);
      assert [s[0]] + s[1..] == s;
    }
  }

  lemma SplitHead<T>(tail: seq<T>, d: T)
    ensures Split([d] + tail, d) == [[]] + Split(tail, d)
  {
    assert ([d] + tail)[1..] == tail;
  }

  /** What a delimiter parts: the piece ahead of the first, and the pieces of the rest. */
  lemma SplitFirst<T>(head: seq<T>, tail: seq<T>, d: T)
    requires d !in head
    ensures Split(head + ([d] + tail), d) == [head] + Split(tail, d)
  {
    hide Split;
    SplitConcat(head, [d] + tail, d);
    SplitWhole(head, d);
    SplitHead(tail, d);
    assert head + [] == head;
  }

  lemma SplitOneLine<T>(line: seq<T>, d: T)
    requires d !in line
    ensures Split(line + [d], d) == [line, []]
  {
    SplitConcat(line, [d], d);
    SplitWhole(line, d);
    assert [d][1..] == [];
    assert Split([d], d) == [[], []];
    assert line + [] == line;
  }

  /** A text that gains a whole line gains exactly that line, run into what its last line held. */
  lemma SplitLineAdded<T>(a: seq<T>, line: seq<T>, d: T)
    requires d !in line
    ensures var p := Split(a, d);
            Split(a + (line + [d]), d) == p[..|p| - 1] + [p[|p| - 1] + line, []]
  {
    SplitConcat(a, line + [d], d);
    SplitOneLine(line, d);
  }

  /** A text that gains no delimiter gains only at the end of its last piece. */
  lemma SplitTailAdded<T>(a: seq<T>, tail: seq<T>, d: T)
    requires d !in tail
    ensures var p := Split(a, d);
            Split(a + tail, d) == p[..|p| - 1] + [p[|p| - 1] + tail]
  {
    SplitConcat(a, tail, d);
    SplitWhole(tail, d);
  }

  lemma {:induction false} PartitionAt<T>(key: seq<T>, value: seq<T>, d: T)
    requires d !in key
    ensures Before(key + [d] + value, d) == key
    ensures After(key + [d] + value, d) == value
  {
    if key == [] {
      assert key + [d] + value == [d] + value;
    } else {
      PartitionAt(key[1..], value, d);
      assert (key + [d] + value)[1..] == key[1..] + [d] + value;
    }
  }

  /** A text holding the delimiter is its two sides and the first of it between them. */
  lemma {:induction false} BeforeAfter<T>(s: seq<T>, d: T)
    requires d in s
    ensures s == Before(s, d) + [d] + After(s, d)
  {
    if s[0] != d {
      BeforeAfter(s[1..], d);
      assert s == [s[0]] + s[1..];
    }
  }

  /** The characters tokens, repositories and receipts are spelled in. */
  predicate IsNameChar(c: char) {
    'A' <= c <= 'Z' || 'a' <= c <= 'z' || '0' <= c <= '9' || c == '_' || c == '.' || c == '-'
  }
}
