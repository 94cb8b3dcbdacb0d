/**
 How deep a value nests and which of its numbers a record can hold: the recursive meaning, and the walk that
 decides it level by level.
 */
module Nesting {

  /** A Python value as far as the walk looks at it: a float, a container, or anything else. */
  datatype Tree = Leaf | Float(finite: bool) | Node(keyed: bool, children: seq<Tree>)

  /** How many containers deep a value nests. */
  function Height(t: Tree): nat {
    if t.Node? then 1 + Highest(t.children) else 0
  }

  function Highest(trees: seq<Tree>): nat {
    if trees == [] then 0
    else
      var first, rest := Height(trees[0]), Highest(trees[1..]);
      if first > rest then first else rest
  }

  /** Every float in a container of `t`, at any depth, is finite. */
  predicate NestedFinite(t: Tree) {
    t.Node? ==> forall i | 0 <= i < |t.children| :: FiniteItself(t.children[i]) && NestedFinite(t.children[i])
  }

  predicate FiniteItself(t: Tree) { t.Float? ==> t.finite }

  /** Every float nested at most `levels` containers deep in `t` is finite. */
  predicate FiniteTo(t: Tree, levels: nat) {
    levels > 0 && t.Node? ==>
      forall i | 0 <= i < |t.children| :: FiniteItself(t.children[i]) && FiniteTo(t.children[i], levels - 1)
  }

  /** The rule: no deeper than the limit, and no float in it that is not finite. */
  predicate Takes(t: Tree, limit: nat) { limit > 0 && Height(t) <= limit && NestedFinite(t) }

  /** What the walk answers: the value is one a reading takes, or the error it raises. */
  datatype Answer = Spellable | NotFinite | TooDeep

  lemma {:induction false} HighestWithin(trees: seq<Tree>, levels: nat)
    ensures Highest(trees) <= levels <==> forall i | 0 <= i < |trees| :: Height(trees[i]) <= levels
  {
    if trees != [] {
      HighestWithin(trees[1..], levels);
      assert trees == [trees[0]] + trees[1..];
    }
  }

  /** Within its own height, a bounded look at a value's floats is a look at all of them. */
  lemma {:induction false} FiniteWithin(t: Tree, levels: nat)
    requires Height(t) <= levels
    ensures FiniteTo(t, levels) <==> NestedFinite(t)
    decreases t
  {
    if t.Node? {
      HighestWithin(t.children, levels - 1);
      forall i | 0 <= i < |t.children|
        ensures FiniteTo(t.children[i], levels - 1) <==> NestedFinite(t.children[i])
      {
        FiniteWithin(t.children[i], levels - 1);
      }
    }
  }

  // ----- One level

  predicate AllWithin(level: seq<Tree>, levels: nat) { forall i | 0 <= i < |level| :: Height(level[i]) <= levels }
  predicate AllFiniteTo(level: seq<Tree>, levels: nat) { forall i | 0 <= i < |level| :: FiniteTo(level[i], levels) }
  predicate AllNested(level: seq<Tree>) { forall i | 0 <= i < |level| :: NestedFinite(level[i]) }
  predicate AllThemselves(level: seq<Tree>) { forall i | 0 <= i < |level| :: FiniteItself(level[i]) }

  /** The members of the containers of one kind on a level. */
  function Members(level: seq<Tree>, keyed: bool): seq<Tree> {
    if level == [] then []
    else (if level[0].Node? && level[0].keyed == keyed then level[0].children else []) + Members(level[1..], keyed)
  }

  function Containers(members: seq<Tree>): (nested: seq<Tree>)
    ensures forall i | 0 <= i < |nested| :: nested[i].Node?
  {
    if members == [] then []
    else (if members[0].Node? then [members[0]] else []) + Containers(members[1..])
  }

  predicate InSome(t: Tree, level: seq<Tree>, keyed: bool) {
    exists k :: 0 <= k < |level| && level[k].Node? && level[k].keyed == keyed && t in level[k].children
  }

  lemma {:induction false} MembersAre(level: seq<Tree>, keyed: bool, t: Tree)
    ensures t in Members(level, keyed) <==> InSome(t, level, keyed)
  {
    if level != [] {
      MembersAre(level[1..], keyed, t);
      assert level == [level[0]] + level[1..];
      if InSome(t, level[1..], keyed) {
        var k :| 0 <= k < |level[1..]| && level[1..][k].Node? && level[1..][k].keyed == keyed
                 && t in level[1..][k].children;
        assert level[k + 1] == level[1..][k];
      }
      if InSome(t, level, keyed) && !(level[0].Node? && level[0].keyed == keyed && t in level[0].children) {
        var k :| 0 <= k < |level| && level[k].Node? && level[k].keyed == keyed && t in level[k].children;
        assert level[1..][k - 1] == level[k];
      }
    }
  }

  lemma {:induction false} ContainersAre(members: seq<Tree>, t: Tree)
    ensures t in Containers(members) <==> t in members && t.Node?
  {
    if members != [] {
      ContainersAre(members[1..], t);
      assert members == [members[0]] + members[1..];
    }
  }

  lemma LevelMembers(level: seq<Tree>, t: Tree)
    ensures t in Members(level, true) + Members(level, false)
        <==> exists k :: 0 <= k < |level| && level[k].Node? && t in level[k].children
  {
    MembersAre(level, true, t);
    MembersAre(level, false, t);
  }

  /** What is true of a level `levels` from the limit is, of the next one, true one level nearer. */
  lemma StepsWithin(level: seq<Tree>, members: seq<Tree>, levels: nat)
    requires levels > 0 && members == Members(level, true) + Members(level, false)
    ensures AllWithin(level, levels) <==> AllWithin(Containers(members), levels - 1)
  {
    var next := Containers(members);
    forall k | 0 <= k < |level|
      ensures AllWithin(next, levels - 1) ==> Height(level[k]) <= levels
    {
      if AllWithin(next, levels - 1) && level[k].Node? {
        HighestWithin(level[k].children, levels - 1);
        forall i | 0 <= i < |level[k].children| ensures Height(level[k].children[i]) <= levels - 1 {
          LevelMembers(level, level[k].children[i]);
          ContainersAre(members, level[k].children[i]);
        }
      }
    }
    forall i | 0 <= i < |next|
      ensures AllWithin(level, levels) ==> Height(next[i]) <= levels - 1
    {
      ContainersAre(members, next[i]);
      LevelMembers(level, next[i]);
      var k :| 0 <= k < |level| && level[k].Node? && next[i] in level[k].children;
      HighestWithin(level[k].children, levels - 1);
    }
  }

  lemma StepsFiniteTo(level: seq<Tree>, members: seq<Tree>, levels: nat)
    requires levels > 0 && members == Members(level, true) + Members(level, false)
    ensures AllFiniteTo(level, levels) <==> AllThemselves(members) && AllFiniteTo(Containers(members), levels - 1)
  {
    var next := Containers(members);
    forall k | 0 <= k < |level|
      ensures AllThemselves(members) && AllFiniteTo(next, levels - 1) ==> FiniteTo(level[k], levels)
    {
      if AllThemselves(members) && AllFiniteTo(next, levels - 1) && level[k].Node? {
        forall i | 0 <= i < |level[k].children|
          ensures FiniteItself(level[k].children[i]) && FiniteTo(level[k].children[i], levels - 1)
        {
          LevelMembers(level, level[k].children[i]);
          ContainersAre(members, level[k].children[i]);
        }
      }
    }
    forall i | 0 <= i < |members|
      ensures AllFiniteTo(level, levels) ==> FiniteItself(members[i]) && FiniteTo(members[i], levels - 1)
    {
      LevelMembers(level, members[i]);
      var k :| 0 <= k < |level| && level[k].Node? && members[i] in level[k].children;
    }
    forall i | 0 <= i < |next|
      ensures next[i] in members
    {
      ContainersAre(members, next[i]);
    }
  }

  lemma StepsNested(level: seq<Tree>, members: seq<Tree>)
    requires members == Members(level, true) + Members(level, false)
    ensures AllNested(level) <==> AllThemselves(members) && AllNested(Containers(members))
  {
    var next := Containers(members);
    forall k | 0 <= k < |level|
      ensures AllThemselves(members) && AllNested(next) ==> NestedFinite(level[k])
    {
      if AllThemselves(members) && AllNested(next) && level[k].Node? {
        forall i | 0 <= i < |level[k].children|
          ensures FiniteItself(level[k].children[i]) && NestedFinite(level[k].children[i])
        {
          LevelMembers(level, level[k].children[i]);
          ContainersAre(members, level[k].children[i]);
        }
      }
    }
    forall i | 0 <= i < |members|
      ensures AllNested(level) ==> FiniteItself(members[i]) && NestedFinite(members[i])
    {
      LevelMembers(level, members[i]);
      var k :| 0 <= k < |level| && level[k].Node? && members[i] in level[k].children;
    }
    forall i | 0 <= i < |next|
      ensures next[i] in members
    {
      ContainersAre(members, next[i]);
    }
  }

  /**
   Walks a value a level at a time, never recursing: it takes exactly the values within the limit whose
   nested floats are all finite, and otherwise raises over a number where one within the limit is not finite.
   */
  method Walk(payload: Tree, limit: nat) returns (answer: Answer)
    ensures answer.Spellable? <==> Takes(payload, limit)
    ensures answer.NotFinite? <==> !FiniteTo(payload, limit)
  {
    var nested := [payload];
    assert nested[0] == payload;
    var level := 0;
    while level < limit
      invariant 0 <= level <= limit
      invariant nested != [] && (level > 0 ==> nested[0].Node?)
      invariant Height(payload) <= limit <==> AllWithin(nested, limit - level)
      invariant FiniteTo(payload, limit) <==> AllFiniteTo(nested, limit - level)
      invariant NestedFinite(payload) <==> AllNested(nested)
    {
      var members := Members(nested, true) + Members(nested, false);
      StepsWithin(nested, members, limit - level);
      StepsFiniteTo(nested, members, limit - level);
      StepsNested(nested, members);
      if !AllThemselves(members) {
        return NotFinite;
      }
      nested := Containers(members);
      level := level + 1;
      if nested == [] {
        return Spellable;
      }
    }
    assert limit > 0 ==> Height(nested[0]) > 0;
    return TooDeep;
  }
}
