/** The split-manifest contract: which manifests hold to it, and the variants of a valid one that must not. */
module SplitContract {
  import opened Text

  /** A decoded JSON value. A float is never an index, whatever it spells. */
  datatype Value =
    | Null
    | Bool(truth: bool)
    | Int(number: int)
    | Float
    | Str(text: string)
    | List(items: seq<Value>)
    | Object(members: map<string, Value>)

  const MAX_CHILDREN := 10
  const DEPENDS_ON := "depends_on"

  type Graph = seq<seq<int>>

  function Get(members: map<string, Value>, key: string): Value {
    if key in members then members[key] else Null
  }

  predicate IsAnotherChild(entry: Value, index: int, count: int) {
    entry.Int? && 0 <= entry.number < count && entry.number != index
  }

  predicate Titled(v: Value) { v.Str? && v.text != "" }

  /** The indices a list of integers holds. */
  function Numbers(entries: seq<Value>): (numbers: seq<int>)
    requires forall i | 0 <= i < |entries| :: entries[i].Int?
    ensures |numbers| == |entries|
    ensures forall i | 0 <= i < |entries| :: entries[i] == Int(numbers[i])
  {
    if entries == [] then [] else [entries[0].number] + Numbers(entries[1..])
  }

  /** What a child waits on, read off a child that keeps the rules; None of one that breaks any. */
  function Dependencies(index: int, child: Value, count: int): (listed: Option<seq<int>>)
    ensures listed.Some? ==>
              && child.Object? && Get(child.members, DEPENDS_ON).List?
              && |listed.value| == |Stated(child)|
              && (forall i | 0 <= i < |listed.value| :: Stated(child)[i] == Int(listed.value[i]))
              && (forall i | 0 <= i < |listed.value| :: 0 <= listed.value[i] < count && listed.value[i] != index)
  {
    if !child.Object? then None
    else if !Titled(Get(child.members, "title")) || !Titled(Get(child.members, "body")) then None
    else
      var stated := Get(child.members, DEPENDS_ON);
      if !stated.List? then None
      else if forall i | 0 <= i < |stated.items| :: IsAnotherChild(stated.items[i], index, count) then
        Some(Numbers(stated.items))
      else None
  }

  /** The list a child states, or nothing. */
  function Stated(child: Value): seq<Value> {
    if child.Object? && Get(child.members, DEPENDS_ON).List? then Get(child.members, DEPENDS_ON).items else []
  }

  // ----- The dependency graph

  /** `a` waits on `b`. */
  predicate Edge(graph: Graph, a: int, b: int) {
    0 <= a < |graph| && b in graph[a]
  }

  predicate Walk(graph: Graph, path: seq<int>) {
    forall i | 0 <= i < |path| - 1 :: Edge(graph, path[i], path[i + 1])
  }

  predicate Cycle(graph: Graph, path: seq<int>) {
    |path| >= 2 && path[0] == path[|path| - 1] && Walk(graph, path)
  }

  ghost predicate HasCycle(graph: Graph) { exists path :: Cycle(graph, path) }

  predicate Closed(graph: Graph) {
    forall i | 0 <= i < |graph| :: forall d | d in graph[i] :: 0 <= d < |graph|
  }

  /** Ranks that fall along every edge between the children ranked, each of whose prerequisites is ranked. */
  ghost predicate Ranked(graph: Graph, rank: map<int, int>) {
    forall a, b | a in rank && Edge(graph, a, b) :: b in rank && rank[b] < rank[a]
  }

  lemma {:induction false} RanksFall(graph: Graph, rank: map<int, int>, path: seq<int>, n: int)
    requires Ranked(graph, rank) && Walk(graph, path) && 0 < n < |path| && path[0] in rank
    ensures path[n] in rank && rank[path[n]] < rank[path[0]]
    decreases n
  {
    if n > 1 {
      RanksFall(graph, rank, path, n - 1);
    }
    assert Edge(graph, path[n - 1], path[n]);
  }

  /** A graph whose every child is ranked has no cycle. */
  lemma RankedIsAcyclic(graph: Graph, rank: map<int, int>)
    requires Ranked(graph, rank) && forall i | 0 <= i < |graph| :: i in rank
    ensures !HasCycle(graph)
  {
    forall path
      ensures !Cycle(graph, path)
    {
      if Cycle(graph, path) {
        assert Edge(graph, path[0], path[1]);
        RanksFall(graph, rank, path, |path| - 1);
      }
    }
  }

  predicate Distinct(path: seq<int>) {
    forall i, j | 0 <= i < j < |path| :: path[i] != path[j]
  }

  lemma {:induction false} DistinctFits(path: seq<int>, among: set<int>)
    requires Distinct(path) && forall node | node in path :: node in among
    ensures |path| <= |among|
    decreases |path|
  {
    if path != [] {
      assert path[0] in path;
      assert forall node | node in path[1..] :: node in among - {path[0]} by {
        assert forall i | 0 <= i < |path[1..]| :: path[1..][i] == path[i + 1] && path[i + 1] != path[0];
      }
      DistinctFits(path[1..], among - {path[0]});
    }
  }

  lemma WalkOn(graph: Graph, path: seq<int>, next: int)
    requires |path| > 0 && Walk(graph, path) && Edge(graph, path[|path| - 1], next)
    ensures Walk(graph, path + [next])
  {
    var longer := path + [next];
    forall i | 0 <= i < |longer| - 1
      ensures Edge(graph, longer[i], longer[i + 1])
    {
      if i < |path| - 1 {
        assert Edge(graph, path[i], path[i + 1]);
      }
    }
  }

  lemma WalkRound(graph: Graph, path: seq<int>, i: int)
    requires Walk(graph, path) && 0 <= i < |path| - 1 && path[i] == path[|path| - 1]
    ensures HasCycle(graph)
  {
    var round := path[i..];
    forall k | 0 <= k < |round| - 1
      ensures Edge(graph, round[k], round[k + 1])
    {
      assert Edge(graph, path[i + k], path[i + k + 1]);
    }
    assert Cycle(graph, round);
  }

  ghost predicate WaitsIn(graph: Graph, left: set<int>, a: int) {
    exists b :: b in left && Edge(graph, a, b)
  }

  /** Every child left waits on another child left. */
  ghost predicate Stuck(graph: Graph, left: set<int>) {
    forall a {:trigger WaitsIn(graph, left, a)} | a in left :: WaitsIn(graph, left, a)
  }

  /** Where every child left waits on another, following any of them comes round to a cycle. */
  lemma {:induction false} StuckHasCycle(graph: Graph, left: set<int>, path: seq<int>)
    requires Stuck(graph, left)
    requires |path| > 0 && Distinct(path) && Walk(graph, path) && forall node | node in path :: node in left
    ensures HasCycle(graph)
    decreases |left| - |path|
  {
    var last := path[|path| - 1];
    assert last in path;
    assert WaitsIn(graph, left, last);
    var next :| next in left && Edge(graph, last, next);
    var longer := path + [next];
    WalkOn(graph, path, next);
    if next in path {
      var i :| 0 <= i < |path| && path[i] == next;
      WalkRound(graph, longer, i);
    } else {
      assert forall node | node in longer :: node in left;
      DistinctFits(longer, left);
      StuckHasCycle(graph, left, longer);
    }
  }

  /** The indices below `n`. */
  function Range(n: nat): (range: set<int>)
    ensures |range| == n
    ensures forall i :: i in range <==> 0 <= i < n
  {
    if n == 0 then {} else
      var fewer := Range(n - 1);
      assert n - 1 !in fewer;
      fewer + {n - 1}
  }

  lemma Outside<T>(some: set<T>, all: set<T>) returns (i: T)
    requires !(some <= all)
    ensures i in some && i !in all
  {
    i :| i in some && i !in all;
  }

  lemma Included(some: set<int>, all: set<int>)
    requires forall i | i in some :: i in all
    ensures some <= all
  {
    if !(some <= all) {
      var i := Outside(some, all);
    }
  }

  lemma {:induction false} SubsetSize(some: set<int>, all: set<int>)
    requires some <= all
    ensures |some| <= |all|
    ensures |some| == |all| ==> some == all
  {
    if i :| i in all && i !in some {
      SubsetSize(some, all - {i});
    } else {
      Included(all, some);
      assert some == all;
    }
  }

  lemma Grown(some: set<int>, more: set<int>)
    requires more != {} && some !! more
    ensures |some + more| > |some|
  {
    assert |some + more| == |some| + |more|;
  }

  /** One round: the children eliminated this time rank above every prerequisite they wait on. */
  lemma RoundRanked(graph: Graph, rank: map<int, int>, ready: set<int>, round: int, after: map<int, int>)
    requires Ranked(graph, rank) && forall i | i in rank :: rank[i] < round
    requires forall i | i in ready :: 0 <= i < |graph| && i !in rank && forall d | d in graph[i] :: d in rank
    requires after.Keys == rank.Keys + ready
    requires forall i | i in after :: after[i] == if i in rank then rank[i] else round
    ensures Ranked(graph, after) && forall i | i in after :: after[i] <= round
  {
    forall a, b | a in after && Edge(graph, a, b)
      ensures b in after && after[b] < after[a]
    {
      if a in rank {
        assert b in rank && rank[b] < rank[a];
      }
    }
  }

  /** With nothing ready, each child left waits on one left: the children left are stuck. */
  lemma NoneReady(graph: Graph, eliminated: set<int>, left: set<int>)
    requires Closed(graph)
    requires forall i :: i in left <==> 0 <= i < |graph| && i !in eliminated
    requires forall i | i in left :: exists d :: d in graph[i] && d !in eliminated
    ensures Stuck(graph, left)
  {
    forall a | a in left
      ensures WaitsIn(graph, left, a)
    {
      var b :| b in graph[a] && b !in eliminated;
      assert Edge(graph, a, b);
    }
  }

  function Prerequisites(graph: Graph): (waiting: seq<set<int>>)
    ensures |waiting| == |graph|
    ensures forall i | 0 <= i < |graph| :: forall d :: d in waiting[i] <==> d in graph[i]
  {
    seq(|graph|, i requires 0 <= i < |graph| => set d | d in graph[i])
  }

  /** The children not eliminated whose every prerequisite is. */
  function Ready(waiting: seq<set<int>>, eliminated: set<int>): (ready: set<int>)
    ensures forall i :: i in ready <==> 0 <= i < |waiting| && i !in eliminated && waiting[i] <= eliminated
  {
    set i | i in Range(|waiting|) && i !in eliminated && waiting[i] <= eliminated
  }

  predicate Below(some: set<int>, n: int) { forall i | i in some :: 0 <= i < n }

  lemma BelowFits(some: set<int>, n: nat)
    requires Below(some, n)
    ensures |some| <= n
    ensures |some| == n ==> forall i | 0 <= i < n :: i in some
  {
    assert some <= Range(n);
    SubsetSize(some, Range(n));
  }

  /** What the elimination keeps: ranks for what is eliminated, and, with nothing ready, the rest stuck. */
  ghost predicate Eliminating(graph: Graph, eliminated: set<int>, rank: map<int, int>, round: int, ready: set<int>) {
    && Below(eliminated, |graph|)
    && rank.Keys == eliminated && Ranked(graph, rank)
    && (forall i | i in rank :: rank[i] < round)
    && (ready == {} ==> Stuck(graph, Range(|graph|) - eliminated))
  }

  lemma ReadyMeans(graph: Graph, eliminated: set<int>, i: int)
    ensures i in Ready(Prerequisites(graph), eliminated) <==>
              0 <= i < |graph| && i !in eliminated && forall d | d in graph[i] :: d in eliminated
  {
    if 0 <= i < |graph| {
      var waiting := Prerequisites(graph)[i];
      assert forall d :: d in waiting <==> d in graph[i];
      if forall d | d in waiting :: d in eliminated {
        Included(waiting, eliminated);
      }
    }
  }

  lemma RoundStuck(graph: Graph, eliminated: set<int>)
    requires Closed(graph) && Ready(Prerequisites(graph), eliminated) == {}
    ensures Stuck(graph, Range(|graph|) - eliminated)
  {
    forall i | i in Range(|graph|) - eliminated
      ensures exists d :: d in graph[i] && d !in eliminated
    {
      ReadyMeans(graph, eliminated, i);
    }
    NoneReady(graph, eliminated, Range(|graph|) - eliminated);
  }

  lemma Round(graph: Graph, eliminated: set<int>, rank: map<int, int>, round: int, ready: set<int>)
    returns (after: map<int, int>)
    requires Closed(graph) && Eliminating(graph, eliminated, rank, round, {0})
    requires ready == Ready(Prerequisites(graph), eliminated)
    ensures Eliminating(graph, eliminated + ready, after, round + 1, ready)
    ensures |eliminated + ready| <= |graph| && (ready != {} ==> |eliminated + ready| > |eliminated|)
  {
    after := map i | i in eliminated + ready :: if i in rank then rank[i] else round;
    forall i | i in ready
      ensures 0 <= i < |graph| && i !in rank && forall d | d in graph[i] :: d in rank
    {
      ReadyMeans(graph, eliminated, i);
    }
    RoundRanked(graph, rank, ready, round, after);
    BelowFits(eliminated + ready, |graph|);
    if ready == {} {
      assert eliminated + ready == eliminated;
      RoundStuck(graph, eliminated);
    } else {
      Grown(eliminated, ready);
    }
  }

  /**
   Round by round, take out the children that wait on nothing left, until a round takes none: True exactly where no
   cycle is drawn.
   */
  method IsAcyclic(graph: Graph) returns (acyclic: bool)
    requires Closed(graph)
    ensures acyclic <==> !HasCycle(graph)
  {
    var prerequisites := Prerequisites(graph);
    var eliminated: set<int> := {};
    var ready := {0};
    ghost var rank: map<int, int> := map[];
    ghost var round := 0;
    while ready != {}
      invariant Eliminating(graph, eliminated, rank, round, ready)
      invariant |eliminated| <= |graph|
      decreases |graph| - |eliminated|, ready
    {
      ready := Ready(prerequisites, eliminated);
      rank := Round(graph, eliminated, rank, round, ready);
      round := round + 1;
      eliminated := eliminated + ready;
    }
    BelowFits(eliminated, |graph|);
    acyclic := |eliminated| == |graph|;
    if acyclic {
      RankedIsAcyclic(graph, rank);
    } else {
      AllLeft(graph, eliminated);
    }
  }

  lemma AllLeft(graph: Graph, eliminated: set<int>)
    requires Below(eliminated, |graph|) && |eliminated| != |graph|
    requires Stuck(graph, Range(|graph|) - eliminated)
    ensures HasCycle(graph)
  {
    var left := Range(|graph|) - eliminated;
    if first :| first in Range(|graph|) && first !in eliminated {
      StuckHasCycle(graph, left, [first]);
    } else {
      BelowFits(eliminated, |graph|);
      Included(Range(|graph|), eliminated);
      SubsetSize(Range(|graph|), eliminated);
    }
  }

  // ----- The contract

  function GraphOf(children: seq<Value>): (graph: Option<Graph>)
    ensures graph.Some? ==> |graph.value| == |children| && Closed(graph.value)
    ensures graph.Some? <==> forall i | 0 <= i < |children| :: Dependencies(i, children[i], |children|).Some?
    ensures graph.Some? ==> forall i | 0 <= i < |children| ::
              Dependencies(i, children[i], |children|) == Some(graph.value[i])
  {
    if exists i :: 0 <= i < |children| && Dependencies(i, children[i], |children|).None? then None
    else Some(seq(|children|, i requires 0 <= i < |children| => Dependencies(i, children[i], |children|).value))
  }

  /** The manifest holds to the contract: one to ten children, each whole, their dependencies free of cycles. */
  ghost predicate ValidSplit(manifest: map<string, Value>) {
    var children := Get(manifest, "children");
    var umbrella := Get(manifest, "umbrella");
    && children.List? && 1 <= |children.items| <= MAX_CHILDREN
    && (umbrella.Null? || umbrella.Bool?)
    && GraphOf(children.items).Some?
    && !HasCycle(GraphOf(children.items).value)
  }

  method IsValidSplit(manifest: map<string, Value>) returns (valid: bool)
    ensures valid <==> ValidSplit(manifest)
  {
    var children := Get(manifest, "children");
    if !children.List? || !(1 <= |children.items| <= MAX_CHILDREN) {
      return false;
    }
    var umbrella := Get(manifest, "umbrella");
    if !umbrella.Null? && !umbrella.Bool? {
      return false;
    }
    var graph := GraphOf(children.items);
    if graph.None? {
      return false;
    }
    valid := IsAcyclic(graph.value);
  }

  // ----- The variants that must be refused

  const FOREIGN_ENTRIES := [Bool(true), Float, Str("0"), Int(-1), Int(18_446_744_073_709_551_616)]
  const NOT_LISTS := [Null, Int(0), Object(map[])]

  /** What a child's list is replaced by, None dropping it: unstated, not a list, or one entry too many. */
  function BrokenListings(stated: seq<Value>, index: int, count: int): seq<Option<Value>> {
    var entries := FOREIGN_ENTRIES + [Int(count), Int(index)];
    [None] + seq(|NOT_LISTS|, i requires 0 <= i < |NOT_LISTS| => Some(NOT_LISTS[i]))
    + seq(|entries|, i requires 0 <= i < |entries| => Some(List(stated + [entries[i]])))
  }

  /** One child's list put in place of another, or taken away; no other child is touched. */
  function WithDependencies(children: seq<Value>, index: int, listing: Option<Value>): (variant: seq<Value>)
    requires 0 <= index < |children| && children[index].Object?
    ensures |variant| == |children| && variant[index].Object?
    ensures forall i | 0 <= i < |children| && i != index :: variant[i] == children[i]
    ensures forall key | key != DEPENDS_ON ::
              Get(variant[index].members, key) == Get(children[index].members, key)
    ensures Get(variant[index].members, DEPENDS_ON) == if listing.Some? then listing.value else Null
  {
    var dropped := children[index].members - {DEPENDS_ON};
    children[index := Object(if listing.Some? then dropped[DEPENDS_ON := listing.value] else dropped)]
  }

  /** The distinct entries of a list, each where it first stands. */
  function Once(entries: seq<Value>): (once: seq<Value>)
    ensures forall e :: e in once <==> e in entries
    ensures |once| <= |entries|
    ensures forall i, j | 0 <= i < j < |once| :: once[i] != once[j]
  {
    if entries == [] then []
    else
      var front, last := entries[..|entries| - 1], entries[|entries| - 1];
      assert entries == front + [last];
      if last in front then Once(front) else Once(front) + [last]
  }

  ghost predicate Unlisted(children: seq<Value>, variant: seq<Value>, i: int, k: int) {
    && 0 <= i < |children| && children[i].Object?
    && 0 <= k < |BrokenListings(Stated(children[i]), i, |children|)|
    && variant == WithDependencies(children, i, BrokenListings(Stated(children[i]), i, |children|)[k])
  }

  ghost predicate Reversed(children: seq<Value>, variant: seq<Value>, i: int, d: int) {
    && 0 <= i < |children| && Int(d) in Stated(children[i])
    && 0 <= d < |children| && children[d].Object?
    && variant == WithDependencies(children, d, Some(List(Stated(children[d]) + [Int(i)])))
  }

  /** A variant to refuse: one child's list broken, or an edge drawn back along one already there. */
  ghost predicate Broken(children: seq<Value>, variant: seq<Value>) {
    || (exists i, k :: Unlisted(children, variant, i, k))
    || (exists i, d :: Reversed(children, variant, i, d))
  }

  function Joined<T>(parts: seq<seq<T>>): seq<T> {
    if parts == [] then [] else parts[0] + Joined(parts[1..])
  }

  lemma {:induction false} JoinedHas<T>(parts: seq<seq<T>>, v: T)
    ensures v in Joined(parts) <==> exists i :: 0 <= i < |parts| && v in parts[i]
  {
    if parts != [] {
      JoinedHas(parts[1..], v);
      assert forall i | 1 <= i < |parts| :: parts[i] == parts[1..][i - 1];
    }
  }

  /** One child's variants with its list broken. */
  function UnlistedOf(children: seq<Value>, i: nat, n: nat): seq<seq<Value>>
    requires i < |children| && children[i].Object?
    requires n <= |BrokenListings(Stated(children[i]), i, |children|)|
  {
    if n == 0 then [] else
      UnlistedOf(children, i, n - 1)
      + [WithDependencies(children, i, BrokenListings(Stated(children[i]), i, |children|)[n - 1])]
  }

  /** One child's variants with an edge drawn back along one of `entries`. */
  function ReversedOf(children: seq<Value>, i: int, entries: seq<Value>): seq<seq<Value>>
    requires 0 <= i < |children| && GraphOf(children).Some?
    requires forall e | e in entries :: e in Stated(children[i])
  {
    if entries == [] then [] else
      assert entries[0] in entries;
      var d := EdgeOf(children, i, entries[0]);
      [WithDependencies(children, d, Some(List(Stated(children[d]) + [Int(i)])))]
      + ReversedOf(children, i, entries[1..])
  }

  /** The child a stated entry of a whole child names. */
  function EdgeOf(children: seq<Value>, i: int, entry: Value): (d: int)
    requires 0 <= i < |children| && GraphOf(children).Some? && entry in Stated(children[i])
    ensures entry == Int(d) && 0 <= d < |children| && d != i && children[d].Object?
  {
    assert Dependencies(i, children[i], |children|).Some?;
    assert IsAnotherChild(entry, i, |children|);
    assert Dependencies(entry.number, children[entry.number], |children|).Some?;
    entry.number
  }

  /** The children given one bad list at a time, then one edge drawn back at a time. */
  function BrokenChildren(children: seq<Value>): seq<seq<Value>>
    requires GraphOf(children).Some?
  {
    Joined(UnlistedParts(children)) + Joined(ReversedParts(children))
  }

  function UnlistedParts(children: seq<Value>): (parts: seq<seq<seq<Value>>>)
    requires GraphOf(children).Some?
    ensures |parts| == |children|
    ensures forall i | 0 <= i < |children| :: children[i].Object? && parts[i] == UnlistedsOf(children, i)
  {
    assert forall i | 0 <= i < |children| :: Dependencies(i, children[i], |children|).Some?;
    seq(|children|, i requires 0 <= i < |children| => UnlistedsOf(children, i))
  }

  function ReversedParts(children: seq<Value>): (parts: seq<seq<seq<Value>>>)
    requires GraphOf(children).Some?
    ensures |parts| == |children|
    ensures forall i | 0 <= i < |children| :: parts[i] == ReversedOf(children, i, Once(Stated(children[i])))
  {
    seq(|children|, i requires 0 <= i < |children| => ReversedOf(children, i, Once(Stated(children[i]))))
  }

  function UnlistedsOf(children: seq<Value>, i: nat): seq<seq<Value>>
    requires i < |children| && children[i].Object?
  {
    UnlistedOf(children, i, |BrokenListings(Stated(children[i]), i, |children|)|)
  }

  lemma UnlistedSaid(children: seq<Value>, i: nat, k: nat, v: seq<Value>)
    requires i < |children| && children[i].Object? && k < |BrokenListings(Stated(children[i]), i, |children|)|
    ensures Unlisted(children, v, i, k) <==>
            v == WithDependencies(children, i, BrokenListings(Stated(children[i]), i, |children|)[k])
  {
    hide BrokenListings, WithDependencies, Stated;
  }

  lemma {:induction false} UnlistedOfAre(children: seq<Value>, i: nat, n: nat, v: seq<Value>)
    requires i < |children| && children[i].Object?
    requires n <= |BrokenListings(Stated(children[i]), i, |children|)|
    ensures v in UnlistedOf(children, i, n) <==> exists k :: k < n && Unlisted(children, v, i, k)
  {
    hide BrokenListings, WithDependencies, Stated;
    if n > 0 {
      UnlistedOfAre(children, i, n - 1, v);
      UnlistedSaid(children, i, n - 1, v);
    }
  }

  lemma ReversedFirst(children: seq<Value>, i: int, entries: seq<Value>, v: seq<Value>)
    requires 0 <= i < |children| && GraphOf(children).Some? && entries != []
    requires forall e | e in entries :: e in Stated(children[i])
    ensures entries[0].Int?
    ensures v in ReversedOf(children, i, entries)
       <==> Reversed(children, v, i, entries[0].number) || v in ReversedOf(children, i, entries[1..])
  {
    hide Stated, WithDependencies;
    assert entries[0] in entries;
    var d := EdgeOf(children, i, entries[0]);
  }

  ghost predicate SomeEntry(entries: seq<Value>, holds: int -> bool) { exists d :: Int(d) in entries && holds(d) }

  lemma OneMoreEntry(entries: seq<Value>, holds: int -> bool)
    requires entries != [] && entries[0].Int?
    ensures SomeEntry(entries, holds) <==> holds(entries[0].number) || SomeEntry(entries[1..], holds)
  {
    var first, rest := entries[0].number, entries[1..];
    assert entries == [Int(first)] + rest;
    if SomeEntry(entries, holds) {
      var d :| Int(d) in entries && holds(d);
      assert d == first || Int(d) in rest;
    }
    if holds(first) {
      assert Int(first) in entries;
    }
  }

  lemma {:induction false} ReversedOfAre(children: seq<Value>, i: int, entries: seq<Value>, v: seq<Value>)
    requires 0 <= i < |children| && GraphOf(children).Some?
    requires forall e | e in entries :: e in Stated(children[i])
    ensures v in ReversedOf(children, i, entries) <==> exists d :: Int(d) in entries && Reversed(children, v, i, d)
  {
    hide EdgeOf, Stated, WithDependencies, Reversed;
    if entries != [] {
      assert entries[0] in entries;
      var rest := entries[1..];
      ReversedOfAre(children, i, rest, v);
      ReversedFirst(children, i, entries, v);
      hide ReversedOf;
      OneMoreEntry(entries, d => Reversed(children, v, i, d));
    } else {
      assert v !in ReversedOf(children, i, entries);
    }
  }

  ghost predicate ReversedAt(children: seq<Value>, variant: seq<Value>, i: int) {
    exists d :: Reversed(children, variant, i, d)
  }

  lemma ReversedOnceAre(children: seq<Value>, i: nat, v: seq<Value>)
    requires i < |children| && GraphOf(children).Some?
    ensures v in ReversedOf(children, i, Once(Stated(children[i]))) <==> ReversedAt(children, v, i)
  {
    var once := Once(Stated(children[i]));
    ReversedOfAre(children, i, once, v);
    if d :| Reversed(children, v, i, d) {
      assert Int(d) in once;
    }
  }

  /**
   What `broken_children` yields: every child's list broken every way, every distinct edge drawn back, and nothing
   else.
   */
  lemma BrokenChildrenAre(children: seq<Value>, v: seq<Value>)
    requires GraphOf(children).Some?
    ensures v in BrokenChildren(children) <==> Broken(children, v)
  {
    UnlistedPartsAre(children, v);
    ReversedPartsAre(children, v);
    BrokenAt(children, v);
  }

  lemma UnlistedPartsAre(children: seq<Value>, v: seq<Value>)
    requires GraphOf(children).Some?
    ensures v in Joined(UnlistedParts(children)) <==> exists i :: 0 <= i < |children| && UnlistedAt(children, v, i)
  {
    var parts := UnlistedParts(children);
    JoinedHas(parts, v);
    forall i | 0 <= i < |children|
      ensures v in parts[i] <==> UnlistedAt(children, v, i)
    {
      UnlistedOfAre(children, i, |BrokenListings(Stated(children[i]), i, |children|)|, v);
    }
  }

  lemma ReversedPartsAre(children: seq<Value>, v: seq<Value>)
    requires GraphOf(children).Some?
    ensures v in Joined(ReversedParts(children)) <==> exists i :: 0 <= i < |children| && ReversedAt(children, v, i)
  {
    var parts := ReversedParts(children);
    JoinedHas(parts, v);
    forall i | 0 <= i < |children|
      ensures v in parts[i] <==> ReversedAt(children, v, i)
    {
      ReversedOnceAre(children, i, v);
    }
  }

  ghost predicate UnlistedAt(children: seq<Value>, variant: seq<Value>, i: int) {
    exists k :: Unlisted(children, variant, i, k)
  }

  lemma BrokenAt(children: seq<Value>, v: seq<Value>)
    ensures Broken(children, v) <==>
              || (exists i :: 0 <= i < |children| && UnlistedAt(children, v, i))
              || (exists i :: 0 <= i < |children| && ReversedAt(children, v, i))
  {
    if i, k :| Unlisted(children, v, i, k) {
      assert UnlistedAt(children, v, i);
    }
    if i, d :| Reversed(children, v, i, d) {
      assert ReversedAt(children, v, i);
    }
  }

  lemma BrokenListingRefused(children: seq<Value>, i: int, k: int)
    requires |children| <= MAX_CHILDREN && 0 <= i < |children| && children[i].Object?
    requires 0 <= k < |BrokenListings(Stated(children[i]), i, |children|)|
    ensures GraphOf(WithDependencies(children, i, BrokenListings(Stated(children[i]), i, |children|)[k])).None?
  {
    var stated, count := Stated(children[i]), |children|;
    var listing := BrokenListings(stated, i, count)[k];
    var variant := WithDependencies(children, i, listing);
    var entries := FOREIGN_ENTRIES + [Int(count), Int(i)];
    if k > 3 {
      assert |NOT_LISTS| == 3;
      var entry := entries[k - 4];
      assert listing == Some(List(stated + [entry]));
      assert entry in (stated + [entry]);
    } else if k > 0 {
      assert listing == Some(NOT_LISTS[k - 1]);
      assert !NOT_LISTS[k - 1].List?;
    }
    assert Dependencies(i, variant[i], count).None?;
  }

  lemma StatedAre(children: seq<Value>, graph: Graph, i: int, k: int)
    requires GraphOf(children) == Some(graph) && 0 <= i < |children| && 0 <= k < |Stated(children[i])|
    ensures |graph[i]| == |Stated(children[i])| && Stated(children[i])[k] == Int(graph[i][k])
  {
    assert Stated(children[i])[k] in Stated(children[i]);
  }

  lemma BothObjects(children: seq<Value>, i: int, d: int)
    requires GraphOf(children).Some?
    requires 0 <= i < |children| && 0 <= d < |children| && Int(d) in Stated(children[i])
    ensures children[d].Object? && children[i].Object? && d != i
  {
    hide Stated;
    assert Dependencies(d, children[d], |children|).Some?;
    assert Dependencies(i, children[i], |children|).Some?;
    assert IsAnotherChild(Int(d), i, |children|);
  }

  lemma EdgeStands(graph: Graph, i: int, k: int)
    requires 0 <= i < |graph| && 0 <= k < |graph[i]|
    ensures Edge(graph, i, graph[i][k])
  {
  }

  lemma ThereAndBack(graph: Graph, i: int, d: int)
    requires Edge(graph, i, d) && Edge(graph, d, i)
    ensures HasCycle(graph)
  {
    assert Cycle(graph, [i, d, i]);
  }

  /** An edge drawn back along one already there closes a cycle, whatever else the graph holds. */
  lemma ReversedRefused(children: seq<Value>, i: int, d: int)
    requires GraphOf(children).Some?
    requires 0 <= i < |children| && 0 <= d < |children| && Int(d) in Stated(children[i])
    ensures children[d].Object?
    ensures var graph := GraphOf(WithDependencies(children, d, Some(List(Stated(children[d]) + [Int(i)]))));
            graph.Some? ==> HasCycle(graph.value)
  {
    hide GraphOf, Cycle, HasCycle, Dependencies, Edge;
    BothObjects(children, i, d);
    var stated := Stated(children[d]) + [Int(i)];
    var variant := WithDependencies(children, d, Some(List(stated)));
    if GraphOf(variant).Some? {
      var graph := GraphOf(variant).value;
      var k :| 0 <= k < |Stated(children[i])| && Stated(children[i])[k] == Int(d);
      StatedAre(variant, graph, i, k);
      StatedAre(variant, graph, d, |stated| - 1);
      EdgeStands(graph, i, k);
      EdgeStands(graph, d, |stated| - 1);
      ThereAndBack(graph, i, d);
    }
  }

  /** No variant `broken_children` derives from the children of a valid split is a valid split, under any umbrella. */
  lemma BrokenRefused(manifest: map<string, Value>, variant: seq<Value>, broken: map<string, Value>)
    requires ValidSplit(manifest) && variant in BrokenChildren(Get(manifest, "children").items)
    requires Get(broken, "children") == List(variant)
    ensures !ValidSplit(broken)
  {
    var children := Get(manifest, "children").items;
    BrokenChildrenAre(children, variant);
    if i, k :| Unlisted(children, variant, i, k) {
      BrokenListingRefused(children, i, k);
    } else {
      var i, d :| Reversed(children, variant, i, d);
      ReversedRefused(children, i, d);
    }
  }

  // ----- What the contract asks, rule by rule

  /** A child holds to the contract exactly where it is an object with a title, a body and a list of other children. */
  lemma WholeExactly(index: int, child: Value, count: int)
    ensures Dependencies(index, child, count).Some? <==>
              && child.Object?
              && (forall key | key in {"title", "body"} ::
                    key in child.members && child.members[key].Str? && child.members[key].text != "")
              && "depends_on" in child.members && child.members["depends_on"].List?
              && forall entry | entry in child.members["depends_on"].items ::
                   entry.Int? && 0 <= entry.number && entry.number < count && entry.number != index
  {
    if child.Object? && "depends_on" in child.members && child.members["depends_on"].List? {
      var items := child.members["depends_on"].items;
      assert Get(child.members, DEPENDS_ON) == child.members["depends_on"];
      assert (forall i | 0 <= i < |items| :: IsAnotherChild(items[i], index, count)) <==>
             forall entry | entry in items :: IsAnotherChild(entry, index, count);
    }
  }

  /**
   A manifest is a valid split exactly where it lists one to ten whole children without a cycle, and its umbrella is
   a flag or none.
   */
  lemma ValidExactly(manifest: map<string, Value>)
    ensures ValidSplit(manifest) <==>
              && "children" in manifest && manifest["children"].List?
              && var children := manifest["children"].items;
                 && 1 <= |children| <= 10
                 && ("umbrella" in manifest ==> manifest["umbrella"] == Null || manifest["umbrella"].Bool?)
                 && (forall i | 0 <= i < |children| :: Dependencies(i, children[i], |children|).Some?)
                 && !HasCycle(GraphOf(children).value)
  {
    hide Dependencies, HasCycle;
  }

  /** What a child's list is broken into: unstated, three values that are no list, the list with each foreign entry. */
  lemma BrokenListingsAre(stated: seq<Value>, index: int, count: int, listing: Option<Value>)
    ensures listing in BrokenListings(stated, index, count) <==>
              || listing in {None, Some(Null), Some(Int(0)), Some(Object(map[]))}
              || exists entry :: listing == Some(List(stated + [entry])) && Foreign(entry, index, count)
  {
    var entries := FOREIGN_ENTRIES + [Int(count), Int(index)];
    var broken := BrokenListings(stated, index, count);
    assert broken[0] == None && broken[1] == Some(Null);
    assert broken[2] == Some(Int(0)) && broken[3] == Some(Object(map[]));
    assert forall i | 0 <= i < |entries| :: broken[i + 4] == Some(List(stated + [entries[i]]));
    if listing in broken {
      var k :| 0 <= k < |broken| && broken[k] == listing;
      if k >= 4 {
        assert Foreign(entries[k - 4], index, count);
      }
    }
    if entry :| listing == Some(List(stated + [entry])) && Foreign(entry, index, count) {
      ForeignAmong(entry, index, count);
      var i :| 0 <= i < |entries| && entries[i] == entry;
      assert broken[i + 4] == listing;
    }
  }

  /** An entry no list may hold: a flag, a float, a string, an index below none or past any, the child's own. */
  predicate Foreign(entry: Value, index: int, count: int) {
    || entry == Bool(true) || entry == Float || entry == Str("0") || entry == Int(-1)
    || entry == Int(18_446_744_073_709_551_616) || entry == Int(count) || entry == Int(index)
  }

  lemma ForeignAmong(entry: Value, index: int, count: int)
    requires Foreign(entry, index, count)
    ensures entry in FOREIGN_ENTRIES + [Int(count), Int(index)]
  {
    var entries := FOREIGN_ENTRIES + [Int(count), Int(index)];
    assert entries[0] == Bool(true) && entries[1] == Float && entries[2] == Str("0") && entries[3] == Int(-1);
    assert entries[4] == Int(18_446_744_073_709_551_616) && entries[5] == Int(count) && entries[6] == Int(index);
  }
}
