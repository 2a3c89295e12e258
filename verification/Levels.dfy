/**
 * The level-by-level sort of bindings/python/topsort.py, and how its levels relate to the
 * answer of the FIFO sort.
 */
module Levels {
  import opened Sequences
  import opened TopSort

  /** What the generator yields, and whether it then stops or raises. */
  datatype LevelsResult =
    | Stopped(levels: seq<seq<Node>>)
    | Raised(levels: seq<seq<Node>>, numParents: map<Node, int>, children: map<Node, seq<Node>>)

  /** Level k lists, once each, the nodes whose longest incoming walk has k edges, and there is one. */
  ghost predicate LevelsByDepth(g: Digraph, levels: seq<seq<Node>>) {
    forall k :: 0 <= k < |levels| ==> LevelIs(g, levels[k], k) && levels[k] != []
  }

  ghost predicate LevelIs(g: Digraph, level: seq<Node>, k: nat) {
    Distinct(level) && forall x :: x in level <==> Depth(g, x, k)
  }

  /** The nodes that no walk of k edges reaches: those of depth below k. */
  ghost function Below(g: Digraph, k: nat): set<Node> {
    set x | x in g.nodes && !WalkTo(g, x, k)
  }

  /** The nodes without a remaining parent are those of depth k. */
  lemma {:induction false} ZeroIsDepth(g: Digraph, k: nat, numParents: map<Node, int>, x: Node)
    requires WellFormed(g) && Counts(g, Below(g, k), numParents)
    ensures x in numParents && numParents[x] == 0 <==> Depth(g, x, k)
  {
    InEdgesZero(g.edges, x, Below(g, k));
    if Depth(g, x, k) {
      forall p | HasEdge(g.edges, p, x)
        ensures p in Below(g, k)
      {
        assert (p, x) in g.edges;
      }
    }
  }

  lemma {:induction false} BelowNext(g: Digraph, k: nat, level: seq<Node>)
    requires WellFormed(g) && LevelIs(g, level, k)
    ensures Below(g, k + 1) == Below(g, k) + Items(level)
  {
    forall x | x in g.nodes
      ensures x in Below(g, k + 1) <==> x in Below(g, k) + Items(level)
    {
      if WalkTo(g, x, k + 1) {
        WalkToShorter(g, x, k, k + 1);
      }
    }
    forall x | x in level
      ensures x in g.nodes
    {
      assert Depth(g, x, k);
    }
  }

  /** Lower the count of every child of one parent; the parent itself is already out. */
  method Decrement(numParents0: map<Node, int>, list: seq<Node>) returns (numParents: map<Node, int>)
    requires forall x :: x in list ==> x in numParents0
    ensures numParents.Keys == numParents0.Keys
    ensures forall x :: x in numParents ==> numParents[x] == numParents0[x] - Occurrences(list, x)
  {
    numParents := numParents0;
    for j := 0 to |list|
      invariant numParents.Keys == numParents0.Keys
      invariant forall x :: x in numParents ==> numParents[x] == numParents0[x] - Occurrences(list[..j], x)
    {
      var child := list[j];
      OneMoreOccurrence(list, j);
      assert list[..j + 1][..j] == list[..j];
      numParents := numParents[child := numParents[child] - 1];
    }
    assert list[..|list|] == list;
  }

  /** The children of a node of depth k are neither below level k nor on it. */
  lemma {:induction false} ChildrenAreLater(g: Digraph, k: nat, level: seq<Node>, p: Node, x: Node)
    requires WellFormed(g) && LevelIs(g, level, k) && p in level && HasEdge(g.edges, p, x)
    ensures x in g.nodes && x !in Below(g, k) && x !in level
  {
    assert (p, x) in g.edges;
    assert WalkTo(g, x, k + 1);
    WalkToShorter(g, x, k, k + 1);
  }

  /** Take one node of the level out of both dictionaries. */
  method RemoveParent(ghost g: Digraph, ghost done: set<Node>, p: Node, numParents0: map<Node, int>,
                      children0: map<Node, seq<Node>>)
    returns (numParents: map<Node, int>, children: map<Node, seq<Node>>)
    requires Counts(g, done, numParents0) && ChildLists(g, done, children0)
    requires p in g.nodes && p !in done
    requires forall x :: HasEdge(g.edges, p, x) ==> x in numParents0 && x != p
    ensures Counts(g, done + {p}, numParents) && ChildLists(g, done + {p}, children)
  {
    numParents, children := numParents0 - {p}, children0;
    ChildrenMembers(g.edges, p);
    if p in children {
      numParents := Decrement(numParents, children[p]);
      children := children - {p};
    }
    forall x | x in numParents
      ensures numParents[x] == InEdges(g.edges, x, done + {p})
    {
      InEdgesDrop(g.edges, x, done, p);
    }
  }

  /** Nodes that are still there and whose children are still there and not among them. */
  ghost predicate Removable(g: Digraph, done: set<Node>, level: seq<Node>) {
    && Distinct(level)
    && (forall p :: p in level ==> p in g.nodes && p !in done)
    && (forall p, x :: p in level && HasEdge(g.edges, p, x) ==> x in g.nodes && x !in done && x !in level)
  }

  lemma {:induction false} LevelIsRemovable(g: Digraph, k: nat, level: seq<Node>)
    requires WellFormed(g) && LevelIs(g, level, k)
    ensures Removable(g, Below(g, k), level)
  {
    forall p | p in level
      ensures p in g.nodes && p !in Below(g, k)
    {
      assert Depth(g, p, k);
    }
    forall p, x | p in level && HasEdge(g.edges, p, x)
      ensures x in g.nodes && x !in Below(g, k) && x !in level
    {
      ChildrenAreLater(g, k, level, p, x);
    }
  }

  /** Work off one level. */
  method RemoveLevel(ghost g: Digraph, ghost done: set<Node>, level: seq<Node>, numParents0: map<Node, int>,
                     children0: map<Node, seq<Node>>)
    returns (numParents: map<Node, int>, children: map<Node, seq<Node>>)
    requires Removable(g, done, level)
    requires Counts(g, done, numParents0) && ChildLists(g, done, children0)
    ensures Counts(g, done + Items(level), numParents) && ChildLists(g, done + Items(level), children)
  {
    numParents, children := numParents0, children0;
    assert done + Items(level[..0]) == done;
    for j := 0 to |level|
      invariant Counts(g, done + Items(level[..j]), numParents)
      invariant ChildLists(g, done + Items(level[..j]), children)
    {
      ghost var gone := done + Items(level[..j]);
      NextIsRemovable(g, done, level, j);
      numParents, children := RemoveParent(g, gone, level[j], numParents, children);
    }
    assert level[..|level|] == level;
  }

  lemma {:induction false} NextIsRemovable(g: Digraph, done: set<Node>, level: seq<Node>, j: nat)
    requires Removable(g, done, level) && j < |level|
    ensures var gone := done + Items(level[..j]);
            && level[j] in g.nodes && level[j] !in gone
            && (forall x :: HasEdge(g.edges, level[j], x) ==> x in g.nodes - gone && x != level[j])
            && gone + {level[j]} == done + Items(level[..j + 1])
  {
  }

  lemma {:induction false} LevelNodeIsThere(g: Digraph, k: nat, level: seq<Node>, j: nat)
    requires LevelIs(g, level, k) && j < |level|
    ensures level[j] in level && level[j] in g.nodes
    ensures level[j] !in Below(g, k) + Items(level[..j])
  {
  }

  /**
   * The generator, run to its end, on dictionaries that count and list the edges of g.
   */
  method SortLevelsCore(ghost g: Digraph, numParents0: map<Node, int>, children0: map<Node, seq<Node>>)
    returns (r: LevelsResult)
    requires WellFormed(g) && Counts(g, {}, numParents0) && ChildLists(g, {}, children0)
    ensures LevelsOutcome(g, r)
  {
    var numParents, children := numParents0, children0;
    var levels: seq<seq<Node>> := [];
    StartsAtLevelZero(g, numParents, children);
    while true
      invariant LevelsByDepth(g, levels) && AtLevel(g, |levels|, numParents, children)
      decreases |numParents|
    {
      var level;
      level, numParents, children := NextLevel(g, levels, numParents, children);
      if level == [] {
        break;
      }
      levels := levels + [level];
    }
    r := Ending(levels, numParents, children);
  }

  lemma {:induction false} StartsAtLevelZero(g: Digraph, numParents: map<Node, int>, children: map<Node, seq<Node>>)
    requires Counts(g, {}, numParents) && ChildLists(g, {}, children)
    ensures AtLevel(g, 0, numParents, children) && LevelsByDepth(g, [])
  {
    assert Below(g, 0) == {};
  }

  /** How the generator ends once no parentless node is left. */
  function Ending(levels: seq<seq<Node>>, numParents: map<Node, int>, children: map<Node, seq<Node>>): LevelsResult {
    if numParents != map[] then Raised(levels, numParents, children) else Stopped(levels)
  }

  /** Collect the next level and, unless it is empty, take it out of both dictionaries. */
  method NextLevel(ghost g: Digraph, ghost levels: seq<seq<Node>>, numParents0: map<Node, int>,
                   children0: map<Node, seq<Node>>)
    returns (level: seq<Node>, numParents: map<Node, int>, children: map<Node, seq<Node>>)
    requires WellFormed(g) && LevelsByDepth(g, levels) && AtLevel(g, |levels|, numParents0, children0)
    ensures level == [] ==> LevelsOutcome(g, Ending(levels, numParents, children))
    ensures level != [] ==>
              && LevelsByDepth(g, levels + [level])
              && AtLevel(g, |levels| + 1, numParents, children)
              && |numParents| < |numParents0|
  {
    numParents, children := numParents0, children0;
    level := ZeroKeys(numParents);
    ZerosAreLevel(g, |levels|, numParents, level);
    if level == [] {
      LevelsFinished(g, levels, numParents, children);
    } else {
      OneMoreLevel(g, levels, level);
      numParents, children := WorkOffLevel(g, |levels|, level, numParents, children);
    }
  }

  /**
   * The generator stops normally exactly when g is acyclic; level k holds the nodes of depth k;
   * every node that no cycle reaches is on some level; and the error carries the rest.
   */
  ghost predicate LevelsOutcome(g: Digraph, r: LevelsResult) {
    && (r.Stopped? <==> Acyclic(g))
    && LevelsByDepth(g, r.levels)
    && (forall x :: x in g.nodes && !FromCycle(g, x) ==> exists k :: 0 <= k < |r.levels| && x in r.levels[k])
    && (r.Raised? ==> Leftover(g, r.numParents, r.children))
  }

  /** The state of both dictionaries when k levels have been worked off. */
  ghost predicate AtLevel(g: Digraph, k: nat, numParents: map<Node, int>, children: map<Node, seq<Node>>) {
    Counts(g, Below(g, k), numParents) && ChildLists(g, Below(g, k), children)
  }

  lemma {:induction false} OneMoreLevel(g: Digraph, levels: seq<seq<Node>>, level: seq<Node>)
    requires LevelsByDepth(g, levels) && LevelIs(g, level, |levels|) && level != []
    ensures LevelsByDepth(g, levels + [level])
  {
  }

  /** What happens to level k after it has been yielded. */
  method WorkOffLevel(ghost g: Digraph, ghost k: nat, level: seq<Node>, numParents0: map<Node, int>,
                      children0: map<Node, seq<Node>>)
    returns (numParents: map<Node, int>, children: map<Node, seq<Node>>)
    requires WellFormed(g) && AtLevel(g, k, numParents0, children0) && LevelIs(g, level, k) && level != []
    ensures AtLevel(g, k + 1, numParents, children)
    ensures |numParents| < |numParents0|
  {
    BelowShrinks(g, k, level);
    numParents, children := RemoveLevel(g, Below(g, k), level, numParents0, children0);
    assert |numParents.Keys| < |numParents0.Keys|;
  }

  lemma {:induction false} ZerosAreLevel(g: Digraph, k: nat, numParents: map<Node, int>, level: seq<Node>)
    requires WellFormed(g) && Counts(g, Below(g, k), numParents)
    requires Distinct(level) && forall x :: x in level <==> x in numParents && numParents[x] == 0
    ensures LevelIs(g, level, k)
  {
    forall x: Node
      ensures x in level <==> Depth(g, x, k)
    {
      ZeroIsDepth(g, k, numParents, x);
    }
  }

  lemma {:induction false} BelowShrinks(g: Digraph, k: nat, level: seq<Node>)
    requires WellFormed(g) && LevelIs(g, level, k) && level != []
    ensures Removable(g, Below(g, k), level)
    ensures Below(g, k + 1) == Below(g, k) + Items(level)
    ensures |g.nodes - Below(g, k + 1)| < |g.nodes - Below(g, k)|
  {
    LevelIsRemovable(g, k, level);
    BelowNext(g, k, level);
    LevelNodeIsThere(g, k, level, 0);
    Shrinks(g.nodes, Below(g, k), Below(g, k + 1), level[0]);
  }

  lemma {:induction false} Shrinks(nodes: set<Node>, before: set<Node>, after: set<Node>, x: Node)
    requires before <= after && x in after && x !in before && x in nodes
    ensures |nodes - after| < |nodes - before|
  {
    assert nodes - after < nodes - before;
    SubsetIsSmaller(nodes - after, nodes - before);
  }

  lemma {:induction false} SubsetIsSmaller(s: set<Node>, t: set<Node>)
    requires s < t
    ensures |s| < |t|
  {
    var x :| x in t && x !in s;
    SubsetIsNoLarger(s, t - {x});
  }

  lemma {:induction false} SubsetIsNoLarger(s: set<Node>, t: set<Node>)
    requires s <= t
    ensures |s| <= |t|
  {
    if s == {} {
    } else {
      var x :| x in s;
      SubsetIsNoLarger(s - {x}, t - {x});
    }
  }

  lemma {:induction false} BelowIsOnALevel(g: Digraph, levels: seq<seq<Node>>, x: Node)
    requires WellFormed(g) && LevelsByDepth(g, levels) && x in Below(g, |levels|)
    ensures exists k :: 0 <= k < |levels| && x in levels[k]
  {
    if levels == [] {
    } else {
      var n := |levels| - 1;
      BelowNext(g, n, levels[n]);
      if x !in levels[n] {
        BelowIsOnALevel(g, levels[..n], x);
        var k :| 0 <= k < n && x in levels[..n][k];
        assert x in levels[k];
      }
    }
  }

  lemma {:induction false} LevelsFinished(g: Digraph, levels: seq<seq<Node>>, numParents: map<Node, int>,
                                          children: map<Node, seq<Node>>)
    requires WellFormed(g) && LevelsByDepth(g, levels)
    requires AtLevel(g, |levels|, numParents, children)
    requires LevelIs(g, [], |levels|)
    ensures LevelsOutcome(g, Ending(levels, numParents, children))
  {
    forall x | x in numParents
      ensures numParents[x] != 0
    {
      ZeroIsDepth(g, |levels|, numParents, x);
      assert x !in [];
    }
    LeftoverIsFromCycle(g, Below(g, |levels|), numParents, children);
    forall x | x in g.nodes && !FromCycle(g, x)
      ensures exists k :: 0 <= k < |levels| && x in levels[k]
    {
      assert x !in numParents;
      BelowIsOnALevel(g, levels, x);
    }
  }

  method SortLevels(pairs: seq<Pair>) returns (r: LevelsResult)
    ensures LevelsOutcome(GraphOf(pairs), r)
  {
    GraphOfIsWellFormed(pairs);
    var numParents, children := BuildDictionaries(pairs);
    r := SortLevelsCore(GraphOf(pairs), numParents, children);
  }

  // ----- The two sorts agree -----

  lemma {:induction false} FlattenIsBelow(g: Digraph, levels: seq<seq<Node>>)
    requires WellFormed(g) && LevelsByDepth(g, levels)
    ensures Distinct(Flatten(levels))
    ensures forall x :: x in Flatten(levels) <==> x in Below(g, |levels|)
  {
    if levels == [] {
    } else {
      var n := |levels| - 1;
      FlattenIsBelow(g, levels[..n]);
      BelowNext(g, n, levels[n]);
      forall x | x in levels[n]
        ensures x !in Flatten(levels[..n])
      {
        assert Depth(g, x, n);
      }
      DistinctAppend(Flatten(levels[..n]), levels[n]);
    }
  }

  /** The first items of an answer in rising depth are exactly those below depth k. */
  lemma {:induction false} PrefixIsBelow(g: Digraph, answer: seq<Node>, k: nat) returns (m: nat)
    requires WellFormed(g) && SortedAnswer(g, answer)
    requires forall x :: x in Below(g, k) ==> x in answer
    requires forall x :: x in answer ==> Grounded(g, x)
    ensures m <= |answer| && forall x :: x in answer[..m] <==> x in Below(g, k)
  {
    m := 0;
    while m < |answer| && answer[m] in Below(g, k)
      invariant m <= |answer| && forall x :: x in answer[..m] ==> x in Below(g, k)
    {
      m := m + 1;
    }
    forall x | x in Below(g, k)
      ensures x in answer[..m]
    {
      var i :| 0 <= i < |answer| && answer[i] == x;
      if m <= i {
        RisingDepthKeepsWalks(g, answer, m, i, k);
      }
    }
  }

  lemma {:induction false} RisingDepthKeepsWalks(g: Digraph, answer: seq<Node>, m: nat, i: nat, k: nat)
    requires WellFormed(g) && SortedAnswer(g, answer) && m <= i < |answer|
    requires forall x :: x in answer ==> Grounded(g, x)
    requires WalkTo(g, answer[m], k)
    ensures WalkTo(g, answer[i], k)
  {
    if m < i {
      assert answer[m] in answer && answer[i] in answer;
      var dm := DepthExists(g, answer[m]);
      var di := DepthExists(g, answer[i]);
      assert dm <= di;
      if dm < k {
        WalkToShorter(g, answer[m], dm + 1, k);
      }
      WalkToShorter(g, answer[i], k, di);
    }
  }

  lemma {:induction false} DepthExists(g: Digraph, x: Node) returns (d: nat)
    requires WellFormed(g) && x in g.nodes && Grounded(g, x)
    ensures Depth(g, x, d)
  {
    var k: nat :| !WalkTo(g, x, k);
    d := 0;
    while WalkTo(g, x, d + 1)
      invariant WalkTo(g, x, d) && d < k
      decreases k - d
    {
      d := d + 1;
    }
  }

  /**
   * Cutting the FIFO answer into stretches as long as the levels gives the levels: stretch k
   * holds the same nodes as level k.
   */
  lemma {:induction false} AnswerCutsIntoLevels(g: Digraph, answer: seq<Node>, levels: seq<seq<Node>>, k: nat)
    requires WellFormed(g) && SortedAnswer(g, answer) && LevelsByDepth(g, levels) && k < |levels|
    requires forall x :: x in g.nodes ==> (x in answer <==> !FromCycle(g, x))
    ensures |Flatten(levels[..k])| <= |Flatten(levels[..k + 1])| <= |answer|
    ensures forall x :: x in answer[|Flatten(levels[..k])|..|Flatten(levels[..k + 1])|] <==> x in levels[k]
  {
    StretchEnd(g, answer, levels, k);
    StretchEnd(g, answer, levels, k + 1);
    assert levels[..k + 1][..k] == levels[..k];
    var lo, hi := |Flatten(levels[..k])|, |Flatten(levels[..k + 1])|;
    BelowNext(g, k, levels[k]);
    assert answer[..hi] == answer[..lo] + answer[lo..hi];
    forall x | x in answer[lo..hi]
      ensures x in levels[k]
    {
      assert x in answer[..hi];
      assert x !in answer[..lo];
    }
    forall x | x in levels[k]
      ensures x in answer[lo..hi]
    {
      assert Depth(g, x, k);
      assert x in Below(g, k + 1) && x !in Below(g, k);
    }
  }

  lemma {:induction false} StretchEnd(g: Digraph, answer: seq<Node>, levels: seq<seq<Node>>, k: nat)
    requires WellFormed(g) && SortedAnswer(g, answer) && LevelsByDepth(g, levels) && k <= |levels|
    requires forall x :: x in g.nodes ==> (x in answer <==> !FromCycle(g, x))
    ensures |Flatten(levels[..k])| <= |answer|
    ensures forall x :: x in answer[..|Flatten(levels[..k])|] <==> x in Below(g, k)
  {
    forall x | x in Below(g, k)
      ensures x in answer
    {
      assert Grounded(g, x);
      GroundedIsNotFromCycle(g, x);
    }
    forall x | x in answer
      ensures Grounded(g, x)
    {
      NotFromCycleIsGrounded(g, x);
    }
    var m := PrefixIsBelow(g, answer, k);
    FlattenIsBelow(g, levels[..k]);
    SameItemsSameLength(answer[..m], Flatten(levels[..k]));
  }
}
