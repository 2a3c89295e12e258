/**
 * The FIFO dependency sort of bindings/python/topsort.py.  It works on a dictionary of parent counts
 * and a dictionary of child lists that it takes apart in place.
 */
module TopSort {
  import opened Sequences
  import Cycles

  type Node = Cycles.Node
  type Pair = (Node, Node)

  /** The dependency graph: parallel edges and self-loops are allowed, and so are isolated nodes. */
  datatype Digraph = Digraph(nodes: set<Node>, edges: seq<Pair>)

  ghost predicate WellFormed(g: Digraph) {
    forall e :: e in g.edges ==> e.0 in g.nodes && e.1 in g.nodes
  }

  function Endpoints(pairs: seq<Pair>): set<Node> {
    (set e | e in pairs :: e.0) + (set e | e in pairs :: e.1)
  }

  function GraphOf(pairs: seq<Pair>): Digraph {
    Digraph(Endpoints(pairs), pairs)
  }

  // ----- Walks, depth and cycles -----

  ghost predicate HasEdge(edges: seq<Pair>, p: Node, x: Node) {
    (p, x) in edges
  }

  /** Some walk of k edges ends in x. */
  ghost predicate WalkTo(g: Digraph, x: Node, k: nat)
    decreases k
  {
    x in g.nodes && (k == 0 || exists p :: HasEdge(g.edges, p, x) && WalkTo(g, p, k - 1))
  }

  /** The longest walk that ends in x has k edges. */
  ghost predicate Depth(g: Digraph, x: Node, k: nat) {
    WalkTo(g, x, k) && !WalkTo(g, x, k + 1)
  }

  ghost predicate Walk(edges: seq<Pair>, w: seq<Node>) {
    forall i, j :: 0 <= i && j == i + 1 && j < |w| ==> HasEdge(edges, w[i], w[j])
  }

  /** x lies on a cycle or can be reached from one: a walk that repeats a node ends in x. */
  ghost predicate FromCycle(g: Digraph, x: Node) {
    exists w :: |w| > 0 && Walk(g.edges, w) && w[|w| - 1] == x && !Distinct(w)
  }

  /** No non-empty walk comes back to where it started. */
  ghost predicate Acyclic(g: Digraph) {
    forall w :: |w| > 1 && Walk(g.edges, w) ==> w[0] != w[|w| - 1]
  }

  lemma {:induction false} WalkToShorter(g: Digraph, x: Node, j: nat, k: nat)
    requires WellFormed(g) && j <= k && WalkTo(g, x, k)
    ensures WalkTo(g, x, j)
    decreases k
  {
    if j == 0 {
    } else {
      var p :| HasEdge(g.edges, p, x) && WalkTo(g, p, k - 1);
      WalkToShorter(g, p, j - 1, k - 1);
    }
  }

  lemma {:induction false} DepthUnique(g: Digraph, x: Node, j: nat, k: nat)
    requires WellFormed(g) && Depth(g, x, j) && Depth(g, x, k)
    ensures j == k
  {
    if j < k {
      WalkToShorter(g, x, j + 1, k);
    } else if k < j {
      WalkToShorter(g, x, k + 1, j);
    }
  }

  /** Behind a repeated node there are walks of every length. */
  lemma {:induction false} CyclePumps(g: Digraph, w: seq<Node>, i: nat, j: nat, m: nat, k: nat)
    requires WellFormed(g) && Walk(g.edges, w)
    requires i < j < |w| && w[i] == w[j] && i <= m < |w|
    ensures WalkTo(g, w[m], k)
    decreases k
  {
    var h, n := if m == i then j - 1 else m - 1, if m == i then j else m;
    assert HasEdge(g.edges, w[h], w[n]);
    if k == 0 {
    } else {
      CyclePumps(g, w, i, j, h, k - 1);
    }
  }

  lemma {:induction false} FromCycleHasNoDepth(g: Digraph, x: Node, k: nat)
    requires WellFormed(g) && FromCycle(g, x)
    ensures WalkTo(g, x, k)
  {
    var w :| |w| > 0 && Walk(g.edges, w) && w[|w| - 1] == x && !Distinct(w);
    var i, j :| 0 <= i < j < |w| && w[i] == w[j];
    CyclePumps(g, w, i, j, |w| - 1, k);
  }

  /** Every node of the set has a parent in the set. */
  ghost predicate Stuck(g: Digraph, s: set<Node>) {
    forall x {:trigger HasParentIn(g, s, x)} :: x in s ==> HasParentIn(g, s, x)
  }

  ghost predicate HasParentIn(g: Digraph, s: set<Node>, x: Node) {
    exists p :: p in s && HasEdge(g.edges, p, x)
  }

  lemma {:induction false} BackwardWalk(g: Digraph, s: set<Node>, x: Node, n: nat) returns (w: seq<Node>)
    requires Stuck(g, s) && x in s
    ensures |w| == n + 1 && Walk(g.edges, w) && w[n] == x
    ensures forall i :: 0 <= i < |w| ==> w[i] in s
  {
    if n == 0 {
      w := [x];
    } else {
      assert HasParentIn(g, s, x);
      var p :| p in s && HasEdge(g.edges, p, x);
      var v := BackwardWalk(g, s, p, n - 1);
      w := v + [x];
    }
  }

  lemma {:induction false} StuckIsFromCycle(g: Digraph, s: set<Node>, x: Node)
    requires Stuck(g, s) && x in s
    ensures FromCycle(g, x)
  {
    var w := BackwardWalk(g, s, x, |s|);
    var i, j := RepeatsWhenLong(w, s);
  }

  lemma {:induction false} AcyclicIffNoneFromCycle(g: Digraph)
    ensures Acyclic(g) <==> forall x :: !FromCycle(g, x)
  {
    if x :| FromCycle(g, x) {
      var w :| |w| > 0 && Walk(g.edges, w) && w[|w| - 1] == x && !Distinct(w);
      var i, j :| 0 <= i < j < |w| && w[i] == w[j];
      var c := w[i..j + 1];
      assert Walk(g.edges, c) && c[0] == c[|c| - 1];
    }
    if !Acyclic(g) {
      var w :| |w| > 1 && Walk(g.edges, w) && w[0] == w[|w| - 1];
      assert FromCycle(g, w[|w| - 1]);
    }
  }

  // ----- What the two dictionaries hold -----

  /** The number of edges into x whose parent is not in done. */
  ghost function InEdges(edges: seq<Pair>, x: Node, done: set<Node>): nat {
    if edges == [] then 0 else
    var n := |edges| - 1;
    InEdges(edges[..n], x, done) + if edges[n].1 == x && edges[n].0 !in done then 1 else 0
  }

  /** The children of p in the order of the edges. */
  ghost function ChildrenOf(edges: seq<Pair>, p: Node): seq<Node> {
    if edges == [] then [] else
    var n := |edges| - 1;
    ChildrenOf(edges[..n], p) + if edges[n].0 == p then [edges[n].1] else []
  }

  /** How often x is listed. */
  ghost function Occurrences(list: seq<Node>, x: Node): nat {
    if list == [] then 0 else
    var n := |list| - 1;
    Occurrences(list[..n], x) + if list[n] == x then 1 else 0
  }

  lemma {:induction false} OccurrencesSnoc(list: seq<Node>, y: Node, x: Node)
    ensures Occurrences(list + [y], x) == Occurrences(list, x) + if y == x then 1 else 0
  {
  }

  lemma {:induction false} OccursIffListed(list: seq<Node>, x: Node)
    ensures x in list <==> Occurrences(list, x) > 0
  {
    if list == [] {
    } else {
      OccursIffListed(list[..|list| - 1], x);
    }
  }

  lemma {:induction false} OccursMore(list: seq<Node>, j: nat, x: Node)
    requires j <= |list|
    ensures Occurrences(list[..j], x) <= Occurrences(list, x)
  {
    if j == |list| {
      assert list[..j] == list;
    } else {
      var n := |list| - 1;
      OccursMore(list[..n], j, x);
      assert list[..n][..j] == list[..j];
    }
  }

  /** num_parents once the parents in done have been taken out. */
  ghost predicate Counts(g: Digraph, done: set<Node>, numParents: map<Node, int>) {
    && numParents.Keys == g.nodes - done
    && forall x {:trigger numParents[x]} :: x in numParents ==> numParents[x] == InEdges(g.edges, x, done)
  }

  function Listed(children: map<Node, seq<Node>>, p: Node): seq<Node> {
    if p in children then children[p] else []
  }

  /** children once the parents in done have been taken out. */
  ghost predicate ChildLists(g: Digraph, done: set<Node>, children: map<Node, seq<Node>>) {
    && children.Keys <= g.nodes - done
    && forall p {:trigger ChildrenOf(g.edges, p)} :: p !in done ==> ChildrenOf(g.edges, p) == Listed(children, p)
  }

  lemma {:induction false} InEdgesZero(edges: seq<Pair>, x: Node, done: set<Node>)
    ensures InEdges(edges, x, done) == 0 <==> forall p :: HasEdge(edges, p, x) ==> p in done
  {
    if edges == [] {
    } else {
      var n := |edges| - 1;
      InEdgesZero(edges[..n], x, done);
      assert edges == edges[..n] + [edges[n]];
      if edges[n].1 == x && edges[n].0 !in done {
        assert (edges[n].0, x) == edges[n];
        assert edges[n] in edges;
      }
      assert forall p :: HasEdge(edges, p, x) <==> HasEdge(edges[..n], p, x) || (p, x) == edges[n];
    }
  }

  lemma {:induction false} ChildrenMembers(edges: seq<Pair>, p: Node)
    ensures forall x :: x in ChildrenOf(edges, p) <==> HasEdge(edges, p, x)
  {
    if edges == [] {
    } else {
      var n := |edges| - 1;
      ChildrenMembers(edges[..n], p);
      assert edges == edges[..n] + [edges[n]];
      assert forall x :: HasEdge(edges, p, x) <==> HasEdge(edges[..n], p, x) || (p, x) == edges[n];
    }
  }

  /** Taking out one more parent lowers each count by its occurrences in that parent's child list. */
  lemma {:induction false} InEdgesDrop(edges: seq<Pair>, x: Node, done: set<Node>, p: Node)
    requires p !in done
    ensures InEdges(edges, x, done) == InEdges(edges, x, done + {p}) + Occurrences(ChildrenOf(edges, p), x)
    decreases |edges|
  {
    if edges == [] {
    } else {
      var n := |edges| - 1;
      InEdgesDrop(edges[..n], x, done, p);
      OneMoreChild(edges, p, x);
    }
  }

  lemma {:induction false} OneMoreChild(edges: seq<Pair>, p: Node, x: Node)
    requires edges != []
    ensures var n := |edges| - 1;
            Occurrences(ChildrenOf(edges, p), x)
            == Occurrences(ChildrenOf(edges[..n], p), x) + if edges[n] == (p, x) then 1 else 0
  {
    var n := |edges| - 1;
    OccurrencesSnoc(ChildrenOf(edges[..n], p), edges[n].1, x);
    assert ChildrenOf(edges[..n], p) + [] == ChildrenOf(edges[..n], p);
  }

  /** The loop that fills both dictionaries from the list of pairs. */
  method BuildDictionaries(pairs: seq<Pair>) returns (numParents: map<Node, int>, children: map<Node, seq<Node>>)
    ensures Counts(GraphOf(pairs), {}, numParents)
    ensures ChildLists(GraphOf(pairs), {}, children)
  {
    numParents, children := map[], map[];
    for i := 0 to |pairs|
      invariant Counts(GraphOf(pairs[..i]), {}, numParents)
      invariant ChildLists(GraphOf(pairs[..i]), {}, children)
    {
      var parent, child := pairs[i].0, pairs[i].1;
      ghost var counts0, lists0 := numParents, children;
      if parent !in numParents {
        numParents := numParents[parent := 0];
      }
      if child !in numParents {
        numParents := numParents[child := 0];
      }
      numParents := numParents[child := numParents[child] + 1];
      children := children[parent := (if parent in children then children[parent] else []) + [child]];
      assert pairs[..i + 1] == pairs[..i] + [pairs[i]];
      CountsGrow(pairs[..i], pairs[i], counts0, numParents);
      ListsGrow(pairs[..i], pairs[i], lists0, children);
    }
    assert pairs[..|pairs|] == pairs;
  }

  lemma {:induction false} CountsGrow(pairs: seq<Pair>, e: Pair, counts: map<Node, int>, more: map<Node, int>)
    requires Counts(GraphOf(pairs), {}, counts)
    requires more.Keys == counts.Keys + {e.0, e.1}
    requires forall x :: x in more ==>
               more[x] == (if x in counts then counts[x] else 0) + if x == e.1 then 1 else 0
    ensures Counts(GraphOf(pairs + [e]), {}, more)
  {
    EndpointsGrow(pairs, e);
    var all := pairs + [e];
    assert all[..|all| - 1] == pairs;
    forall x | x in more
      ensures more[x] == InEdges(all, x, {})
    {
      AbsentHasNoEdges(pairs, x);
    }
  }

  lemma {:induction false} ListsGrow(pairs: seq<Pair>, e: Pair, lists: map<Node, seq<Node>>, more: map<Node, seq<Node>>)
    requires ChildLists(GraphOf(pairs), {}, lists)
    requires more == lists[e.0 := (if e.0 in lists then lists[e.0] else []) + [e.1]]
    ensures ChildLists(GraphOf(pairs + [e]), {}, more)
  {
  }

  lemma {:induction false} EndpointsGrow(pairs: seq<Pair>, e: Pair)
    ensures Endpoints(pairs + [e]) == Endpoints(pairs) + {e.0, e.1}
  {
  }

  lemma {:induction false} AbsentHasNoEdges(pairs: seq<Pair>, x: Node)
    ensures x !in Endpoints(pairs) ==> InEdges(pairs, x, {}) == 0
  {
    InEdgesZero(pairs, x, {});
    assert forall p :: HasEdge(pairs, p, x) ==> (p, x).1 in Endpoints(pairs);
  }

  /** The keys with count zero, in whatever order the keys come. */
  method ZeroKeys(numParents: map<Node, int>) returns (zeros: seq<Node>)
    ensures Distinct(zeros)
    ensures forall x :: x in zeros <==> x in numParents && numParents[x] == 0
  {
    zeros := [];
    var rest := numParents.Keys;
    while rest != {}
      invariant rest <= numParents.Keys
      invariant Distinct(zeros)
      invariant forall x :: x in zeros <==> x in numParents && x !in rest && numParents[x] == 0
      decreases |rest|
    {
      var x :| x in rest;
      rest := rest - {x};
      if numParents[x] == 0 {
        zeros := zeros + [x];
      }
    }
  }

  // ----- The FIFO sort -----

  datatype SortResult =
    | Sorted(answer: seq<Node>)
    | CycleError(answer: seq<Node>, numParents: map<Node, int>, children: map<Node, seq<Node>>)

  /** Every parent of an item of s stands before it, and among the first i items. */
  ghost predicate ParentsFirst(g: Digraph, s: seq<Node>, i: nat)
    requires i <= |s|
  {
    forall k, p {:trigger HasEdge(g.edges, p, s[k])} ::
      0 <= k < |s| && HasEdge(g.edges, p, s[k]) ==> p in s[..k] && p in s[..i]
  }

  /** ds gives the depths of the items, in non-decreasing order and, from item i on, at most one apart. */
  ghost predicate DepthsRise(g: Digraph, s: seq<Node>, i: nat, ds: seq<nat>) {
    && |ds| == |s|
    && (forall k :: 0 <= k < |s| ==> Depth(g, s[k], ds[k]))
    && (forall j, k :: 0 <= j <= k < |s| ==> ds[j] <= ds[k])
    && (forall k :: i <= k < |s| ==> ds[k] <= ds[i] + 1)
  }

  function Items(s: seq<Node>): set<Node> {
    set x | x in s
  }

  /** The state of the sort when the first i items of answer have been worked off. */
  ghost predicate SortInv(g: Digraph, answer: seq<Node>, i: nat, numParents: map<Node, int>, ds: seq<nat>) {
    && i <= |answer|
    && Distinct(answer)
    && Counts(g, Items(answer[..i]), numParents)
    && (forall x :: x in answer[i..] <==> x in numParents && numParents[x] == 0)
    && ParentsFirst(g, answer, i)
    && DepthsRise(g, answer, i, ds)
  }

  /** The first j listed children have been counted down; queued are those that reached zero. */
  ghost predicate CountedDown(numParents0: map<Node, int>, list: seq<Node>, numParents: map<Node, int>,
                              queued: seq<Node>) {
    && numParents.Keys == numParents0.Keys
    && (forall x :: x in numParents0 ==> numParents[x] == numParents0[x] - Occurrences(list, x))
    && Distinct(queued)
    && (forall x :: x in queued <==> x in list && x in numParents && numParents[x] == 0)
  }

  lemma {:induction false} CountDownOne(numParents0: map<Node, int>, list: seq<Node>, child: Node,
                                        numParents: map<Node, int>, queued: seq<Node>)
    requires CountedDown(numParents0, list, numParents, queued)
    requires child in numParents0 && numParents0[child] > Occurrences(list, child)
    ensures var less := numParents[child := numParents[child] - 1];
            CountedDown(numParents0, list + [child], less, if less[child] == 0 then queued + [child] else queued)
  {
  }

  ghost predicate Covers(numParents0: map<Node, int>, list: seq<Node>) {
    && (forall x :: x in list ==> x in numParents0)
    && (forall x :: x in numParents0 ==> numParents0[x] >= Occurrences(list, x))
  }

  lemma {:induction false} CountDownNext(numParents0: map<Node, int>, list: seq<Node>, j: nat,
                                         numParents: map<Node, int>, queued: seq<Node>)
    requires Covers(numParents0, list) && j < |list|
    requires CountedDown(numParents0, list[..j], numParents, queued)
    ensures list[j] in numParents
    ensures var less := numParents[list[j] := numParents[list[j]] - 1];
            CountedDown(numParents0, list[..j + 1], less, if less[list[j]] == 0 then queued + [list[j]] else queued)
  {
    OneMoreOccurrence(list, j);
    CountDownOne(numParents0, list[..j], list[j], numParents, queued);
  }

  lemma {:induction false} CountDownStarts(numParents0: map<Node, int>)
    ensures CountedDown(numParents0, [], numParents0, [])
  {
  }

  /** The listed children in the order in which their last parent is counted off. */
  ghost function ReachedZero(numParents0: map<Node, int>, list: seq<Node>): seq<Node> {
    if list == [] then []
    else
      var n := |list| - 1;
      ReachedZero(numParents0, list[..n])
      + if list[n] in numParents0 && numParents0[list[n]] == Occurrences(list, list[n]) then [list[n]] else []
  }

  lemma {:induction false} ReachedNext(numParents0: map<Node, int>, list: seq<Node>, j: nat,
                                       numParents: map<Node, int>, queued: seq<Node>)
    requires Covers(numParents0, list) && j < |list|
    requires CountedDown(numParents0, list[..j], numParents, queued)
    ensures list[j] in numParents
    ensures ReachedZero(numParents0, list[..j + 1])
            == ReachedZero(numParents0, list[..j]) + if numParents[list[j]] == 1 then [list[j]] else []
  {
    var more := list[..j + 1];
    CountDownNext(numParents0, list, j, numParents, queued);
    assert more[..j] == list[..j] && more[j] == list[j];
  }

  /**
   * Lower the count of every listed child, and queue each child whose count reaches zero.
   * No count is touched that is not there.
   */
  method KnockDown(numParents0: map<Node, int>, list: seq<Node>, answer0: seq<Node>)
    returns (numParents: map<Node, int>, answer: seq<Node>)
    requires Covers(numParents0, list)
    ensures answer0 <= answer && CountedDown(numParents0, list, numParents, answer[|answer0|..])
    ensures answer == answer0 + ReachedZero(numParents0, list)
  {
    numParents, answer := numParents0, answer0;
    ghost var queued := [];
    KnockDownStarts(numParents0, list);
    for j := 0 to |list|
      invariant answer == answer0 + queued
      invariant KnockedDown(numParents0, list, j, numParents, queued)
    {
      KnockDownNext(numParents0, list, j, numParents, queued);
      var child := list[j];
      numParents := numParents[child := numParents[child] - 1];
      if numParents[child] == 0 {
        answer := answer + [child];
        queued := queued + [child];
      }
    }
    KnockDownEnds(numParents0, list, numParents, queued);
    assert answer[|answer0|..] == queued;
  }

  lemma {:induction false} KnockDownStarts(numParents0: map<Node, int>, list: seq<Node>)
    ensures KnockedDown(numParents0, list, 0, numParents0, [])
  {
    CountDownStarts(numParents0);
    assert list[..0] == [];
  }

  lemma {:induction false} KnockDownEnds(numParents0: map<Node, int>, list: seq<Node>, numParents: map<Node, int>,
                                         queued: seq<Node>)
    requires KnockedDown(numParents0, list, |list|, numParents, queued)
    ensures CountedDown(numParents0, list, numParents, queued) && queued == ReachedZero(numParents0, list)
  {
    assert list[..|list|] == list;
  }

  /** The loop after j children. */
  ghost predicate KnockedDown(numParents0: map<Node, int>, list: seq<Node>, j: nat, numParents: map<Node, int>,
                              queued: seq<Node>)
    requires j <= |list|
  {
    CountedDown(numParents0, list[..j], numParents, queued) && queued == ReachedZero(numParents0, list[..j])
  }

  lemma {:induction false} KnockDownNext(numParents0: map<Node, int>, list: seq<Node>, j: nat,
                                         numParents: map<Node, int>, queued: seq<Node>)
    requires Covers(numParents0, list) && j < |list| && KnockedDown(numParents0, list, j, numParents, queued)
    ensures list[j] in numParents
    ensures var less := numParents[list[j] := numParents[list[j]] - 1];
            KnockedDown(numParents0, list, j + 1, less, if less[list[j]] == 0 then queued + [list[j]] else queued)
  {
    ReachedNext(numParents0, list, j, numParents, queued);
    CountDownNext(numParents0, list, j, numParents, queued);
    assert queued + [] == queued;
  }

  lemma {:induction false} OneMoreOccurrence(list: seq<Node>, j: nat)
    requires j < |list|
    ensures list[..j + 1] == list[..j] + [list[j]]
    ensures Occurrences(list[..j], list[j]) < Occurrences(list, list[j])
  {
    var more := list[..j + 1];
    assert more[..j] == list[..j];
    OccursMore(list, j + 1, list[j]);
  }

  /** The children of the item being worked off still have a count, and it covers their occurrences. */
  lemma {:induction false} ChildrenStillCounted(g: Digraph, answer: seq<Node>, i: nat, numParents: map<Node, int>,
                                                ds: seq<nat>)
    requires WellFormed(g) && SortInv(g, answer, i, numParents, ds) && i < |answer|
    ensures forall x :: x in ChildrenOf(g.edges, answer[i]) ==> x in numParents && x != answer[i]
    ensures forall x :: x in numParents ==> numParents[x] >= Occurrences(ChildrenOf(g.edges, answer[i]), x)
  {
    var parent := answer[i];
    ChildrenMembers(g.edges, parent);
    forall x | x in ChildrenOf(g.edges, parent)
      ensures x in numParents && x != parent
    {
      assert HasEdge(g.edges, parent, x);
      assert x !in answer[..i + 1];
    }
    forall x | x in numParents
      ensures numParents[x] >= Occurrences(ChildrenOf(g.edges, parent), x)
    {
      InEdgesDrop(g.edges, x, Items(answer[..i]), parent);
    }
  }

  lemma {:induction false} DepthOfQueued(g: Digraph, x: Node, parent: Node, d: nat, done: set<Node>)
    requires WellFormed(g) && HasEdge(g.edges, parent, x) && Depth(g, parent, d)
    requires forall p :: HasEdge(g.edges, p, x) ==> p in done
    requires forall p :: p in done ==> !WalkTo(g, p, d + 1)
    ensures Depth(g, x, d + 1)
  {
  }

  /** Working off item i keeps the state of the sort. */
  lemma {:induction false} WorkOff(g: Digraph, answer0: seq<Node>, i: nat, numParents0: map<Node, int>, ds: seq<nat>,
                numParents: map<Node, int>, queued: seq<Node>)
    returns (es: seq<nat>)
    requires WellFormed(g) && i < |answer0| && SortInv(g, answer0, i, numParents0, ds)
    requires CountedDown(numParents0 - {answer0[i]}, ChildrenOf(g.edges, answer0[i]), numParents, queued)
    ensures SortInv(g, answer0 + queued, i + 1, numParents, es)
  {
    var parent, list := answer0[i], ChildrenOf(g.edges, answer0[i]);
    ChildrenStillCounted(g, answer0, i, numParents0, ds);
    SplitAt(answer0, queued, i);
    CountsAfter(g, Items(answer0[..i]), parent, numParents0, numParents, queued);
    QueueIsZeros(answer0, i, list, numParents0, numParents, queued);
    QueuedParentsDone(g, Items(answer0[..i]) + {parent}, numParents, queued);
    ParentsStayFirst(g, answer0, i, queued);
    ChildrenMembers(g.edges, parent);
    es := QueuedDepths(g, answer0, i, ds, queued);
  }

  lemma {:induction false} SplitAt(answer0: seq<Node>, queued: seq<Node>, i: nat)
    requires i < |answer0|
    ensures Items((answer0 + queued)[..i + 1]) == Items(answer0[..i]) + {answer0[i]}
    ensures (answer0 + queued)[i + 1..] == answer0[i + 1..] + queued
  {
    assert (answer0 + queued)[..i + 1] == answer0[..i] + [answer0[i]];
  }

  lemma {:induction false} CountsAfter(g: Digraph, done: set<Node>, parent: Node, numParents0: map<Node, int>,
                    numParents: map<Node, int>, queued: seq<Node>)
    requires Counts(g, done, numParents0) && parent !in done
    requires CountedDown(numParents0 - {parent}, ChildrenOf(g.edges, parent), numParents, queued)
    ensures Counts(g, done + {parent}, numParents)
  {
    forall x | x in numParents
      ensures numParents[x] == InEdges(g.edges, x, done + {parent})
    {
      InEdgesDrop(g.edges, x, done, parent);
      assert numParents0[x] == InEdges(g.edges, x, done);
    }
  }

  /** The items waiting after parent are exactly those whose count is zero. */
  lemma {:induction false} QueueIsZeros(answer0: seq<Node>, i: nat, list: seq<Node>, numParents0: map<Node, int>,
                     numParents: map<Node, int>, queued: seq<Node>)
    requires Distinct(answer0) && i < |answer0| && Distinct(queued)
    requires numParents0.Keys !! Items(answer0[..i])
    requires forall x :: x in answer0[i..] <==> x in numParents0 && numParents0[x] == 0
    requires forall x :: x in numParents0 ==> numParents0[x] >= Occurrences(list, x)
    requires numParents.Keys == numParents0.Keys - {answer0[i]}
    requires forall x :: x in numParents ==> numParents[x] == numParents0[x] - Occurrences(list, x)
    requires forall x :: x in queued <==> x in list && x in numParents && numParents[x] == 0
    ensures forall x :: x in answer0[i + 1..] + queued <==> x in numParents && numParents[x] == 0
    ensures Distinct(answer0 + queued)
  {
    var done, waiting := answer0[..i], answer0[i + 1..];
    assert answer0[i..] == [answer0[i]] + waiting;
    assert answer0 == done + [answer0[i]] + waiting;
    assert forall x :: x in done ==> x in Items(done);
    ZerosAfterKnockDown(done, answer0[i], waiting, list, numParents0, numParents, queued);
  }

  lemma {:induction false} ZerosAfterKnockDown(done: seq<Node>, parent: Node, waiting: seq<Node>, list: seq<Node>,
                            numParents0: map<Node, int>, numParents: map<Node, int>, queued: seq<Node>)
    requires Distinct(done + [parent] + waiting) && Distinct(queued)
    requires forall x :: x in done ==> x !in numParents0
    requires forall x :: x in [parent] + waiting <==> x in numParents0 && numParents0[x] == 0
    requires parent !in waiting
    requires forall x :: x in numParents0 ==> numParents0[x] >= Occurrences(list, x)
    requires numParents.Keys == numParents0.Keys - {parent}
    requires forall x :: x in numParents ==> numParents[x] == numParents0[x] - Occurrences(list, x)
    requires forall x :: x in queued <==> x in list && x in numParents && numParents[x] == 0
    ensures forall x :: x in waiting + queued <==> x in numParents && numParents[x] == 0
    ensures Distinct(done + [parent] + waiting + queued)
  {
    forall x: Node
      ensures x in list <==> Occurrences(list, x) > 0
    {
      OccursIffListed(list, x);
    }
    forall x | x in waiting
      ensures x in numParents && numParents[x] == 0 && x !in queued
    {
      assert x in [parent] + waiting;
    }
    forall x | x in numParents && numParents[x] == 0
      ensures x in waiting + queued
    {
      if x !in list {
        assert x in [parent] + waiting;
      }
    }
    var before := done + [parent] + waiting;
    assert forall x :: x in queued ==> x !in before;
    DistinctAppend(before, queued);
  }

  ghost predicate ParentsWithin(g: Digraph, s: seq<Node>, done: set<Node>) {
    forall k, p {:trigger HasEdge(g.edges, p, s[k])} :: 0 <= k < |s| && HasEdge(g.edges, p, s[k]) ==> p in done
  }

  lemma {:induction false} QueuedParentsDone(g: Digraph, done: set<Node>, numParents: map<Node, int>, queued: seq<Node>)
    requires Counts(g, done, numParents)
    requires forall x :: x in queued ==> x in numParents && numParents[x] == 0
    ensures ParentsWithin(g, queued, done)
  {
    forall k, p | 0 <= k < |queued| && HasEdge(g.edges, p, queued[k])
      ensures p in done
    {
      assert queued[k] in queued;
      InEdgesZero(g.edges, queued[k], done);
    }
  }

  lemma {:induction false} ParentsStayFirst(g: Digraph, answer0: seq<Node>, i: nat, queued: seq<Node>)
    requires i < |answer0| && ParentsFirst(g, answer0, i)
    requires ParentsWithin(g, queued, Items(answer0[..i]) + {answer0[i]})
    ensures ParentsFirst(g, answer0 + queued, i + 1)
  {
    var answer, n := answer0 + queued, |answer0|;
    forall k, p | 0 <= k < |answer| && HasEdge(g.edges, p, answer[k])
      ensures p in answer[..k] && p in answer[..i + 1]
    {
      if k < n {
        assert HasEdge(g.edges, p, answer0[k]);
        assert answer[..k] == answer0[..k];
        assert answer[..i + 1] == answer0[..i] + [answer0[i]];
      } else {
        assert HasEdge(g.edges, p, queued[k - n]);
        assert answer[..i + 1] == answer0[..i] + [answer0[i]];
        assert p in answer0[..i] + [answer0[i]];
        var m :| 0 <= m <= i && answer[m] == p;
        assert answer[..k][m] == p;
      }
    }
  }

  lemma {:induction false} DoneIsShallow(g: Digraph, s: seq<Node>, i: nat, ds: seq<nat>, p: Node)
    requires WellFormed(g) && i < |s| && DepthsRise(g, s, i, ds)
    requires p in Items(s[..i]) + {s[i]}
    ensures !WalkTo(g, p, ds[i] + 1)
  {
    var k :| 0 <= k <= i && s[k] == p;
    if WalkTo(g, p, ds[i] + 1) {
      WalkToShorter(g, p, ds[k] + 1, ds[i] + 1);
    }
  }

  lemma {:induction false} QueuedDepths(g: Digraph, answer0: seq<Node>, i: nat, ds: seq<nat>, queued: seq<Node>)
    returns (es: seq<nat>)
    requires WellFormed(g) && i < |answer0| && DepthsRise(g, answer0, i, ds)
    requires forall x :: x in queued ==> HasEdge(g.edges, answer0[i], x)
    requires ParentsWithin(g, queued, Items(answer0[..i]) + {answer0[i]})
    ensures DepthsRise(g, answer0 + queued, i + 1, es)
  {
    var d, done := ds[i], Items(answer0[..i]) + {answer0[i]};
    forall p | p in done
      ensures !WalkTo(g, p, d + 1)
    {
      DoneIsShallow(g, answer0, i, ds, p);
    }
    es := ds + seq(|queued|, _ => d + 1);
    forall k | 0 <= k < |queued|
      ensures Depth(g, queued[k], d + 1)
    {
      assert queued[k] in queued;
      DepthOfQueued(g, queued[k], answer0[i], d, done);
    }
  }

  /** Before anything has been worked off, the answer holds the parentless nodes. */
  lemma {:induction false} RootsStart(g: Digraph, answer: seq<Node>, numParents: map<Node, int>)
    requires WellFormed(g) && Counts(g, {}, numParents) && Distinct(answer)
    requires forall x :: x in answer <==> x in numParents && numParents[x] == 0
    ensures SortInv(g, answer, 0, numParents, seq(|answer|, _ => 0))
  {
    assert answer[..0] == [] && answer[0..] == answer;
    assert Items([]) == {};
    forall k | 0 <= k < |answer|
      ensures forall p :: !HasEdge(g.edges, p, answer[k])
    {
      assert answer[k] in answer;
      InEdgesZero(g.edges, answer[k], {});
    }
    forall k | 0 <= k < |answer|
      ensures Depth(g, answer[k], 0)
    {
      assert answer[k] in answer;
      assert !WalkTo(g, answer[k], 1);
    }
  }

  // ----- What the sorts promise -----

  /** Each node once, every parent before every child, depths never falling. */
  ghost predicate SortedAnswer(g: Digraph, s: seq<Node>) {
    && Distinct(s)
    && (forall x :: x in s ==> x in g.nodes)
    && (forall k, p :: 0 <= k < |s| && HasEdge(g.edges, p, s[k]) ==> p in s[..k])
    && (forall j, k, dj, dk :: 0 <= j < k < |s| && Depth(g, s[j], dj) && Depth(g, s[k], dk) ==> dj <= dk)
  }

  /** What is left when no parentless node is left. */
  ghost predicate Leftover(g: Digraph, numParents: map<Node, int>, children: map<Node, seq<Node>>) {
    && (forall x :: x in numParents <==> x in g.nodes && FromCycle(g, x))
    && (forall x :: x in numParents ==> numParents[x] == InEdges(g.edges, x, g.nodes - numParents.Keys) > 0)
    && children.Keys <= numParents.Keys
    && (forall p {:trigger ChildrenOf(g.edges, p)} :: p in numParents ==> ChildrenOf(g.edges, p) == Listed(children, p))
  }

  /** Some length is not reached by any walk that ends in x. */
  ghost predicate Grounded(g: Digraph, x: Node) {
    exists k: nat :: !WalkTo(g, x, k)
  }

  lemma {:induction false} GroundedIsNotFromCycle(g: Digraph, x: Node)
    requires WellFormed(g) && Grounded(g, x)
    ensures !FromCycle(g, x)
  {
    var k: nat :| !WalkTo(g, x, k);
    if FromCycle(g, x) {
      FromCycleHasNoDepth(g, x, k);
    }
  }

  lemma {:induction false} WalkOfLength(g: Digraph, x: Node, k: nat) returns (w: seq<Node>)
    requires WalkTo(g, x, k)
    ensures |w| == k + 1 && Walk(g.edges, w) && w[k] == x
    ensures forall i :: 0 <= i < |w| ==> w[i] in g.nodes
  {
    if k == 0 {
      w := [x];
    } else {
      var p :| HasEdge(g.edges, p, x) && WalkTo(g, p, k - 1);
      var v := WalkOfLength(g, p, k - 1);
      w := v + [x];
    }
  }

  /** A node that no cycle reaches is reached by no walk with as many edges as there are nodes. */
  lemma {:induction false} NotFromCycleIsGrounded(g: Digraph, x: Node)
    requires !FromCycle(g, x)
    ensures !WalkTo(g, x, |g.nodes|) && Grounded(g, x)
  {
    if WalkTo(g, x, |g.nodes|) {
      var w := WalkOfLength(g, x, |g.nodes|);
      var i, j := RepeatsWhenLong(w, g.nodes);
    }
  }

  /** Nodes without a zero count have a parent that is still there. */
  lemma {:induction false} NoZeroIsStuck(g: Digraph, done: set<Node>, numParents: map<Node, int>)
    requires WellFormed(g) && Counts(g, done, numParents)
    requires forall x :: x in numParents ==> numParents[x] != 0
    ensures Stuck(g, numParents.Keys)
  {
    var left := numParents.Keys;
    forall x | x in left
      ensures HasParentIn(g, left, x)
    {
      InEdgesZero(g.edges, x, done);
      var p :| HasEdge(g.edges, p, x) && p !in done;
      assert (p, x) in g.edges;
    }
  }

  /** When the nodes taken out all have a depth and no count is zero, what is left is what cycles reach. */
  lemma {:induction false} LeftoverIsFromCycle(g: Digraph, done: set<Node>, numParents: map<Node, int>,
                                               children: map<Node, seq<Node>>)
    requires WellFormed(g) && done <= g.nodes
    requires Counts(g, done, numParents) && ChildLists(g, done, children)
    requires forall x :: x in numParents ==> numParents[x] != 0
    requires forall x :: x in done ==> Grounded(g, x)
    ensures Leftover(g, numParents, children)
    ensures numParents == map[] <==> Acyclic(g)
  {
    var left := numParents.Keys;
    assert g.nodes - left == done;
    NoZeroIsStuck(g, done, numParents);
    forall x | x in g.nodes
      ensures x in left <==> FromCycle(g, x)
    {
      if x in left {
        StuckIsFromCycle(g, left, x);
      } else {
        GroundedIsNotFromCycle(g, x);
      }
    }
    NobodyLeftIffAcyclic(g, left);
  }

  lemma {:induction false} NobodyLeftIffAcyclic(g: Digraph, left: set<Node>)
    requires WellFormed(g)
    requires forall x :: x in left <==> x in g.nodes && FromCycle(g, x)
    ensures left == {} <==> Acyclic(g)
  {
    AcyclicIffNoneFromCycle(g);
    forall x | FromCycle(g, x)
      ensures x in g.nodes
    {
      FromCycleHasNoDepth(g, x, 0);
    }
  }

  lemma {:induction false} GraphOfIsWellFormed(pairs: seq<Pair>)
    ensures WellFormed(GraphOf(pairs))
  {
  }

  lemma {:induction false} DepthsSorted(g: Digraph, s: seq<Node>, i: nat, ds: seq<nat>, j: nat, k: nat, dj: nat,
                                        dk: nat)
    requires WellFormed(g) && DepthsRise(g, s, i, ds)
    requires j < k < |s| && Depth(g, s[j], dj) && Depth(g, s[k], dk)
    ensures dj <= dk
  {
    DepthUnique(g, s[j], dj, ds[j]);
    DepthUnique(g, s[k], dk, ds[k]);
  }

  /** When everything queued has been worked off, the promises of the sort hold. */
  lemma {:induction false} SortFinished(g: Digraph, answer: seq<Node>, numParents: map<Node, int>,
                                        children: map<Node, seq<Node>>, ds: seq<nat>)
    requires WellFormed(g) && SortInv(g, answer, |answer|, numParents, ds)
    requires ChildLists(g, Items(answer), children)
    ensures SortOutcome(g, Outcome(answer, numParents, children))
  {
    assert answer[..|answer|] == answer && answer[|answer|..] == [];
    forall k | 0 <= k < |answer|
      ensures answer[k] in g.nodes
    {
      assert Depth(g, answer[k], ds[k]);
    }
    forall x | x in Items(answer)
      ensures Grounded(g, x)
    {
      var k :| 0 <= k < |answer| && answer[k] == x;
      assert !WalkTo(g, x, ds[k] + 1);
    }
    LeftoverIsFromCycle(g, Items(answer), numParents, children);
    forall k, p | 0 <= k < |answer| && HasEdge(g.edges, p, answer[k])
      ensures p in answer[..k]
    {
    }
    forall j, k, dj, dk | 0 <= j < k < |answer| && Depth(g, answer[j], dj) && Depth(g, answer[k], dk)
      ensures dj <= dk
    {
      DepthsSorted(g, answer, |answer|, ds, j, k, dj, dk);
    }
  }

  /** How the sort ends once the queue has run dry. */
  function Outcome(answer: seq<Node>, numParents: map<Node, int>, children: map<Node, seq<Node>>): SortResult {
    if numParents != map[] then CycleError(answer, numParents, children) else Sorted(answer)
  }

  /**
   * The sort succeeds exactly on acyclic input.  Its answer lists the nodes that no cycle reaches,
   * each once, parents before children and by rising depth; the error carries the nodes that a
   * cycle does reach, with the counts and child lists that are left.
   */
  ghost predicate SortOutcome(g: Digraph, r: SortResult) {
    && (r.Sorted? <==> Acyclic(g))
    && SortedAnswer(g, r.answer)
    && (forall x :: x in g.nodes ==> (x in r.answer <==> !FromCycle(g, x)))
    && (r.Sorted? ==> forall x :: x in r.answer <==> x in g.nodes)
    && (r.CycleError? ==> Leftover(g, r.numParents, r.children))
  }

  /** The FIFO sort. */
  method Sort(pairs: seq<Pair>) returns (r: SortResult)
    ensures SortOutcome(GraphOf(pairs), r)
  {
    ghost var g := GraphOf(pairs);
    GraphOfIsWellFormed(pairs);
    var numParents, children := BuildDictionaries(pairs);
    var answer := ZeroKeys(numParents);
    ghost var ds := seq(|answer|, _ => 0);
    RootsStart(g, answer, numParents);
    var i := 0;
    while i < |answer|
      invariant SortInv(g, answer, i, numParents, ds)
      invariant ChildLists(g, Items(answer[..i]), children)
      decreases |numParents|
    {
      answer, numParents, children, ds := SortStep(g, answer, i, numParents, children, ds);
      i := i + 1;
    }
    assert answer[..|answer|] == answer;
    SortFinished(g, answer, numParents, children, ds);
    r := Outcome(answer, numParents, children);
  }

  /** Work off item i: take it out of both dictionaries and count its children down. */
  method SortStep(ghost g: Digraph, answer0: seq<Node>, i: nat, numParents0: map<Node, int>,
                  children0: map<Node, seq<Node>>, ghost ds: seq<nat>)
    returns (answer: seq<Node>, numParents: map<Node, int>, children: map<Node, seq<Node>>, ghost es: seq<nat>)
    requires WellFormed(g) && i < |answer0| && SortInv(g, answer0, i, numParents0, ds)
    requires ChildLists(g, Items(answer0[..i]), children0)
    ensures i < |answer| && SortInv(g, answer, i + 1, numParents, es)
    ensures ChildLists(g, Items(answer[..i + 1]), children)
    ensures numParents.Keys < numParents0.Keys && |numParents| < |numParents0|
  {
    BeforeStep(g, answer0, i, numParents0, ds);
    numParents, children, answer := TakeOut(g, Items(answer0[..i]), answer0[i], numParents0, children0, answer0);
    ghost var queued := answer[|answer0|..];
    assert answer == answer0 + queued;
    es := AfterStep(g, answer0, i, numParents0, ds, numParents, children, queued);
  }

  lemma {:induction false} BeforeStep(g: Digraph, answer0: seq<Node>, i: nat, numParents0: map<Node, int>, ds: seq<nat>)
    requires WellFormed(g) && i < |answer0| && SortInv(g, answer0, i, numParents0, ds)
    ensures answer0[i] !in Items(answer0[..i]) && answer0[i] in numParents0
    ensures forall x :: x in ChildrenOf(g.edges, answer0[i]) ==> x in numParents0 && x != answer0[i]
    ensures forall x :: x in numParents0 ==> numParents0[x] >= Occurrences(ChildrenOf(g.edges, answer0[i]), x)
  {
    assert answer0[i] in answer0[i..];
    ChildrenStillCounted(g, answer0, i, numParents0, ds);
  }

  lemma {:induction false} AfterStep(g: Digraph, answer0: seq<Node>, i: nat, numParents0: map<Node, int>, ds: seq<nat>,
                  numParents: map<Node, int>, children: map<Node, seq<Node>>, queued: seq<Node>)
    returns (es: seq<nat>)
    requires WellFormed(g) && i < |answer0| && SortInv(g, answer0, i, numParents0, ds)
    requires answer0[i] in numParents0
    requires CountedDown(numParents0 - {answer0[i]}, ChildrenOf(g.edges, answer0[i]), numParents, queued)
    requires ChildLists(g, Items(answer0[..i]) + {answer0[i]}, children)
    ensures SortInv(g, answer0 + queued, i + 1, numParents, es)
    ensures ChildLists(g, Items((answer0 + queued)[..i + 1]), children)
    ensures numParents.Keys < numParents0.Keys && |numParents| < |numParents0|
  {
    es := WorkOff(g, answer0, i, numParents0, ds, numParents, queued);
    SplitAt(answer0, queued, i);
    assert numParents0.Keys == numParents.Keys + {answer0[i]};
  }

  /** Delete one parent from both dictionaries and count its children down. */
  method TakeOut(ghost g: Digraph, ghost done: set<Node>, parent: Node, numParents0: map<Node, int>,
                 children0: map<Node, seq<Node>>, answer0: seq<Node>)
    returns (numParents: map<Node, int>, children: map<Node, seq<Node>>, answer: seq<Node>)
    requires ChildLists(g, done, children0) && parent !in done
    requires forall x :: x in ChildrenOf(g.edges, parent) ==> x in numParents0 && x != parent
    requires forall x :: x in numParents0 ==> numParents0[x] >= Occurrences(ChildrenOf(g.edges, parent), x)
    ensures answer0 <= answer
    ensures CountedDown(numParents0 - {parent}, ChildrenOf(g.edges, parent), numParents, answer[|answer0|..])
    ensures ChildLists(g, done + {parent}, children)
  {
    numParents, children, answer := numParents0 - {parent}, children0, answer0;
    if parent in children {
      numParents, answer := KnockDown(numParents, children[parent], answer);
      children := children - {parent};
    }
  }

  // ----- Childless leftovers -----

  /** Every leftover node has a child exactly when no node on or behind a cycle is childless. */
  lemma {:induction false} LeftoverHaveChildrenIff(g: Digraph, numParents: map<Node, int>,
                                                   children: map<Node, seq<Node>>)
    requires Leftover(g, numParents, children)
    ensures (forall x :: x in numParents ==> Listed(children, x) != []) <==>
            (forall x :: x in g.nodes && FromCycle(g, x) ==> exists y :: HasEdge(g.edges, x, y))
  {
    forall x | x in numParents
      ensures Listed(children, x) != [] <==> exists y :: HasEdge(g.edges, x, y)
    {
      ChildrenMembers(g.edges, x);
      var list := ChildrenOf(g.edges, x);
      assert list == Listed(children, x);
      if list != [] {
        assert HasEdge(g.edges, x, list[0]);
      }
    }
  }

  /** a and b depend on each other, and c on b. */
  function LoopWithTail(a: Node, b: Node, c: Node): seq<Pair> {
    [(a, b), (b, a), (b, c)]
  }

  lemma {:induction false} LoopEdges(a: Node, b: Node, c: Node, x: Node, y: Node)
    ensures HasEdge(LoopWithTail(a, b, c), x, y) <==> (x, y) == (a, b) || (x, y) == (b, a) || (x, y) == (b, c)
  {
    var edges := LoopWithTail(a, b, c);
    assert edges[0] == (a, b) && edges[1] == (b, a) && edges[2] == (b, c);
  }

  lemma {:induction false} LoopIsNotAcyclic(a: Node, b: Node, c: Node)
    ensures !Acyclic(GraphOf(LoopWithTail(a, b, c)))
  {
    var w := [a, b, a];
    LoopEdges(a, b, c, a, b);
    LoopEdges(a, b, c, b, a);
    assert Walk(LoopWithTail(a, b, c), w) && w[0] == w[|w| - 1];
  }

  lemma {:induction false} TailIsFromCycle(a: Node, b: Node, c: Node)
    ensures FromCycle(GraphOf(LoopWithTail(a, b, c)), c)
  {
    var w := [b, a, b, c];
    LoopEdges(a, b, c, a, b);
    LoopEdges(a, b, c, b, a);
    LoopEdges(a, b, c, b, c);
    assert Walk(LoopWithTail(a, b, c), w) && w[|w| - 1] == c;
    assert w[0] == w[2];
  }

  lemma {:induction false} TailIsChildless(a: Node, b: Node, c: Node)
    requires a != c && b != c
    ensures ChildrenOf(LoopWithTail(a, b, c), c) == []
  {
    var edges := LoopWithTail(a, b, c);
    ChildrenMembers(edges, c);
    if ChildrenOf(edges, c) != [] {
      LoopEdges(a, b, c, c, ChildrenOf(edges, c)[0]);
    }
  }

  /** Sorting a loop with a tail fails, and the tail is left over without a child. */
  lemma {:induction false} ChildlessLeftover(a: Node, b: Node, c: Node, r: SortResult)
    requires a != b && b != c && a != c && SortOutcome(GraphOf(LoopWithTail(a, b, c)), r)
    ensures r.CycleError? && c in r.numParents && Listed(r.children, c) == []
  {
    LoopIsNotAcyclic(a, b, c);
    TailIsFromCycle(a, b, c);
    TailIsChildless(a, b, c);
    assert c in Endpoints(LoopWithTail(a, b, c)) by {
      assert LoopWithTail(a, b, c)[2] == (b, c);
    }
  }
}
