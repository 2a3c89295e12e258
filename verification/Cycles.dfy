/**
 * The elementary-cycle enumerator of bindings/python/topsort.py, together with the rotation
 * test of bindings/python/rad_util.py that it uses to drop duplicates.
 *
 * A graph is a dictionary from a parent to its list of children.  Children need not be keys,
 * and a list may name a child more than once.
 */
module Cycles {
  import opened Powers
  import opened Sequences

  type Node(==, !new)
  type Graph = map<Node, seq<Node>>

  // ----- Graphs, paths and cycles -----

  predicate Edge(g: Graph, a: Node, b: Node) {
    a in g && b in g[a]
  }

  ghost predicate Walk(g: Graph, p: seq<Node>) {
    forall i, j :: 0 <= i && j == i + 1 && j < |p| ==> Edge(g, p[i], p[j])
  }

  /** A non-empty walk that visits no node twice. */
  ghost predicate SimplePath(g: Graph, p: seq<Node>) {
    |p| > 0 && Distinct(p) && Walk(g, p)
  }

  /** A simple path whose last node is a parent of its first one. */
  ghost predicate Elementary(g: Graph, c: seq<Node>) {
    SimplePath(g, c) && Edge(g, c[|c| - 1], c[0])
  }

  function Rotate(c: seq<Node>, k: nat): seq<Node>
    requires k <= |c|
  {
    c[k..] + c[..k]
  }

  ghost predicate IsRotation(a: seq<Node>, b: seq<Node>) {
    exists k :: 0 <= k < |a| && b == Rotate(a, k)
  }

  /** Some member of cycles is a rotation of c. */
  ghost predicate Found(cycles: seq<seq<Node>>, c: seq<Node>) {
    exists i :: 0 <= i < |cycles| && IsRotation(cycles[i], c)
  }

  /** What has been yielded so far: elementary cycles, no two of them rotations of each other. */
  ghost predicate GoodCycles(g: Graph, cycles: seq<seq<Node>>) {
    && (forall i :: 0 <= i < |cycles| ==> Elementary(g, cycles[i]))
    && (forall i, j :: 0 <= i < j < |cycles| ==> !IsRotation(cycles[i], cycles[j]))
  }

  /** Every cycle that closes at the end of p has been found. */
  ghost predicate Processed(g: Graph, p: seq<Node>, cycles: seq<seq<Node>>)
    requires |p| > 0
  {
    forall k :: 0 <= k < |p| && Edge(g, p[|p| - 1], p[k]) ==> Found(cycles, p[k..])
  }

  // ----- Rotations -----

  lemma {:induction false} RotateCompose(c: seq<Node>, j: nat, k: nat)
    requires j < |c| && k < |c|
    ensures Rotate(Rotate(c, j), k) == Rotate(c, if j + k < |c| then j + k else j + k - |c|)
  {
  }

  lemma {:induction false} RotationTransitive(a: seq<Node>, b: seq<Node>, c: seq<Node>)
    requires IsRotation(a, b) && IsRotation(b, c)
    ensures IsRotation(a, c)
  {
    var j :| 0 <= j < |a| && b == Rotate(a, j);
    var k :| 0 <= k < |b| && c == Rotate(b, k);
    RotateCompose(a, j, k);
  }

  lemma {:induction false} RotationSymmetric(a: seq<Node>, b: seq<Node>)
    requires IsRotation(a, b)
    ensures IsRotation(b, a)
  {
    var j :| 0 <= j < |a| && b == Rotate(a, j);
    var k := if j == 0 then 0 else |a| - j;
    RotateCompose(a, j, k);
    assert Rotate(a, 0) == a;
  }

  /** Every rotation of an elementary cycle is an elementary cycle. */
  lemma {:induction false} RotationElementary(g: Graph, c: seq<Node>, k: nat)
    requires Elementary(g, c) && k < |c|
    ensures Elementary(g, Rotate(c, k))
  {
  }

  datatype Answer = Answer(yes: bool) | IndexError

  /** Whether seq2 is seq1 rotated; an error for two empty lists, since the head of the second is read. */
  method IsRotated(seq1: seq<Node>, seq2: seq<Node>) returns (r: Answer)
    ensures r == IndexError <==> seq1 == [] && seq2 == []
    ensures r.Answer? ==> (r.yes <==> IsRotation(seq1, seq2))
  {
    if |seq1| != |seq2| {
      return Answer(false);
    }
    if seq2 == [] {
      return IndexError;
    }
    var startIndexes: seq<nat> := [];
    var headItem := seq2[0];
    for index1 := 0 to |seq1|
      invariant forall k :: k in startIndexes <==> 0 <= k < index1 && seq1[k] == headItem
      invariant forall j :: 0 <= j < |startIndexes| ==> startIndexes[j] < |seq1|
    {
      if seq1[index1] == headItem {
        startIndexes := startIndexes + [index1];
      }
    }
    var doubleSeq1 := seq1 + seq1;
    for i := 0 to |startIndexes|
      invariant forall j :: 0 <= j < i ==> Rotate(seq1, startIndexes[j]) != seq2
    {
      var index1 := startIndexes[i];
      assert doubleSeq1[index1..index1 + |seq1|] == Rotate(seq1, index1);
      if doubleSeq1[index1..index1 + |seq1|] == seq2 {
        return Answer(true);
      }
    }
    forall k | 0 <= k < |seq1|
      ensures seq2 != Rotate(seq1, k)
    {
      if seq1[k] == headItem {
        assert k in startIndexes;
      } else {
        assert Rotate(seq1, k)[0] == seq1[k];
      }
    }
    return Answer(false);
  }

  // ----- One step of the search: extend one path by every child of its last node -----

  /** The paths that one step pushes, in the order in which it pushes them. */
  function Extensions(path: seq<Node>, children: seq<Node>): seq<seq<Node>> {
    if children == [] then [] else
    var n := |children| - 1;
    Extensions(path, children[..n]) + if children[n] in path then [] else [path + [children[n]]]
  }

  lemma {:induction false} ExtensionShape(path: seq<Node>, children: seq<Node>, k: nat)
    requires k < |Extensions(path, children)|
    ensures |Extensions(path, children)| <= |children|
    ensures exists c :: c in children && c !in path && Extensions(path, children)[k] == path + [c]
  {
    var n := |children| - 1;
    var before := Extensions(path, children[..n]);
    if k < |before| {
      ExtensionShape(path, children[..n], k);
    } else if before != [] {
      ExtensionShape(path, children[..n], 0);
    }
  }

  lemma {:induction false} ExtensionExists(path: seq<Node>, children: seq<Node>, c: Node) returns (k: nat)
    requires c in children && c !in path
    ensures k < |Extensions(path, children)| && Extensions(path, children)[k] == path + [c]
  {
    var n := |children| - 1;
    if c == children[n] {
      k := |Extensions(path, children[..n])|;
    } else {
      k := ExtensionExists(path, children[..n], c);
    }
  }

  lemma {:induction false} ExtensionIsSimple(g: Graph, path: seq<Node>, k: nat)
    requires SimplePath(g, path) && path[|path| - 1] in g
    requires k < |Extensions(path, g[path[|path| - 1]])|
    ensures var q := Extensions(path, g[path[|path| - 1]])[k];
            SimplePath(g, q) && q[0] == path[0] && |q| == |path| + 1
  {
    ExtensionShape(path, g[path[|path| - 1]], k);
  }

  lemma {:induction false} FoundMonotone(before: seq<seq<Node>>, after: seq<seq<Node>>, c: seq<Node>)
    requires before <= after && Found(before, c)
    ensures Found(after, c)
  {
    var i :| 0 <= i < |before| && IsRotation(before[i], c);
    assert after[i] == before[i];
  }

  lemma {:induction false} ProcessedMonotone(g: Graph, p: seq<Node>, before: seq<seq<Node>>, after: seq<seq<Node>>)
    requires |p| > 0 && before <= after && Processed(g, p, before)
    ensures Processed(g, p, after)
  {
    forall k | 0 <= k < |p| && Edge(g, p[|p| - 1], p[k])
      ensures Found(after, p[k..])
    {
      FoundMonotone(before, after, p[k..]);
    }
  }

  lemma {:induction false} TailIsElementary(g: Graph, path: seq<Node>, k: nat)
    requires SimplePath(g, path) && k < |path| && Edge(g, path[|path| - 1], path[k])
    ensures Elementary(g, path[k..])
  {
    var c := path[k..];
    assert c[|c| - 1] == path[|path| - 1];
  }

  /** Record cycle unless a rotation of it is already there. */
  method RecordCycle(g: Graph, cycles0: seq<seq<Node>>, cycle: seq<Node>) returns (cycles: seq<seq<Node>>)
    requires GoodCycles(g, cycles0) && Elementary(g, cycle)
    ensures GoodCycles(g, cycles) && cycles0 <= cycles && Found(cycles, cycle)
    ensures Found(cycles0, cycle) ==> cycles == cycles0
  {
    cycles := cycles0;
    for i := 0 to |cycles0|
      invariant forall j :: 0 <= j < i ==> !IsRotation(cycles0[j], cycle)
    {
      var dup := IsRotated(cycles0[i], cycle);
      if dup.yes {
        return;
      }
    }
    cycles := cycles0 + [cycle];
    assert Rotate(cycle, 0) == cycle;
    assert IsRotation(cycles[|cycles0|], cycle);
  }

  /** Python's list.index, for an item that is in the list. */
  method IndexOf(path: seq<Node>, child: Node) returns (k: nat)
    requires child in path
    ensures k < |path| && path[k] == child && child !in path[..k]
  {
    k := 0;
    while path[k] != child
      invariant k < |path| && child !in path[..k]
      invariant exists j :: k <= j < |path| && path[j] == child
      decreases |path| - k
    {
      k := k + 1;
    }
  }

  /** The cycles that the given children close on path have been found. */
  ghost predicate ChildrenFound(path: seq<Node>, children: seq<Node>, cycles: seq<seq<Node>>) {
    forall k :: 0 <= k < |path| && path[k] in children ==> Found(cycles, path[k..])
  }

  lemma {:induction false} ChildrenFoundMore(path: seq<Node>, children: seq<Node>, i: nat, before: seq<seq<Node>>,
                                             after: seq<seq<Node>>)
    requires i < |children| && Distinct(path)
    requires before <= after && ChildrenFound(path, children[..i], before)
    requires forall k :: 0 <= k < |path| && path[k] == children[i] ==> Found(after, path[k..])
    ensures ChildrenFound(path, children[..i + 1], after)
  {
    forall k | 0 <= k < |path| && path[k] in children[..i + 1]
      ensures Found(after, path[k..])
    {
      if path[k] != children[i] {
        assert path[k] in children[..i];
        FoundMonotone(before, after, path[k..]);
      }
    }
  }

  /** One pass over the children of the last node of a popped path. */
  method ExtendPath(g: Graph, path: seq<Node>, paths0: seq<seq<Node>>, cycles0: seq<seq<Node>>, visited0: set<Node>)
    returns (paths: seq<seq<Node>>, cycles: seq<seq<Node>>, visited: set<Node>)
    requires SimplePath(g, path) && path[|path| - 1] in g
    requires GoodCycles(g, cycles0)
    ensures paths == paths0 + Extensions(path, g[path[|path| - 1]])
    ensures GoodCycles(g, cycles) && cycles0 <= cycles
    ensures ChildrenFound(path, g[path[|path| - 1]], cycles)
    ensures visited0 <= visited
    ensures forall v :: v in visited && v !in visited0 ==> v in g[path[|path| - 1]] && v !in path
  {
    paths, cycles, visited := paths0, cycles0, visited0;
    var children := g[path[|path| - 1]];
    for i := 0 to |children|
      invariant paths == paths0 + Extensions(path, children[..i])
      invariant GoodCycles(g, cycles) && cycles0 <= cycles
      invariant ChildrenFound(path, children[..i], cycles)
      invariant visited0 <= visited
      invariant forall v :: v in visited && v !in visited0 ==> v in children && v !in path
    {
      var child := children[i];
      assert children[..i + 1][..i] == children[..i];
      ghost var before := cycles;
      if child in path {
        cycles := CloseCycle(g, path, child, cycles);
      } else {
        paths := paths + [path + [child]];
        visited := visited + {child};
      }
      ChildrenFoundMore(path, children, i, before, cycles);
    }
    assert children[..|children|] == children;
  }

  /** child is on the path: what follows its position is a cycle. */
  method CloseCycle(g: Graph, path: seq<Node>, child: Node, cycles0: seq<seq<Node>>) returns (cycles: seq<seq<Node>>)
    requires SimplePath(g, path) && Edge(g, path[|path| - 1], child) && child in path
    requires GoodCycles(g, cycles0)
    ensures GoodCycles(g, cycles) && cycles0 <= cycles
    ensures forall k :: 0 <= k < |path| && path[k] == child ==> Found(cycles, path[k..])
  {
    var k := IndexOf(path, child);
    TailIsElementary(g, path, k);
    cycles := RecordCycle(g, cycles0, path[k..]);
  }

  // ----- Termination of the search: a weight per stacked path -----

  ghost function Nodes(g: Graph): set<Node> {
    g.Keys + set a, b | a in g && b in g[a] :: b
  }

  ghost predicate DegreeBound(g: Graph, d: nat) {
    forall a :: a in g ==> |g[a]| <= d
  }

  lemma {:induction false} DegreeBoundExists(g: Graph) returns (d: nat)
    ensures DegreeBound(g, d)
    decreases |g|
  {
    if g.Keys == {} {
      d := 0;
    } else {
      var a :| a in g;
      var h := g - {a};
      assert h.Keys < g.Keys;
      assert |h| < |g| by {
        assert g.Keys == h.Keys + {a};
      }
      d := DegreeBoundExists(h);
      assert forall x :: x in g && x != a ==> x in h && g[x] == h[x];
      d := if |g[a]| <= d then d else |g[a]|;
    }
  }

  /** The sum over the stack of base to the power (n - length of the path). */
  ghost function Weight(base: nat, n: nat, paths: seq<seq<Node>>): nat {
    if paths == [] then 0 else
    var m := |paths| - 1;
    Weight(base, n, paths[..m]) + Power(base, if |paths[m]| <= n then n - |paths[m]| else 0)
  }

  lemma {:induction false} WeightOfPushes(base: nat, n: nat, paths: seq<seq<Node>>, pushed: seq<seq<Node>>, len: nat)
    requires len <= n
    requires forall i :: 0 <= i < |pushed| ==> |pushed[i]| == len
    ensures Weight(base, n, paths + pushed) == Weight(base, n, paths) + |pushed| * Power(base, n - len)
    decreases |pushed|
  {
    if pushed == [] {
      assert paths + pushed == paths;
    } else {
      var m := |pushed| - 1;
      assert forall i :: 0 <= i < m ==> pushed[..m][i] == pushed[i];
      WeightOfPushes(base, n, paths, pushed[..m], len);
      assert paths + pushed == (paths + pushed[..m]) + [pushed[m]];
      WeightOfOne(base, n, paths + pushed[..m], pushed[m]);
      MulSuccessor(m, Power(base, n - len));
    }
  }

  lemma {:induction false} WeightOfOne(base: nat, n: nat, paths: seq<seq<Node>>, q: seq<Node>)
    requires |q| <= n
    ensures Weight(base, n, paths + [q]) == Weight(base, n, paths) + Power(base, n - |q|)
  {
    assert (paths + [q])[..|paths|] == paths;
  }

  lemma {:induction false} SimplePathFits(g: Graph, p: seq<Node>)
    requires SimplePath(g, p) && p[0] in Nodes(g)
    ensures |p| <= |Nodes(g)|
  {
    forall i | 0 <= i < |p|
      ensures p[i] in Nodes(g)
    {
      if i > 0 {
        var h := i - 1;
        assert Edge(g, p[h], p[i]);
      }
    }
    DistinctFits(p, Nodes(g));
  }

  /** Replacing a popped path by its extensions lowers the weight of the stack. */
  lemma {:induction false} StepLowersWeight(g: Graph, d: nat, rest: seq<seq<Node>>, path: seq<Node>,
                                            pushed: seq<seq<Node>>)
    requires DegreeBound(g, d) && SimplePath(g, path) && path[0] in Nodes(g)
    requires pushed == if path[|path| - 1] in g then Extensions(path, g[path[|path| - 1]]) else []
    ensures Weight(d + 1, |Nodes(g)|, rest + pushed) < Weight(d + 1, |Nodes(g)|, rest + [path])
  {
    SimplePathFits(g, path);
    if path[|path| - 1] in g {
      PushedFit(g, d, path);
    }
    ShortPushesWeighLess(d, |Nodes(g)|, rest, path, pushed);
  }

  lemma {:induction false} ShortPushesWeighLess(d: nat, n: nat, rest: seq<seq<Node>>, path: seq<Node>,
                                                pushed: seq<seq<Node>>)
    requires |path| <= n && |pushed| <= d && (pushed != [] ==> |path| < n)
    requires forall i :: 0 <= i < |pushed| ==> |pushed[i]| == |path| + 1
    ensures Weight(d + 1, n, rest + pushed) < Weight(d + 1, n, rest + [path])
  {
    PowerPositive(d + 1, n - |path|);
    WeightOfPushes(d + 1, n, rest, [path], |path|);
    if pushed == [] {
      assert rest + pushed == rest;
    } else {
      WeightOfPushes(d + 1, n, rest, pushed, |path| + 1);
      FewPushesWeighLess(d, n - |path|, |pushed|);
    }
  }

  lemma {:induction false} FewPushesWeighLess(d: nat, k: nat, pushed: nat)
    requires k > 0 && pushed <= d
    ensures pushed * Power(d + 1, k - 1) < Power(d + 1, k)
  {
    var w := Power(d + 1, k - 1);
    PowerPositive(d + 1, k - 1);
    MulSuccessor(d, w);
    MulMonotone(pushed, d, w);
  }

  lemma {:induction false} PushedFit(g: Graph, d: nat, path: seq<Node>)
    requires DegreeBound(g, d) && SimplePath(g, path) && path[0] in Nodes(g) && path[|path| - 1] in g
    ensures var pushed := Extensions(path, g[path[|path| - 1]]);
            && |pushed| <= d
            && (forall i :: 0 <= i < |pushed| ==> |pushed[i]| == |path| + 1)
            && (pushed != [] ==> |path| < |Nodes(g)|)
  {
    var pushed := Extensions(path, g[path[|path| - 1]]);
    if pushed != [] {
      ExtensionShape(path, g[path[|path| - 1]], 0);
      ExtensionIsSimple(g, path, 0);
      SimplePathFits(g, pushed[0]);
    }
    forall k | 0 <= k < |pushed|
      ensures |pushed[k]| == |path| + 1
    {
      ExtensionIsSimple(g, path, k);
    }
  }

  // ----- All simple paths from one start node -----

  ghost predicate Covered(g: Graph, p: seq<Node>, paths: seq<seq<Node>>, cycles: seq<seq<Node>>)
    requires |p| > 0
  {
    Processed(g, p, cycles) || exists i :: 0 <= i < |paths| && paths[i] <= p
  }

  ghost predicate ReachedFrom(g: Graph, start: Node, v: Node) {
    exists p :: SimplePath(g, p) && p[0] == start && p[|p| - 1] == v
  }

  /** What the stack stands for: any simple path it no longer covers has been processed. */
  ghost predicate StackInv(g: Graph, start: Node, paths: seq<seq<Node>>, cycles: seq<seq<Node>>) {
    && (forall i :: 0 <= i < |paths| ==> SimplePath(g, paths[i]) && paths[i][0] == start)
    && (forall p :: SimplePath(g, p) && p[0] == start ==> Covered(g, p, paths, cycles))
  }

  /** A simple path that goes on beyond path goes through one of the pushed paths. */
  lemma {:induction false} ExtensionCovers(g: Graph, p: seq<Node>, path: seq<Node>) returns (k: nat)
    requires SimplePath(g, p) && path <= p && 0 < |path| < |p|
    ensures path[|path| - 1] in g
    ensures var pushed := Extensions(path, g[path[|path| - 1]]); k < |pushed| && pushed[k] <= p
  {
    var n := |path|;
    var h := n - 1;
    assert Edge(g, p[h], p[n]);
    assert p[n] !in path;
    k := ExtensionExists(path, g[path[h]], p[n]);
    assert path + [p[n]] <= p;
  }

  lemma {:induction false} StepCovers(g: Graph, p: seq<Node>, rest: seq<seq<Node>>, path: seq<Node>,
                                      pushed: seq<seq<Node>>,
                   before: seq<seq<Node>>, after: seq<seq<Node>>)
    requires SimplePath(g, p) && SimplePath(g, path)
    requires Covered(g, p, rest + [path], before) && before <= after
    requires Processed(g, path, after)
    requires pushed == if path[|path| - 1] in g then Extensions(path, g[path[|path| - 1]]) else []
    ensures Covered(g, p, rest + pushed, after)
  {
    if Processed(g, p, before) {
      ProcessedMonotone(g, p, before, after);
    } else {
      var i :| 0 <= i < |rest + [path]| && (rest + [path])[i] <= p;
      if i < |rest| {
        assert (rest + pushed)[i] == rest[i];
      } else if p != path {
        var k := ExtensionCovers(g, p, path);
        assert (rest + pushed)[|rest| + k] == pushed[k];
      }
    }
  }

  method ExploreFrom(g: Graph, start: Node, cycles0: seq<seq<Node>>, visited0: set<Node>)
    returns (cycles: seq<seq<Node>>, visited: set<Node>)
    requires start in g
    requires GoodCycles(g, cycles0)
    ensures GoodCycles(g, cycles) && cycles0 <= cycles
    ensures forall p :: SimplePath(g, p) && p[0] == start ==> Processed(g, p, cycles)
    ensures visited0 <= visited
    ensures forall v :: v in visited ==> v in visited0 || ReachedFrom(g, start, v)
  {
    cycles, visited := cycles0, visited0;
    var paths := [[start]];
    ghost var d := DegreeBoundExists(g);
    assert StackInv(g, start, paths, cycles) by {
      forall p | SimplePath(g, p) && p[0] == start
        ensures Covered(g, p, paths, cycles)
      {
        assert paths[0] <= p;
      }
    }
    while paths != []
      invariant GoodCycles(g, cycles) && cycles0 <= cycles
      invariant StackInv(g, start, paths, cycles)
      invariant visited0 <= visited
      invariant forall v :: v in visited ==> v in visited0 || ReachedFrom(g, start, v)
      decreases Weight(d + 1, |Nodes(g)|, paths)
    {
      ghost var stack, before, seen := paths, cycles, visited;
      var path := paths[|paths| - 1];
      paths := paths[..|paths| - 1];
      ghost var rest := paths;
      assert stack == rest + [path];
      assert SimplePath(g, path) && path[0] == start;
      var parent := path[|path| - 1];
      ghost var pushed := if parent in g then Extensions(path, g[parent]) else [];
      if parent in g {
        paths, cycles, visited := ExtendPath(g, path, paths, cycles, visited);
        VisitedAreReached(g, path, seen, visited, visited0);
      } else {
        assert rest + pushed == rest;
      }
      StepKeepsStackInv(g, start, rest, path, pushed, before, cycles);
      StepLowersWeight(g, d, rest, path, pushed);
    }
  }

  lemma {:induction false} VisitedAreReached(g: Graph, path: seq<Node>, seen: set<Node>, visited: set<Node>,
                                             visited0: set<Node>)
    requires SimplePath(g, path) && path[|path| - 1] in g
    requires forall v :: v in visited && v !in seen ==> v in g[path[|path| - 1]] && v !in path
    requires forall v :: v in seen ==> v in visited0 || ReachedFrom(g, path[0], v)
    ensures forall v :: v in visited ==> v in visited0 || ReachedFrom(g, path[0], v)
  {
    var children := g[path[|path| - 1]];
    forall v | v in visited && v !in seen
      ensures ReachedFrom(g, path[0], v)
    {
      var q := path + [v];
      var k := ExtensionExists(path, children, v);
      ExtensionIsSimple(g, path, k);
      assert q[|q| - 1] == v;
    }
  }

  lemma {:induction false} StepKeepsStackInv(g: Graph, start: Node, rest: seq<seq<Node>>, path: seq<Node>,
                                             pushed: seq<seq<Node>>,
                          before: seq<seq<Node>>, after: seq<seq<Node>>)
    requires StackInv(g, start, rest + [path], before) && before <= after
    requires SimplePath(g, path) && path[0] == start
    requires path[|path| - 1] in g ==> Processed(g, path, after)
    requires pushed == if path[|path| - 1] in g then Extensions(path, g[path[|path| - 1]]) else []
    ensures StackInv(g, start, rest + pushed, after)
  {
    var stack := rest + pushed;
    forall i | 0 <= i < |stack|
      ensures SimplePath(g, stack[i]) && stack[i][0] == start
    {
      if i < |rest| {
        assert stack[i] == (rest + [path])[i];
      } else {
        ExtensionIsSimple(g, path, i - |rest|);
      }
    }
    forall p | SimplePath(g, p) && p[0] == start
      ensures Covered(g, p, stack, after)
    {
      StepCovers(g, p, rest, path, pushed, before, after);
    }
  }

  // ----- The enumerator -----

  /** The nodes from which the search was started have been explored completely. */
  ghost predicate Explored(g: Graph, starts: set<Node>, cycles: seq<seq<Node>>) {
    forall p :: SimplePath(g, p) && p[0] in starts ==> Processed(g, p, cycles)
  }

  /** A path that meets a cycle only at its last node can go once around it. */
  lemma {:induction false} GoAround(g: Graph, p: seq<Node>, r: seq<Node>, k: nat)
    requires SimplePath(g, p) && SimplePath(g, r)
    requires k < |p| && p[k] == r[0]
    requires forall i :: 0 <= i < k ==> p[i] !in r
    ensures SimplePath(g, p[..k] + r)
  {
    var q := p[..k] + r;
    forall a, b | 0 <= a < b < |q|
      ensures q[a] != q[b]
    {
      if a < k <= b {
        assert q[a] == p[a] && q[b] == r[b - k];
      }
    }
    forall a, b | 0 <= a && b == a + 1 && b < |q|
      ensures Edge(g, q[a], q[b])
    {
      if b <= k {
        assert q[a] == p[a] && q[b] == p[b];
      } else {
        assert q[a] == r[a - k] && q[b] == r[b - k];
      }
    }
  }

  /** A cycle that an explored start can reach has been found, in some rotation. */
  lemma {:induction false} ReachableCycleIsFound(g: Graph, starts: set<Node>, cycles: seq<seq<Node>>, p: seq<Node>,
                                                 c: seq<Node>)
    requires Explored(g, starts, cycles)
    requires SimplePath(g, p) && p[0] in starts
    requires Elementary(g, c) && p[|p| - 1] in c
    ensures Found(cycles, c)
  {
    var k := FirstOn(p, c);
    var j :| 0 <= j < |c| && c[j] == p[k];
    var r := Rotate(c, j);
    RotationElementary(g, c, j);
    assert IsRotation(c, r);
    CycleAtFirstMeetingIsFound(g, starts, cycles, p, r, k) by {
      assert r[0] == p[k];
      assert forall x :: x in r ==> x in c;
    }
    var i :| 0 <= i < |cycles| && IsRotation(cycles[i], r);
    RotationSymmetric(c, r);
    RotationTransitive(cycles[i], r, c);
  }

  lemma {:induction false} CycleAtFirstMeetingIsFound(g: Graph, starts: set<Node>, cycles: seq<seq<Node>>,
                                   p: seq<Node>, r: seq<Node>, k: nat)
    requires Explored(g, starts, cycles)
    requires SimplePath(g, p) && p[0] in starts && Elementary(g, r)
    requires k < |p| && p[k] == r[0]
    requires forall i :: 0 <= i < k ==> p[i] !in r
    ensures Found(cycles, r)
  {
    GoAround(g, p, r, k);
    var q := p[..k] + r;
    ExploredAt(g, starts, cycles, q);
    assert q[k..] == r;
    ProcessedAt(g, q, cycles, k);
  }

  lemma {:induction false} ExploredAt(g: Graph, starts: set<Node>, cycles: seq<seq<Node>>, q: seq<Node>)
    requires Explored(g, starts, cycles) && SimplePath(g, q) && q[0] in starts
    ensures Processed(g, q, cycles)
  {
  }

  lemma {:induction false} ProcessedAt(g: Graph, q: seq<Node>, cycles: seq<seq<Node>>, k: nat)
    requires k < |q| && Processed(g, q, cycles) && Edge(g, q[|q| - 1], q[k])
    ensures Found(cycles, q[k..])
  {
  }

  lemma {:induction false} FirstOn(p: seq<Node>, c: seq<Node>) returns (k: nat)
    requires |p| > 0 && p[|p| - 1] in c
    ensures k < |p| && p[k] in c
    ensures forall i :: 0 <= i < k ==> p[i] !in c
  {
    k := 0;
    while p[k] !in c
      invariant k < |p| && forall i :: 0 <= i < k ==> p[i] !in c
      decreases |p| - k
    {
      k := k + 1;
    }
  }

  /**
   * The cycles in the order in which the generator yields them.  keys is the order in which
   * the dictionary is iterated.
   *
   * Only elementary cycles are yielded, no two of them are rotations of each other, and every
   * elementary cycle is yielded in some rotation, although nodes that an earlier start has
   * already passed through are never used as a start.
   */
  method FindCycles(keys: seq<Node>, g: Graph) returns (cycles: seq<seq<Node>>)
    requires forall k :: k in keys <==> k in g
    ensures forall i :: 0 <= i < |cycles| ==> Elementary(g, cycles[i])
    ensures forall i, j :: 0 <= i < |cycles| && 0 <= j < |cycles| && i != j ==> !IsRotation(cycles[i], cycles[j])
    ensures forall c :: Elementary(g, c) ==> exists i :: 0 <= i < |cycles| && IsRotation(cycles[i], c)
  {
    cycles := [];
    var visited := {};
    ghost var starts: set<Node> := {};
    for i := 0 to |keys|
      invariant GoodCycles(g, cycles)
      invariant Explored(g, starts, cycles)
      invariant forall v :: v in visited ==> exists s :: s in starts && ReachedFrom(g, s, v)
      invariant forall j :: 0 <= j < i ==> keys[j] in visited || keys[j] in starts
    {
      var parent := keys[i];
      if parent !in visited {
        ghost var before := cycles;
        cycles, visited := ExploreFrom(g, parent, cycles, visited);
        ExploredMore(g, starts, parent, before, cycles);
        starts := starts + {parent};
      }
    }
    forall c | Elementary(g, c)
      ensures Found(cycles, c)
    {
      EveryCycleFound(keys, g, starts, visited, cycles, c);
    }
    NoTwoAreRotations(g, cycles);
  }

  lemma {:induction false} NoTwoAreRotations(g: Graph, cycles: seq<seq<Node>>)
    requires GoodCycles(g, cycles)
    ensures forall i, j :: 0 <= i < |cycles| && 0 <= j < |cycles| && i != j ==> !IsRotation(cycles[i], cycles[j])
  {
    forall i, j | 0 <= i < |cycles| && 0 <= j < |cycles| && i != j
      ensures !IsRotation(cycles[i], cycles[j])
    {
      if j < i && IsRotation(cycles[i], cycles[j]) {
        RotationSymmetric(cycles[i], cycles[j]);
      }
    }
  }

  lemma {:induction false} ExploredMore(g: Graph, starts: set<Node>, parent: Node, before: seq<seq<Node>>,
                                        after: seq<seq<Node>>)
    requires Explored(g, starts, before) && before <= after
    requires forall p :: SimplePath(g, p) && p[0] == parent ==> Processed(g, p, after)
    ensures Explored(g, starts + {parent}, after)
  {
    forall p | SimplePath(g, p) && p[0] in starts
      ensures Processed(g, p, after)
    {
      ProcessedMonotone(g, p, before, after);
    }
  }

  lemma {:induction false} EveryCycleFound(keys: seq<Node>, g: Graph, starts: set<Node>, visited: set<Node>,
                        cycles: seq<seq<Node>>, c: seq<Node>)
    requires forall k :: k in keys <==> k in g
    requires Explored(g, starts, cycles) && Elementary(g, c)
    requires forall v :: v in visited ==> exists s :: s in starts && ReachedFrom(g, s, v)
    requires forall j :: 0 <= j < |keys| ==> keys[j] in visited || keys[j] in starts
    ensures Found(cycles, c)
  {
    var last := c[|c| - 1];
    assert last in g && last in keys;
    if last in starts {
      var p := [last];
      assert SimplePath(g, p);
      ReachableCycleIsFound(g, starts, cycles, p, c);
    } else {
      var s :| s in starts && ReachedFrom(g, s, last);
      var p :| SimplePath(g, p) && p[0] == s && p[|p| - 1] == last;
      ReachableCycleIsFound(g, starts, cycles, p, c);
    }
  }
}
