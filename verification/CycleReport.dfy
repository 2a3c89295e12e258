/**
 * What a CycleError of bindings/python/topsort.py is worth to its reader: handing the child lists
 * it carries to the cycle enumerator reports the cycles of the whole input, and at least one.
 */
module CycleReport {
  import opened Sequences
  import opened TopSort
  import Cycles

  /** An elementary cycle of the dependency graph. */
  ghost predicate CycleIn(g: Digraph, c: seq<Node>) {
    |c| > 0 && Distinct(c) && Walk(g.edges, c) && HasEdge(g.edges, c[|c| - 1], c[0])
  }

  lemma {:induction false} CycleNodesAreLeft(g: Digraph, c: seq<Node>, i: nat)
    requires WellFormed(g) && CycleIn(g, c) && i < |c|
    ensures c[i] in g.nodes && FromCycle(g, c[i])
  {
    var n := |c|;
    var w := c + c[..i + 1];
    forall a, b | 0 <= a && b == a + 1 && b < |w|
      ensures HasEdge(g.edges, w[a], w[b])
    {
      if b < n {
        assert w[a] == c[a] && w[b] == c[b];
      } else if b == n {
        assert w[a] == c[n - 1] && w[b] == c[0];
      } else {
        assert w[a] == c[a - n] && w[b] == c[b - n];
      }
    }
    assert w[i] == w[n + i] == c[i];
    assert w[|w| - 1] == c[i];
    FromCycleHasNoDepth(g, c[i], 0);
  }

  lemma {:induction false} LeftoverEdges(g: Digraph, numParents: map<Node, int>, children: map<Node, seq<Node>>,
                                         a: Node, b: Node)
    requires Leftover(g, numParents, children)
    ensures Cycles.Edge(children, a, b) <==> a in numParents && HasEdge(g.edges, a, b)
  {
    ChildrenMembers(g.edges, a);
  }

  /** The child lists of the error have exactly the elementary cycles of the input. */
  lemma {:induction false} LeftoverKeepsCycles(g: Digraph, numParents: map<Node, int>, children: map<Node, seq<Node>>,
                                               c: seq<Node>)
    requires WellFormed(g) && Leftover(g, numParents, children)
    ensures CycleIn(g, c) <==> Cycles.Elementary(children, c)
  {
    forall i, j | 0 <= i < |c| && 0 <= j < |c|
      ensures Cycles.Edge(children, c[i], c[j]) ==> HasEdge(g.edges, c[i], c[j])
      ensures CycleIn(g, c) && HasEdge(g.edges, c[i], c[j]) ==> Cycles.Edge(children, c[i], c[j])
    {
      LeftoverEdges(g, numParents, children, c[i], c[j]);
      if CycleIn(g, c) {
        CycleNodesAreLeft(g, c, i);
      }
    }
  }

  /** Between two visits to a node there is an elementary cycle. */
  lemma {:induction false} ElementaryInside(g: Digraph, w: seq<Node>, i: nat, j: nat) returns (c: seq<Node>)
    requires Walk(g.edges, w) && i < j < |w| && w[i] == w[j]
    ensures CycleIn(g, c)
    decreases j - i
  {
    c := w[i..j];
    if Distinct(c) {
      var h := j - 1;
      assert HasEdge(g.edges, w[h], w[j]);
    } else {
      var a, b :| 0 <= a < b < |c| && c[a] == c[b];
      c := ElementaryInside(g, w, i + a, i + b);
    }
  }

  /**
   * Running the enumerator on the child lists of a CycleError yields every elementary cycle of
   * the input once up to rotation, nothing else, and never comes back empty-handed.
   */
  method ReportCycles(ghost g: Digraph, numParents: map<Node, int>, keys: seq<Node>, children: map<Node, seq<Node>>)
    returns (cycles: seq<seq<Node>>)
    requires WellFormed(g) && Leftover(g, numParents, children) && numParents != map[]
    requires forall k :: k in keys <==> k in children
    ensures cycles != []
    ensures forall i :: 0 <= i < |cycles| ==> CycleIn(g, cycles[i])
    ensures forall i, j :: 0 <= i < |cycles| && 0 <= j < |cycles| && i != j ==> !Cycles.IsRotation(cycles[i], cycles[j])
    ensures forall c :: CycleIn(g, c) ==> exists i :: 0 <= i < |cycles| && Cycles.IsRotation(cycles[i], c)
  {
    cycles := Cycles.FindCycles(keys, children);
    forall c
      ensures CycleIn(g, c) <==> Cycles.Elementary(children, c)
    {
      LeftoverKeepsCycles(g, numParents, children, c);
    }
    ghost var c := SomeCycle(g, numParents, children);
  }

  lemma {:induction false} SomeCycle(g: Digraph, numParents: map<Node, int>, children: map<Node, seq<Node>>)
    returns (c: seq<Node>)
    requires Leftover(g, numParents, children) && numParents != map[]
    ensures CycleIn(g, c)
  {
    var x :| x in numParents;
    var w :| |w| > 0 && Walk(g.edges, w) && w[|w| - 1] == x && !Distinct(w);
    var i, j :| 0 <= i < j < |w| && w[i] == w[j];
    c := ElementaryInside(g, w, i, j);
  }
}
