/**
 * The records of utils/print-introspected-doxygen.cc in terms of the registry alone: which types are next
 * to each other, and that the records are those of the chains of neighbours.
 */
module ConfigChains {
  import opened Sequences
  import opened ConfigPaths
  import opened ConfigRecords

  /** An attribute of s points to t or holds a container of t; pointers to plain objects do not count. */
  ghost predicate ByAttribute(r: Registry, s: TypeId, t: TypeId, text: string) {
    && s in r.attributes
    && ((Pointer(text, t) in r.attributes[s] && t != r.objectType)
        || exists name :: Container(name, t) in r.attributes[s] && text == name + "/[i]")
  }

  /** t is registered and descends from s. */
  ghost predicate ByDescent(r: Registry, s: TypeId, t: TypeId, text: string) {
    t in r.registered && (t, s) in r.childOf && text == "$" + NameOf(r, t)
  }

  /** s and t are aggregated, in whichever order. */
  ghost predicate ByAggregation(r: Registry, aggs: Aggregates, s: TypeId, t: TypeId, text: string) {
    ((s, t) in aggs || (t, s) in aggs) && text == "$" + NameOf(r, t)
  }

  /** t comes next to s on a path, as the given element. */
  ghost predicate Neighbour(r: Registry, aggs: Aggregates, s: TypeId, t: TypeId, text: string) {
    ByAttribute(r, s, t, text) || ByDescent(r, s, t, text) || ByAggregation(r, aggs, s, t, text)
  }

  // ----- Edges are neighbours -----

  lemma {:induction false} AttributeEdgesAre(r: Registry, s: TypeId, t: TypeId, text: string)
    ensures Edge(text, t) in FlatMap(AttributesOf(r, s), AttributeEdge(r)) <==> ByAttribute(r, s, t, text)
  {
    var attrs, e := AttributesOf(r, s), Edge(text, t);
    FlatMapHolds(attrs, AttributeEdge(r), e);
    if ByAttribute(r, s, t, text) {
      if Pointer(text, t) in r.attributes[s] && t != r.objectType {
        var i :| 0 <= i < |attrs| && attrs[i] == Pointer(text, t);
        assert e in AttributeEdge(r)(attrs[i]);
      } else {
        var name :| Container(name, t) in r.attributes[s] && text == name + "/[i]";
        var i :| 0 <= i < |attrs| && attrs[i] == Container(name, t);
        assert e in AttributeEdge(r)(attrs[i]);
      }
    }
    if e in FlatMap(attrs, AttributeEdge(r)) {
      var i :| 0 <= i < |attrs| && e in AttributeEdge(r)(attrs[i]);
      assert attrs[i] in attrs;
    }
  }

  lemma {:induction false} ChildEdgesAre(r: Registry, s: TypeId, t: TypeId, text: string)
    ensures Edge(text, t) in FlatMap(r.registered, ChildEdge(r, s)) <==> ByDescent(r, s, t, text)
  {
    var e := Edge(text, t);
    FlatMapHolds(r.registered, ChildEdge(r, s), e);
    if ByDescent(r, s, t, text) {
      var i :| 0 <= i < |r.registered| && r.registered[i] == t;
      assert e in ChildEdge(r, s)(r.registered[i]);
    }
  }

  lemma {:induction false} AggregateEdgesAre(r: Registry, aggs: Aggregates, s: TypeId, t: TypeId, text: string)
    ensures Edge(text, t) in FlatMap(aggs, AggregateEdge(r, s)) <==> ByAggregation(r, aggs, s, t, text)
  {
    var e := Edge(text, t);
    FlatMapHolds(aggs, AggregateEdge(r, s), e);
    if ByAggregation(r, aggs, s, t, text) {
      var i :| 0 <= i < |aggs| && (aggs[i] == (s, t) || aggs[i] == (t, s));
      assert e in AggregateEdge(r, s)(aggs[i]);
    }
    if e in FlatMap(aggs, AggregateEdge(r, s)) {
      var i :| 0 <= i < |aggs| && e in AggregateEdge(r, s)(aggs[i]);
      assert aggs[i] == (s, t) || aggs[i] == (t, s);
    }
  }

  /** The edges that are followed are exactly those to the neighbours. */
  lemma {:induction false} EdgesAreNeighbours(r: Registry, aggs: Aggregates, s: TypeId, t: TypeId, text: string)
    ensures Edge(text, t) in EdgesOf(r, aggs, s) <==> Neighbour(r, aggs, s, t, text)
  {
    AttributeEdgesAre(r, s, t, text);
    ChildEdgesAre(r, s, t, text);
    AggregateEdgesAre(r, aggs, s, t, text);
  }

  // ----- Walks are chains -----

  /** Types that are next to each other, none of them twice. */
  ghost predicate Chain(r: Registry, aggs: Aggregates, ts: seq<TypeId>, texts: seq<string>) {
    && |ts| == |texts| + 1 && Distinct(ts)
    && forall i :: 0 <= i < |texts| ==> Neighbour(r, aggs, ts[i], ts[i + 1], texts[i])
  }

  /** The same without asking for distinct types. */
  ghost predicate Linked(r: Registry, aggs: Aggregates, ts: seq<TypeId>, texts: seq<string>) {
    |ts| == |texts| + 1 && forall i :: 0 <= i < |texts| ==> Neighbour(r, aggs, ts[i], ts[i + 1], texts[i])
  }

  lemma {:induction false} LinkedFirst(r: Registry, aggs: Aggregates, ts: seq<TypeId>, texts: seq<string>)
    requires |ts| == |texts| + 1 && texts != []
    ensures Linked(r, aggs, ts, texts) <==>
            Neighbour(r, aggs, ts[0], ts[1], texts[0]) && Linked(r, aggs, ts[1..], texts[1..])
  {
    var us, vs := ts[1..], texts[1..];
    if Linked(r, aggs, ts, texts) {
      forall i | 0 <= i < |vs|
        ensures Neighbour(r, aggs, us[i], us[i + 1], vs[i])
      {
        assert us[i] == ts[i + 1] && us[i + 1] == ts[i + 2] && vs[i] == texts[i + 1];
      }
    }
    if Neighbour(r, aggs, ts[0], ts[1], texts[0]) && Linked(r, aggs, us, vs) {
      forall i | 0 <= i < |texts|
        ensures Neighbour(r, aggs, ts[i], ts[i + 1], texts[i])
      {
        if i > 0 {
          assert us[i - 1] == ts[i] && us[i] == ts[i + 1] && vs[i - 1] == texts[i];
        }
      }
    }
  }

  /** What a walk visits is linked by its labels. */
  lemma {:induction false} WalkIsLinked(r: Registry, aggs: Aggregates, g: Graph, root: TypeId, w: Walk)
    requires Closed(g) && IsGraphOf(g, r, aggs) && root in g && Follows(g, root, w)
    ensures Linked(r, aggs, Visited(g, root, w), Labels(g, root, w))
    ensures Visited(g, root, w)[0] == root && Visited(g, root, w)[|Visited(g, root, w)| - 1] == End(g, root, w)
    decreases |w|
  {
    if w == [] {
    } else {
      var e := Out(g, root)[w[0]];
      FirstStep(g, root, w);
      WalkIsLinked(r, aggs, g, e.target, w[1..]);
      var ts, texts := Visited(g, root, w), Labels(g, root, w);
      assert ts[1..] == Visited(g, e.target, w[1..]) && texts[1..] == Labels(g, e.target, w[1..]);
      assert g[root] == EdgesOf(r, aggs, root) && e in EdgesOf(r, aggs, root);
      EdgesAreNeighbours(r, aggs, root, e.target, e.text);
      LinkedFirst(r, aggs, ts, texts);
    }
  }

  lemma {:induction false} NeighbourEdge(r: Registry, aggs: Aggregates, g: Graph, s: TypeId, t: TypeId, text: string)
    returns (k: nat)
    requires Closed(g) && IsGraphOf(g, r, aggs) && s in g && Neighbour(r, aggs, s, t, text)
    ensures k < |Out(g, s)| && Out(g, s)[k] == Edge(text, t) && t in g
  {
    EdgesAreNeighbours(r, aggs, s, t, text);
    assert g[s] == EdgesOf(r, aggs, s);
    k :| 0 <= k < |Out(g, s)| && Out(g, s)[k] == Edge(text, t);
    assert Out(g, s)[k].target in g;
  }

  /** Linked types are what some walk visits. */
  lemma {:induction false} LinkedIsWalk(r: Registry, aggs: Aggregates, g: Graph, ts: seq<TypeId>, texts: seq<string>)
    returns (w: Walk)
    requires Closed(g) && IsGraphOf(g, r, aggs) && Linked(r, aggs, ts, texts) && ts[0] in g
    ensures Follows(g, ts[0], w) && Visited(g, ts[0], w) == ts && Labels(g, ts[0], w) == texts
    decreases |texts|
  {
    if texts == [] {
      w := [];
    } else {
      LinkedFirst(r, aggs, ts, texts);
      var k := NeighbourEdge(r, aggs, g, ts[0], ts[1], texts[0]);
      var v := LinkedIsWalk(r, aggs, g, ts[1..], texts[1..]);
      w := [k] + v;
      assert w[1..] == v;
      FirstStep(g, ts[0], w);
      assert [ts[0]] + ts[1..] == ts && [texts[0]] + texts[1..] == texts;
    }
  }

  /** The record tells the end and the path of a chain from the root. */
  ghost predicate Tells(r: Registry, aggs: Aggregates, root: TypeId, ts: seq<TypeId>, texts: seq<string>, x: Record) {
    Chain(r, aggs, ts, texts) && ts[0] == root && x == (ts[|ts| - 1], PathString(texts))
  }

  /**
   * A record is gathered from the root exactly when it is the end and the path of a chain of neighbours that
   * starts there.
   */
  lemma {:induction false} RecordsAreChains(r: Registry, aggs: Aggregates, root: TypeId, x: Record)
    ensures x in RecordsFrom(r, aggs)(root) <==> exists ts, texts :: Tells(r, aggs, root, ts, texts, x)
  {
    if x in RecordsFrom(r, aggs)(root) {
      var ts, texts := RecordIsChain(r, aggs, root, x);
    }
    if ts, texts :| Tells(r, aggs, root, ts, texts, x) {
      ChainIsRecorded(r, aggs, ts, texts);
    }
  }

  lemma {:induction false} RecordIsChain(r: Registry, aggs: Aggregates, root: TypeId, x: Record)
    returns (ts: seq<TypeId>, texts: seq<string>)
    requires x in RecordsFrom(r, aggs)(root)
    ensures Tells(r, aggs, root, ts, texts, x)
  {
    var g := TypeGraph(r, aggs, root);
    TypeGraphIsClosed(r, aggs, root);
    var w := WalkOfRecord(r, aggs, root, x);
    WalkIsLinked(r, aggs, g, root, w);
    ts, texts := Visited(g, root, w), Labels(g, root, w);
  }

  lemma {:induction false} ChainIsRecorded(r: Registry, aggs: Aggregates, ts: seq<TypeId>, texts: seq<string>)
    requires Chain(r, aggs, ts, texts)
    ensures (ts[|ts| - 1], PathString(texts)) in RecordsFrom(r, aggs)(ts[0])
  {
    var root := ts[0];
    var g := TypeGraph(r, aggs, root);
    TypeGraphIsClosed(r, aggs, root);
    var w := LinkedIsWalk(r, aggs, g, ts, texts);
    WalkIsLinked(r, aggs, g, root, w);
    assert SimpleWalk(g, root, {}, w);
    RecordOfWalk(r, aggs, root, w);
  }

  // ----- Next to the root -----

  lemma {:induction false} OneElement(text: string)
    ensures PathString([text]) == "/" + text
  {
    assert [text][..0] == [];
    assert PathString([text]) == PathString([text][..0]) + "/" + text;
    assert "" + "/" == "/";
  }

  lemma {:induction false} NeighbourIsRecorded(r: Registry, aggs: Aggregates, s: TypeId, t: TypeId, text: string,
                                               path: string)
    requires Neighbour(r, aggs, s, t, text) && s != t && path == "/" + text
    ensures (t, path) in RecordsFrom(r, aggs)(s)
  {
    OneElement(text);
    ChainIsRecorded(r, aggs, [s, t], [text]);
  }

  /** A pointer attribute is recorded under its name, unless it points to plain objects or back to the type. */
  lemma {:induction false} PointerIsRecorded(r: Registry, aggs: Aggregates, s: TypeId, name: string, t: TypeId)
    requires s in r.attributes && Pointer(name, t) in r.attributes[s] && t != r.objectType && t != s
    ensures (t, "/" + name) in RecordsFrom(r, aggs)(s)
  {
    NeighbourIsRecorded(r, aggs, s, t, name, "/" + name);
  }

  lemma {:induction false} Slashed(a: string, b: string)
    ensures "/" + (a + b) == "/" + a + b
  {
  }

  /** A container attribute is recorded under its name and an index. */
  lemma {:induction false} ContainerIsRecorded(r: Registry, aggs: Aggregates, s: TypeId, name: string, t: TypeId)
    requires s in r.attributes && Container(name, t) in r.attributes[s] && t != s
    ensures (t, "/" + name + "/[i]") in RecordsFrom(r, aggs)(s)
  {
    Slashed(name, "/[i]");
    NeighbourIsRecorded(r, aggs, s, t, name + "/[i]", "/" + name + "/[i]");
  }

  /** A registered descendant is recorded under its name. */
  lemma {:induction false} DescendantIsRecorded(r: Registry, aggs: Aggregates, s: TypeId, t: TypeId)
    requires t in r.registered && (t, s) in r.childOf && t != s
    ensures (t, "/" + "$" + NameOf(r, t)) in RecordsFrom(r, aggs)(s)
  {
    Slashed("$", NameOf(r, t));
    NeighbourIsRecorded(r, aggs, s, t, "$" + NameOf(r, t), "/" + "$" + NameOf(r, t));
  }

  /** So is the other end of an aggregation. */
  lemma {:induction false} AggregateIsRecorded(r: Registry, aggs: Aggregates, s: TypeId, t: TypeId)
    requires ((s, t) in aggs || (t, s) in aggs) && t != s
    ensures (t, "/" + "$" + NameOf(r, t)) in RecordsFrom(r, aggs)(s)
  {
    Slashed("$", NameOf(r, t));
    NeighbourIsRecorded(r, aggs, s, t, "$" + NameOf(r, t), "/" + "$" + NameOf(r, t));
  }

  /** Conversely, the record of a one-edge walk comes from a neighbour. */
  lemma {:induction false} OneEdgeIsNeighbour(r: Registry, aggs: Aggregates, root: TypeId, k: nat)
    requires SimpleWalk(TypeGraph(r, aggs, root), root, {}, [k])
    ensures var g := TypeGraph(r, aggs, root);
            exists text :: Neighbour(r, aggs, root, End(g, root, [k]), text) && Labels(g, root, [k]) == [text]
  {
    var g := TypeGraph(r, aggs, root);
    TypeGraphIsClosed(r, aggs, root);
    OneStep(g, root, k);
    var e := Out(g, root)[k];
    assert g[root] == EdgesOf(r, aggs, root) && e in EdgesOf(r, aggs, root);
    EdgesAreNeighbours(r, aggs, root, e.target, e.text);
    assert Labels(g, root, [k]) == [e.text];
  }
}
