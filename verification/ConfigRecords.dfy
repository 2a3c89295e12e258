/**
 * Repeated records in the output of utils/print-introspected-doxygen.cc.  Its Uniquefy works on a copy,
 * so the output keeps a repeated record; this module says when there is one.
 */
module ConfigRecords {
  import opened Sequences
  import opened ConfigPaths

  // ----- Walks in two parts -----

  /** One step of a walk. */
  lemma {:induction false} FirstStep(g: Graph, root: TypeId, w: Walk)
    requires w != [] && w[0] < |Out(g, root)|
    ensures var t := Out(g, root)[w[0]].target;
            && (Follows(g, root, w) <==> Follows(g, t, w[1..]))
            && End(g, root, w) == End(g, t, w[1..])
            && Labels(g, root, w) == [Out(g, root)[w[0]].text] + Labels(g, t, w[1..])
            && Visited(g, root, w) == [root] + Visited(g, t, w[1..])
  {
  }

  lemma {:induction false} FollowsParts(g: Graph, root: TypeId, a: Walk, b: Walk)
    ensures Follows(g, root, a + b) <==> Follows(g, root, a) && Follows(g, End(g, root, a), b)
    decreases |a|
  {
    if a == [] {
      assert a + b == b;
    } else {
      assert (a + b)[1..] == a[1..] + b;
      if a[0] < |Out(g, root)| {
        FirstStep(g, root, a);
        FirstStep(g, root, a + b);
        FollowsParts(g, Out(g, root)[a[0]].target, a[1..], b);
      }
    }
  }

  lemma {:induction false} EndParts(g: Graph, root: TypeId, a: Walk, b: Walk)
    requires Follows(g, root, a)
    ensures End(g, root, a + b) == End(g, End(g, root, a), b)
    decreases |a|
  {
    if a == [] {
      assert a + b == b;
    } else {
      assert (a + b)[1..] == a[1..] + b;
      FirstStep(g, root, a);
      FirstStep(g, root, a + b);
      EndParts(g, Out(g, root)[a[0]].target, a[1..], b);
    }
  }

  lemma {:induction false} LabelsParts(g: Graph, root: TypeId, a: Walk, b: Walk)
    requires Follows(g, root, a)
    ensures Labels(g, root, a + b) == Labels(g, root, a) + Labels(g, End(g, root, a), b)
    decreases |a|
  {
    if a == [] {
      assert a + b == b;
      assert [] + Labels(g, root, b) == Labels(g, root, b);
    } else {
      var e := Out(g, root)[a[0]];
      assert (a + b)[1..] == a[1..] + b;
      FirstStep(g, root, a);
      FirstStep(g, root, a + b);
      LabelsParts(g, e.target, a[1..], b);
      ConsAppend(e.text, Labels(g, e.target, a[1..]), Labels(g, End(g, root, a), b));
    }
  }

  lemma {:induction false} ConsAppend<T>(x: T, s: seq<T>, t: seq<T>)
    ensures [x] + (s + t) == [x] + s + t
  {
  }

  lemma {:induction false} LabelsLength(g: Graph, root: TypeId, w: Walk)
    requires Follows(g, root, w)
    ensures |Labels(g, root, w)| == |w|
    decreases |w|
  {
    if w == [] {
    } else {
      FirstStep(g, root, w);
      LabelsLength(g, Out(g, root)[w[0]].target, w[1..]);
    }
  }

  lemma {:induction false} VisitedParts(g: Graph, root: TypeId, a: Walk, b: Walk)
    requires Follows(g, root, a)
    ensures Visited(g, root, a) <= Visited(g, root, a + b)
    decreases |a|
  {
    if a == [] {
    } else {
      assert (a + b)[1..] == a[1..] + b;
      FirstStep(g, root, a);
      FirstStep(g, root, a + b);
      VisitedParts(g, Out(g, root)[a[0]].target, a[1..], b);
    }
  }

  /** The first part of a repetition-free walk is one. */
  lemma {:induction false} SimplePrefix(g: Graph, root: TypeId, a: Walk, b: Walk)
    requires SimpleWalk(g, root, {}, a + b)
    ensures SimpleWalk(g, root, {}, a)
  {
    FollowsParts(g, root, a, b);
    VisitedParts(g, root, a, b);
  }

  lemma {:induction false} OneStep(g: Graph, t: TypeId, j: nat)
    ensures Follows(g, t, [j]) <==> j < |Out(g, t)|
    ensures j < |Out(g, t)| ==> End(g, t, [j]) == Out(g, t)[j].target && Labels(g, t, [j]) == [Out(g, t)[j].text]
    ensures j < |Out(g, t)| ==> Visited(g, t, [j]) == [t, Out(g, t)[j].target]
  {
    assert [j][1..] == [];
  }

  // ----- Doubled edges -----

  /** The repetition-free walk w goes on along edge j, and edge k is the same: same text, same target. */
  ghost predicate TakesDouble(g: Graph, root: TypeId, w: Walk, j: nat, k: nat) {
    && SimpleWalk(g, root, {}, w + [j])
    && j != k && j < |Out(g, End(g, root, w))| && k < |Out(g, End(g, root, w))|
    && Out(g, End(g, root, w))[j] == Out(g, End(g, root, w))[k]
  }

  lemma {:induction false} VisitedInParts(g: Graph, root: TypeId, a: Walk, j: nat)
    requires Follows(g, root, a) && j < |Out(g, End(g, root, a))|
    ensures Visited(g, root, a + [j]) == Visited(g, root, a) + [Out(g, End(g, root, a))[j].target]
    decreases |a|
  {
    if a == [] {
      assert a + [j] == [j];
      OneStep(g, root, j);
    } else {
      assert (a + [j])[1..] == a[1..] + [j];
      FirstStep(g, root, a);
      FirstStep(g, root, a + [j]);
      VisitedInParts(g, Out(g, root)[a[0]].target, a[1..], j);
    }
  }

  /** Along either edge the walk is repetition-free, and both walks have the same record. */
  lemma {:induction false} DoubleRepeats(g: Graph, root: TypeId, w: Walk, j: nat, k: nat)
    requires TakesDouble(g, root, w, j, k)
    ensures w + [j] != w + [k] && SimpleWalk(g, root, {}, w + [k])
    ensures End(g, root, w + [j]) == End(g, root, w + [k]) && Labels(g, root, w + [j]) == Labels(g, root, w + [k])
  {
    var t := End(g, root, w);
    assert (w + [j])[|w|] != (w + [k])[|w|];
    StepFrom(g, root, w, j);
    StepFrom(g, root, w, k);
  }

  /** One more step at the end of a walk. */
  lemma {:induction false} StepFrom(g: Graph, root: TypeId, w: Walk, j: nat)
    requires j < |Out(g, End(g, root, w))|
    ensures Follows(g, root, w + [j]) <==> Follows(g, root, w)
    ensures Follows(g, root, w) ==>
              && End(g, root, w + [j]) == Out(g, End(g, root, w))[j].target
              && Labels(g, root, w + [j]) == Labels(g, root, w) + [Out(g, End(g, root, w))[j].text]
              && Visited(g, root, w + [j]) == Visited(g, root, w) + [Out(g, End(g, root, w))[j].target]
  {
    OneStep(g, End(g, root, w), j);
    FollowsParts(g, root, w, [j]);
    if Follows(g, root, w) {
      EndParts(g, root, w, [j]);
      LabelsParts(g, root, w, [j]);
      VisitedInParts(g, root, w, j);
    }
  }

  // ----- Paths that can be read back -----

  predicate IsItems(s: string) {
    |s| >= 4 && s[|s| - 4..] == "/[i]"
  }

  /** The name in a path element: without the mark of a container. */
  function Stem(s: string): string {
    if IsItems(s) then s[..|s| - 4] else s
  }

  /** A path element whose name has no slash, and which is not the mark of a container on its own. */
  predicate PlainText(s: string) {
    '/' !in Stem(s) && s != "[i]"
  }

  ghost predicate AllPlain(path: seq<string>) {
    forall i :: 0 <= i < |path| ==> PlainText(path[i])
  }

  /** What follows the last slash is known. */
  lemma {:induction false} SplitAtLastSlash(a: string, x: string, b: string, y: string)
    requires '/' !in x && '/' !in y && a + "/" + x == b + "/" + y
    ensures a == b && x == y
  {
    var s := a + "/" + x;
    assert s[|a|] == '/' && s[|b|] == '/';
    assert a == s[..|a|] && b == s[..|b|];
    assert x == s[|a| + 1..] && y == s[|b| + 1..];
  }

  lemma {:induction false} ItemsSplit(a: string, t: string)
    requires IsItems(t)
    ensures a + "/" + t == (a + "/" + Stem(t)) + "/" + "[i]"
  {
    assert t == Stem(t) + "/[i]";
    assert "/[i]" == "/" + "[i]";
  }

  /** The last element of a path and what comes before it can be read back. */
  lemma {:induction false} LastElement(a: string, t: string, b: string, u: string)
    requires PlainText(t) && PlainText(u) && a + "/" + t == b + "/" + u
    ensures a == b && t == u
  {
    if IsItems(t) && IsItems(u) {
      ItemsSplit(a, t);
      ItemsSplit(b, u);
      SplitAtLastSlash(a + "/" + Stem(t), "[i]", b + "/" + Stem(u), "[i]");
      SplitAtLastSlash(a, Stem(t), b, Stem(u));
      assert t == Stem(t) + "/[i]" && u == Stem(u) + "/[i]";
    } else if IsItems(t) {
      ItemsSplit(a, t);
      SplitAtLastSlash(a + "/" + Stem(t), "[i]", b, u);
    } else if IsItems(u) {
      ItemsSplit(b, u);
      SplitAtLastSlash(a, t, b + "/" + Stem(u), "[i]");
    } else {
      SplitAtLastSlash(a, t, b, u);
    }
  }

  /** A path of plain elements is known from its string. */
  lemma {:induction false} PathIsReadable(p: seq<string>, q: seq<string>)
    requires AllPlain(p) && AllPlain(q) && PathString(p) == PathString(q)
    ensures p == q
    decreases |p|
  {
    if p == [] || q == [] {
    } else {
      var m, n := |p| - 1, |q| - 1;
      LastElement(PathString(p[..m]), p[m], PathString(q[..n]), q[n]);
      PathIsReadable(p[..m], q[..n]);
      assert p == p[..m] + [p[m]] && q == q[..n] + [q[n]];
    }
  }

  /** The names have no slash, and edges with the same text lead to the same type. */
  ghost predicate ReadableEdges(es: seq<Edge>) {
    && (forall i :: 0 <= i < |es| ==> PlainText(es[i].text))
    && forall i, j :: 0 <= i < |es| && 0 <= j < |es| && es[i].text == es[j].text ==> es[i].target == es[j].target
  }

  ghost predicate Readable(g: Graph) {
    forall t :: ReadableEdges(Out(g, t))
  }

  lemma {:induction false} LabelsArePlain(g: Graph, root: TypeId, w: Walk)
    requires Readable(g)
    ensures AllPlain(Labels(g, root, w))
    decreases |w|
  {
    if w == [] || w[0] >= |Out(g, root)| {
    } else {
      assert ReadableEdges(Out(g, root));
      LabelsArePlain(g, Out(g, root)[w[0]].target, w[1..]);
    }
  }

  // ----- When a record is repeated -----

  lemma {:induction false} FirstDifference(v: Walk, w: Walk) returns (m: nat)
    requires |v| == |w| && v != w
    ensures m < |v| && v[..m] == w[..m] && v[m] != w[m]
  {
    m := 0;
    while v[m] == w[m]
      invariant m < |v| && v[..m] == w[..m] && v[m..] != w[m..]
      decreases |v| - m
    {
      assert v[m..] == [v[m]] + v[m + 1..] && w[m..] == [w[m]] + w[m + 1..];
      assert v[..m + 1] == v[..m] + [v[m]] && w[..m + 1] == w[..m] + [w[m]];
      m := m + 1;
    }
  }

  lemma {:induction false} LabelAt(g: Graph, root: TypeId, w: Walk, m: nat)
    requires Follows(g, root, w) && m < |w|
    ensures var t := End(g, root, w[..m]);
            w[m] < |Out(g, t)| && m < |Labels(g, root, w)| && Labels(g, root, w)[m] == Out(g, t)[w[m]].text
  {
    var t, rest := End(g, root, w[..m]), w[m..];
    assert w == w[..m] + rest;
    FollowsParts(g, root, w[..m], rest);
    LabelsParts(g, root, w[..m], rest);
    LabelsLength(g, root, w[..m]);
    FirstStep(g, t, rest);
    assert rest[0] == w[m];
  }

  /** Different walks with the same labels part at a doubled edge. */
  lemma {:induction false} PartAtDouble(g: Graph, root: TypeId, v: Walk, w: Walk) returns (m: nat)
    requires Readable(g) && SimpleWalk(g, root, {}, v) && SimpleWalk(g, root, {}, w) && v != w
    requires Labels(g, root, v) == Labels(g, root, w)
    ensures m < |v| && m < |w| && TakesDouble(g, root, v[..m], v[m], w[m])
  {
    LabelsLength(g, root, v);
    LabelsLength(g, root, w);
    m := FirstDifference(v, w);
    SameEdge(g, root, v, w, m);
    SimpleThrough(g, root, v, m);
  }

  lemma {:induction false} SimpleThrough(g: Graph, root: TypeId, w: Walk, m: nat)
    requires SimpleWalk(g, root, {}, w) && m < |w|
    ensures SimpleWalk(g, root, {}, w[..m] + [w[m]])
  {
    assert w == (w[..m] + [w[m]]) + w[m + 1..];
    SimplePrefix(g, root, w[..m] + [w[m]], w[m + 1..]);
  }

  lemma {:induction false} SameEdge(g: Graph, root: TypeId, v: Walk, w: Walk, m: nat)
    requires Readable(g) && Follows(g, root, v) && Follows(g, root, w)
    requires Labels(g, root, v) == Labels(g, root, w) && m < |v| && m < |w| && v[..m] == w[..m]
    ensures var out := Out(g, End(g, root, v[..m])); v[m] < |out| && w[m] < |out| && out[v[m]] == out[w[m]]
  {
    LabelAt(g, root, v, m);
    LabelAt(g, root, w, m);
    assert ReadableEdges(Out(g, End(g, root, v[..m])));
  }

  /** A doubled edge that a repetition-free walk can take repeats a record, whatever the names are. */
  lemma {:induction false} DoubledEdgeRepeats(g: Graph, root: TypeId, walks: seq<Walk>, records: seq<Record>,
                                              w: Walk, j: nat, k: nat)
    requires AllWalks(g, root, walks) && OnePerWalk(g, root, walks, records) && TakesDouble(g, root, w, j, k)
    ensures !Distinct(records)
  {
    DoubleRepeats(g, root, w, j, k);
    assert w + [j] in walks && w + [k] in walks;
    var a :| 0 <= a < |walks| && walks[a] == w + [j];
    var b :| 0 <= b < |walks| && walks[b] == w + [k];
    assert records[a] == records[b] && a != b;
  }

  /**
   * When names can be read back from paths, the records are pairwise distinct exactly when no
   * repetition-free walk can take a doubled edge.
   */
  lemma {:induction false} RecordsDistinctIff(g: Graph, root: TypeId, walks: seq<Walk>, records: seq<Record>)
    requires AllWalks(g, root, walks) && OnePerWalk(g, root, walks, records) && Readable(g)
    ensures Distinct(records) <==> !exists w, j, k :: TakesDouble(g, root, w, j, k)
  {
    if w, j, k :| TakesDouble(g, root, w, j, k) {
      DoubledEdgeRepeats(g, root, walks, records, w, j, k);
    } else if !Distinct(records) {
      var a, b :| 0 <= a < b < |records| && records[a] == records[b];
      var v, w := walks[a], walks[b];
      assert v in walks && w in walks;
      LabelsArePlain(g, root, v);
      LabelsArePlain(g, root, w);
      PathIsReadable(Labels(g, root, v), Labels(g, root, w));
      var m := PartAtDouble(g, root, v, w);
      assert false;
    }
  }

  // ----- The same aggregation recorded twice -----

  /** Where the edge of the i-th aggregation stands among the edges of its first type. */
  ghost function EdgeNumber(r: Registry, aggs: Aggregates, a: TypeId, i: nat): nat
    requires i <= |aggs|
  {
    |FlatMap(AttributesOf(r, a), AttributeEdge(r))| + |FlatMap(r.registered, ChildEdge(r, a))|
    + |FlatMap(aggs[..i], AggregateEdge(r, a))|
  }

  lemma {:induction false} AggregationIsEdge(r: Registry, aggs: Aggregates, a: TypeId, b: TypeId, i: nat)
    requires i < |aggs| && aggs[i] == (a, b) && a != b
    ensures EdgeNumber(r, aggs, a, i) < |EdgesOf(r, aggs, a)|
    ensures EdgesOf(r, aggs, a)[EdgeNumber(r, aggs, a, i)] == Edge("$" + NameOf(r, b), b)
    ensures EdgeNumber(r, aggs, a, i) < EdgeNumber(r, aggs, a, i + 1)
  {
    var f := AggregateEdge(r, a);
    FlatMapNext(aggs, i, f);
    assert f(aggs[i]) == [Edge("$" + NameOf(r, b), b)];
    var k := |FlatMap(aggs[..i], f)|;
    assert FlatMap(aggs, f)[k] == FlatMap(aggs[..i + 1], f)[k] == f(aggs[i])[0];
  }

  lemma {:induction false} EdgeNumbersRise(r: Registry, aggs: Aggregates, a: TypeId, i: nat, j: nat)
    requires i <= j <= |aggs|
    ensures EdgeNumber(r, aggs, a, i) <= EdgeNumber(r, aggs, a, j)
  {
    assert aggs[..j] == aggs[..i] + aggs[i..j];
    FlatMapAppend(aggs[..i], aggs[i..j], AggregateEdge(r, a));
  }

  /** Whatever else is registered, an aggregation that is recorded twice repeats the record of its other end. */
  lemma {:induction false} TwiceAggregated(r: Registry, aggs: Aggregates, a: TypeId, b: TypeId, i: nat, j: nat)
    requires i < j < |aggs| && aggs[i] == aggs[j] == (a, b) && a != b
    ensures TakesDouble(TypeGraph(r, aggs, a), a, [], EdgeNumber(r, aggs, a, i), EdgeNumber(r, aggs, a, j))
    ensures !Distinct(RecordsFrom(r, aggs)(a))
  {
    var g, k, l := TypeGraph(r, aggs, a), EdgeNumber(r, aggs, a, i), EdgeNumber(r, aggs, a, j);
    AggregationIsEdge(r, aggs, a, b, i);
    AggregationIsEdge(r, aggs, a, b, j);
    EdgeNumbersRise(r, aggs, a, i + 1, j);
    assert Out(g, a) == EdgesOf(r, aggs, a);
    StepIsSimple(g, a, k);
    TypeGraphIsClosed(r, aggs, a);
    GatheredFromNothing(g, a);
    DoubledEdgeRepeats(g, a, Walks(g, a, {}), Gathered(g, a, {}, []), [], k, l);
  }

  lemma {:induction false} StepIsSimple(g: Graph, root: TypeId, k: nat)
    requires k < |Out(g, root)| && Out(g, root)[k].target != root
    ensures SimpleWalk(g, root, {}, [] + [k])
  {
    assert [] + [k] == [k];
    OneStep(g, root, k);
  }

  // ----- Several roots -----

  /** The names of all edges can be read back from paths. */
  ghost predicate ReadableTypes(r: Registry, aggs: Aggregates) {
    forall t :: ReadableEdges(EdgesOf(r, aggs, t))
  }

  lemma {:induction false} TypeGraphIsReadable(r: Registry, aggs: Aggregates, root: TypeId)
    requires ReadableTypes(r, aggs)
    ensures Readable(TypeGraph(r, aggs, root))
  {
    var g := TypeGraph(r, aggs, root);
    forall t
      ensures ReadableEdges(Out(g, t))
    {
      assert ReadableEdges(EdgesOf(r, aggs, t));
    }
  }

  /** A repetition-free walk from a and one from b end at the same type with the same labels. */
  ghost predicate SameRecord(r: Registry, aggs: Aggregates, a: TypeId, v: Walk, b: TypeId, w: Walk) {
    var g, h := TypeGraph(r, aggs, a), TypeGraph(r, aggs, b);
    && SimpleWalk(g, a, {}, v) && SimpleWalk(h, b, {}, w)
    && End(g, a, v) == End(h, b, w) && Labels(g, a, v) == Labels(h, b, w)
  }

  /** Some repetition-free walk from the root takes a doubled edge. */
  ghost predicate HasDouble(r: Registry, aggs: Aggregates, root: TypeId) {
    exists w, j, k :: TakesDouble(TypeGraph(r, aggs, root), root, w, j, k)
  }

  ghost predicate Meet(r: Registry, aggs: Aggregates, a: TypeId, b: TypeId) {
    exists v, w :: SameRecord(r, aggs, a, v, b, w)
  }

  /** A record from the root comes from a walk. */
  lemma {:induction false} WalkOfRecord(r: Registry, aggs: Aggregates, root: TypeId, x: Record) returns (w: Walk)
    requires x in RecordsFrom(r, aggs)(root)
    ensures var g := TypeGraph(r, aggs, root);
            SimpleWalk(g, root, {}, w) && x == (End(g, root, w), PathString(Labels(g, root, w)))
  {
    var g := TypeGraph(r, aggs, root);
    TypeGraphIsClosed(r, aggs, root);
    GatheredFromNothing(g, root);
    var walks, records := Walks(g, root, {}), Gathered(g, root, {}, []);
    var i :| 0 <= i < |records| && records[i] == x;
    w := walks[i];
    assert w in walks;
  }

  lemma {:induction false} RecordOfWalk(r: Registry, aggs: Aggregates, root: TypeId, w: Walk)
    requires SimpleWalk(TypeGraph(r, aggs, root), root, {}, w)
    ensures var g := TypeGraph(r, aggs, root);
            (End(g, root, w), PathString(Labels(g, root, w))) in RecordsFrom(r, aggs)(root)
  {
    var g := TypeGraph(r, aggs, root);
    TypeGraphIsClosed(r, aggs, root);
    GatheredFromNothing(g, root);
    var walks, records := Walks(g, root, {}), Gathered(g, root, {}, []);
    assert w in walks;
    var i :| 0 <= i < |walks| && walks[i] == w;
    assert records[i] in records;
  }

  /** Roots whose walks meet share a record, whatever the names are. */
  lemma {:induction false} MeetingRootsShare(r: Registry, aggs: Aggregates, a: TypeId, b: TypeId)
    requires Meet(r, aggs, a, b)
    ensures !NoneShared(RecordsFrom(r, aggs)(a), RecordsFrom(r, aggs)(b))
  {
    var v, w :| SameRecord(r, aggs, a, v, b, w);
    RecordOfWalk(r, aggs, a, v);
    RecordOfWalk(r, aggs, b, w);
  }

  lemma {:induction false} SharedIffMeet(r: Registry, aggs: Aggregates, a: TypeId, b: TypeId)
    requires ReadableTypes(r, aggs)
    ensures NoneShared(RecordsFrom(r, aggs)(a), RecordsFrom(r, aggs)(b)) <==> !Meet(r, aggs, a, b)
  {
    if Meet(r, aggs, a, b) {
      MeetingRootsShare(r, aggs, a, b);
    }
    if !NoneShared(RecordsFrom(r, aggs)(a), RecordsFrom(r, aggs)(b)) {
      var x :| x in RecordsFrom(r, aggs)(a) && x in RecordsFrom(r, aggs)(b);
      var v := WalkOfRecord(r, aggs, a, x);
      var w := WalkOfRecord(r, aggs, b, x);
      var g, h := TypeGraph(r, aggs, a), TypeGraph(r, aggs, b);
      TypeGraphIsReadable(r, aggs, a);
      TypeGraphIsReadable(r, aggs, b);
      LabelsArePlain(g, a, v);
      LabelsArePlain(h, b, w);
      PathIsReadable(Labels(g, a, v), Labels(h, b, w));
      assert SameRecord(r, aggs, a, v, b, w);
    }
  }

  lemma {:induction false} RootDistinctIff(r: Registry, aggs: Aggregates, root: TypeId)
    requires ReadableTypes(r, aggs)
    ensures Distinct(RecordsFrom(r, aggs)(root)) <==> !HasDouble(r, aggs, root)
  {
    var g := TypeGraph(r, aggs, root);
    TypeGraphIsClosed(r, aggs, root);
    TypeGraphIsReadable(r, aggs, root);
    GatheredFromNothing(g, root);
    RecordsDistinctIff(g, root, Walks(g, root, {}), Gathered(g, root, {}, []));
  }

  /** No root has a walk along a doubled edge, and no walks from two places in the list meet. */
  ghost predicate RootsApart(r: Registry, aggs: Aggregates, roots: seq<TypeId>) {
    && (forall i :: 0 <= i < |roots| ==> !HasDouble(r, aggs, roots[i]))
    && forall i, j :: 0 <= i < j < |roots| ==> !Meet(r, aggs, roots[i], roots[j])
  }

  /**
   * The output of several roots gathered one after the other: when names can be read back from paths, its
   * records are pairwise distinct exactly when no root has a repetition-free walk along a doubled edge and
   * no walks from two places in the list of roots share end and labels.
   */
  lemma {:induction false} OutputDistinctIff(r: Registry, aggs: Aggregates, roots: seq<TypeId>)
    requires ReadableTypes(r, aggs)
    ensures Distinct(OutputOf(r, aggs, roots)) <==> RootsApart(r, aggs, roots)
  {
    var f := RecordsFrom(r, aggs);
    FlatMapDistinctIff(roots, f);
    forall i | 0 <= i < |roots|
      ensures Distinct(f(roots[i])) <==> !HasDouble(r, aggs, roots[i])
    {
      RootDistinctIff(r, aggs, roots[i]);
    }
    forall i, j | 0 <= i < j < |roots|
      ensures NoneShared(f(roots[i]), f(roots[j])) <==> !Meet(r, aggs, roots[i], roots[j])
    {
      SharedIffMeet(r, aggs, roots[i], roots[j]);
    }
  }

  /** Whatever the names are, an output without repeated records has such roots. */
  lemma {:induction false} DistinctOutputHasRootsApart(r: Registry, aggs: Aggregates, roots: seq<TypeId>)
    requires Distinct(OutputOf(r, aggs, roots))
    ensures RootsApart(r, aggs, roots)
  {
    var f := RecordsFrom(r, aggs);
    FlatMapDistinctIff(roots, f);
    forall i | 0 <= i < |roots|
      ensures !HasDouble(r, aggs, roots[i])
    {
      assert Distinct(f(roots[i]));
      DistinctRootHasNoDouble(r, aggs, roots[i]);
    }
    forall i, j | 0 <= i < j < |roots|
      ensures !Meet(r, aggs, roots[i], roots[j])
    {
      assert NoneShared(f(roots[i]), f(roots[j]));
      if Meet(r, aggs, roots[i], roots[j]) {
        MeetingRootsShare(r, aggs, roots[i], roots[j]);
      }
    }
  }

  lemma {:induction false} DistinctRootHasNoDouble(r: Registry, aggs: Aggregates, root: TypeId)
    requires Distinct(RecordsFrom(r, aggs)(root))
    ensures !HasDouble(r, aggs, root)
  {
    var g := TypeGraph(r, aggs, root);
    if w, j, k :| TakesDouble(g, root, w, j, k) {
      TypeGraphIsClosed(r, aggs, root);
      GatheredFromNothing(g, root);
      DoubledEdgeRepeats(g, root, Walks(g, root, {}), Gathered(g, root, {}, []), w, j, k);
    }
  }

  /** Gathering one type twice repeats a record on every registry, with or without a doubled edge. */
  lemma {:induction false} GatheredTwice(r: Registry, aggs: Aggregates, roots: seq<TypeId>, i: nat, j: nat)
    requires i < j < |roots| && roots[i] == roots[j]
    ensures !Distinct(OutputOf(r, aggs, roots))
  {
    var root := roots[i];
    EmptySimpleWalk(TypeGraph(r, aggs, root), root, {});
    assert SameRecord(r, aggs, root, [], root, []);
    assert Meet(r, aggs, roots[i], roots[j]);
    if Distinct(OutputOf(r, aggs, roots)) {
      DistinctOutputHasRootsApart(r, aggs, roots);
    }
  }

  /** The output repeats a record when an aggregation of one of the roots is recorded twice. */
  lemma {:induction false} TwiceAggregatedOutput(r: Registry, aggs: Aggregates, roots: seq<TypeId>, n: nat, b: TypeId,
                                                 i: nat, j: nat)
    requires n < |roots| && i < j < |aggs| && aggs[i] == aggs[j] == (roots[n], b) && roots[n] != b
    ensures !Distinct(OutputOf(r, aggs, roots))
  {
    TwiceAggregated(r, aggs, roots[n], b, i, j);
    assert HasDouble(r, aggs, roots[n]);
    if Distinct(OutputOf(r, aggs, roots)) {
      DistinctOutputHasRootsApart(r, aggs, roots);
    }
  }
}
