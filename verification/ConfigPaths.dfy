/**
 * The configuration-path gathering of utils/print-introspected-doxygen.cc: a depth-first walk over
 * the graph of registered types that pushes and pops the current path and the types on it.
 */
module ConfigPaths {
  import opened Options
  import opened Sequences

  type TypeId(==, !new)

  /** An attribute that points to a type, holds a container of a type, or neither. */
  datatype Attribute =
    | Pointer(name: string, pointee: TypeId)
    | Container(name: string, item: TypeId)
    | Plain(name: string)

  /** The type registry: attributes and name of each type, registration order, strict descent. */
  datatype Registry = Registry(
    attributes: map<TypeId, seq<Attribute>>,
    names: map<TypeId, string>,
    registered: seq<TypeId>,
    childOf: set<(TypeId, TypeId)>,
    objectType: TypeId)

  type Aggregates = seq<(TypeId, TypeId)>

  datatype Edge = Edge(text: string, target: TypeId)

  function NameOf(r: Registry, t: TypeId): string {
    if t in r.names then r.names[t] else ""
  }

  /** The first of the types with the name. */
  function Lookup(r: Registry, types: seq<TypeId>, name: string): (t: Option<TypeId>)
    ensures t.Some? ==> t.value in types && NameOf(r, t.value) == name
    ensures t.None? ==> forall x :: x in types ==> NameOf(r, x) != name
  {
    if types == [] then None
    else if NameOf(r, types[0]) == name then Some(types[0])
    else Lookup(r, types[1..], name)
  }

  function AttributesOf(r: Registry, t: TypeId): seq<Attribute> {
    if t in r.attributes then r.attributes[t] else []
  }

  /** The edge of an attribute; pointers to plain objects are not followed. */
  function AttributeEdge(r: Registry): Attribute -> seq<Edge> {
    (a: Attribute) => match a
                      case Pointer(name, t) => if t == r.objectType then [] else [Edge(name, t)]
                      case Container(name, t) => [Edge(name + "/[i]", t)]
                      case Plain(_) => []
  }

  /** The edge to a registered type, if it descends from tid. */
  function ChildEdge(r: Registry, tid: TypeId): TypeId -> seq<Edge> {
    (t: TypeId) => if (t, tid) in r.childOf then [Edge("$" + NameOf(r, t), t)] else []
  }

  /** The other end of an aggregation; the first component wins when both are tid. */
  function Other(a: (TypeId, TypeId), tid: TypeId): TypeId {
    if a.1 == tid then a.0 else a.1
  }

  /** The edge along an aggregation, if tid takes part in it. */
  function AggregateEdge(r: Registry, tid: TypeId): ((TypeId, TypeId)) -> seq<Edge> {
    (a: (TypeId, TypeId)) =>
      if a.0 == tid || a.1 == tid then [Edge("$" + NameOf(r, Other(a, tid)), Other(a, tid))] else []
  }

  /** The edges of a type in the order in which they are followed. */
  function EdgesOf(r: Registry, aggs: Aggregates, tid: TypeId): seq<Edge> {
    FlatMap(AttributesOf(r, tid), AttributeEdge(r)) + FlatMap(r.registered, ChildEdge(r, tid))
    + FlatMap(aggs, AggregateEdge(r, tid))
  }

  ghost predicate IsTypeNamed(r: Registry, t: TypeId, name: string) {
    t in r.registered && NameOf(r, t) == name
  }

  ghost predicate Registered(r: Registry, name: string) {
    exists t :: IsTypeNamed(r, t, name)
  }

  lemma {:induction false} LookupFinds(r: Registry, name: string)
    ensures Lookup(r, r.registered, name).Some? <==> Registered(r, name)
    ensures Registered(r, name) ==> IsTypeNamed(r, Lookup(r, r.registered, name).value, name)
  {
    var t := Lookup(r, r.registered, name);
    if t.Some? {
      assert IsTypeNamed(r, t.value, name);
    }
  }

  /** The type graph as a table. */
  type Graph = map<TypeId, seq<Edge>>

  function Out(g: Graph, t: TypeId): seq<Edge> {
    if t in g then g[t] else []
  }

  /** g is the graph of some of the registered types, with the recorded aggregations. */
  ghost predicate IsGraphOf(g: Graph, r: Registry, aggs: Aggregates) {
    forall t {:trigger EdgesOf(r, aggs, t)} :: t in g ==> g[t] == EdgesOf(r, aggs, t)
  }

  /** Every edge leads to a type of the graph. */
  ghost predicate Closed(g: Graph) {
    forall t, k {:trigger Out(g, t)[k]} :: t in g && 0 <= k < |Out(g, t)| ==> Out(g, t)[k].target in g
  }

  // ----- Every registry has a closed graph -----

  /** The types that an attribute leads to. */
  function Leads(a: Attribute): set<TypeId> {
    match a
    case Pointer(_, t) => {t}
    case Container(_, t) => {t}
    case Plain(_) => {}
  }

  /** tid and every type that the registry or the aggregations mention. */
  ghost function Mentioned(r: Registry, aggs: Aggregates, tid: TypeId): set<TypeId> {
    {tid} + (set t | t in r.registered) + (set a | a in aggs :: a.0) + (set a | a in aggs :: a.1)
    + (set o, a, t | o in r.attributes && a in r.attributes[o] && t in Leads(a) :: t)
  }

  /** The type graph of a registry and its aggregations, as far as tid can see. */
  ghost function TypeGraph(r: Registry, aggs: Aggregates, tid: TypeId): Graph {
    map t | t in Mentioned(r, aggs, tid) :: EdgesOf(r, aggs, t)
  }

  lemma {:induction false} AttributeEdgesAreMentioned(r: Registry, aggs: Aggregates, tid: TypeId, t: TypeId, e: Edge)
    requires e in FlatMap(AttributesOf(r, t), AttributeEdge(r))
    ensures e.target in Mentioned(r, aggs, tid)
  {
    FlatMapHolds(AttributesOf(r, t), AttributeEdge(r), e);
    var i :| 0 <= i < |AttributesOf(r, t)| && e in AttributeEdge(r)(AttributesOf(r, t)[i]);
    assert e.target in Leads(AttributesOf(r, t)[i]);
  }

  lemma {:induction false} ChildEdgesAreMentioned(r: Registry, aggs: Aggregates, tid: TypeId, t: TypeId, e: Edge)
    requires e in FlatMap(r.registered, ChildEdge(r, t))
    ensures e.target in Mentioned(r, aggs, tid)
  {
    FlatMapHolds(r.registered, ChildEdge(r, t), e);
    var i :| 0 <= i < |r.registered| && e in ChildEdge(r, t)(r.registered[i]);
    assert e.target == r.registered[i];
  }

  lemma {:induction false} AggregateEdgesAreMentioned(r: Registry, aggs: Aggregates, tid: TypeId, t: TypeId, e: Edge)
    requires e in FlatMap(aggs, AggregateEdge(r, t))
    ensures e.target in Mentioned(r, aggs, tid)
  {
    FlatMapHolds(aggs, AggregateEdge(r, t), e);
    var i :| 0 <= i < |aggs| && e in AggregateEdge(r, t)(aggs[i]);
    assert e.target == aggs[i].0 || e.target == aggs[i].1;
  }

  lemma {:induction false} EdgesAreMentioned(r: Registry, aggs: Aggregates, tid: TypeId, t: TypeId, e: Edge)
    requires e in EdgesOf(r, aggs, t)
    ensures e.target in Mentioned(r, aggs, tid)
  {
    if e in FlatMap(AttributesOf(r, t), AttributeEdge(r)) {
      AttributeEdgesAreMentioned(r, aggs, tid, t, e);
    } else if e in FlatMap(r.registered, ChildEdge(r, t)) {
      ChildEdgesAreMentioned(r, aggs, tid, t, e);
    } else {
      AggregateEdgesAreMentioned(r, aggs, tid, t, e);
    }
  }

  /** For every registry, all aggregations and every type there is a closed graph that holds the type. */
  lemma {:induction false} TypeGraphIsClosed(r: Registry, aggs: Aggregates, tid: TypeId)
    ensures var g := TypeGraph(r, aggs, tid); Closed(g) && IsGraphOf(g, r, aggs) && tid in g
  {
    var g := TypeGraph(r, aggs, tid);
    forall t, k | t in g && 0 <= k < |Out(g, t)|
      ensures Out(g, t)[k].target in g
    {
      EdgesAreMentioned(r, aggs, tid, t, Out(g, t)[k]);
    }
  }

  // ----- Walks -----

  /** A walk is the sequence of edge numbers followed from a root. */
  type Walk = seq<nat>

  ghost predicate Follows(g: Graph, root: TypeId, w: Walk)
    decreases |w|
  {
    w == [] || (w[0] < |Out(g, root)| && Follows(g, Out(g, root)[w[0]].target, w[1..]))
  }

  /** The types that a walk visits, the root first. */
  ghost function Visited(g: Graph, root: TypeId, w: Walk): seq<TypeId>
    decreases |w|
  {
    if w == [] || w[0] >= |Out(g, root)| then [root] else [root] + Visited(g, Out(g, root)[w[0]].target, w[1..])
  }

  ghost function Labels(g: Graph, root: TypeId, w: Walk): seq<string>
    decreases |w|
  {
    if w == [] || w[0] >= |Out(g, root)| then []
    else [Out(g, root)[w[0]].text] + Labels(g, Out(g, root)[w[0]].target, w[1..])
  }

  ghost function End(g: Graph, root: TypeId, w: Walk): TypeId
    decreases |w|
  {
    if w == [] || w[0] >= |Out(g, root)| then root else End(g, Out(g, root)[w[0]].target, w[1..])
  }

  /** A walk that visits no type twice and none in seen. */
  ghost predicate SimpleWalk(g: Graph, root: TypeId, seen: set<TypeId>, w: Walk) {
    && Follows(g, root, w)
    && Distinct(Visited(g, root, w))
    && forall t :: t in Visited(g, root, w) ==> t !in seen
  }

  lemma {:induction false} SimpleWalkStep(g: Graph, root: TypeId, seen: set<TypeId>, w: Walk)
    requires w != []
    ensures SimpleWalk(g, root, seen, w) <==>
            && root !in seen && w[0] < |Out(g, root)|
            && SimpleWalk(g, Out(g, root)[w[0]].target, seen + {root}, w[1..])
  {
    if Follows(g, root, w) {
      var rest := Visited(g, Out(g, root)[w[0]].target, w[1..]);
      assert Visited(g, root, w) == [root] + rest;
      DistinctCons(root, rest);
      AvoidsCons(root, rest, seen);
    }
  }

  lemma {:induction false} DistinctCons(t: TypeId, rest: seq<TypeId>)
    ensures Distinct([t] + rest) <==> t !in rest && Distinct(rest)
  {
    var all := [t] + rest;
    if Distinct(all) {
      forall i, j | 0 <= i < j < |rest|
        ensures rest[i] != rest[j]
      {
        assert all[i + 1] != all[j + 1];
      }
      forall i | 0 <= i < |rest|
        ensures rest[i] != t
      {
        assert all[0] != all[i + 1];
      }
    }
    if t !in rest && Distinct(rest) {
      forall a, b | 0 <= a < b < |all|
        ensures all[a] != all[b]
      {
        assert all[b] == rest[b - 1] && rest[b - 1] in rest;
        if a > 0 {
          assert all[a] == rest[a - 1];
        }
      }
    }
  }

  lemma {:induction false} AvoidsCons(t: TypeId, rest: seq<TypeId>, seen: set<TypeId>)
    ensures ((forall x :: x in [t] + rest ==> x !in seen) && t !in rest) <==>
            (t !in seen && forall x :: x in rest ==> x !in seen + {t})
  {
  }

  lemma {:induction false} EmptySimpleWalk(g: Graph, root: TypeId, seen: set<TypeId>)
    ensures SimpleWalk(g, root, seen, []) <==> root !in seen
  {
  }

  // ----- The order in which the walks are taken -----

  function Prepend(k: nat, ws: seq<Walk>): seq<Walk> {
    if ws == [] then [] else Prepend(k, ws[..|ws| - 1]) + [[k] + ws[|ws| - 1]]
  }

  ghost function Unseen(u: set<TypeId>, seen: set<TypeId>): nat { |u - seen| }

  lemma {:induction false} UnseenShrinks(u: set<TypeId>, seen: set<TypeId>, t: TypeId)
    requires t in u && t !in seen
    ensures Unseen(u, seen + {t}) < Unseen(u, seen)
  {
    assert u - seen == (u - (seen + {t})) + {t};
  }

  /** All walks from root, in the order of the recursion. */
  ghost function Walks(g: Graph, root: TypeId, seen: set<TypeId>): seq<Walk>
    requires Closed(g) && root in g
    decreases Unseen(g.Keys, seen), 1, 0
  {
    if root in seen then [] else WalksVia(g, root, seen, |Out(g, root)|)
  }

  /** The empty walk and those that start with one of the first n edges. */
  ghost function WalksVia(g: Graph, root: TypeId, seen: set<TypeId>, n: nat): seq<Walk>
    requires Closed(g) && root in g && root !in seen && n <= |Out(g, root)|
    decreases Unseen(g.Keys, seen), 0, n
  {
    if n == 0 then [[]] else
    UnseenShrinks(g.Keys, seen, root);
    WalksVia(g, root, seen, n - 1) + Prepend(n - 1, Walks(g, Out(g, root)[n - 1].target, seen + {root}))
  }

  lemma {:induction false} PrependMembers(k: nat, ws: seq<Walk>)
    ensures |Prepend(k, ws)| == |ws|
    ensures forall i :: 0 <= i < |ws| ==> Prepend(k, ws)[i] == [k] + ws[i]
  {
    if ws == [] {
    } else {
      PrependMembers(k, ws[..|ws| - 1]);
    }
  }

  lemma {:induction false} PrependIsInjective(k: nat, ws: seq<Walk>)
    requires Distinct(ws)
    ensures Distinct(Prepend(k, ws))
  {
    PrependMembers(k, ws);
    forall i, j | 0 <= i < j < |ws|
      ensures [k] + ws[i] != [k] + ws[j]
    {
      assert ([k] + ws[i])[1..] == ws[i] && ([k] + ws[j])[1..] == ws[j];
    }
  }

  lemma {:induction false} InPrepend(k: nat, ws: seq<Walk>, w: Walk)
    ensures w in Prepend(k, ws) <==> w != [] && w[0] == k && w[1..] in ws
  {
    PrependMembers(k, ws);
    if w in Prepend(k, ws) {
      var i :| 0 <= i < |ws| && Prepend(k, ws)[i] == w;
      assert w[1..] == ws[i];
    }
    if w != [] && w[0] == k && w[1..] in ws {
      var i :| 0 <= i < |ws| && ws[i] == w[1..];
      assert w == [k] + ws[i];
      assert Prepend(k, ws)[i] == w;
    }
  }

  /** The recursion takes exactly the simple walks, each once. */
  lemma {:induction false} WalksAreSimpleWalks(g: Graph, root: TypeId, seen: set<TypeId>)
    requires Closed(g) && root in g
    ensures Distinct(Walks(g, root, seen))
    ensures forall w :: w in Walks(g, root, seen) <==> SimpleWalk(g, root, seen, w)
    decreases Unseen(g.Keys, seen), 1, 0
  {
    if root in seen {
      forall w: Walk
        ensures !SimpleWalk(g, root, seen, w)
      {
        if w == [] {
          EmptySimpleWalk(g, root, seen);
        } else {
          SimpleWalkStep(g, root, seen, w);
        }
      }
    } else {
      WalksViaAreSimpleWalks(g, root, seen, |Out(g, root)|);
      forall w: Walk
        ensures SimpleWalk(g, root, seen, w) ==> w == [] || w[0] < |Out(g, root)|
      {
      }
    }
  }

  lemma {:induction false} WalksViaAreSimpleWalks(g: Graph, root: TypeId, seen: set<TypeId>, n: nat)
    requires Closed(g) && root in g && root !in seen && n <= |Out(g, root)|
    ensures Distinct(WalksVia(g, root, seen, n))
    ensures forall w :: w in WalksVia(g, root, seen, n) <==> SimpleWalk(g, root, seen, w) && (w == [] || w[0] < n)
    decreases Unseen(g.Keys, seen), 0, n
  {
    EmptySimpleWalk(g, root, seen);
    if n == 0 {
    } else {
      UnseenShrinks(g.Keys, seen, root);
      WalksViaAreSimpleWalks(g, root, seen, n - 1);
      var target := Out(g, root)[n - 1].target;
      WalksAreSimpleWalks(g, target, seen + {root});
      WalksThrough(g, root, seen, n - 1, Walks(g, target, seen + {root}));
      DistinctAppend(WalksVia(g, root, seen, n - 1), Prepend(n - 1, Walks(g, target, seen + {root})));
    }
  }

  /** The walks through edge k, from those that begin behind it. */
  lemma {:induction false} WalksThrough(g: Graph, root: TypeId, seen: set<TypeId>, k: nat, more: seq<Walk>)
    requires root !in seen && k < |Out(g, root)| && Distinct(more)
    requires forall w :: w in more <==> SimpleWalk(g, Out(g, root)[k].target, seen + {root}, w)
    ensures Distinct(Prepend(k, more))
    ensures forall w :: w in Prepend(k, more) <==> SimpleWalk(g, root, seen, w) && w != [] && w[0] == k
  {
    PrependIsInjective(k, more);
    forall w: Walk
      ensures w in Prepend(k, more) <==> SimpleWalk(g, root, seen, w) && w != [] && w[0] == k
    {
      InPrepend(k, more, w);
      if w != [] {
        SimpleWalkStep(g, root, seen, w);
      }
    }
  }

  // ----- What is recorded -----

  /** The path string: each element after a slash. */
  function PathString(path: seq<string>): string {
    if path == [] then "" else PathString(path[..|path| - 1]) + "/" + path[|path| - 1]
  }

  /** What is recorded: a type and a path to it. */
  type Record = (TypeId, string)

  /** The record for a walk: where it ends, and the path so far followed by its labels. */
  ghost function Entry(g: Graph, root: TypeId, path: seq<string>, w: Walk): Record {
    (End(g, root, w), PathString(path + Labels(g, root, w)))
  }

  ghost function EntryOf(g: Graph, root: TypeId, path: seq<string>): Walk -> seq<Record> {
    (w: Walk) => [Entry(g, root, path, w)]
  }

  /** The records of the walks, one each and in their order. */
  ghost function Entries(g: Graph, root: TypeId, path: seq<string>, ws: seq<Walk>): seq<Record> {
    FlatMap(ws, EntryOf(g, root, path))
  }

  lemma {:induction false} EntriesAt(g: Graph, root: TypeId, path: seq<string>, ws: seq<Walk>)
    ensures |Entries(g, root, path, ws)| == |ws|
    ensures forall i :: 0 <= i < |ws| ==> Entries(g, root, path, ws)[i] == Entry(g, root, path, ws[i])
    decreases |ws|
  {
    if ws == [] {
    } else {
      var n := |ws| - 1;
      EntriesAt(g, root, path, ws[..n]);
      assert forall i :: 0 <= i < n ==> ws[..n][i] == ws[i];
    }
  }

  lemma {:induction false} EntryPrepend(g: Graph, root: TypeId, path: seq<string>, k: nat, w: Walk)
    requires k < |Out(g, root)|
    ensures Entry(g, root, path, [k] + w) == Entry(g, Out(g, root)[k].target, path + [Out(g, root)[k].text], w)
  {
    var e := Out(g, root)[k];
    assert ([k] + w)[1..] == w;
    assert path + ([e.text] + Labels(g, e.target, w)) == path + [e.text] + Labels(g, e.target, w);
  }

  lemma {:induction false} EntriesPrepend(g: Graph, root: TypeId, path: seq<string>, k: nat, ws: seq<Walk>)
    requires k < |Out(g, root)|
    ensures Entries(g, root, path, Prepend(k, ws))
            == Entries(g, Out(g, root)[k].target, path + [Out(g, root)[k].text], ws)
    decreases |ws|
  {
    if ws == [] {
    } else {
      var n := |ws| - 1;
      EntriesPrepend(g, root, path, k, ws[..n]);
      EntryPrepend(g, root, path, k, ws[n]);
      FlatMapSnoc(Prepend(k, ws[..n]), [k] + ws[n], EntryOf(g, root, path));
    }
  }

  /** What one call of DoGather appends. */
  ghost function Gathered(g: Graph, root: TypeId, seen: set<TypeId>, path: seq<string>): seq<Record>
    requires Closed(g) && root in g
  {
    Entries(g, root, path, Walks(g, root, seen))
  }

  /** What following one edge appends; nothing if it leads out of the graph. */
  ghost function Beyond(g: Graph, seen: set<TypeId>, path: seq<string>): Edge -> seq<Record> {
    (e: Edge) => if Closed(g) && e.target in g then Gathered(g, e.target, seen, path + [e.text]) else []
  }

  /** What following the edges one after the other appends. */
  ghost function GatherAll(g: Graph, es: seq<Edge>, seen: set<TypeId>, path: seq<string>): seq<Record> {
    FlatMap(es, Beyond(g, seen, path))
  }

  ghost predicate TargetsIn(g: Graph, es: seq<Edge>) {
    forall k :: 0 <= k < |es| ==> es[k].target in g
  }

  lemma {:induction false} Regroup(s: seq<Record>, root: seq<Record>, a: seq<Record>, b: seq<Record>, c: seq<Record>)
    ensures s + root + a + b + c == s + (root + a + b + c)
  {
  }

  /** Recording the walks through the first n edges is recording the root and then following those edges. */
  ghost predicate RecordsVia(g: Graph, tid: TypeId, seen: set<TypeId>, path: seq<string>, n: nat)
    requires Closed(g) && tid in g && tid !in seen && n <= |Out(g, tid)|
  {
    Entries(g, tid, path, WalksVia(g, tid, seen, n))
    == [(tid, PathString(path))] + GatherAll(g, Out(g, tid)[..n], seen + {tid}, path)
  }

  lemma {:induction false} EntriesVia(g: Graph, tid: TypeId, seen: set<TypeId>, path: seq<string>, n: nat)
    requires Closed(g) && tid in g && tid !in seen && n <= |Out(g, tid)|
    ensures RecordsVia(g, tid, seen, path, n)
  {
    RecordsRoot(g, tid, seen, path);
    for k := 0 to n
      invariant RecordsVia(g, tid, seen, path, k)
    {
      RecordsOneMore(g, tid, seen, path, k);
    }
  }

  lemma {:induction false} RecordsRoot(g: Graph, tid: TypeId, seen: set<TypeId>, path: seq<string>)
    requires Closed(g) && tid in g && tid !in seen
    ensures RecordsVia(g, tid, seen, path, 0)
  {
    var ws: seq<Walk> := [[]];
    assert WalksVia(g, tid, seen, 0) == ws && ws == [] + [[]];
    FlatMapSnoc([], [], EntryOf(g, tid, path));
    assert path + [] == path;
    assert Out(g, tid)[..0] == [];
  }

  lemma {:induction false} RecordsOneMore(g: Graph, tid: TypeId, seen: set<TypeId>, path: seq<string>, n: nat)
    requires Closed(g) && tid in g && tid !in seen && n < |Out(g, tid)| && RecordsVia(g, tid, seen, path, n)
    ensures RecordsVia(g, tid, seen, path, n + 1)
  {
    var e, more := Out(g, tid)[n], seen + {tid};
    assert e.target in g;
    var walks := Walks(g, e.target, more);
    EntriesPrepend(g, tid, path, n, walks);
    FlatMapAppend(WalksVia(g, tid, seen, n), Prepend(n, walks), EntryOf(g, tid, path));
    FlatMapNext(Out(g, tid), n, Beyond(g, more, path));
    Extend([(tid, PathString(path))], GatherAll(g, Out(g, tid)[..n], more, path),
           Gathered(g, e.target, more, path + [e.text]));
  }

  lemma {:induction false} Extend(root: seq<Record>, a: seq<Record>, more: seq<Record>)
    ensures root + a + more == root + (a + more)
  {
  }

  /** Recording the root and following all its edges records all walks. */
  lemma {:induction false} GatheredIsRootAndEdges(g: Graph, tid: TypeId, seen: set<TypeId>, path: seq<string>,
                                                  a: seq<Edge>, b: seq<Edge>, c: seq<Edge>)
    requires Closed(g) && tid in g && tid !in seen && Out(g, tid) == a + b + c
    ensures Gathered(g, tid, seen, path)
            == [(tid, PathString(path))] + GatherAll(g, a, seen + {tid}, path) + GatherAll(g, b, seen + {tid}, path)
               + GatherAll(g, c, seen + {tid}, path)
  {
    var n, root, f := |Out(g, tid)|, [(tid, PathString(path))], Beyond(g, seen + {tid}, path);
    EntriesVia(g, tid, seen, path, n);
    assert Out(g, tid)[..n] == a + b + c;
    FlatMapAppend(a, b, f);
    FlatMapAppend(a + b, c, f);
    Extend(root, FlatMap(a, f), FlatMap(b, f));
    Extend(root, FlatMap(a + b, f), FlatMap(c, f));
  }

  /** The walks are the repetition-free walks from the root, each listed once. */
  ghost predicate AllWalks(g: Graph, root: TypeId, walks: seq<Walk>) {
    Distinct(walks) && forall w :: w in walks <==> SimpleWalk(g, root, {}, w)
  }

  /** The i-th record tells where the i-th walk ends and what its path is. */
  ghost predicate OnePerWalk(g: Graph, root: TypeId, walks: seq<Walk>, records: seq<Record>) {
    && |records| == |walks|
    && forall i :: 0 <= i < |walks| ==> records[i] == (End(g, root, walks[i]), PathString(Labels(g, root, walks[i])))
  }

  /** What gathering a root appends. */
  ghost function RecordsFrom(r: Registry, aggs: Aggregates): TypeId -> seq<Record> {
    (root: TypeId) =>
      var g := TypeGraph(r, aggs, root);
      TypeGraphIsClosed(r, aggs, root);
      Gathered(g, root, {}, [])
  }

  /** What gathering the roots one after the other appends. */
  ghost function OutputOf(r: Registry, aggs: Aggregates, roots: seq<TypeId>): seq<Record> {
    FlatMap(roots, RecordsFrom(r, aggs))
  }

  /** From nothing, one record per repetition-free walk is gathered. */
  lemma {:induction false} GatheredFromNothing(g: Graph, root: TypeId)
    requires Closed(g) && root in g
    ensures AllWalks(g, root, Walks(g, root, {}))
    ensures OnePerWalk(g, root, Walks(g, root, {}), Gathered(g, root, {}, []))
  {
    var walks := Walks(g, root, {});
    WalksAreSimpleWalks(g, root, {});
    EntriesAt(g, root, [], walks);
    forall i | 0 <= i < |walks|
      ensures Entry(g, root, [], walks[i]) == (End(g, root, walks[i]), PathString(Labels(g, root, walks[i])))
    {
      assert [] + Labels(g, root, walks[i]) == Labels(g, root, walks[i]);
    }
  }

  function Items(s: seq<TypeId>): set<TypeId> {
    set t | t in s
  }

  lemma {:induction false} ItemsPush(s: seq<TypeId>, t: TypeId)
    ensures Items(s + [t]) == Items(s) + {t}
  {
  }

  /** The three kinds of edges of tid all lead into the graph. */
  lemma {:induction false} KindsOfEdges(g: Graph, r: Registry, aggs: Aggregates, tid: TypeId)
    requires Closed(g) && IsGraphOf(g, r, aggs) && tid in g
    ensures Out(g, tid) == EdgesOf(r, aggs, tid)
    ensures TargetsIn(g, FlatMap(AttributesOf(r, tid), AttributeEdge(r)))
    ensures TargetsIn(g, FlatMap(r.registered, ChildEdge(r, tid)))
    ensures TargetsIn(g, FlatMap(aggs, AggregateEdge(r, tid)))
  {
    assert g[tid] == EdgesOf(r, aggs, tid);
    KindsWithin(g, tid, FlatMap(AttributesOf(r, tid), AttributeEdge(r)), FlatMap(r.registered, ChildEdge(r, tid)),
                FlatMap(aggs, AggregateEdge(r, tid)));
  }

  lemma {:induction false} KindsWithin(g: Graph, tid: TypeId, a: seq<Edge>, b: seq<Edge>, c: seq<Edge>)
    requires Closed(g) && tid in g && Out(g, tid) == a + b + c
    ensures TargetsIn(g, a) && TargetsIn(g, b) && TargetsIn(g, c)
  {
    var out := Out(g, tid);
    forall k | 0 <= k < |a|
      ensures a[k].target in g
    {
      assert out[k] == a[k];
    }
    forall k | 0 <= k < |b|
      ensures b[k].target in g
    {
      assert out[|a| + k] == b[k];
    }
    forall k | 0 <= k < |c|
      ensures c[k].target in g
    {
      assert out[|a| + |b| + k] == c[k];
    }
  }

  /** The edge of the next item leads into the graph when all edges do. */
  lemma {:induction false} NextEdge<A>(g: Graph, s: seq<A>, i: nat, f: A -> seq<Edge>)
    requires i < |s| && TargetsIn(g, FlatMap(s, f))
    ensures FlatMap(s[..i + 1], f) == FlatMap(s[..i], f) + f(s[i])
    ensures f(s[i]) != [] ==> f(s[i])[0].target in g
  {
    FlatMapNext(s, i, f);
    if f(s[i]) != [] {
      var k := |FlatMap(s[..i], f)|;
      assert FlatMap(s, f)[k] == FlatMap(s[..i + 1], f)[k] == f(s[i])[0];
    }
  }

  // ----- The gatherer -----

  class StaticInformation {
    const registry: Registry
    var output: seq<Record>
    var currentPath: seq<string>
    var alreadyProcessed: seq<TypeId>
    var aggregates: Aggregates
    var noTids: seq<string>

    constructor (registry: Registry)
      ensures this.registry == registry
      ensures output == [] && currentPath == [] && alreadyProcessed == [] && aggregates == [] && noTids == []
    {
      this.registry := registry;
      output, currentPath, alreadyProcessed, aggregates, noTids := [], [], [], [], [];
    }

    /** An aggregation is recorded when both names are registered; otherwise the first missing name is noted. */
    method RecordAggregationInfo(a: string, b: string)
      modifies this`aggregates, this`noTids
      ensures Registered(registry, a) && Registered(registry, b) ==>
                && noTids == old(noTids) && |aggregates| == |old(aggregates)| + 1 && old(aggregates) <= aggregates
                && IsTypeNamed(registry, aggregates[|aggregates| - 1].0, a)
                && IsTypeNamed(registry, aggregates[|aggregates| - 1].1, b)
      ensures !(Registered(registry, a) && Registered(registry, b)) ==>
                && aggregates == old(aggregates)
                && noTids == old(noTids) + [if Registered(registry, a) then b else a]
    {
      LookupFinds(registry, a);
      LookupFinds(registry, b);
      var aTid := Lookup(registry, registry.registered, a);
      if aTid.None? {
        noTids := noTids + [a];
        return;
      }
      var bTid := Lookup(registry, registry.registered, b);
      if bTid.None? {
        noTids := noTids + [b];
        return;
      }
      aggregates := aggregates + [(aTid.value, bTid.value)];
    }

    method GetCurrentPath() returns (s: string)
      ensures s == PathString(currentPath)
    {
      s := "";
      for k := 0 to |currentPath|
        invariant s == PathString(currentPath[..k])
      {
        assert currentPath[..k + 1][..k] == currentPath[..k];
        s := s + "/" + currentPath[k];
      }
      assert currentPath[..|currentPath|] == currentPath;
    }

    method RecordOutput(tid: TypeId)
      modifies this`output
      ensures output == old(output) + [(tid, PathString(currentPath))]
    {
      var path := GetCurrentPath();
      output := output + [(tid, path)];
    }

    method HasAlreadyBeenProcessed(tid: TypeId) returns (b: bool)
      ensures b == (tid in Items(alreadyProcessed))
    {
      for k := 0 to |alreadyProcessed|
        invariant tid !in alreadyProcessed[..k]
      {
        if alreadyProcessed[k] == tid {
          return true;
        }
      }
      return false;
    }

    /** What every step of the recursion needs to know about the graph. */
    ghost predicate Ready(g: Graph, tid: TypeId)
      reads this`aggregates
    {
      Closed(g) && IsGraphOf(g, registry, aggregates) && tid in g
    }

    /** One edge: push the path and the type, recurse, pop both. */
    method Descend(ghost g: Graph, tid: TypeId, text: string, target: TypeId)
      requires Ready(g, tid) && target in g && tid !in Items(alreadyProcessed)
      modifies this`output, this`currentPath, this`alreadyProcessed
      ensures currentPath == old(currentPath) && alreadyProcessed == old(alreadyProcessed)
      ensures output == old(output) + Gathered(g, target, Items(alreadyProcessed) + {tid}, currentPath + [text])
      decreases Unseen(g.Keys, Items(alreadyProcessed)), 0
    {
      ghost var path, types := currentPath, alreadyProcessed;
      UnseenShrinks(g.Keys, Items(types), tid);
      ItemsPush(types, tid);
      PushPop(types, tid);
      PushPop(path, text);
      currentPath := currentPath + [text];
      alreadyProcessed := alreadyProcessed + [tid];
      DoGather(g, target);
      alreadyProcessed := alreadyProcessed[..|alreadyProcessed| - 1];
      currentPath := currentPath[..|currentPath| - 1];
    }

    /**
     * Append one entry for every walk from tid that repeats no type and meets none that is already
     * on the stack; the stacks are as before afterwards.
     */
    method DoGather(ghost g: Graph, tid: TypeId)
      requires Ready(g, tid)
      modifies this`output, this`currentPath, this`alreadyProcessed
      ensures currentPath == old(currentPath) && alreadyProcessed == old(alreadyProcessed)
      ensures output == old(output) + Gathered(g, tid, Items(alreadyProcessed), currentPath)
      decreases Unseen(g.Keys, Items(alreadyProcessed)), 4
    {
      var done := HasAlreadyBeenProcessed(tid);
      if done {
        return;
      }
      KindsOfEdges(g, registry, aggregates, tid);
      ghost var a := FlatMap(AttributesOf(registry, tid), AttributeEdge(registry));
      ghost var b := FlatMap(registry.registered, ChildEdge(registry, tid));
      ghost var c := FlatMap(aggregates, AggregateEdge(registry, tid));
      ghost var seen, path := Items(alreadyProcessed), currentPath;
      GatheredIsRootAndEdges(g, tid, seen, path, a, b, c);
      Regroup(output, [(tid, PathString(path))], GatherAll(g, a, seen + {tid}, path),
              GatherAll(g, b, seen + {tid}, path), GatherAll(g, c, seen + {tid}, path));
      RecordOutput(tid);
      FollowAttributes(g, tid);
      FollowChildren(g, tid);
      FollowAggregates(g, tid);
    }

    /**
     * From empty stacks, Gather appends one entry per repetition-free walk from tid, labelled with
     * the path of that walk, and nothing else, whatever has been registered and aggregated.
     */
    method Gather(tid: TypeId) returns (ghost walks: seq<Walk>)
      requires currentPath == [] && alreadyProcessed == []
      modifies this`output, this`currentPath, this`alreadyProcessed
      ensures currentPath == [] && alreadyProcessed == []
      ensures AllWalks(TypeGraph(registry, aggregates, tid), tid, walks)
      ensures output == old(output) + RecordsFrom(registry, aggregates)(tid)
      ensures OnePerWalk(TypeGraph(registry, aggregates, tid), tid, walks, RecordsFrom(registry, aggregates)(tid))
    {
      ghost var g := TypeGraph(registry, aggregates, tid);
      TypeGraphIsClosed(registry, aggregates, tid);
      walks := Walks(g, tid, {});
      GatheredFromNothing(g, tid);
      assert Items([]) == {};
      DoGather(g, tid);
    }

    /** The root objects are gathered one after the other into the same output. */
    method GatherRoots(roots: seq<TypeId>)
      requires currentPath == [] && alreadyProcessed == []
      modifies this`output, this`currentPath, this`alreadyProcessed
      ensures currentPath == [] && alreadyProcessed == []
      ensures output == old(output) + OutputOf(registry, aggregates, roots)
    {
      var f0 := output;
      assert f0 + [] == f0;
      for i := 0 to |roots|
        invariant currentPath == [] && alreadyProcessed == []
        invariant output == f0 + OutputOf(registry, aggregates, roots[..i])
      {
        FlatMapNext(roots, i, RecordsFrom(registry, aggregates));
        Extend(f0, OutputOf(registry, aggregates, roots[..i]), RecordsFrom(registry, aggregates)(roots[i]));
        var _ := Gather(roots[i]);
      }
      assert roots[..|roots|] == roots;
    }

    /** The edges es of tid have been followed since the output was start. */
    ghost predicate Followed(g: Graph, tid: TypeId, start: seq<Record>, es: seq<Edge>)
      reads this
    {
      && Ready(g, tid) && tid !in Items(alreadyProcessed)
      && output == start + GatherAll(g, es, Items(alreadyProcessed) + {tid}, currentPath)
    }

    /** Follow one more edge. */
    method Take(ghost g: Graph, tid: TypeId, ghost start: seq<Record>, ghost es: seq<Edge>, text: string,
                target: TypeId)
      requires Followed(g, tid, start, es) && target in g
      modifies this`output, this`currentPath, this`alreadyProcessed
      ensures currentPath == old(currentPath) && alreadyProcessed == old(alreadyProcessed)
      ensures Followed(g, tid, start, es + [Edge(text, target)])
      decreases Unseen(g.Keys, Items(alreadyProcessed)), 1
    {
      ghost var seen, path := Items(alreadyProcessed) + {tid}, currentPath;
      FlatMapSnoc(es, Edge(text, target), Beyond(g, seen, path));
      Extend(start, GatherAll(g, es, seen, path), Gathered(g, target, seen, path + [text]));
      Descend(g, tid, text, target);
    }

    /** The loop over the attributes: pointers and containers are followed, except pointers to plain objects. */
    method FollowAttributes(ghost g: Graph, tid: TypeId)
      requires Ready(g, tid) && tid !in Items(alreadyProcessed)
      requires TargetsIn(g, FlatMap(AttributesOf(registry, tid), AttributeEdge(registry)))
      modifies this`output, this`currentPath, this`alreadyProcessed
      ensures currentPath == old(currentPath) && alreadyProcessed == old(alreadyProcessed)
      ensures Followed(g, tid, old(output), FlatMap(AttributesOf(registry, tid), AttributeEdge(registry)))
      decreases Unseen(g.Keys, Items(alreadyProcessed)), 2
    {
      var attrs := AttributesOf(registry, tid);
      ghost var es := [];
      assert output == output + [];
      for i := 0 to |attrs|
        invariant currentPath == old(currentPath) && alreadyProcessed == old(alreadyProcessed)
        invariant es == FlatMap(attrs[..i], AttributeEdge(registry)) && Followed(g, tid, old(output), es)
      {
        NextEdge(g, attrs, i, AttributeEdge(registry));
        match attrs[i] {
          case Pointer(name, pointee) =>
            if pointee != registry.objectType {
              Take(g, tid, old(output), es, name, pointee);
              es := es + [Edge(name, pointee)];
            }
          case Container(name, item) =>
            Take(g, tid, old(output), es, name + "/[i]", item);
            es := es + [Edge(name + "/[i]", item)];
          case Plain(_) =>
        }
      }
      assert attrs[..|attrs|] == attrs;
    }

    /** The loop over the registered types: those that descend from tid are followed. */
    method FollowChildren(ghost g: Graph, tid: TypeId)
      requires Ready(g, tid) && tid !in Items(alreadyProcessed)
      requires TargetsIn(g, FlatMap(registry.registered, ChildEdge(registry, tid)))
      modifies this`output, this`currentPath, this`alreadyProcessed
      ensures currentPath == old(currentPath) && alreadyProcessed == old(alreadyProcessed)
      ensures Followed(g, tid, old(output), FlatMap(registry.registered, ChildEdge(registry, tid)))
      decreases Unseen(g.Keys, Items(alreadyProcessed)), 2
    {
      var types := registry.registered;
      ghost var es := [];
      assert output == output + [];
      for j := 0 to |types|
        invariant currentPath == old(currentPath) && alreadyProcessed == old(alreadyProcessed)
        invariant es == FlatMap(types[..j], ChildEdge(registry, tid)) && Followed(g, tid, old(output), es)
      {
        NextEdge(g, types, j, ChildEdge(registry, tid));
        if (types[j], tid) in registry.childOf {
          Take(g, tid, old(output), es, "$" + NameOf(registry, types[j]), types[j]);
          es := es + [Edge("$" + NameOf(registry, types[j]), types[j])];
        }
      }
      assert types[..|types|] == types;
    }

    /** The loop over the aggregations: those that tid takes part in are followed to their other end. */
    method FollowAggregates(ghost g: Graph, tid: TypeId)
      requires Ready(g, tid) && tid !in Items(alreadyProcessed)
      requires TargetsIn(g, FlatMap(aggregates, AggregateEdge(registry, tid)))
      modifies this`output, this`currentPath, this`alreadyProcessed
      ensures currentPath == old(currentPath) && alreadyProcessed == old(alreadyProcessed)
      ensures Followed(g, tid, old(output), FlatMap(aggregates, AggregateEdge(registry, tid)))
      decreases Unseen(g.Keys, Items(alreadyProcessed)), 2
    {
      var aggs := aggregates;
      ghost var es := [];
      assert output == output + [];
      for j := 0 to |aggs|
        invariant currentPath == old(currentPath) && alreadyProcessed == old(alreadyProcessed)
        invariant es == FlatMap(aggs[..j], AggregateEdge(registry, tid)) && Followed(g, tid, old(output), es)
      {
        NextEdge(g, aggs, j, AggregateEdge(registry, tid));
        if aggs[j].0 == tid || aggs[j].1 == tid {
          var other := aggs[j].1;
          if aggs[j].1 == tid {
            other := aggs[j].0;
          }
          Take(g, tid, old(output), es, "$" + NameOf(registry, other), other);
          es := es + [Edge("$" + NameOf(registry, other), other)];
        }
      }
      assert aggs[..|aggs|] == aggs;
    }
  }
}
