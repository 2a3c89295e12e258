/** Facts about repetition-free sequences that several models share. */
module Sequences {

  /** No item occurs twice. */
  ghost predicate Distinct<T>(s: seq<T>) {
    forall i, j :: 0 <= i < j < |s| ==> s[i] != s[j]
  }

  /** Pigeonhole: a repetition-free sequence over a set is no longer than the set. */
  lemma {:induction false} DistinctFits<T>(s: seq<T>, u: set<T>)
    requires Distinct(s)
    requires forall i :: 0 <= i < |s| ==> s[i] in u
    ensures |s| <= |u|
  {
    if s == [] {
    } else {
      var n := |s| - 1;
      DistinctFits(s[..n], u - {s[n]});
    }
  }

  /** Pigeonhole, the other way: a sequence longer than the set that holds its items repeats one. */
  lemma {:induction false} RepeatsWhenLong<T>(s: seq<T>, u: set<T>) returns (i: nat, j: nat)
    requires forall k :: 0 <= k < |s| ==> s[k] in u
    requires |s| > |u|
    ensures i < j < |s| && s[i] == s[j]
  {
    if Distinct(s) {
      DistinctFits(s, u);
    }
    i, j :| 0 <= i < j < |s| && s[i] == s[j];
  }

  /** A repetition-free sequence has as many items as the set of its items. */
  lemma {:induction false} DistinctCardinality<T>(s: seq<T>)
    requires Distinct(s)
    ensures |set x | x in s| == |s|
  {
    if s == [] {
    } else {
      var n := |s| - 1;
      DistinctCardinality(s[..n]);
      assert s[n] !in s[..n];
      assert (set x | x in s) == (set x | x in s[..n]) + {s[n]};
    }
  }

  ghost predicate NoneShared<T>(s: seq<T>, t: seq<T>) {
    forall x :: x in s ==> x !in t
  }

  /** Repetition-free sequences without a common item, one after the other. */
  lemma {:induction false} DistinctAppend<T>(s: seq<T>, t: seq<T>)
    requires Distinct(s) && Distinct(t) && NoneShared(s, t)
    ensures Distinct(s + t)
  {
    forall i, j | 0 <= i < j < |s + t|
      ensures (s + t)[i] != (s + t)[j]
    {
      if i < |s| <= j {
        assert s[i] in s;
      }
    }
  }

  lemma {:induction false} DistinctParts<T>(s: seq<T>, t: seq<T>)
    requires Distinct(s + t)
    ensures Distinct(s) && Distinct(t) && NoneShared(s, t)
  {
    var all := s + t;
    forall i, j | 0 <= i < j < |s|
      ensures s[i] != s[j]
    {
      assert all[i] == s[i] && all[j] == s[j];
    }
    forall i, j | 0 <= i < j < |t|
      ensures t[i] != t[j]
    {
      assert all[|s| + i] == t[i] && all[|s| + j] == t[j];
    }
    forall x | x in s
      ensures x !in t
    {
      var i :| 0 <= i < |s| && s[i] == x;
      assert all[i] == x;
      assert forall j :: 0 <= j < |t| ==> all[|s| + j] == t[j];
    }
  }

  /** Two repetition-free sequences with the same items have the same length. */
  lemma {:induction false} SameItemsSameLength<T>(s: seq<T>, t: seq<T>)
    requires Distinct(s) && Distinct(t)
    requires forall x :: x in s <==> x in t
    ensures |s| == |t|
  {
    DistinctCardinality(s);
    DistinctCardinality(t);
    assert (set x | x in s) == (set x | x in t);
  }

  /** Popping undoes pushing. */
  lemma {:induction false} PushPop<T>(s: seq<T>, x: T)
    ensures (s + [x])[..|s|] == s
  {
  }

  /** The images of the items, one after the other. */
  function FlatMap<A, B>(s: seq<A>, f: A -> seq<B>): seq<B> {
    if s == [] then [] else FlatMap(s[..|s| - 1], f) + f(s[|s| - 1])
  }

  function Itself<T>(): seq<T> -> seq<T> { (s: seq<T>) => s }

  /** The sequences one after the other. */
  function Flatten<T>(s: seq<seq<T>>): seq<T> {
    FlatMap(s, Itself())
  }

  lemma {:induction false} FlatMapSnoc<A, B>(s: seq<A>, x: A, f: A -> seq<B>)
    ensures FlatMap(s + [x], f) == FlatMap(s, f) + f(x)
  {
  }

  lemma {:induction false} FlatMapOne<A, B>(x: A, f: A -> seq<B>)
    ensures FlatMap([x], f) == f(x)
  {
    assert [x][..0] == [];
    assert [] + f(x) == f(x);
  }

  lemma {:induction false} FlatMapAppend<A, B>(s: seq<A>, t: seq<A>, f: A -> seq<B>)
    ensures FlatMap(s + t, f) == FlatMap(s, f) + FlatMap(t, f)
    decreases |t|
  {
    if t == [] {
      assert s + t == s;
      assert FlatMap(s, f) + [] == FlatMap(s, f);
    } else {
      var n := |t| - 1;
      FlatMapAppend(s, t[..n], f);
      assert s + t == (s + t[..n]) + [t[n]];
      FlatMapSnoc(s + t[..n], t[n], f);
      assert FlatMap(s, f) + FlatMap(t[..n], f) + f(t[n]) == FlatMap(s, f) + (FlatMap(t[..n], f) + f(t[n]));
    }
  }

  /** One more item, on the way to the whole. */
  lemma {:induction false} FlatMapNext<A, B>(s: seq<A>, i: nat, f: A -> seq<B>)
    requires i < |s|
    ensures FlatMap(s[..i + 1], f) == FlatMap(s[..i], f) + f(s[i])
    ensures FlatMap(s[..i + 1], f) <= FlatMap(s, f)
  {
    assert s[..i + 1] == s[..i] + [s[i]];
    FlatMapSnoc(s[..i], s[i], f);
    assert s == s[..i + 1] + s[i + 1..];
    FlatMapAppend(s[..i + 1], s[i + 1..], f);
  }

  lemma {:induction false} FlatMapHolds<A, B>(s: seq<A>, f: A -> seq<B>, y: B)
    ensures y in FlatMap(s, f) <==> exists i :: 0 <= i < |s| && y in f(s[i])
    decreases |s|
  {
    if s == [] {
    } else {
      var n := |s| - 1;
      FlatMapHolds(s[..n], f, y);
      assert y in FlatMap(s, f) <==> y in FlatMap(s[..n], f) || y in f(s[n]);
      assert forall i :: 0 <= i < n ==> s[..n][i] == s[i];
    }
  }

  /** A flattened sequence shares an item with t exactly when one of its parts does. */
  lemma {:induction false} FlatMapNoneShared<A, B>(s: seq<A>, f: A -> seq<B>, t: seq<B>)
    ensures NoneShared(FlatMap(s, f), t) <==> forall i :: 0 <= i < |s| ==> NoneShared(f(s[i]), t)
  {
    if NoneShared(FlatMap(s, f), t) {
      forall i, x | 0 <= i < |s| && x in f(s[i])
        ensures x !in t
      {
        FlatMapHolds(s, f, x);
      }
    }
    if forall i :: 0 <= i < |s| ==> NoneShared(f(s[i]), t) {
      forall x | x in FlatMap(s, f)
        ensures x !in t
      {
        FlatMapHolds(s, f, x);
      }
    }
  }

  /** Every part is repetition-free, and no two parts share an item. */
  ghost predicate DistinctImages<A, B>(s: seq<A>, f: A -> seq<B>) {
    && (forall i :: 0 <= i < |s| ==> Distinct(f(s[i])))
    && forall i, j :: 0 <= i < j < |s| ==> NoneShared(f(s[i]), f(s[j]))
  }

  lemma {:induction false} DistinctImagesSnoc<A, B>(s: seq<A>, x: A, f: A -> seq<B>)
    ensures DistinctImages(s + [x], f) <==>
            DistinctImages(s, f) && Distinct(f(x)) && forall i :: 0 <= i < |s| ==> NoneShared(f(s[i]), f(x))
  {
    var t := s + [x];
    assert t[|s|] == x && forall i :: 0 <= i < |s| ==> t[i] == s[i];
  }

  /** A flattened sequence is repetition-free exactly when its parts are and share no item. */
  lemma {:induction false} FlatMapDistinctIff<A, B>(s: seq<A>, f: A -> seq<B>)
    ensures Distinct(FlatMap(s, f)) <==> DistinctImages(s, f)
    decreases |s|
  {
    if s == [] {
    } else {
      var n := |s| - 1;
      var init, x := s[..n], s[n];
      assert s == init + [x];
      FlatMapDistinctIff(init, f);
      FlatMapNoneShared(init, f, f(x));
      DistinctImagesSnoc(init, x, f);
      if Distinct(FlatMap(s, f)) {
        DistinctParts(FlatMap(init, f), f(x));
      }
      if DistinctImages(s, f) {
        DistinctAppend(FlatMap(init, f), f(x));
      }
    }
  }
}
