/** permutations from bindings/python/rad_util.py: every rearrangement of a list, by insertion. */
module Permutations {
  import opened Powers
  import opened Sequences

  function Factorial(n: nat): nat {
    if n == 0 then 1 else n * Factorial(n - 1)
  }

  /** new_list.insert(i, item) on a copy of the list. */
  function InsertAt<T>(s: seq<T>, i: nat, x: T): seq<T>
    requires i <= |s|
  {
    s[..i] + [x] + s[i..]
  }

  /** The item inserted at positions below n. */
  function Insertions<T>(s: seq<T>, x: T, n: nat): seq<seq<T>>
    requires n <= |s| + 1
  {
    if n == 0 then [] else Insertions(s, x, n - 1) + [InsertAt(s, n - 1, x)]
  }

  function Inserter<T>(x: T): seq<T> -> seq<seq<T>> {
    (s: seq<T>) => Insertions(s, x, |s| + 1)
  }

  /** The lists that permutations builds, in its order. */
  function Perms<T>(s: seq<T>): seq<seq<T>> {
    if |s| > 1 then FlatMap(Perms(s[1..]), Inserter(s[0])) else [s]
  }

  ghost predicate Rearranges<T>(p: seq<T>, s: seq<T>) {
    multiset(p) == multiset(s)
  }

  // ----- Insertion -----

  lemma {:induction false} InsertionsAre<T>(s: seq<T>, x: T, n: nat)
    requires n <= |s| + 1
    ensures |Insertions(s, x, n)| == n
    ensures forall i :: 0 <= i < n ==> Insertions(s, x, n)[i] == InsertAt(s, i, x)
    decreases n
  {
    if n == 0 {
    } else {
      InsertionsAre(s, x, n - 1);
      var before := Insertions(s, x, n - 1);
      assert Insertions(s, x, n) == before + [InsertAt(s, n - 1, x)];
      forall i | 0 <= i < n
        ensures Insertions(s, x, n)[i] == InsertAt(s, i, x)
      {
        if i < n - 1 {
          assert Insertions(s, x, n)[i] == before[i];
        }
      }
    }
  }

  lemma {:induction false} WhereInserted<T>(s: seq<T>, x: T, p: seq<T>) returns (k: nat)
    requires p in Inserter(x)(s)
    ensures k <= |s| && p == InsertAt(s, k, x)
  {
    InsertionsAre(s, x, |s| + 1);
    k :| 0 <= k < |s| + 1 && Insertions(s, x, |s| + 1)[k] == p;
  }

  lemma {:induction false} InsertAdds<T>(s: seq<T>, i: nat, x: T)
    requires i <= |s|
    ensures multiset(InsertAt(s, i, x)) == multiset(s) + multiset{x}
  {
    assert s == s[..i] + s[i..];
  }

  /** An item that is not in the lists can be found again after it was inserted. */
  lemma {:induction false} InsertInjective<T>(s: seq<T>, i: nat, t: seq<T>, j: nat, x: T)
    requires i <= |s| && j <= |t| && x !in s && x !in t
    requires InsertAt(s, i, x) == InsertAt(t, j, x)
    ensures i == j && s == t
  {
    var p := InsertAt(s, i, x);
    assert p[i] == x && p[j] == x;
    assert s == p[..i] + p[i + 1..];
    assert t == p[..i] + p[i + 1..];
  }

  /** Taking an item out at its place, the inverse of inserting it. */
  lemma {:induction false} TakeOut<T>(p: seq<T>, s: seq<T>) returns (q: seq<T>, k: nat)
    requires s != [] && Rearranges(p, s)
    ensures Rearranges(q, s[1..]) && k <= |q| && p == InsertAt(q, k, s[0])
  {
    assert s == [s[0]] + s[1..];
    assert multiset(s) == multiset(s[1..]) + multiset{s[0]};
    assert s[0] in multiset(p);
    k :| 0 <= k < |p| && p[k] == s[0];
    q := p[..k] + p[k + 1..];
    assert p == InsertAt(q, k, s[0]);
    InsertAdds(q, k, s[0]);
    Cancel(multiset(q), multiset(s[1..]), s[0]);
  }

  lemma {:induction false} Cancel<T>(a: multiset<T>, b: multiset<T>, x: T)
    requires a + multiset{x} == b + multiset{x}
    ensures a == b
  {
    assert (a + multiset{x}) - multiset{x} == a && (b + multiset{x}) - multiset{x} == b;
  }

  // ----- What a flattened list holds -----

  lemma {:induction false} FlatMapLength<A, B>(s: seq<A>, f: A -> seq<B>, n: nat)
    requires forall i :: 0 <= i < |s| ==> |f(s[i])| == n
    ensures |FlatMap(s, f)| == |s| * n
    decreases |s|
  {
    if s == [] {
    } else {
      var m := |s| - 1;
      assert forall i :: 0 <= i < m ==> s[..m][i] == s[i];
      FlatMapLength(s[..m], f, n);
      MulSuccessor(m, n);
    }
  }

  // ----- The permutations -----

  /** Exactly the rearrangements of the input occur. */
  lemma {:induction false} PermsAreRearrangements<T>(s: seq<T>, p: seq<T>)
    ensures p in Perms(s) <==> Rearranges(p, s)
    decreases |s|
  {
    if |s| > 1 {
      FlatMapHolds(Perms(s[1..]), Inserter(s[0]), p);
      if p in Perms(s) {
        var i :| 0 <= i < |Perms(s[1..])| && p in Inserter(s[0])(Perms(s[1..])[i]);
        PermsAreRearrangements(s[1..], Perms(s[1..])[i]);
        Sound(s, Perms(s[1..])[i], p);
      }
      if Rearranges(p, s) {
        Complete(s, p);
      }
    } else {
      Short(s, p);
    }
  }

  lemma {:induction false} Sound<T>(s: seq<T>, q: seq<T>, p: seq<T>)
    requires |s| > 1 && Rearranges(q, s[1..]) && p in Inserter(s[0])(q)
    ensures Rearranges(p, s)
  {
    var k := WhereInserted(q, s[0], p);
    InsertAdds(q, k, s[0]);
    assert s == [s[0]] + s[1..];
  }

  lemma {:induction false} Complete<T>(s: seq<T>, p: seq<T>)
    requires |s| > 1 && Rearranges(p, s)
    ensures exists i :: 0 <= i < |Perms(s[1..])| && p in Inserter(s[0])(Perms(s[1..])[i])
    decreases |s|, 0
  {
    var q, k := TakeOut(p, s);
    PermsAreRearrangements(s[1..], q);
    var i :| 0 <= i < |Perms(s[1..])| && Perms(s[1..])[i] == q;
    InsertionsAre(q, s[0], |q| + 1);
    assert Insertions(q, s[0], |q| + 1)[k] == p;
  }

  lemma {:induction false} Short<T>(s: seq<T>, p: seq<T>)
    requires |s| <= 1
    ensures p == s <==> Rearranges(p, s)
  {
  }

  lemma {:induction false} RearrangedLength<T>(p: seq<T>, s: seq<T>)
    requires Rearranges(p, s)
    ensures |p| == |s|
  {
    assert |multiset(p)| == |multiset(s)|;
  }

  /** There are n! of them. */
  lemma {:induction false} PermsCount<T>(s: seq<T>)
    ensures |Perms(s)| == Factorial(|s|)
    decreases |s|
  {
    if |s| <= 1 {
      assert Factorial(1) == 1 * Factorial(0);
    } else {
      InsertedLengths(s);
      FlatMapLength(Perms(s[1..]), Inserter(s[0]), |s|);
      PermsCount(s[1..]);
      FactorialStep(|s|, |Perms(s[1..])|);
    }
  }

  lemma {:induction false} FactorialStep(n: nat, c: nat)
    requires n > 0 && c == Factorial(n - 1)
    ensures c * n == Factorial(n)
  {
  }

  lemma {:induction false} InsertedLengths<T>(s: seq<T>)
    requires s != []
    ensures forall i :: 0 <= i < |Perms(s[1..])| ==> |Inserter(s[0])(Perms(s[1..])[i])| == |s|
  {
    var subs := Perms(s[1..]);
    forall i | 0 <= i < |subs|
      ensures |Inserter(s[0])(subs[i])| == |s|
    {
      PermsAreRearrangements(s[1..], subs[i]);
      RearrangedLength(subs[i], s[1..]);
      InsertionsAre(subs[i], s[0], |subs[i]| + 1);
    }
  }

  lemma {:induction false} ItemsOf<T>(p: seq<T>, s: seq<T>, x: T)
    requires Rearranges(p, s)
    ensures x in p <==> x in s
  {
    assert x in p <==> x in multiset(p);
  }

  /** Distinct items give distinct lists. */
  lemma {:induction false} PermsDistinct<T>(s: seq<T>)
    requires Distinct(s)
    ensures Distinct(Perms(s))
    decreases |s|
  {
    if |s| <= 1 {
    } else {
      var x, subs := s[0], Perms(s[1..]);
      PermsDistinct(s[1..]);
      forall i | 0 <= i < |subs|
        ensures x !in subs[i]
      {
        PermsAreRearrangements(s[1..], subs[i]);
        ItemsOf(subs[i], s[1..], x);
      }
      forall i | 0 <= i < |subs|
        ensures Distinct(Inserter(x)(subs[i]))
      {
        InsertionsDistinct(subs[i], x);
      }
      forall i, j | 0 <= i < j < |subs|
        ensures NoneShared(Inserter(x)(subs[i]), Inserter(x)(subs[j]))
      {
        InsertionsDisjoint(subs[i], subs[j], x);
      }
      FlatMapDistinctIff(subs, Inserter(x));
    }
  }

  lemma {:induction false} InsertionsDistinct<T>(q: seq<T>, x: T)
    requires x !in q
    ensures Distinct(Inserter(x)(q))
  {
    InsertionsAre(q, x, |q| + 1);
    forall i, j | 0 <= i < j < |q| + 1
      ensures InsertAt(q, i, x) != InsertAt(q, j, x)
    {
      if InsertAt(q, i, x) == InsertAt(q, j, x) {
        InsertInjective(q, i, q, j, x);
      }
    }
  }

  lemma {:induction false} InsertionsDisjoint<T>(q: seq<T>, r: seq<T>, x: T)
    requires x !in q && x !in r && q != r
    ensures NoneShared(Inserter(x)(q), Inserter(x)(r))
  {
    forall y | y in Inserter(x)(q)
      ensures y !in Inserter(x)(r)
    {
      var i := WhereInserted(q, x, y);
      if y in Inserter(x)(r) {
        var j := WhereInserted(r, x, y);
        InsertInjective(q, i, r, j, x);
      }
    }
  }

  /** The recursive function with its two loops. */
  method ListPermutations<T>(input: seq<T>) returns (out: seq<seq<T>>)
    ensures out == Perms(input)
    ensures |out| == Factorial(|input|)
    ensures forall p :: p in out <==> Rearranges(p, input)
    ensures Distinct(input) ==> Distinct(out)
    decreases |input|
  {
    if |input| > 1 {
      var item := input[0];
      var subLists := ListPermutations(input[1..]);
      out := [];
      for k := 0 to |subLists|
        invariant out == FlatMap(subLists[..k], Inserter(item))
      {
        RearrangedLength(subLists[k], input[1..]);
        var lists := InsertEverywhere(subLists[k], item, |input|);
        FlatMapNext(subLists, k, Inserter(item));
        out := out + lists;
      }
      assert subLists[..|subLists|] == subLists;
    } else {
      out := [input];
    }
    Summary(input);
  }

  lemma {:induction false} Summary<T>(s: seq<T>)
    ensures |Perms(s)| == Factorial(|s|)
    ensures forall p :: p in Perms(s) <==> Rearranges(p, s)
    ensures Distinct(s) ==> Distinct(Perms(s))
  {
    PermsCount(s);
    forall p: seq<T>
      ensures p in Perms(s) <==> Rearranges(p, s)
    {
      PermsAreRearrangements(s, p);
    }
    if Distinct(s) {
      PermsDistinct(s);
    }
  }

  /** The inner loop. */
  method InsertEverywhere<T>(subList: seq<T>, item: T, n: nat) returns (lists: seq<seq<T>>)
    requires n == |subList| + 1
    ensures lists == Insertions(subList, item, n)
  {
    lists := [];
    for i := 0 to n
      invariant lists == Insertions(subList, item, i)
    {
      var newList := subList[..i] + [item] + subList[i..];
      lists := lists + [newList];
    }
  }
}
