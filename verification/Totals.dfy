/** Sums of a measure over the items of a sequence. */
module Totals {
  import opened Sequences

  function Total<T>(s: seq<T>, f: T -> nat): nat {
    if s == [] then 0 else Total(s[..|s| - 1], f) + f(s[|s| - 1])
  }

  lemma {:induction false} TotalAppend<T>(s: seq<T>, x: T, f: T -> nat)
    ensures Total(s + [x], f) == Total(s, f) + f(x)
  {
  }

  lemma {:induction false} TotalHead<T>(s: seq<T>, f: T -> nat)
    requires s != []
    ensures Total(s, f) == f(s[0]) + Total(s[1..], f)
  {
    var n := |s| - 1;
    if n == 0 {
    } else {
      TotalHead(s[..n], f);
      assert s[..n][1..] == s[1..][..n - 1];
    }
  }

  lemma {:induction false} TotalUpdate<T>(s: seq<T>, i: nat, x: T, f: T -> nat)
    requires i < |s|
    ensures Total(s[i := x], f) == Total(s, f) - f(s[i]) + f(x)
    ensures Total(s, f) >= f(s[i])
  {
    var n := |s| - 1;
    if i < n {
      TotalUpdate(s[..n], i, x, f);
      assert s[i := x][..n] == s[..n][i := x];
    } else {
      assert s[i := x][..n] == s[..n];
    }
  }

  /** A sum is zero exactly when every item contributes zero. */
  lemma {:induction false} TotalZero<T>(s: seq<T>, f: T -> nat)
    ensures Total(s, f) == 0 <==> forall i :: 0 <= i < |s| ==> f(s[i]) == 0
  {
    if s == [] {
    } else {
      var n := |s| - 1;
      TotalZero(s[..n], f);
      if Total(s, f) == 0 {
        forall i | 0 <= i < |s|
          ensures f(s[i]) == 0
        {
          if i < n {
            assert s[..n][i] == s[i];
          }
        }
      }
    }
  }

  /** A sum of items that contribute at most one is at most the length, and equal when all contribute. */
  lemma {:induction false} TotalAtMostLength<T>(s: seq<T>, f: T -> nat)
    requires forall i :: 0 <= i < |s| ==> f(s[i]) <= 1
    ensures Total(s, f) <= |s|
    ensures Total(s, f) == |s| <==> forall i :: 0 <= i < |s| ==> f(s[i]) == 1
  {
    if s == [] {
    } else {
      var n := |s| - 1;
      assert forall i :: 0 <= i < n ==> s[..n][i] == s[i];
      TotalAtMostLength(s[..n], f);
    }
  }

  lemma {:induction false} TotalBoth<T>(s: seq<T>, t: seq<T>, f: T -> nat)
    ensures Total(s + t, f) == Total(s, f) + Total(t, f)
    decreases |t|
  {
    if t == [] {
      assert s + t == s;
    } else {
      var n := |t| - 1;
      TotalBoth(s, t[..n], f);
      assert s + t == (s + t[..n]) + [t[n]];
      TotalAppend(s + t[..n], t[n], f);
    }
  }

  /** The sum over a flattened sequence, when g sums up the image of each item. */
  lemma {:induction false} TotalFlatMap<A, B>(s: seq<A>, f: A -> seq<B>, h: B -> nat, g: A -> nat)
    requires forall i :: 0 <= i < |s| ==> g(s[i]) == Total(f(s[i]), h)
    ensures Total(FlatMap(s, f), h) == Total(s, g)
    decreases |s|
  {
    if s == [] {
    } else {
      var n := |s| - 1;
      assert forall i :: 0 <= i < n ==> s[..n][i] == s[i];
      TotalFlatMap(s[..n], f, h, g);
      TotalBoth(FlatMap(s[..n], f), f(s[n]), h);
    }
  }

  /** Smaller items give a smaller sum, and the sums are equal only when all items are. */
  lemma {:induction false} TotalAtMost<T>(s: seq<T>, f: T -> nat, g: T -> nat)
    requires forall i :: 0 <= i < |s| ==> f(s[i]) <= g(s[i])
    ensures Total(s, f) <= Total(s, g)
    ensures Total(s, f) == Total(s, g) <==> forall i :: 0 <= i < |s| ==> f(s[i]) == g(s[i])
    decreases |s|
  {
    if s == [] {
    } else {
      var n := |s| - 1;
      assert forall i :: 0 <= i < n ==> s[..n][i] == s[i];
      TotalAtMost(s[..n], f, g);
    }
  }
}
