/** The byte counters and Jain's fairness index of examples/tcp/dctcp-example.cc. */
module Fairness {

  /** uint64_t arithmetic is modulo this. */
  const WRAP: nat := 0x1_0000_0000_0000_0000

  function Sum(s: seq<nat>): nat {
    if s == [] then 0 else Sum(s[..|s| - 1]) + s[|s| - 1]
  }

  function SumSquares(s: seq<nat>): nat {
    if s == [] then 0 else SumSquares(s[..|s| - 1]) + s[|s| - 1] * s[|s| - 1]
  }

  ghost predicate AllEqual(s: seq<nat>) {
    forall i, j :: 0 <= i < j < |s| ==> s[i] == s[j]
  }

  ghost predicate All(s: seq<nat>, x: nat) {
    forall i :: 0 <= i < |s| ==> s[i] == x
  }

  /** No two counters are positive. */
  ghost predicate OneTakesAll(s: seq<nat>) {
    forall i, j :: 0 <= i < j < |s| ==> s[i] == 0 || s[j] == 0
  }

  // ----- The index lies between 1/n and 1 -----

  /** The sum of the squared distances to x. */
  function Spread(s: seq<nat>, x: nat): nat {
    if s == [] then 0
    else
      var d := s[|s| - 1] - x;
      SquareIsNat(d);
      Spread(s[..|s| - 1], x) + d * d
  }

  lemma {:induction false} SquareIsNat(d: int)
    ensures d * d >= 0 && (d * d == 0 <==> d == 0)
  {
  }

  lemma {:induction false} SpreadExpanded(s: seq<nat>, x: nat)
    ensures Spread(s, x) == SumSquares(s) - 2 * (x * Sum(s)) + |s| * (x * x)
    decreases |s|
  {
    if s == [] {
    } else {
      var n := |s| - 1;
      SpreadExpanded(s[..n], x);
      Distance(s[n], x, Sum(s[..n]), n);
    }
  }

  lemma {:induction false} Distance(y: nat, x: nat, sum: nat, n: nat)
    ensures (y - x) * (y - x) == y * y - 2 * (x * y) + x * x
    ensures x * (sum + y) == x * sum + x * y
    ensures (n + 1) * (x * x) == n * (x * x) + x * x
  {
  }

  lemma {:induction false} SpreadZero(s: seq<nat>, x: nat)
    ensures Spread(s, x) == 0 <==> All(s, x)
    decreases |s|
  {
    if s == [] {
    } else {
      var n := |s| - 1;
      SpreadZero(s[..n], x);
      SquareIsNat(s[n] - x);
      assert forall i :: 0 <= i < n ==> s[..n][i] == s[i];
      assert All(s, x) <==> All(s[..n], x) && s[n] == x;
    }
  }

  lemma {:induction false} OneMore(n: nat, q: nat, sum: nat, x: nat)
    ensures (n + 1) * (q + x * x) - (sum + x) * (sum + x) == (n * q - sum * sum) + (q - 2 * (x * sum) + n * (x * x))
  {
    assert (n + 1) * (q + x * x) == n * q + n * (x * x) + q + x * x;
    assert (sum + x) * (sum + x) == sum * sum + 2 * (x * sum) + x * x;
  }

  /** The square of the sum is at most n times the sum of the squares, with equality when all are equal. */
  lemma {:induction false} CauchySchwarz(s: seq<nat>)
    ensures Sum(s) * Sum(s) <= |s| * SumSquares(s)
    ensures Sum(s) * Sum(s) == |s| * SumSquares(s) <==> AllEqual(s)
    decreases |s|
  {
    if s == [] {
    } else {
      var n := |s| - 1;
      var init, x := s[..n], s[n];
      CauchySchwarz(init);
      SpreadExpanded(init, x);
      OneMore(n, SumSquares(init), Sum(init), x);
      SpreadZero(init, x);
      EqualSnoc(s);
    }
  }

  lemma {:induction false} EqualSnoc(s: seq<nat>)
    requires s != []
    ensures AllEqual(s) <==> AllEqual(s[..|s| - 1]) && All(s[..|s| - 1], s[|s| - 1])
  {
  }

  lemma {:induction false} SquareOfSum(sum: nat, x: nat)
    ensures (sum + x) * (sum + x) == sum * sum + 2 * (x * sum) + x * x
    ensures x * sum >= 0 && (x * sum == 0 <==> x == 0 || sum == 0)
  {
  }

  lemma {:induction false} SumZero(s: seq<nat>)
    ensures Sum(s) == 0 <==> All(s, 0)
    decreases |s|
  {
    if s == [] {
    } else {
      var n := |s| - 1;
      SumZero(s[..n]);
      assert forall i :: 0 <= i < n ==> s[..n][i] == s[i];
      assert All(s, 0) <==> All(s[..n], 0) && s[n] == 0;
    }
  }

  /** The sum of the squares is at most the square of the sum, with equality when one flow has it all. */
  lemma {:induction false} SquaresBelow(s: seq<nat>)
    ensures SumSquares(s) <= Sum(s) * Sum(s)
    ensures SumSquares(s) == Sum(s) * Sum(s) <==> OneTakesAll(s)
    decreases |s|
  {
    if s == [] {
    } else {
      var n := |s| - 1;
      SquaresBelow(s[..n]);
      SquareOfSum(Sum(s[..n]), s[n]);
      SumZero(s[..n]);
      TakesAllSnoc(s);
    }
  }

  lemma {:induction false} TakesAllSnoc(s: seq<nat>)
    requires s != []
    ensures OneTakesAll(s) <==> OneTakesAll(s[..|s| - 1]) && (s[|s| - 1] == 0 || All(s[..|s| - 1], 0))
  {
  }

  lemma {:induction false} SumPositive(s: seq<nat>)
    requires Sum(s) > 0
    ensures |s| > 0 && |s| * SumSquares(s) > 0
  {
    CauchySchwarz(s);
    assert Sum(s) * Sum(s) >= 1;
  }

  /** Jain's index of the counters. */
  function Jain(s: seq<nat>): real
    requires Sum(s) > 0
  {
    SumPositive(s);
    (Sum(s) * Sum(s)) as real / (|s| * SumSquares(s)) as real
  }

  lemma {:induction false} Ratio(a: nat, b: nat)
    requires b > 0 && a <= b
    ensures a as real / b as real <= 1.0
    ensures a as real / b as real == 1.0 <==> a == b
  {
    var q := a as real / b as real;
    assert q * b as real == a as real;
    assert (q - 1.0) * b as real == a as real - b as real;
  }

  lemma {:induction false} RatioBelow(a: nat, n: nat, q: nat)
    requires n > 0 && q > 0 && q <= a
    ensures n * q > 0
    ensures 1.0 / n as real <= a as real / (n * q) as real
    ensures 1.0 / n as real == a as real / (n * q) as real <==> a == q
  {
    var rn, rq, ra := n as real, q as real, a as real;
    assert (n * q) as real == rn * rq;
    assert rn * rq > 0.0;
    var x := ra / (rn * rq);
    assert x * (rn * rq) == ra;
    assert (x * rn) * rq == ra;
    var y := x * rn;
    assert (y - 1.0) * rq == ra - rq;
    assert y >= 1.0;
    assert y == 1.0 <==> a == q by {
      if y == 1.0 {
        assert ra == rq;
      }
      if a == q {
        assert (y - 1.0) * rq == 0.0;
      }
    }
    var z := 1.0 / rn;
    assert z * rn == 1.0;
    assert (x - z) * rn == y - 1.0;
  }

  /** The index lies between 1/n and 1; it is 1 when all flows get the same and 1/n when one gets it all. */
  lemma {:induction false} JainBounds(s: seq<nat>)
    requires Sum(s) > 0
    ensures |s| > 0 && 1.0 / |s| as real <= Jain(s) <= 1.0
    ensures Jain(s) == 1.0 <==> AllEqual(s)
    ensures Jain(s) == 1.0 / |s| as real <==> OneTakesAll(s)
  {
    SumPositive(s);
    CauchySchwarz(s);
    SquaresBelow(s);
    Ratio(Sum(s) * Sum(s), |s| * SumSquares(s));
    Positive(|s|, SumSquares(s));
    RatioBelow(Sum(s) * Sum(s), |s|, SumSquares(s));
  }

  lemma {:induction false} Positive(n: nat, q: nat)
    requires n * q > 0
    ensures q > 0
  {
  }

  // ----- Wrapping -----

  lemma {:induction false} WrapAdd(a: nat, b: nat)
    ensures (a % WRAP + b) % WRAP == (a + b) % WRAP
    ensures (a + b % WRAP) % WRAP == (a + b) % WRAP
  {
    WrapShift(a % WRAP + b, a / WRAP);
    WrapShift(a + b % WRAP, b / WRAP);
  }

  lemma {:induction false} WrapBoth(a: nat, b: nat)
    ensures (a % WRAP + b % WRAP) % WRAP == (a + b) % WRAP
  {
    WrapAdd(a, b % WRAP);
    WrapAdd(a, b);
  }

  lemma {:induction false} WrapShift(a: nat, k: nat)
    ensures (a + k * WRAP) % WRAP == a % WRAP
    decreases k
  {
    if k == 0 {
    } else {
      WrapShift(a, k - 1);
      assert a + k * WRAP == a + (k - 1) * WRAP + WRAP;
    }
  }

  lemma {:induction false} WrapMul(n: nat, a: nat)
    ensures (n * (a % WRAP)) % WRAP == (n * a) % WRAP
  {
    var k := a / WRAP;
    assert n * a == n * (a % WRAP) + (n * k) * WRAP by {
      assert a == k * WRAP + a % WRAP;
      assert n * (k * WRAP) == (n * k) * WRAP;
      assert n * (k * WRAP + a % WRAP) == n * (k * WRAP) + n * (a % WRAP);
    }
    WrapShift(n * (a % WRAP), n * k);
  }

  /** Sums and products below the modulus come out exact. */
  lemma {:induction false} ExactIff(s: seq<nat>)
    ensures |s| * SumSquares(s) < WRAP <==>
              (Sum(s) * Sum(s)) % WRAP == Sum(s) * Sum(s) && (|s| * SumSquares(s)) % WRAP == |s| * SumSquares(s)
  {
    CauchySchwarz(s);
  }

  lemma {:induction false} SumsBounded(s: seq<nat>, bound: nat)
    requires forall i :: 0 <= i < |s| ==> s[i] <= bound
    ensures SumSquares(s) <= |s| * (bound * bound)
    decreases |s|
  {
    if s == [] {
    } else {
      var n := |s| - 1;
      assert forall i :: 0 <= i < n ==> s[..n][i] == s[i];
      SumsBounded(s[..n], bound);
      AddBounded(SumSquares(s[..n]), s[n], n, bound);
    }
  }

  lemma {:induction false} AddBounded(q: nat, x: nat, n: nat, bound: nat)
    requires q <= n * (bound * bound) && x <= bound
    ensures q + x * x <= (n + 1) * (bound * bound)
  {
    assert x * x <= x * bound <= bound * bound;
    assert (n + 1) * (bound * bound) == n * (bound * bound) + bound * bound;
  }

  /** What one flow can receive in a second over its 1 Gbps link is below this. */
  const FLOW_LIMIT: nat := 0x800_0000

  /** For up to twenty flows of at most 2^27 bytes each, nothing wraps. */
  lemma {:induction false} NoWrap(s: seq<nat>)
    requires |s| <= 20 && forall i :: 0 <= i < |s| ==> s[i] <= FLOW_LIMIT
    ensures |s| * SumSquares(s) < WRAP
  {
    SumsBounded(s, FLOW_LIMIT);
    var b := FLOW_LIMIT * FLOW_LIMIT;
    assert |s| * b <= 20 * b;
    var q := SumSquares(s);
    assert |s| * q <= 20 * q;
  }

  // ----- The counters -----

  datatype Group = S1R1 | S2R2 | S3R1
  datatype Packet = Packet(group: Group, flow: nat, size: nat)

  function Flows(g: Group): nat { if g.S2R2? then 20 else 10 }

  /** The bytes that a flow received. */
  function Delivered(log: seq<Packet>, g: Group, i: nat): nat {
    if log == [] then 0
    else
      var p := log[|log| - 1];
      Delivered(log[..|log| - 1], g, i) + if p.group == g && p.flow == i then p.size else 0
  }

  /** The counters of a group are what its flows received, modulo 2^64. */
  ghost predicate Counts(s: seq<nat>, log: seq<Packet>, g: Group) {
    |s| == Flows(g) && forall i :: 0 <= i < |s| ==> s[i] == Delivered(log, g, i) % WRAP
  }

  lemma {:induction false} CountsNext(s: seq<nat>, log: seq<Packet>, p: Packet, g: Group)
    requires Counts(s, log, g) && p.flow < Flows(p.group)
    ensures p.group != g ==> Counts(s, log + [p], g)
    ensures p.group == g ==> Counts(s[p.flow := (s[p.flow] + p.size) % WRAP], log + [p], g)
  {
  }

  class Counters {
    const s1r1: array<nat>
    const s2r2: array<nat>
    const s3r1: array<nat>
    /** The packets since the counters were last set to zero. */
    ghost var log: seq<Packet>

    ghost predicate Valid()
      reads this, s1r1, s2r2, s3r1
    {
      s1r1 != s2r2 && s2r2 != s3r1 && s1r1 != s3r1
      && Counts(s1r1[..], log, S1R1) && Counts(s2r2[..], log, S2R2) && Counts(s3r1[..], log, S3R1)
    }

    constructor ()
      ensures Valid() && log == [] && fresh(s1r1) && fresh(s2r2) && fresh(s3r1)
    {
      s1r1 := new nat[10](_ => 0);
      s2r2 := new nat[20](_ => 0);
      s3r1 := new nat[10](_ => 0);
      log := [];
    }

    method InitializeCounters()
      requires Valid()
      modifies this, s1r1, s2r2, s3r1
      ensures Valid() && log == []
    {
      log := [];
      Zero(s1r1, 10);
      Zero(s2r2, 20);
      Zero(s3r1, 10);
    }

    /** The three trace sinks. */
    method TraceSink(p: Packet)
      requires Valid() && p.flow < Flows(p.group)
      modifies this, s1r1, s2r2, s3r1
      ensures Valid() && log == old(log) + [p]
    {
      CountsNext(s1r1[..], log, p, S1R1);
      CountsNext(s2r2[..], log, p, S2R2);
      CountsNext(s3r1[..], log, p, S3R1);
      if p.group == S1R1 {
        AddTo(s1r1, p.flow, p.size);
      } else if p.group == S2R2 {
        AddTo(s2r2, p.flow, p.size);
      } else {
        AddTo(s3r1, p.flow, p.size);
      }
      log := log + [p];
    }

    /** The three averages and indices and the two aggregates. */
    method PrintFairness()
      returns (r1: Index, average1: nat, r2: Index, average2: nat, r3: Index, average3: nat, t1: nat, t2: nat)
      requires Valid()
      ensures IndexOf(s1r1[..], r1) && IndexOf(s2r2[..], r2) && IndexOf(s3r1[..], r3)
      ensures AverageOf(s1r1[..], average1) && AverageOf(s2r2[..], average2) && AverageOf(s3r1[..], average3)
      ensures t1 == (Sum(s1r1[..]) + Sum(s2r2[..])) % WRAP
      ensures t2 == (Sum(s3r1[..]) + Sum(s1r1[..])) % WRAP
    {
      r1, average1 := GroupFairness(s1r1);
      r2, average2 := GroupFairness(s2r2);
      r3, average3 := GroupFairness(s3r1);
      t1 := Aggregate(s1r1, s2r2);
      t2 := Aggregate(s3r1, s1r1);
    }
  }

  method Zero(a: array<nat>, n: nat)
    requires a.Length == n
    modifies a
    ensures forall i :: 0 <= i < n ==> a[i] == 0
  {
    for i := 0 to n
      invariant forall k :: 0 <= k < i ==> a[k] == 0
    {
      a[i] := 0;
    }
  }

  method AddTo(a: array<nat>, i: nat, size: nat)
    requires i < a.Length
    modifies a
    ensures a[..] == old(a[..])[i := (old(a[i]) + size) % WRAP]
  {
    a[i] := (a[i] + size) % WRAP;
  }

  /** The numerator and the denominator as they are computed. */
  datatype Index = Index(num: nat, den: nat)

  /** The computed fraction is the exact one whenever the denominator fits, and only then. */
  ghost predicate IndexOf(s: seq<nat>, r: Index) {
    r.num == (Sum(s) * Sum(s)) % WRAP && r.den == (|s| * SumSquares(s)) % WRAP
    && (|s| * SumSquares(s) < WRAP <==> r == Index(Sum(s) * Sum(s), |s| * SumSquares(s)))
  }

  method Accumulate(a: array<nat>) returns (sum: nat, sumSquares: nat)
    ensures sum == Sum(a[..]) % WRAP && sumSquares == SumSquares(a[..]) % WRAP
  {
    sum, sumSquares := 0, 0;
    for i := 0 to a.Length
      invariant sum == Sum(a[..i]) % WRAP && sumSquares == SumSquares(a[..i]) % WRAP
    {
      assert a[..i + 1][..i] == a[..i];
      WrapAdd(Sum(a[..i]), a[i]);
      WrapBoth(SumSquares(a[..i]), a[i] * a[i]);
      sum := (sum + a[i]) % WRAP;
      sumSquares := (sumSquares + (a[i] * a[i]) % WRAP) % WRAP;
    }
    assert a[..a.Length] == a[..];
  }

  /** The whole bytes per flow. */
  function PerFlow(sum: nat, n: nat): nat
    requires n == 10 || n == 20
  {
    if n == 10 then sum / 10 else sum / 20
  }

  /** The bits per flow as they are computed: the bytes per flow are rounded down first. */
  ghost predicate AverageOf(s: seq<nat>, bits: nat) {
    (|s| == 10 || |s| == 20) && bits == (PerFlow(Sum(s) % WRAP, |s|) * 8) % WRAP
  }

  method GroupFairness(a: array<nat>) returns (r: Index, average: nat)
    requires a.Length == 10 || a.Length == 20
    ensures IndexOf(a[..], r) && AverageOf(a[..], average)
  {
    var sum, sumSquares := Accumulate(a);
    ghost var s, q := Sum(a[..]), SumSquares(a[..]);
    WrapMul(sum, s);
    WrapMul(s, s);
    WrapMul(a.Length, q);
    ExactIff(a[..]);
    r := Index((sum * sum) % WRAP, (a.Length * sumSquares) % WRAP);
    average := (PerFlow(sum, a.Length) * 8) % WRAP;
  }

  method Aggregate(a: array<nat>, b: array<nat>) returns (sum: nat)
    ensures sum == (Sum(a[..]) + Sum(b[..])) % WRAP
  {
    var x, _ := Accumulate(a);
    var y, _ := Accumulate(b);
    WrapAdd(Sum(a[..]), Sum(b[..]));
    WrapAdd(x, Sum(b[..]));
    sum := (x + y) % WRAP;
  }

  /** When no flow received more than its link carries, the printed fraction is Jain's index of the bytes received. */
  lemma {:induction false} PrintedIsJain(s: seq<nat>, log: seq<Packet>, g: Group, r: Index)
    requires Counts(s, log, g) && IndexOf(s, r) && Sum(s) > 0
    requires forall i :: 0 <= i < Flows(g) ==> Delivered(log, g, i) <= FLOW_LIMIT
    ensures forall i :: 0 <= i < |s| ==> s[i] == Delivered(log, g, i)
    ensures r.den > 0 && r.num as real / r.den as real == Jain(s)
  {
    CountersExact(s, log, g);
    NoWrap(s);
    PrintedExact(s, r);
  }

  lemma {:induction false} CountersExact(s: seq<nat>, log: seq<Packet>, g: Group)
    requires Counts(s, log, g)
    requires forall i :: 0 <= i < Flows(g) ==> Delivered(log, g, i) <= FLOW_LIMIT
    ensures forall i :: 0 <= i < |s| ==> s[i] == Delivered(log, g, i)
    ensures forall i :: 0 <= i < |s| ==> s[i] <= FLOW_LIMIT
  {
  }

  lemma {:induction false} SumBounded(s: seq<nat>, bound: nat)
    requires forall i :: 0 <= i < |s| ==> s[i] <= bound
    ensures Sum(s) <= |s| * bound
    decreases |s|
  {
    if s == [] {
    } else {
      var n := |s| - 1;
      assert forall i :: 0 <= i < n ==> s[..n][i] == s[i];
      SumBounded(s[..n], bound);
      assert |s| * bound == n * bound + bound;
    }
  }

  lemma {:induction false} SmallAverage(sum: nat, n: nat)
    requires (n == 10 || n == 20) && sum <= n * FLOW_LIMIT
    ensures (PerFlow(sum % WRAP, n) * 8) % WRAP == 8 * PerFlow(sum, n)
    ensures n * (8 * PerFlow(sum, n)) <= 8 * sum < n * (8 * PerFlow(sum, n)) + 8 * n
  {
    SmallStays(sum);
    if n == 10 {
      TenthSmall(sum);
    } else {
      TwentiethSmall(sum);
    }
  }

  lemma {:induction false} SmallStays(x: nat)
    requires x < WRAP
    ensures x % WRAP == x
  {
  }

  lemma {:induction false} TenthSmall(sum: nat)
    requires sum <= 10 * FLOW_LIMIT
    ensures (sum / 10 * 8) % WRAP == 8 * (sum / 10)
    ensures 10 * (8 * (sum / 10)) <= 8 * sum < 10 * (8 * (sum / 10)) + 80
  {
    SmallStays(sum / 10 * 8);
  }

  lemma {:induction false} TwentiethSmall(sum: nat)
    requires sum <= 20 * FLOW_LIMIT
    ensures (sum / 20 * 8) % WRAP == 8 * (sum / 20)
    ensures 20 * (8 * (sum / 20)) <= 8 * sum < 20 * (8 * (sum / 20)) + 160
  {
    SmallStays(sum / 20 * 8);
  }

  /** For flows of at most 2^27 bytes the average is the true one, rounded down to whole bytes. */
  lemma {:induction false} AverageIsExact(s: seq<nat>, bits: nat)
    requires AverageOf(s, bits) && forall i :: 0 <= i < |s| ==> s[i] <= FLOW_LIMIT
    ensures |s| * bits <= 8 * Sum(s) < |s| * bits + 8 * |s|
  {
    SumBounded(s, FLOW_LIMIT);
    SmallAverage(Sum(s), |s|);
  }

  lemma {:induction false} PrintedExact(s: seq<nat>, r: Index)
    requires IndexOf(s, r) && Sum(s) > 0 && |s| * SumSquares(s) < WRAP
    ensures r.den > 0 && r.num as real / r.den as real == Jain(s)
  {
    SumPositive(s);
    assert r == Index(Sum(s) * Sum(s), |s| * SumSquares(s));
  }
}
