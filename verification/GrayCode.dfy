/** gray_encode from bindings/python/rad_util.py, on natural numbers. */
module GrayCode {
  import opened BinaryNumerals
  import opened Powers

  /** Exclusive or of two binary digits. */
  function XorBit(a: nat, b: nat): (c: nat)
    ensures c <= 1
  {
    if a == b then 0 else 1
  }

  /** Exclusive or, digit by digit. */
  function Xor(a: nat, b: nat): nat
    decreases a + b
  {
    if a == 0 && b == 0 then 0 else 2 * Xor(a / 2, b / 2) + XorBit(a % 2, b % 2)
  }

  /** i ^ (i >> 1) */
  function GrayEncode(i: nat): nat {
    Xor(i, i / 2)
  }

  /** The inverse: each digit is the exclusive or of the code's digits from there up. */
  function GrayDecode(g: nat): nat {
    if g == 0 then 0 else 2 * GrayDecode(g / 2) + XorBit(GrayDecode(g / 2) % 2, g % 2)
  }

  lemma {:induction false} Halves(m: nat, b: nat)
    requires b <= 1
    ensures (2 * m + b) / 2 == m && (2 * m + b) % 2 == b
  {
  }

  /** The code of a number from the code of its half. */
  lemma {:induction false} GrayDigit(m: nat, b: nat)
    requires b <= 1
    ensures GrayEncode(2 * m + b) == 2 * GrayEncode(m) + XorBit(m % 2, b)
  {
    Halves(m, b);
  }

  lemma {:induction false} DecodeDigit(g: nat, b: nat)
    requires b <= 1
    ensures GrayDecode(2 * g + b) == 2 * GrayDecode(g) + XorBit(GrayDecode(g) % 2, b)
  {
    Halves(g, b);
  }

  /** Decoding undoes encoding ... */
  lemma {:induction false} DecodeEncode(i: nat)
    ensures GrayDecode(GrayEncode(i)) == i
    decreases i
  {
    if i == 0 {
    } else {
      var m, b := Split(i);
      GrayDigit(m, b);
      DecodeEncode(m);
      DecodeDigit(GrayEncode(m), XorBit(m % 2, b));
      XorTwice(m % 2, b);
    }
  }

  lemma {:induction false} Split(i: nat) returns (m: nat, b: nat)
    ensures i == 2 * m + b && b <= 1 && (i > 0 ==> m < i)
  {
    m, b := i / 2, i % 2;
  }

  lemma {:induction false} XorTwice(a: nat, b: nat)
    requires a <= 1 && b <= 1
    ensures XorBit(a, XorBit(a, b)) == b
  {
  }

  /** ... and encoding undoes decoding. */
  lemma {:induction false} EncodeDecode(g: nat)
    ensures GrayEncode(GrayDecode(g)) == g
    decreases g
  {
    if g == 0 {
    } else {
      var h, b := Split(g);
      EncodeDecode(h);
      var m := GrayDecode(h);
      DecodeDigit(h, b);
      GrayDigit(m, XorBit(m % 2, b));
      XorTwice(m % 2, b);
    }
  }

  lemma {:induction false} HalfFits(i: nat, n: nat)
    requires n > 0 && i < Power(2, n)
    ensures i / 2 < Power(2, n - 1) && i == 2 * (i / 2) + i % 2
  {
  }

  lemma {:induction false} DigitFits(g: nat, b: nat, n: nat)
    requires n > 0 && g < Power(2, n - 1) && b <= 1
    ensures 2 * g + b < Power(2, n)
  {
  }

  /** Encoding and decoding keep to n digits. */
  lemma {:induction false} GrayFits(i: nat, n: nat)
    requires i < Power(2, n)
    ensures GrayEncode(i) < Power(2, n) && GrayDecode(i) < Power(2, n)
    decreases n
  {
    if n == 0 {
    } else {
      HalfFits(i, n);
      var m, b := i / 2, i % 2;
      GrayFits(m, n - 1);
      GrayDigit(m, b);
      DecodeDigit(m, b);
      DigitFits(GrayEncode(m), XorBit(m % 2, b), n);
      DigitFits(GrayDecode(m), XorBit(GrayDecode(m) % 2, b), n);
    }
  }

  // ----- As strings -----

  /** The k-th row of the Gray code, int2bin(gray_encode(k), n). */
  function Row(k: nat, n: nat): Result<string> {
    Int2Bin(GrayEncode(k), n)
  }

  /** Every n-digit string is a row exactly once. */
  lemma {:induction false} EveryStringOnce(s: string, n: nat)
    requires n >= 1 && IsBits(s) && |s| == n
    ensures var k := GrayDecode(Value(s)); k < Power(2, n) && Row(k, n) == Ok(s)
    ensures forall k: nat :: Row(k, n) == Ok(s) <==> k == GrayDecode(Value(s))
  {
    var k0 := GrayDecode(Value(s));
    ValueBound(s);
    GrayFits(Value(s), n);
    EncodeDecode(Value(s));
    Bin2IntThenInt2Bin(s);
    forall k: nat | Row(k, n) == Ok(s)
      ensures k == k0
    {
      Int2BinMeaning(GrayEncode(k), n);
      DecodeEncode(k);
    }
  }

  /** Exactly the rows below 2^n exist. */
  lemma {:induction false} RowExists(k: nat, n: nat)
    requires n >= 1
    ensures Row(k, n).Ok? <==> k < Power(2, n)
  {
    Int2BinMeaning(GrayEncode(k), n);
    if k < Power(2, n) {
      GrayFits(k, n);
    }
    if GrayEncode(k) < Power(2, n) {
      GrayFits(GrayEncode(k), n);
      DecodeEncode(k);
    }
  }

  /** The strings differ at position p and nowhere else. */
  ghost predicate DifferAt(s: string, t: string, p: nat) {
    |s| == |t| && p < |s| && forall i :: 0 <= i < |s| ==> (s[i] == t[i] <==> i != p)
  }

  /** Two n-digit numerals for a and b that differ at position p only. */
  ghost predicate Apart(s: string, t: string, n: nat, a: nat, b: nat, p: nat) {
    IsBits(s) && IsBits(t) && |s| == n && Value(s) == a && Value(t) == b && DifferAt(s, t, p)
  }

  function Digit(b: nat): char { if b == 1 then '1' else '0' }

  lemma {:induction false} ApartInLast(s: string, g: nat, c: nat, d: nat)
    requires IsBits(s) && Value(s) == g && c <= 1 && d <= 1 && c != d
    ensures Apart(s + [Digit(c)], s + [Digit(d)], |s| + 1, 2 * g + c, 2 * g + d, |s|)
  {
  }

  lemma {:induction false} ApartBefore(s: string, t: string, n: nat, g: nat, h: nat, p: nat, c: nat)
    requires Apart(s, t, n, g, h, p) && c <= 1
    ensures Apart(s + [Digit(c)], t + [Digit(c)], n + 1, 2 * g + c, 2 * h + c, p)
  {
  }

  /** How a code of m continues: the last digit of the next code turns exactly when the number was even. */
  ghost predicate ReflectsAt(code: nat -> nat, m: nat) {
    code(2 * m) == 2 * code(m) + m % 2 && code(2 * m + 1) == 2 * code(m) + (1 - m % 2)
  }

  ghost predicate FitsAt(code: nat -> nat, m: nat, n: nat) {
    m < Power(2, n) ==> code(m) < Power(2, n)
  }

  /** A reflected code that keeps to n digits. */
  ghost predicate Reflects(code: nat -> nat) {
    (forall m :: ReflectsAt(code, m)) && forall m, n :: FitsAt(code, m, n)
  }

  function Gray(): nat -> nat { (i: nat) => GrayEncode(i) }

  lemma {:induction false} GrayReflectsAt(m: nat)
    ensures ReflectsAt(Gray(), m)
  {
    var b := m % 2;
    GrayDigit(m, 0);
    GrayDigit(m, 1);
    XorWith(b);
    assert 2 * m + 0 == 2 * m;
  }

  lemma {:induction false} XorWith(b: nat)
    requires b <= 1
    ensures XorBit(b, 0) == b && XorBit(b, 1) == 1 - b
  {
  }

  lemma {:induction false} GrayFitsAt(m: nat, n: nat)
    ensures FitsAt(Gray(), m, n)
  {
    if m < Power(2, n) {
      GrayFits(m, n);
    }
  }

  lemma {:induction false} GrayReflects()
    ensures Reflects(Gray())
  {
    forall m: nat
      ensures ReflectsAt(Gray(), m)
    {
      GrayReflectsAt(m);
    }
    forall m: nat, n: nat
      ensures FitsAt(Gray(), m, n)
    {
      GrayFitsAt(m, n);
    }
  }

  lemma {:induction false} NumeralOf(i: nat, n: nat) returns (s: string)
    requires i < Power(2, n)
    ensures IsBits(s) && |s| == n && Value(s) == i
    decreases n
  {
    s := "";
    if n == 0 {
    } else {
      HalfFits(i, n);
      s := NumeralOf(i / 2, n - 1);
      ValueSnoc(s, Digit(i % 2));
      s := s + [Digit(i % 2)];
    }
  }

  /** From an even number to the next, the last digit of the code changes. */
  lemma {:induction false} EvenNeighbours(code: nat -> nat, m: nat, n: nat) returns (s: string, t: string, p: nat)
    requires Reflects(code) && m < Power(2, n)
    ensures Apart(s, t, n + 1, code(2 * m), code(2 * m + 1), p)
  {
    assert ReflectsAt(code, m) && FitsAt(code, m, n);
    var r := NumeralOf(code(m), n);
    ApartInLast(r, code(m), m % 2, 1 - m % 2);
    s, t, p := r + [Digit(m % 2)], r + [Digit(1 - m % 2)], |r|;
  }

  /** From an odd number to the next, the last digit of the code stays, and the halves are neighbours. */
  lemma {:induction false} OddNeighbours(code: nat -> nat, m: nat, n: nat, s0: string, t0: string, p: nat)
    returns (s: string, t: string)
    requires Reflects(code) && Apart(s0, t0, n, code(m), code(m + 1), p)
    ensures Apart(s, t, n + 1, code(2 * m + 1), code(2 * m + 2), p)
  {
    assert ReflectsAt(code, m) && ReflectsAt(code, m + 1);
    var c := 1 - m % 2;
    assert c == (m + 1) % 2 && 2 * (m + 1) == 2 * m + 2;
    ApartBefore(s0, t0, n, code(m), code(m + 1), p, c);
    s, t := s0 + [Digit(c)], t0 + [Digit(c)];
  }

  lemma {:induction false} NeighbourNumerals(code: nat -> nat, i: nat, n: nat) returns (s: string, t: string, p: nat)
    requires Reflects(code) && i + 1 < Power(2, n)
    ensures Apart(s, t, n, code(i), code(i + 1), p)
    decreases n
  {
    HalfFits(i, n);
    var m := i / 2;
    if i % 2 == 0 {
      s, t, p := EvenNeighbours(code, m, n - 1);
    } else {
      s, t, p := NeighbourNumerals(code, m, n - 1);
      s, t := OddNeighbours(code, m, n - 1, s, t, p);
    }
  }

  lemma {:induction false} RowIs(k: nat, n: nat, s: string)
    requires n >= 1 && IsBits(s) && |s| == n && Value(s) == GrayEncode(k)
    ensures Row(k, n) == Ok(s)
  {
    Bin2IntThenInt2Bin(s);
  }

  lemma {:induction false} RowsApart(k: nat, l: nat, n: nat, s: string, t: string, p: nat)
    requires n >= 1 && Apart(s, t, n, Gray()(k), Gray()(l), p)
    ensures Row(k, n).Ok? && Row(l, n).Ok? && DifferAt(Row(k, n).value, Row(l, n).value, p)
  {
    RowIs(k, n, s);
    RowIs(l, n, t);
  }

  /** Neighbouring rows differ in exactly one position. */
  lemma {:induction false} Neighbours(k: nat, n: nat) returns (p: nat)
    requires n >= 1 && k + 1 < Power(2, n)
    ensures Row(k, n).Ok? && Row(k + 1, n).Ok? && DifferAt(Row(k, n).value, Row(k + 1, n).value, p)
  {
    GrayReflects();
    var s, t;
    s, t, p := NeighbourNumerals(Gray(), k, n);
    RowsApart(k, k + 1, n, s, t, p);
  }

  /** The last code is a one followed by zeros. */
  lemma {:induction false} LastCode(last: nat, n: nat)
    requires last + 1 == Power(2, n + 1)
    ensures GrayEncode(last) == Power(2, n)
    decreases n
  {
    PowerPositive(2, n);
    var m := Power(2, n) - 1;
    assert last == 2 * m + 1;
    GrayDigit(m, 1);
    if n == 0 {
    } else {
      LastCode(m, n - 1);
      PowerPositive(2, n - 1);
      Halves(Power(2, n - 1) - 1, 1);
    }
  }

  /** The code is cyclic: the last row and the first differ in exactly one position, too. */
  lemma {:induction false} LastAndFirst(last: nat, n: nat)
    requires n >= 1 && last + 1 == Power(2, n)
    ensures Row(last, n).Ok? && Row(0, n).Ok? && DifferAt(Row(last, n).value, Row(0, n).value, 0)
  {
    EndsApart(last, n - 1);
    RowsApart(last, 0, n, "1" + Zeros(n - 1), "0" + Zeros(n - 1), 0);
  }

  lemma {:induction false} EndsApart(last: nat, n: nat)
    requires last + 1 == Power(2, n + 1)
    ensures Apart("1" + Zeros(n), "0" + Zeros(n), n + 1, Gray()(last), Gray()(0), 0)
  {
    LastCode(last, n);
    assert Gray()(0) == 0;
    FirstDigit(n);
  }

  lemma {:induction false} FirstDigit(n: nat)
    ensures Apart("1" + Zeros(n), "0" + Zeros(n), n + 1, Power(2, n), 0, 0)
  {
    ZerosAre(n);
    ValueZero(Zeros(n));
    ValueAppend("1", Zeros(n));
    ValueZero("0" + Zeros(n));
    assert Value("1") == 1;
  }
}
