/** int2bin, bin2int and binary_range from bindings/python/rad_util.py. */
module BinaryNumerals {
  import opened Powers

  datatype Error = KeyError | ValueError
  datatype Result<T> = Ok(value: T) | Err(error: Error)

  predicate IsBits(s: string) {
    forall i :: 0 <= i < |s| ==> s[i] == '0' || s[i] == '1'
  }

  function BitValue(c: char): (b: nat)
    ensures b <= 1
  {
    if c == '1' then 1 else 0
  }

  /** What a string of binary digits stands for. */
  function Value(s: string): nat {
    if s == [] then 0 else 2 * Value(s[..|s| - 1]) + BitValue(s[|s| - 1])
  }

  // ----- The two conversions -----

  /** hex(i) without its prefix. */
  function HexDigits(i: nat): seq<nat> {
    if i < 16 then [i] else HexDigits(i / 16) + [i % 16]
  }

  /** The hex2bin table. */
  function Nibble(d: nat): string {
    match d
    case 0 => "0000" case 1 => "0001" case 2 => "0010" case 3 => "0011"
    case 4 => "0100" case 5 => "0101" case 6 => "0110" case 7 => "0111"
    case 8 => "1000" case 9 => "1001" case 10 => "1010" case 11 => "1011"
    case 12 => "1100" case 13 => "1101" case 14 => "1110" case _ => "1111"
  }

  function Nibbles(ds: seq<nat>): string {
    if ds == [] then "" else Nibbles(ds[..|ds| - 1]) + Nibble(ds[|ds| - 1])
  }

  /** s[:-n], where -0 is 0. */
  function UpToLast(s: string, n: nat): string {
    if n == 0 || n >= |s| then "" else s[..|s| - n]
  }

  /** s[-n:] */
  function FromLast(s: string, n: nat): string {
    if n == 0 || n >= |s| then s else s[|s| - n..]
  }

  function Zeros(n: int): string {
    if n <= 0 then "" else Zeros(n - 1) + "0"
  }

  /** int2bin; the digits of a negative number start with an x, which the table does not have. */
  function Int2Bin(i: int, n: nat): Result<string> {
    if i < 0 then Err(KeyError) else
    var result := Nibbles(HexDigits(i));
    if '1' in UpToLast(result, n) then Err(ValueError) else
    var low := FromLast(result, n);
    Ok(Zeros(n - |low|) + low)
  }

  /** bin2int on strings of binary digits; the empty string is no number. */
  function Bin2Int(s: string): Result<nat>
    requires IsBits(s)
  {
    if s == [] then Err(ValueError) else Ok(Value(s))
  }

  // ----- Values -----

  lemma {:induction false} ValueBound(s: string)
    ensures Value(s) < Power(2, |s|)
    decreases |s|
  {
    if s == [] {
    } else {
      ValueBound(s[..|s| - 1]);
    }
  }

  lemma {:induction false} ValueSnoc(s: string, c: char)
    ensures Value(s + [c]) == 2 * Value(s) + BitValue(c)
  {
  }

  lemma {:induction false} Shift(a: nat, p: nat, b: nat, c: nat)
    ensures 2 * (a * p + b) + c == a * (2 * p) + (2 * b + c)
  {
  }

  lemma {:induction false} ValueAppend(a: string, b: string)
    ensures Value(a + b) == Value(a) * Power(2, |b|) + Value(b)
    decreases |b|
  {
    if b == [] {
      assert a + b == a;
    } else {
      var m := |b| - 1;
      ValueAppend(a, b[..m]);
      assert a + b == (a + b[..m]) + [b[m]];
      ValueSnoc(a + b[..m], b[m]);
      Shift(Value(a), Power(2, m), Value(b[..m]), BitValue(b[m]));
    }
  }

  lemma {:induction false} ValueZero(s: string)
    requires IsBits(s)
    ensures Value(s) == 0 <==> '1' !in s
    decreases |s|
  {
    if s == [] {
    } else {
      ValueZero(s[..|s| - 1]);
      assert s == s[..|s| - 1] + [s[|s| - 1]];
    }
  }

  /** A numeral of a given length is known by its value. */
  lemma {:induction false} ValueInjective(s: string, t: string)
    requires IsBits(s) && IsBits(t) && |s| == |t| && Value(s) == Value(t)
    ensures s == t
    decreases |s|
  {
    if s == [] {
    } else {
      var n := |s| - 1;
      ValueInjective(s[..n], t[..n]);
      assert s == s[..n] + [s[n]] && t == t[..n] + [t[n]];
    }
  }

  lemma {:induction false} PowerMonotone(m: nat, n: nat)
    requires m <= n
    ensures Power(2, m) <= Power(2, n)
    decreases n - m
  {
    if m == n {
    } else {
      PowerMonotone(m, n - 1);
    }
  }

  lemma {:induction false} ZerosAre(n: int)
    ensures IsBits(Zeros(n)) && '1' !in Zeros(n) && |Zeros(n)| == if n <= 0 then 0 else n
  {
    if n <= 0 {
    } else {
      ZerosAre(n - 1);
    }
  }

  // ----- The digits -----

  lemma {:induction false} NibbleValue(d: nat)
    requires d < 16
    ensures IsBits(Nibble(d)) && |Nibble(d)| == 4
    ensures Value(Nibble(d)) == d
  {
    var s := Nibble(d);
    assert s[..4] == s && s[..3][..2] == s[..2] && s[..2][..1] == s[..1];
    assert Value(s[..1]) == 2 * Value(s[..1][..0]) + BitValue(s[0]);
    assert Value(s[..2]) == 2 * Value(s[..1]) + BitValue(s[1]);
    assert Value(s[..3]) == 2 * Value(s[..2]) + BitValue(s[2]);
  }

  /** The bits are those of i. */
  ghost predicate Expands(s: string, i: nat, digits: nat) {
    IsBits(s) && |s| == 4 * digits && digits > 0 && Value(s) == i
  }

  lemma {:induction false} MoreDigits(s: string, i: nat, digits: nat, d: nat)
    requires Expands(s, i, digits) && d < 16
    ensures Expands(s + Nibble(d), 16 * i + d, digits + 1)
  {
    NibbleValue(d);
    ValueAppend(s, Nibble(d));
    assert Power(2, 4) == 2 * Power(2, 3) && Power(2, 3) == 2 * Power(2, 2) && Power(2, 2) == 2 * Power(2, 1);
    assert Value(s) * 16 == 16 * i;
  }

  lemma {:induction false} DigitsValue(i: nat)
    ensures Expands(Nibbles(HexDigits(i)), i, |HexDigits(i)|)
    decreases i
  {
    if i >= 16 {
      var ds := HexDigits(i / 16);
      DigitsValue(i / 16);
      MoreDigits(Nibbles(ds), i / 16, |ds|, i % 16);
      NibblesSnoc(ds, i % 16);
    } else {
      NibbleValue(i);
      NibblesSnoc([], i);
      assert [] + [i] == [i];
      assert "" + Nibble(i) == Nibble(i);
    }
  }

  lemma {:induction false} NibblesSnoc(ds: seq<nat>, d: nat)
    ensures Nibbles(ds + [d]) == Nibbles(ds) + Nibble(d)
  {
  }

  /** Cutting a numeral to its last n digits keeps the value exactly when it fits n digits. */
  lemma {:induction false} Cut(s: string, n: nat)
    requires IsBits(s) && n >= 1
    ensures '1' in UpToLast(s, n) <==> Value(s) >= Power(2, n)
    ensures '1' !in UpToLast(s, n) ==> Value(FromLast(s, n)) == Value(s)
  {
    if n < |s| {
      var a, b := s[..|s| - n], s[|s| - n..];
      assert s == a + b;
      ValueAppend(a, b);
      ValueBound(b);
      ValueZero(a);
      AtLeast(Value(a), Power(2, n), Value(b));
    } else {
      ValueBound(s);
      PowerMonotone(|s|, n);
    }
  }

  lemma {:induction false} AtLeast(a: nat, p: nat, b: nat)
    requires b < p
    ensures a * p + b >= p <==> a > 0
    ensures a == 0 ==> a * p + b == b
  {
    if a > 0 {
      assert a * p == (a - 1) * p + p;
      assert (a - 1) * p >= 0;
    }
  }

  /** int2bin fails exactly on what does not fit, and otherwise gives the n-digit numeral of its argument. */
  lemma {:induction false} Int2BinMeaning(i: int, n: nat)
    requires n >= 1
    ensures Int2Bin(i, n).Ok? <==> 0 <= i < Power(2, n)
    ensures Int2Bin(i, n) == Err(KeyError) <==> i < 0
    ensures Int2Bin(i, n).Ok? ==> var s := Int2Bin(i, n).value; IsBits(s) && |s| == n && Bin2Int(s) == Ok(i)
  {
    if i >= 0 {
      DigitsValue(i);
      var r := Nibbles(HexDigits(i));
      Cut(r, n);
      if '1' !in UpToLast(r, n) {
        Padded(FromLast(r, n), n);
      }
    }
  }

  lemma {:induction false} Padded(low: string, n: nat)
    requires IsBits(low) && |low| <= n
    ensures var s := Zeros(n - |low|) + low; IsBits(s) && |s| == n && Value(s) == Value(low)
  {
    ZerosAre(n - |low|);
    ValueAppend(Zeros(n - |low|), low);
    ValueZero(Zeros(n - |low|));
  }

  /** The other way round: every numeral is what its value is printed as. */
  lemma {:induction false} Bin2IntThenInt2Bin(s: string)
    requires IsBits(s) && s != []
    ensures Int2Bin(Bin2Int(s).value, |s|) == Ok(s)
  {
    var i := Value(s);
    ValueBound(s);
    Int2BinMeaning(i, |s|);
    ValueInjective(Int2Bin(i, |s|).value, s);
  }

  /** With no digits asked for, nothing is cut off and no argument is too large. */
  lemma {:induction false} Int2BinNoDigits(i: nat)
    ensures var r := Int2Bin(i, 0);
            r.Ok? && IsBits(r.value) && Bin2Int(r.value) == Ok(i) && |r.value| == 4 * |HexDigits(i)|
  {
    DigitsValue(i);
    var s := Nibbles(HexDigits(i));
    assert Zeros(0 - |s|) + s == s;
  }

  // ----- Counting -----

  function Reversed(s: string): string {
    if s == [] then [] else Reversed(s[1..]) + [s[0]]
  }

  /** Adding one, least significant digit first: ones turn to zeros up to the first zero. */
  function Ripple(v: string): string {
    if v == [] then [] else if v[0] == '0' then ['1'] + v[1..] else ['0'] + Ripple(v[1..])
  }

  lemma {:induction false} ReversedIs(s: string)
    requires IsBits(s)
    ensures |Reversed(s)| == |s| && IsBits(Reversed(s))
    decreases |s|
  {
    if s == [] {
    } else {
      ReversedIs(s[1..]);
    }
  }

  lemma {:induction false} RippleIs(v: string)
    requires IsBits(v)
    ensures |Ripple(v)| == |v| && IsBits(Ripple(v))
    decreases |v|
  {
    if v == [] || v[0] == '0' {
    } else {
      RippleIs(v[1..]);
    }
  }

  lemma {:induction false} RippleAdds(v: string)
    requires IsBits(v)
    ensures '0' in v ==> Value(Reversed(Ripple(v))) == Value(Reversed(v)) + 1
    ensures '0' !in v ==> Value(Reversed(v)) == Power(2, |v|) - 1
    decreases |v|
  {
    if v == [] {
    } else {
      ValueSnoc(Reversed(v[1..]), v[0]);
      assert v == [v[0]] + v[1..];
      if v[0] == '0' {
        ValueSnoc(Reversed(v[1..]), '1');
        assert Ripple(v)[1..] == v[1..];
      } else {
        RippleAdds(v[1..]);
        assert Ripple(v)[1..] == Ripple(v[1..]);
        ValueSnoc(Reversed(Ripple(v[1..])), '0');
      }
    }
  }

  /** v after digits below i have turned from one to zero. */
  ghost predicate Carried(v0: string, v: string, i: nat) {
    |v| == |v0| && i <= |v| && v[i..] == v0[i..] && forall k :: 0 <= k < i ==> v0[k] == '1' && v[k] == '0'
  }

  lemma {:induction false} CarriedRipple(v0: string, v: string, i: nat)
    requires Carried(v0, v, i)
    ensures i < |v| && v0[i] == '0' ==> Ripple(v0) == v[i := '1']
    ensures i == |v| ==> Ripple(v0) == v
    decreases i
  {
    if i > 0 {
      assert v[1..][i - 1..] == v[i..] && v0[1..][i - 1..] == v0[i..];
      CarriedRipple(v0[1..], v[1..], i - 1);
      assert v == ['0'] + v[1..];
      if i < |v| {
        assert v[i := '1'] == ['0'] + v[1..][i - 1 := '1'];
      }
    } else if v != [] {
      assert v[0..] == v && v0[0..] == v0;
    }
  }

  /** The inner loop: add one to v, and say whether it ran over. */
  method Increment(v: array<char>, bits: nat) returns (over: bool)
    requires v.Length == bits && IsBits(v[..])
    modifies v
    ensures v[..] == Ripple(old(v[..]))
    ensures over <==> '0' !in old(v[..])
  {
    ghost var v0 := v[..];
    var toggle := new int[bits + 1](k => if k == 0 then 1 else 0);
    var i := 0;
    while i < bits && toggle[i] == 1
      invariant i <= bits && (toggle[i] == 0 || toggle[i] == 1)
      invariant forall k :: i < k <= bits ==> toggle[k] == 0
      invariant toggle[i] == 1 ==> Carried(v0, v[..], i)
      invariant toggle[i] == 0 ==> v[..] == Ripple(v0) && '0' in v0
    {
      CarriedRipple(v0, v[..], i);
      assert v0[i] == v0[i..][0] == v[..][i..][0] == v[i];
      if v[i] == '0' {
        v[i] := '1';
        toggle[i + 1] := 0;
      } else {
        ghost var before := v[..];
        v[i] := '0';
        toggle[i + 1] := 1;
        assert v[..][i + 1..] == before[i + 1..] == before[i..][1..] == v0[i..][1..] == v0[i + 1..];
      }
      i := i + 1;
    }
    over := toggle[bits] == 1;
    if toggle[i] == 1 {
      CarriedRipple(v0, v[..], i);
    }
  }

  /** The rows so far are the numerals of 0, 1, 2 and so on. */
  ghost predicate Rows(l: seq<string>, bits: nat) {
    forall k :: 0 <= k < |l| ==> IsBits(l[k]) && |l[k]| == bits && Value(l[k]) == k
  }

  /** All n-digit numerals in order: row k is int2bin(k, n), and there are 2^n rows. */
  method BinaryRange(bits: nat) returns (l: seq<string>)
    ensures bits == 0 ==> l == []
    ensures bits >= 1 ==> |l| == Power(2, bits) && forall k :: 0 <= k < |l| ==> Int2Bin(k, bits) == Ok(l[k])
  {
    l := [];
    var v := new char[bits](k => '0');
    var over := bits == 0;
    ZeroStart(v[..]);
    while !over
      invariant IsBits(v[..]) && Rows(l, bits)
      invariant !over ==> Value(Reversed(v[..])) == |l| < Power(2, bits)
      invariant over && bits >= 1 ==> |l| == Power(2, bits)
      invariant bits == 0 ==> over && l == []
      decreases if over then 0 else 1, Power(2, bits) - |l|
    {
      NextRow(v[..], l, bits);
      var copy := Reversed(v[..]);
      l := l + [copy];
      over := Increment(v, bits);
    }
    forall k | 0 <= k < |l|
      ensures Int2Bin(k, bits) == Ok(l[k])
    {
      Bin2IntThenInt2Bin(l[k]);
    }
  }

  /** One more row, and the next number unless all digits are ones. */
  lemma {:induction false} NextRow(v: string, l: seq<string>, bits: nat)
    requires IsBits(v) && |v| == bits && Rows(l, bits) && Value(Reversed(v)) == |l|
    ensures Rows(l + [Reversed(v)], bits)
    ensures |Ripple(v)| == bits && IsBits(Ripple(v))
    ensures '0' in v ==> Value(Reversed(Ripple(v))) == |l| + 1 < Power(2, bits)
    ensures '0' !in v ==> |l| + 1 == Power(2, bits)
  {
    ReversedIs(v);
    RippleIs(v);
    RippleAdds(v);
    ReversedIs(Ripple(v));
    ValueBound(Reversed(Ripple(v)));
  }

  lemma {:induction false} ZeroStart(v: string)
    requires forall k :: 0 <= k < |v| ==> v[k] == '0'
    ensures IsBits(v) && Value(Reversed(v)) == 0 < Power(2, |v|)
    decreases |v|
  {
    if v == [] {
    } else {
      ZeroStart(v[1..]);
      ValueSnoc(Reversed(v[1..]), v[0]);
    }
  }
}
