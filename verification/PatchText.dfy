/**
 * The text of unified diffs in utils/check-style.py: what its patch objects write, and how its
 * regular expressions read a line.
 */
module PatchText {
  import opened Options
  import opened Sequences
  import opened Strings

  /** A line of a chunk: removed, added or context. */
  datatype Line = Src(text: string) | Dst(text: string) | Both(text: string)

  datatype Chunk = Chunk(srcPos: nat, dstPos: nat, lines: seq<Line>)

  datatype Patch = Patch(src: string, dst: string, chunks: seq<Chunk>)

  // ----- Numbers -----

  function Digit(d: nat): char
    requires d < 10
  {
    '0' + d as char
  }

  predicate IsDigit(c: char) {
    '0' <= c <= '9'
  }

  /** The %d conversion. */
  function Decimal(n: nat): string {
    if n < 10 then [Digit(n)] else Decimal(n / 10) + [Digit(n % 10)]
  }

  /** int() of a string of digits. */
  function Value(s: string): nat
    requires forall i :: 0 <= i < |s| ==> IsDigit(s[i])
  {
    if s == [] then 0 else
    assert IsDigit(s[|s| - 1]);
    10 * Value(s[..|s| - 1]) + (s[|s| - 1] as int - '0' as int)
  }

  lemma {:induction false} DecimalDigits(n: nat)
    ensures Decimal(n) != [] && forall i :: 0 <= i < |Decimal(n)| ==> IsDigit(Decimal(n)[i])
    decreases n
  {
    if n < 10 {
    } else {
      DecimalDigits(n / 10);
    }
  }

  lemma {:induction false} DecimalValue(n: nat)
    ensures forall i :: 0 <= i < |Decimal(n)| ==> IsDigit(Decimal(n)[i])
    ensures Value(Decimal(n)) == n
    decreases n
  {
    DecimalDigits(n);
    if n >= 10 {
      DecimalValue(n / 10);
      var s := Decimal(n / 10);
      PushPop(s, Digit(n % 10));
    } else {
      assert [Digit(n)][..0] == [];
    }
  }

  // ----- Reading a line -----

  /** What follows the prefix. */
  function After(prefix: string, s: string): Option<string> {
    if prefix <= s then Some(s[|prefix|..]) else None
  }

  /** ^prefix(.*)$: the rest of the line, which may end in but not contain a newline. */
  function Rest(prefix: string, s: string): Option<string> {
    var r := After(prefix, s);
    if r.None? || '\n' in Chomp(r.value) then None else Some(Chomp(r.value))
  }

  function DigitLength(s: string): (n: nat)
    ensures n <= |s| && forall i :: 0 <= i < n ==> IsDigit(s[i])
  {
    if s == [] || !IsDigit(s[0]) then 0 else 1 + DigitLength(s[1..])
  }

  /** ([0-9]+): the number and what follows it. */
  function TakeNumber(s: string): Option<(nat, string)> {
    var n := DigitLength(s);
    if n == 0 then None else Some((Value(s[..n]), s[n..]))
  }

  /** A number after a prefix. */
  function NumberAfter(prefix: string, s: string): Option<(nat, string)> {
    var r := After(prefix, s);
    if r.None? then None else TakeNumber(r.value)
  }

  /** The four numbers of a chunk header and what follows it. */
  datatype Header = Header(srcPos: nat, srcLength: nat, dstPos: nat, dstLength: nat, tail: string)

  /** ^@@ -([0-9]+),([0-9]+) \+([0-9]+),([0-9]+) @@ */
  function ReadHeader(s: string): Option<Header> {
    var a := NumberAfter("@@ -", s);
    if a.None? then None else
    var b := NumberAfter(",", a.value.1);
    if b.None? then None else
    var c := NumberAfter(" +", b.value.1);
    if c.None? then None else
    var d := NumberAfter(",", c.value.1);
    if d.None? then None else
    var tail := After(" @@", d.value.1);
    if tail.None? then None else Some(Header(a.value.0, b.value.0, c.value.0, d.value.0, tail.value))
  }

  /** The first and the third number of a chunk header. */
  function MatchHeader(s: string): Option<(nat, nat)> {
    var h := ReadHeader(s);
    if h.None? then None else Some((h.value.srcPos, h.value.dstPos))
  }

  /** What a line is taken for; the expressions are tried in this order. */
  datatype Event =
    | SrcFile(name: string)
    | DstFile(name: string)
    | ChunkStart(srcPos: nat, dstPos: nat)
    | LineOf(line: Line)
    | Unmatched

  function Classify(s: string): Event {
    if Rest("--- ", s).Some? then SrcFile(Rest("--- ", s).value)
    else if Rest("+++ ", s).Some? then DstFile(Rest("+++ ", s).value)
    else if MatchHeader(s).Some? then ChunkStart(MatchHeader(s).value.0, MatchHeader(s).value.1)
    else if Rest("-", s).Some? then LineOf(Src(Rest("-", s).value))
    else if Rest("+", s).Some? then LineOf(Dst(Rest("+", s).value))
    else if Rest(" ", s).Some? then LineOf(Both(Rest(" ", s).value))
    else Unmatched
  }

  // ----- Writing -----

  function LineText(l: Line): string {
    match l
    case Src(t) => "-" + t + "\n"
    case Dst(t) => "+" + t + "\n"
    case Both(t) => " " + t + "\n"
  }

  predicate IsSrc(l: Line) { !l.Dst? }
  predicate IsDst(l: Line) { !l.Src? }

  function SrcLength(lines: seq<Line>): nat {
    if lines == [] then 0 else SrcLength(lines[..|lines| - 1]) + if IsSrc(lines[|lines| - 1]) then 1 else 0
  }

  function DstLength(lines: seq<Line>): nat {
    if lines == [] then 0 else DstLength(lines[..|lines| - 1]) + if IsDst(lines[|lines| - 1]) then 1 else 0
  }

  function HeaderText(c: Chunk): string {
    "@@ -" + Decimal(c.srcPos)
    + ("," + Decimal(SrcLength(c.lines))
       + (" +" + Decimal(c.dstPos) + ("," + Decimal(DstLength(c.lines)) + " @@\n")))
  }

  // ----- Reading what was written -----

  lemma {:induction false} RestOfWritten(prefix: string, t: string)
    requires '\n' !in t
    ensures Rest(prefix, prefix + t + "\n") == Some(t)
  {
    var s := prefix + t + "\n";
    assert prefix <= s;
    assert s[|prefix|..] == t + "\n";
    assert Chomp(t + "\n") == t;
  }

  lemma {:induction false} DigitLengthOf(digits: string, rest: string)
    requires forall i :: 0 <= i < |digits| ==> IsDigit(digits[i])
    requires rest != [] && !IsDigit(rest[0])
    ensures DigitLength(digits + rest) == |digits|
    decreases |digits|
  {
    if digits == [] {
      assert digits + rest == rest;
    } else {
      assert (digits + rest)[1..] == digits[1..] + rest;
      DigitLengthOf(digits[1..], rest);
    }
  }

  lemma {:induction false} NumberOfWritten(prefix: string, n: nat, rest: string)
    requires rest != [] && !IsDigit(rest[0])
    ensures NumberAfter(prefix, prefix + Decimal(n) + rest) == Some((n, rest))
  {
    DecimalDigits(n);
    DecimalValue(n);
    var s := prefix + Decimal(n) + rest;
    assert prefix <= s;
    assert s[|prefix|..] == Decimal(n) + rest;
    DigitLengthOf(Decimal(n), rest);
    assert (Decimal(n) + rest)[..|Decimal(n)|] == Decimal(n);
    assert (Decimal(n) + rest)[|Decimal(n)|..] == rest;
  }

  // ----- The lengths in a chunk header -----

  /** The text before the change: removed and context lines. */
  function OldText(lines: seq<Line>): seq<string> {
    if lines == [] then []
    else
      OldText(lines[..|lines| - 1])
      + match lines[|lines| - 1]
        case Src(t) => [t]
        case Both(t) => [t]
        case Dst(_) => []
  }

  /** The text after the change: added and context lines. */
  function NewText(lines: seq<Line>): seq<string> {
    if lines == [] then []
    else
      NewText(lines[..|lines| - 1])
      + match lines[|lines| - 1]
        case Dst(t) => [t]
        case Both(t) => [t]
        case Src(_) => []
  }

  /** The lengths are those of the old and of the new text ... */
  lemma {:induction false} LengthsOfTexts(lines: seq<Line>)
    ensures SrcLength(lines) == |OldText(lines)| && DstLength(lines) == |NewText(lines)|
    decreases |lines|
  {
    if lines == [] {
    } else {
      LengthsOfTexts(lines[..|lines| - 1]);
    }
  }

  ghost function OldLines(lines: seq<Line>): set<int> {
    set k | 0 <= k < |lines| && (lines[k].Src? || lines[k].Both?)
  }

  ghost function NewLines(lines: seq<Line>): set<int> {
    set k | 0 <= k < |lines| && (lines[k].Dst? || lines[k].Both?)
  }

  /** ... and the numbers of lines that are removed or context, and added or context. */
  lemma {:induction false} LengthsCount(lines: seq<Line>)
    ensures SrcLength(lines) == |OldLines(lines)| && DstLength(lines) == |NewLines(lines)|
    decreases |lines|
  {
    if lines == [] {
    } else {
      var n := |lines| - 1;
      LengthsCount(lines[..n]);
      OldLinesNext(lines);
      NewLinesNext(lines);
    }
  }

  lemma {:induction false} OldLinesNext(lines: seq<Line>)
    requires lines != []
    ensures var n := |lines| - 1;
            |OldLines(lines)| == |OldLines(lines[..n])| + if lines[n].Src? || lines[n].Both? then 1 else 0
  {
    var n := |lines| - 1;
    var init := lines[..n];
    assert forall k :: 0 <= k < n ==> init[k] == lines[k];
    assert OldLines(lines) == OldLines(init) + if lines[n].Src? || lines[n].Both? then {n} else {};
  }

  lemma {:induction false} NewLinesNext(lines: seq<Line>)
    requires lines != []
    ensures var n := |lines| - 1;
            |NewLines(lines)| == |NewLines(lines[..n])| + if lines[n].Dst? || lines[n].Both? then 1 else 0
  {
    var n := |lines| - 1;
    var init := lines[..n];
    assert forall k :: 0 <= k < n ==> init[k] == lines[k];
    assert NewLines(lines) == NewLines(init) + if lines[n].Dst? || lines[n].Both? then {n} else {};
  }

  /** A header with these numbers, and text behind it. */
  function HeaderWith(h: Header): string {
    "@@ -" + Decimal(h.srcPos)
    + ("," + Decimal(h.srcLength)
       + (" +" + Decimal(h.dstPos) + ("," + Decimal(h.dstLength) + (" @@" + h.tail))))
  }

  /** All four numbers are read back from a header, whatever follows it. */
  lemma {:induction false} HeaderReadsBack(h: Header)
    ensures ReadHeader(HeaderWith(h)) == Some(h)
  {
    var r4 := " @@" + h.tail;
    var r3 := "," + Decimal(h.dstLength) + r4;
    var r2 := " +" + Decimal(h.dstPos) + r3;
    var r1 := "," + Decimal(h.srcLength) + r2;
    NumberOfWritten("@@ -", h.srcPos, r1);
    NumberOfWritten(",", h.srcLength, r2);
    NumberOfWritten(" +", h.dstPos, r3);
    NumberOfWritten(",", h.dstLength, r4);
    TailAfter(h.tail);
  }

  lemma {:induction false} TailAfter(tail: string)
    ensures After(" @@", " @@" + tail) == Some(tail)
  {
    assert (" @@" + tail)[3..] == tail;
  }

  /** A written header tells both positions and the lengths of the old and the new text of its chunk. */
  lemma {:induction false} HeaderOfWritten(c: Chunk)
    ensures ReadHeader(HeaderText(c))
            == Some(Header(c.srcPos, |OldText(c.lines)|, c.dstPos, |NewText(c.lines)|, "\n"))
    ensures MatchHeader(HeaderText(c)) == Some((c.srcPos, c.dstPos))
  {
    LengthsOfTexts(c.lines);
    var h := Header(c.srcPos, |OldText(c.lines)|, c.dstPos, |NewText(c.lines)|, "\n");
    HeaderReadsBack(h);
    assert " @@\n" == " @@" + "\n";
    assert HeaderText(c) == HeaderWith(h);
  }

  /** A line that reads as a file header instead. */
  predicate Mistaken(l: Line) {
    match l
    case Src(t) => "-- " <= t
    case Dst(t) => "++ " <= t
    case Both(_) => false
  }

  /** What a written line is taken for. */
  function EventOf(l: Line): Event {
    if !Mistaken(l) then LineOf(l)
    else if l.Src? then SrcFile(l.text[3..])
    else DstFile(l.text[3..])
  }

  lemma {:induction false} FirstCharDecides(prefix: string, s: string)
    requires prefix != [] && s != [] && prefix[0] != s[0]
    ensures After(prefix, s) == None && Rest(prefix, s) == None
  {
  }

  lemma {:induction false} NoHeader(s: string)
    requires s != [] && s[0] != '@'
    ensures MatchHeader(s) == None
  {
  }

  lemma {:induction false} MarkedRest(mark: string, dashes: string, t: string)
    requires |mark| == 1 && |dashes| == 3 && '\n' !in t && '\n' !in dashes
    ensures Rest(mark + dashes, mark + t + "\n") == if dashes <= t then Some(t[3..]) else None
  {
    var s := mark + t + "\n";
    if dashes <= t {
      assert s == (mark + dashes) + t[3..] + "\n";
      RestOfWritten(mark + dashes, t[3..]);
    } else if |t| >= 3 {
      var k :| 0 <= k < 3 && dashes[k] != t[k];
      assert (mark + dashes)[k + 1] != s[k + 1];
    } else if |t| == 2 {
      assert dashes[2] in dashes;
      assert (mark + dashes)[3] != s[3];
    }
  }

  lemma {:induction false} ClassifyWritten(l: Line)
    requires '\n' !in l.text
    ensures Classify(LineText(l)) == EventOf(l)
  {
    var s, t := LineText(l), l.text;
    NoHeader(s);
    match l
    case Src(_) =>
      FirstCharDecides("+++ ", s);
      assert "-" + "-- " == "--- ";
      MarkedRest("-", "-- ", t);
      RestOfWritten("-", t);
    case Dst(_) =>
      FirstCharDecides("--- ", s);
      FirstCharDecides("-", s);
      assert "+" + "++ " == "+++ ";
      MarkedRest("+", "++ ", t);
      RestOfWritten("+", t);
    case Both(_) =>
      FirstCharDecides("--- ", s);
      FirstCharDecides("+++ ", s);
      FirstCharDecides("-", s);
      FirstCharDecides("+", s);
      RestOfWritten(" ", t);
  }

  lemma {:induction false} ClassifyHeader(c: Chunk)
    ensures Classify(HeaderText(c)) == ChunkStart(c.srcPos, c.dstPos)
  {
    var s := HeaderText(c);
    assert s[0] == '@';
    FirstCharDecides("--- ", s);
    FirstCharDecides("+++ ", s);
    HeaderOfWritten(c);
  }

  lemma {:induction false} ClassifyFiles(name: string)
    requires '\n' !in name
    ensures Classify("--- " + name + "\n") == SrcFile(name)
    ensures Classify("+++ " + name + "\n") == DstFile(name)
  {
    RestOfWritten("--- ", name);
    RestOfWritten("+++ ", name);
    FirstCharDecides("--- ", "+++ " + name + "\n");
  }

  // ----- What a line is taken for, by its shape -----

  ghost predicate AllDigits(s: string) {
    s != [] && forall i :: 0 <= i < |s| ==> IsDigit(s[i])
  }

  /** A number is what the digits behind the prefix stand for. */
  lemma {:induction false} NumberSplits(prefix: string, s: string) returns (digits: string)
    requires NumberAfter(prefix, s).Some?
    ensures AllDigits(digits) && Value(digits) == NumberAfter(prefix, s).value.0
    ensures s == prefix + digits + NumberAfter(prefix, s).value.1
  {
    var r := s[|prefix|..];
    digits := r[..DigitLength(r)];
    assert s == prefix + r && r == digits + r[DigitLength(r)..];
  }

  lemma {:induction false} NumberJoins(prefix: string, digits: string, rest: string)
    requires AllDigits(digits) && rest != [] && !IsDigit(rest[0])
    ensures NumberAfter(prefix, prefix + digits + rest) == Some((Value(digits), rest))
  {
    var s := prefix + digits + rest;
    assert prefix <= s && s[|prefix|..] == digits + rest;
    DigitLengthOf(digits, rest);
    assert (digits + rest)[..|digits|] == digits && (digits + rest)[|digits|..] == rest;
  }

  /** The line is a chunk header with the given digits. */
  predicate HeaderSpelled(s: string, a: string, b: string, c: string, d: string, tail: string) {
    s == "@@ -" + a + ("," + b + (" +" + c + ("," + d + (" @@" + tail))))
  }

  ghost predicate HeaderShape(s: string, x: nat, y: nat) {
    exists a, b, c, d, tail ::
      && HeaderSpelled(s, a, b, c, d, tail) && AllDigits(a) && AllDigits(b) && AllDigits(c) && AllDigits(d)
      && Value(a) == x && Value(c) == y
  }

  lemma {:induction false} ShapeIsRead(s: string, a: string, b: string, c: string, d: string, tail: string)
    requires HeaderSpelled(s, a, b, c, d, tail) && AllDigits(a) && AllDigits(b) && AllDigits(c) && AllDigits(d)
    ensures MatchHeader(s) == Some((Value(a), Value(c)))
  {
    var r4 := " @@" + tail;
    var r3 := "," + d + r4;
    var r2 := " +" + c + r3;
    var r1 := "," + b + r2;
    NumberJoins("@@ -", a, r1);
    NumberJoins(",", b, r2);
    NumberJoins(" +", c, r3);
    NumberJoins(",", d, r4);
    assert s == "@@ -" + a + r1;
    assert After(" @@", r4) == Some(tail);
  }

  lemma {:induction false} ReadIsShape(s: string) returns (a: string, b: string, c: string, d: string, tail: string)
    requires MatchHeader(s).Some?
    ensures HeaderSpelled(s, a, b, c, d, tail) && AllDigits(a) && AllDigits(b) && AllDigits(c) && AllDigits(d)
    ensures MatchHeader(s) == Some((Value(a), Value(c)))
  {
    a := NumberSplits("@@ -", s);
    var r1 := NumberAfter("@@ -", s).value.1;
    b := NumberSplits(",", r1);
    var r2 := NumberAfter(",", r1).value.1;
    c := NumberSplits(" +", r2);
    var r3 := NumberAfter(" +", r2).value.1;
    d := NumberSplits(",", r3);
    var r4 := NumberAfter(",", r3).value.1;
    tail := After(" @@", r4).value;
    assert r4 == " @@" + tail;
  }

  /** A line with its newline is a header exactly when it is one without. */
  lemma {:induction false} HeaderIff(t: string, s: string, x: nat, y: nat)
    requires s == t || s == t + "\n"
    ensures MatchHeader(s) == Some((x, y)) <==> HeaderShape(t, x, y)
  {
    if HeaderShape(t, x, y) {
      var a, b, c, d, tail :| HeaderSpelled(t, a, b, c, d, tail) && AllDigits(a) && AllDigits(b) && AllDigits(c)
                              && AllDigits(d) && Value(a) == x && Value(c) == y;
      if s == t {
        ShapeIsRead(s, a, b, c, d, tail);
      } else {
        LongerTail(t, a, b, c, d, tail, "\n");
        ShapeIsRead(s, a, b, c, d, tail + "\n");
      }
    }
    if MatchHeader(s) == Some((x, y)) {
      var a, b, c, d, tail := ReadIsShape(s);
      if s != t {
        ShorterTail(t, s, a, b, c, d, tail);
      }
    }
  }

  lemma {:induction false} LongerTail(t: string, a: string, b: string, c: string, d: string, tail: string, more: string)
    requires HeaderSpelled(t, a, b, c, d, tail)
    ensures HeaderSpelled(t + more, a, b, c, d, tail + more)
  {
    var p := "@@ -" + a;
    var r4 := " @@" + tail;
    var r3 := "," + d + r4;
    var r2 := " +" + c + r3;
    var r1 := "," + b + r2;
    assert r4 + more == " @@" + (tail + more);
    assert r3 + more == "," + d + (r4 + more);
    assert r2 + more == " +" + c + (r3 + more);
    assert r1 + more == "," + b + (r2 + more);
    assert p + r1 + more == p + (r1 + more);
  }

  lemma {:induction false} ShorterTail(t: string, s: string, a: string, b: string, c: string, d: string, tail: string)
    requires s == t + "\n" && HeaderSpelled(s, a, b, c, d, tail)
    ensures tail != [] && HeaderSpelled(t, a, b, c, d, tail[..|tail| - 1])
  {
    assert s[|s| - 1] == '\n';
    LastOfHeader(s, a, b, c, d, tail);
    var init := tail[..|tail| - 1];
    assert tail == init + "\n";
    var u := "@@ -" + a + ("," + b + (" +" + c + ("," + d + (" @@" + init))));
    LongerTail(u, a, b, c, d, init, "\n");
    assert u + "\n" == t + "\n";
    assert (u + "\n")[..|u|] == u && (t + "\n")[..|t|] == t;
  }

  lemma {:induction false} LastOfHeader(s: string, a: string, b: string, c: string, d: string, tail: string)
    requires HeaderSpelled(s, a, b, c, d, tail)
    ensures s != [] && s[|s| - 1] == if tail == [] then '@' else tail[|tail| - 1]
  {
    var r4 := " @@" + tail;
    var r3 := "," + d + r4;
    var r2 := " +" + c + r3;
    var r1 := "," + b + r2;
    assert r4[|r4| - 1] == if tail == [] then '@' else tail[|tail| - 1];
    assert r3[|r3| - 1] == r4[|r4| - 1];
    assert r2[|r2| - 1] == r3[|r3| - 1];
    assert r1[|r1| - 1] == r2[|r2| - 1];
  }

  /** The line t, without its newline, is of the kind e. */
  ghost predicate IsKind(t: string, e: Event) {
    match e
    case SrcFile(name) => t == "--- " + name
    case DstFile(name) => t == "+++ " + name
    case ChunkStart(x, y) => HeaderShape(t, x, y)
    case LineOf(Src(x)) => t == "-" + x && !("-- " <= x)
    case LineOf(Dst(x)) => t == "+" + x && !("++ " <= x)
    case LineOf(Both(x)) => t == " " + x
    case Unmatched => (t == [] || t[0] !in ['-', '+', ' ']) && forall x, y :: !HeaderShape(t, x, y)
  }

  lemma {:induction false} RestIs(prefix: string, t: string, s: string)
    requires '\n' !in t && '\n' !in prefix && (s == t || s == t + "\n")
    ensures Rest(prefix, s) == if prefix <= t then Some(t[|prefix|..]) else None
  {
    if prefix <= t {
      assert t == prefix + t[|prefix|..];
      if s == t {
        assert s[|prefix|..] == t[|prefix|..];
      } else {
        assert s == prefix + t[|prefix|..] + "\n";
        RestOfWritten(prefix, t[|prefix|..]);
      }
    } else if s != t && |prefix| == |s| {
      assert s[|s| - 1] == '\n' && prefix[|s| - 1] in prefix;
    }
  }

  lemma {:induction false} PrefixIs(prefix: string, t: string, x: string)
    ensures t == prefix + x <==> prefix <= t && t[|prefix|..] == x
  {
  }

  lemma {:induction false} Marked(mark: string, dashes: string, t: string)
    requires |mark| == 1 && mark <= t
    ensures mark + dashes <= t <==> dashes <= t[1..]
  {
    assert t == mark + t[1..];
  }

  /** The expressions take a line for exactly what its shape says. */
  lemma {:induction false} ClassifyIff(t: string, s: string, e: Event)
    requires '\n' !in t && (s == t || s == t + "\n")
    ensures Classify(s) == e <==> IsKind(t, e)
  {
    match e
    case SrcFile(name) => FileIff(t, s, name);
    case DstFile(name) => FileIff(t, s, name);
    case ChunkStart(x, y) => ChunkIff(t, s, x, y);
    case LineOf(l) => LineIff(t, s, l);
    case Unmatched => UnmatchedIff(t, s);
  }

  lemma {:induction false} FileIff(t: string, s: string, name: string)
    requires '\n' !in t && (s == t || s == t + "\n")
    ensures Classify(s) == SrcFile(name) <==> t == "--- " + name
    ensures Classify(s) == DstFile(name) <==> t == "+++ " + name
  {
    Rests(t, s);
    PrefixIs("--- ", t, name);
    PrefixIs("+++ ", t, name);
  }

  lemma {:induction false} HeaderStarts(t: string, x: nat, y: nat)
    requires HeaderShape(t, x, y)
    ensures t != [] && t[0] == '@'
  {
  }

  lemma {:induction false} ChunkIff(t: string, s: string, x: nat, y: nat)
    requires '\n' !in t && (s == t || s == t + "\n")
    ensures Classify(s) == ChunkStart(x, y) <==> HeaderShape(t, x, y)
  {
    Rests(t, s);
    HeaderIff(t, s, x, y);
    if HeaderShape(t, x, y) {
      HeaderStarts(t, x, y);
    }
  }

  lemma {:induction false} LineIff(t: string, s: string, l: Line)
    requires '\n' !in t && (s == t || s == t + "\n")
    ensures Classify(s) == LineOf(l) <==> IsKind(t, LineOf(l))
  {
    Rests(t, s);
    if t != [] && t[0] != '@' {
      NoHeader(s);
    }
    match l
    case Src(x) =>
      PrefixIs("-", t, x);
      if "-" <= t {
        Marked("-", "-- ", t);
        assert "-" + "-- " == "--- ";
      }
    case Dst(x) =>
      PrefixIs("+", t, x);
      if "+" <= t {
        Marked("+", "++ ", t);
        assert "+" + "++ " == "+++ ";
      }
    case Both(x) =>
      PrefixIs(" ", t, x);
  }

  lemma {:induction false} UnmatchedIff(t: string, s: string)
    requires '\n' !in t && (s == t || s == t + "\n")
    ensures Classify(s) == Unmatched <==> IsKind(t, Unmatched)
  {
    Rests(t, s);
    forall x, y
      ensures MatchHeader(s) == Some((x, y)) <==> HeaderShape(t, x, y)
    {
      HeaderIff(t, s, x, y);
    }
    if MatchHeader(s).Some? {
      assert HeaderShape(t, MatchHeader(s).value.0, MatchHeader(s).value.1);
    }
    assert t != [] ==> (t[0] == '-' <==> "-" <= t) && (t[0] == '+' <==> "+" <= t) && (t[0] == ' ' <==> " " <= t);
    assert "--- " <= t ==> "-" <= t;
    assert "+++ " <= t ==> "+" <= t;
  }

  lemma {:induction false} Rests(t: string, s: string)
    requires '\n' !in t && (s == t || s == t + "\n")
    ensures Rest("--- ", s) == if "--- " <= t then Some(t[4..]) else None
    ensures Rest("+++ ", s) == if "+++ " <= t then Some(t[4..]) else None
    ensures Rest("-", s) == if "-" <= t then Some(t[1..]) else None
    ensures Rest("+", s) == if "+" <= t then Some(t[1..]) else None
    ensures Rest(" ", s) == if " " <= t then Some(t[1..]) else None
  {
    RestIs("--- ", t, s);
    RestIs("+++ ", t, s);
    RestIs("-", t, s);
    RestIs("+", t, s);
    RestIs(" ", t, s);
  }
}
