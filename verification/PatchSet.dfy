/**
 * The patch objects of utils/check-style.py: writing a patch set to a file, parsing one from the
 * lines of a file, and when the second undoes the first.
 */
module PatchSet {
  import opened Options
  import opened Sequences
  import opened PatchText

  // ----- Writing -----

  function LineTexts(): Line -> seq<string> { (l: Line) => [LineText(l)] }

  function ChunkTexts(): Chunk -> seq<string> {
    (c: Chunk) => [HeaderText(c)] + FlatMap(c.lines, LineTexts())
  }

  function PatchTexts(): Patch -> seq<string> {
    (p: Patch) => PatchHead(p) + FlatMap(p.chunks, ChunkTexts())
  }

  /** The lines that writing the patches one after the other produces. */
  function Written(ps: seq<Patch>): seq<string> {
    FlatMap(ps, PatchTexts())
  }

  /** A file holding the given lines. */
  function FileOf(lines: seq<string>): string {
    Flatten(lines)
  }

  lemma {:induction false} FileOfAppend(a: seq<string>, b: seq<string>)
    ensures FileOf(a + b) == FileOf(a) + FileOf(b)
  {
    FlatMapAppend(a, b, Itself());
  }

  lemma {:induction false} FileOfOne(s: string)
    ensures FileOf([s]) == s
  {
    FlatMapOne(s, Itself());
  }

  method WriteLine(l: Line, f0: string) returns (f: string)
    ensures f == f0 + FileOf([LineText(l)])
  {
    match l {
      case Src(t) => f := f0 + ("-" + t + "\n");
      case Dst(t) => f := f0 + ("+" + t + "\n");
      case Both(t) => f := f0 + (" " + t + "\n");
    }
    FileOfOne(LineText(l));
  }

  /** How many lines are in the source, and how many in the destination. */
  method CountLines(lines: seq<Line>) returns (src: nat, dst: nat)
    ensures src == SrcLength(lines) && dst == DstLength(lines)
  {
    src, dst := 0, 0;
    for k := 0 to |lines|
      invariant src == SrcLength(lines[..k]) && dst == DstLength(lines[..k])
    {
      assert lines[..k + 1][..k] == lines[..k];
      if IsSrc(lines[k]) {
        src := src + 1;
      }
      if IsDst(lines[k]) {
        dst := dst + 1;
      }
    }
    assert lines[..|lines|] == lines;
  }

  method WriteChunk(c: Chunk, f0: string) returns (f: string)
    ensures f == f0 + FileOf(ChunkTexts()(c))
  {
    var src, dst := CountLines(c.lines);
    f := f0 + ("@@ -" + Decimal(c.srcPos)
               + ("," + Decimal(src) + (" +" + Decimal(c.dstPos) + ("," + Decimal(dst) + " @@\n"))));
    FileOfOne(HeaderText(c));
    assert [HeaderText(c)] + [] == [HeaderText(c)];
    for k := 0 to |c.lines|
      invariant f == f0 + FileOf([HeaderText(c)] + FlatMap(c.lines[..k], LineTexts()))
    {
      GrowNext(f0, [HeaderText(c)], c.lines, k, LineTexts());
      f := WriteLine(c.lines[k], f);
    }
    assert c.lines[..|c.lines|] == c.lines;
  }

  lemma {:induction false} Grow(f0: string, a: seq<string>, b: seq<string>)
    ensures f0 + FileOf(a) + FileOf(b) == f0 + FileOf(a + b)
  {
    FileOfAppend(a, b);
    assert f0 + FileOf(a) + FileOf(b) == f0 + (FileOf(a) + FileOf(b));
  }

  lemma {:induction false} GrowNext<A>(f0: string, head: seq<string>, s: seq<A>, k: nat, texts: A -> seq<string>)
    requires k < |s|
    ensures f0 + FileOf(head + FlatMap(s[..k], texts)) + FileOf(texts(s[k]))
            == f0 + FileOf(head + FlatMap(s[..k + 1], texts))
  {
    var done := FlatMap(s[..k], texts);
    Grow(f0, head + done, texts(s[k]));
    FlatMapNext(s, k, texts);
    assert head + done + texts(s[k]) == head + (done + texts(s[k]));
  }

  function PatchHead(p: Patch): seq<string> { ["--- " + p.src + "\n", "+++ " + p.dst + "\n"] }

  method WriteHead(p: Patch, f0: string) returns (f: string)
    ensures f == f0 + FileOf(PatchHead(p))
  {
    f := f0 + ("--- " + p.src + "\n");
    f := f + ("+++ " + p.dst + "\n");
    FileOfOne("--- " + p.src + "\n");
    FileOfOne("+++ " + p.dst + "\n");
    Grow(f0, ["--- " + p.src + "\n"], ["+++ " + p.dst + "\n"]);
    assert ["--- " + p.src + "\n"] + ["+++ " + p.dst + "\n"] == PatchHead(p);
  }

  method WritePatch(p: Patch, f0: string) returns (f: string)
    ensures f == f0 + FileOf(PatchTexts()(p))
  {
    f := WriteHead(p, f0);
    assert PatchHead(p) + [] == PatchHead(p);
    for k := 0 to |p.chunks|
      invariant f == f0 + FileOf(PatchHead(p) + FlatMap(p.chunks[..k], ChunkTexts()))
    {
      GrowNext(f0, PatchHead(p), p.chunks, k, ChunkTexts());
      f := WriteChunk(p.chunks[k], f);
    }
    assert p.chunks[..|p.chunks|] == p.chunks;
  }

  /** Writing each patch in turn to an empty file. */
  method Write(ps: seq<Patch>) returns (f: string)
    ensures f == FileOf(Written(ps))
  {
    f := "";
    for k := 0 to |ps|
      invariant f == FileOf(Written(ps[..k]))
    {
      FlatMapNext(ps, k, PatchTexts());
      FileOfAppend(Written(ps[..k]), PatchTexts()(ps[k]));
      f := WritePatch(ps[k], f);
    }
    assert ps[..|ps|] == ps;
  }

  // ----- Reading the lines of a file back -----

  /** The lines of a file, each with its newline. */
  function Lines(f: string): seq<string>
    decreases |f|
  {
    if f == [] then [] else
    var n := LineLength(f);
    [f[..n]] + Lines(f[n..])
  }

  /** The length of the first line. */
  function LineLength(f: string): (n: nat)
    requires f != []
    ensures 0 < n <= |f|
  {
    if f[0] == '\n' || |f| == 1 then 1 else 1 + LineLength(f[1..])
  }

  /** Some text without a newline, and then one. */
  predicate IsLine(s: string) {
    s != [] && s[|s| - 1] == '\n' && '\n' !in s[..|s| - 1]
  }

  lemma {:induction false} LineLengthOf(s: string, rest: string)
    requires IsLine(s)
    ensures LineLength(s + rest) == |s|
    decreases |s|
  {
    if |s| <= 1 {
    } else {
      assert s[0] in s[..|s| - 1];
      assert (s + rest)[1..] == s[1..] + rest;
      assert s[1..][..|s| - 2] == s[..|s| - 1][1..];
      LineLengthOf(s[1..], rest);
    }
  }

  lemma {:induction false} LinesOfFile(ls: seq<string>)
    requires forall i :: 0 <= i < |ls| ==> IsLine(ls[i])
    ensures Lines(FileOf(ls)) == ls
    decreases |ls|
  {
    if ls == [] {
    } else {
      var s, rest := ls[0], FileOf(ls[1..]);
      assert ls == [s] + ls[1..];
      FileOfAppend([s], ls[1..]);
      FileOfOne(s);
      assert IsLine(s);
      LineLengthOf(s, rest);
      assert (s + rest)[..|s|] == s && (s + rest)[|s|..] == rest;
      assert forall i :: 0 <= i < |ls[1..]| ==> IsLine(ls[1..][i]);
      LinesOfFile(ls[1..]);
    }
  }

  // ----- Parsing -----

  /** The current patch is the last one; the current chunk may belong to an earlier one. */
  datatype PState = PState(patches: seq<Patch>, chunkAt: Option<(nat, nat)>)

  /** The current chunk, if there is one, is among the patches. */
  ghost predicate Sane(s: PState) {
    s.chunkAt.Some? ==>
      var i, j := s.chunkAt.value.0, s.chunkAt.value.1;
      i < |s.patches| && j < |s.patches[i].chunks|
  }

  function AddLine(ps: seq<Patch>, i: nat, j: nat, l: Line): seq<Patch>
    requires i < |ps| && j < |ps[i].chunks|
  {
    var c := ps[i].chunks[j];
    ps[i := ps[i].(chunks := ps[i].chunks[j := c.(lines := c.lines + [l])])]
  }

  /** One line; None is an exception: no patch yet, no chunk yet, or no match. */
  function Step(s: PState, e: Event): Option<PState> {
    var n := |s.patches|;
    match e
    case SrcFile(name) => Some(s.(patches := s.patches + [Patch(name, "", [])]))
    case DstFile(name) =>
      if n == 0 then None else Some(s.(patches := s.patches[n - 1 := s.patches[n - 1].(dst := name)]))
    case ChunkStart(a, b) =>
      if n == 0 then None else
      var p := s.patches[n - 1];
      Some(PState(s.patches[n - 1 := p.(chunks := p.chunks + [Chunk(a, b, [])])], Some((n - 1, |p.chunks|))))
    case LineOf(l) =>
      if s.chunkAt.None? then None else
      var i, j := s.chunkAt.value.0, s.chunkAt.value.1;
      if i < n && j < |s.patches[i].chunks| then Some(s.(patches := AddLine(s.patches, i, j, l))) else None
    case Unmatched => None
  }

  function Steps(s: PState, es: seq<Event>): Option<PState>
    decreases |es|
  {
    if es == [] then Some(s) else
    var t := Step(s, es[0]);
    if t.None? then None else Steps(t.value, es[1..])
  }

  function Classified(): string -> seq<Event> { (s: string) => [Classify(s)] }

  function Events(lines: seq<string>): seq<Event> {
    FlatMap(lines, Classified())
  }

  const START := PState([], None)

  function Parsed(lines: seq<string>): Option<seq<Patch>> {
    var t := Steps(START, Events(lines));
    if t.None? then None else Some(t.value.patches)
  }

  lemma {:induction false} StepsSnoc(s: PState, es: seq<Event>, e: Event)
    ensures Steps(s, es + [e]) == if Steps(s, es).None? then None else Step(Steps(s, es).value, e)
    decreases |es|
  {
    if es == [] {
      assert es + [e] == [e];
    } else {
      assert (es + [e])[1..] == es[1..] + [e];
      if Step(s, es[0]).Some? {
        StepsSnoc(Step(s, es[0]).value, es[1..], e);
      }
    }
  }

  lemma {:induction false} StepsAppend(s: PState, a: seq<Event>, b: seq<Event>)
    ensures Steps(s, a + b) == if Steps(s, a).None? then None else Steps(Steps(s, a).value, b)
    decreases |a|
  {
    if a == [] {
      assert a + b == b;
    } else {
      assert (a + b)[1..] == a[1..] + b;
      if Step(s, a[0]).Some? {
        StepsAppend(Step(s, a[0]).value, a[1..], b);
      }
    }
  }

  // ----- When parsing fails -----

  ghost predicate SeenPatch(es: seq<Event>) {
    exists j :: 0 <= j < |es| && es[j].SrcFile?
  }

  ghost predicate SeenChunk(es: seq<Event>) {
    exists j :: 0 <= j < |es| && es[j].ChunkStart?
  }

  /** The line may come after the given ones. */
  ghost predicate Allowed(before: seq<Event>, e: Event) {
    match e
    case SrcFile(_) => true
    case DstFile(_) => SeenPatch(before)
    case ChunkStart(_, _) => SeenPatch(before)
    case LineOf(_) => SeenChunk(before)
    case Unmatched => false
  }

  /** Every line matches, and none comes before the file header or the chunk header it needs. */
  ghost predicate InOrder(es: seq<Event>) {
    forall i :: 0 <= i < |es| ==> Allowed(es[..i], es[i])
  }

  /** What the state knows of the lines so far. */
  ghost predicate Tracks(s: PState, es: seq<Event>) {
    Sane(s) && (s.patches != [] <==> SeenPatch(es)) && (s.chunkAt.Some? <==> SeenChunk(es))
  }

  lemma {:induction false} StepTracks(s: PState, es: seq<Event>, e: Event)
    requires Tracks(s, es)
    ensures Step(s, e).Some? <==> Allowed(es, e)
    ensures Step(s, e).Some? ==> Tracks(Step(s, e).value, es + [e])
  {
    assert SeenPatch(es + [e]) <==> SeenPatch(es) || e.SrcFile? by {
      assert (es + [e])[|es|] == e;
      assert forall j :: 0 <= j < |es| ==> (es + [e])[j] == es[j];
    }
    assert SeenChunk(es + [e]) <==> SeenChunk(es) || e.ChunkStart? by {
      assert (es + [e])[|es|] == e;
      assert forall j :: 0 <= j < |es| ==> (es + [e])[j] == es[j];
    }
  }

  lemma {:induction false} InOrderSnoc(es: seq<Event>, e: Event)
    ensures InOrder(es + [e]) <==> InOrder(es) && Allowed(es, e)
  {
    var t := es + [e];
    assert t[..|es|] == es && t[|es|] == e;
    assert forall i :: 0 <= i < |es| ==> t[..i] == es[..i] && t[i] == es[i];
  }

  lemma {:induction false} StepsSucceedIff(es: seq<Event>)
    ensures Steps(START, es).Some? <==> InOrder(es)
    ensures Steps(START, es).Some? ==> Tracks(Steps(START, es).value, es)
    decreases |es|
  {
    if es == [] {
    } else {
      var n := |es| - 1;
      var init, e := es[..n], es[n];
      assert es == init + [e];
      StepsSucceedIff(init);
      StepsSnoc(START, init, e);
      InOrderSnoc(init, e);
      if Steps(START, init).Some? {
        StepTracks(Steps(START, init).value, init, e);
      }
    }
  }

  /** Parsing fails exactly when a line matches nothing or comes before the header it needs. */
  lemma {:induction false} ParsedIffInOrder(lines: seq<string>)
    ensures Parsed(lines).Some? <==> InOrder(Events(lines))
  {
    StepsSucceedIff(Events(lines));
  }

  /** A chunk line behind a new file header still goes to the old chunk, since the new patch has none yet. */
  lemma {:induction false} LateLineGoesToOldChunk(s: PState, name: string, l: Line)
    requires Sane(s) && s.chunkAt.Some?
    ensures var (i, j) := s.chunkAt.value;
            Steps(s, [SrcFile(name), LineOf(l)])
            == Some(PState(AddLine(s.patches, i, j, l) + [Patch(name, "", [])], s.chunkAt))
  {
    var (i, j) := s.chunkAt.value;
    var t := PState(s.patches + [Patch(name, "", [])], s.chunkAt);
    assert Step(s, SrcFile(name)) == Some(t);
    assert [SrcFile(name), LineOf(l)][1..] == [LineOf(l)] && [LineOf(l)][1..] == [];
    assert AddLine(t.patches, i, j, l) == AddLine(s.patches, i, j, l) + [Patch(name, "", [])];
    assert Steps(t, [LineOf(l)]) == Step(t, LineOf(l));
  }

  /** The loop over the lines. */
  method ParsePatchset(lines: seq<string>) returns (r: Option<seq<Patch>>)
    ensures r == Parsed(lines)
  {
    var patchset: seq<Patch> := [];
    var currentChunk: Option<(nat, nat)> := None;
    for k := 0 to |lines|
      invariant Steps(START, Events(lines[..k])) == Some(PState(patchset, currentChunk))
    {
      FlatMapNext(lines, k, Classified());
      StepsSnoc(START, Events(lines[..k]), Classify(lines[k]));
      var ok;
      ok, patchset, currentChunk := ParseLine(lines[k], patchset, currentChunk);
      if !ok {
        StuckStays(lines, k);
        return None;
      }
    }
    assert lines[..|lines|] == lines;
    return Some(patchset);
  }

  lemma {:induction false} StuckStays(lines: seq<string>, k: nat)
    requires k < |lines| && Steps(START, Events(lines[..k + 1])) == None
    ensures Parsed(lines) == None
  {
    assert lines == lines[..k + 1] + lines[k + 1..];
    FlatMapAppend(lines[..k + 1], lines[k + 1..], Classified());
    StepsAppend(START, Events(lines[..k + 1]), Events(lines[k + 1..]));
  }

  /** The body of the loop: the expressions are tried one after the other. */
  method ParseLine(line: string, patchset0: seq<Patch>, currentChunk0: Option<(nat, nat)>)
    returns (ok: bool, patchset: seq<Patch>, currentChunk: Option<(nat, nat)>)
    ensures ok == Step(PState(patchset0, currentChunk0), Classify(line)).Some?
    ensures ok ==> Step(PState(patchset0, currentChunk0), Classify(line)) == Some(PState(patchset, currentChunk))
  {
    var m := Rest("--- ", line);
    if m.Some? {
      return true, patchset0 + [Patch(m.value, "", [])], currentChunk0;
    }
    m := Rest("+++ ", line);
    if m.Some? {
      ok, patchset := SetDst(patchset0, currentChunk0, m.value);
      return ok, patchset, currentChunk0;
    }
    var h := MatchHeader(line);
    if h.Some? {
      ok, patchset, currentChunk := AddChunk(patchset0, currentChunk0, h.value.0, h.value.1);
      return;
    }
    ok, patchset := ParseChunkLine(line, patchset0, currentChunk0);
    return ok, patchset, currentChunk0;
  }

  /** The last patch gets its destination name. */
  method SetDst(patchset0: seq<Patch>, currentChunk: Option<(nat, nat)>, name: string)
    returns (ok: bool, patchset: seq<Patch>)
    ensures ok == Step(PState(patchset0, currentChunk), DstFile(name)).Some?
    ensures ok ==> Step(PState(patchset0, currentChunk), DstFile(name)) == Some(PState(patchset, currentChunk))
  {
    var n := |patchset0|;
    ok, patchset := n > 0, patchset0;
    if ok {
      patchset := patchset[n - 1 := patchset[n - 1].(dst := name)];
    }
  }

  /** The last patch gets a new chunk, which becomes the current one. */
  method AddChunk(patchset0: seq<Patch>, currentChunk0: Option<(nat, nat)>, a: nat, b: nat)
    returns (ok: bool, patchset: seq<Patch>, currentChunk: Option<(nat, nat)>)
    ensures ok == Step(PState(patchset0, currentChunk0), ChunkStart(a, b)).Some?
    ensures ok ==> Step(PState(patchset0, currentChunk0), ChunkStart(a, b)) == Some(PState(patchset, currentChunk))
  {
    var n := |patchset0|;
    ok, patchset, currentChunk := n > 0, patchset0, currentChunk0;
    if ok {
      var p := patchset[n - 1];
      currentChunk := Some((n - 1, |p.chunks|));
      patchset := patchset[n - 1 := p.(chunks := p.chunks + [Chunk(a, b, [])])];
    }
  }

  /** The three expressions for the lines of a chunk. */
  method ParseChunkLine(line: string, patchset0: seq<Patch>, currentChunk: Option<(nat, nat)>)
    returns (ok: bool, patchset: seq<Patch>)
    requires Rest("--- ", line).None? && Rest("+++ ", line).None? && MatchHeader(line).None?
    ensures ok == Step(PState(patchset0, currentChunk), Classify(line)).Some?
    ensures ok ==> Step(PState(patchset0, currentChunk), Classify(line)) == Some(PState(patchset, currentChunk))
  {
    patchset := patchset0;
    var m := Rest("-", line);
    if m.Some? {
      ok, patchset := AppendLine(patchset, currentChunk, Src(m.value));
      return;
    }
    m := Rest("+", line);
    if m.Some? {
      ok, patchset := AppendLine(patchset, currentChunk, Dst(m.value));
      return;
    }
    m := Rest(" ", line);
    if m.Some? {
      ok, patchset := AppendLine(patchset, currentChunk, Both(m.value));
      return;
    }
    ok := false;
  }

  /** The current chunk gets one more line. */
  method AppendLine(patchset0: seq<Patch>, currentChunk: Option<(nat, nat)>, l: Line)
    returns (ok: bool, patchset: seq<Patch>)
    ensures ok == Step(PState(patchset0, currentChunk), LineOf(l)).Some?
    ensures ok ==> Step(PState(patchset0, currentChunk), LineOf(l)) == Some(PState(patchset, currentChunk))
  {
    patchset := patchset0;
    ok := currentChunk.Some?;
    if ok {
      var i, j := currentChunk.value.0, currentChunk.value.1;
      ok := i < |patchset| && j < |patchset[i].chunks|;
      if ok {
        patchset := AddLine(patchset, i, j, l);
      }
    }
  }
}
