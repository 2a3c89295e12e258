/**
 * Parsing undoes writing for the patch sets of utils/check-style.py, exactly when no line of a chunk
 * reads as a file header.
 */
module PatchRoundTrip {
  import opened Options
  import opened Sequences
  import opened Totals
  import opened PatchText
  import opened PatchSet

  // ----- Texts without newlines -----

  predicate CleanChunk(c: Chunk) {
    forall i :: 0 <= i < |c.lines| ==> '\n' !in c.lines[i].text
  }

  predicate CleanPatch(p: Patch) {
    '\n' !in p.src && '\n' !in p.dst && forall i :: 0 <= i < |p.chunks| ==> CleanChunk(p.chunks[i])
  }

  /** No text contains a newline. */
  predicate Clean(ps: seq<Patch>) {
    forall i :: 0 <= i < |ps| ==> CleanPatch(ps[i])
  }

  // ----- The written lines are the lines of the written file -----

  ghost predicate AllLines(ls: seq<string>) {
    forall i :: 0 <= i < |ls| ==> IsLine(ls[i])
  }

  lemma {:induction false} FlatMapLines<A>(s: seq<A>, f: A -> seq<string>)
    requires forall i :: 0 <= i < |s| ==> AllLines(f(s[i]))
    ensures AllLines(FlatMap(s, f))
    decreases |s|
  {
    if s == [] {
    } else {
      assert forall i :: 0 <= i < |s| - 1 ==> s[..|s| - 1][i] == s[i];
      FlatMapLines(s[..|s| - 1], f);
    }
  }

  lemma {:induction false} TextIsLine(mark: string, t: string)
    requires '\n' !in mark && '\n' !in t
    ensures IsLine(mark + t + "\n")
  {
  }

  lemma {:induction false} NumberInLine(mark: string, n: nat, rest: string)
    requires '\n' !in mark && IsLine(rest)
    ensures IsLine(mark + Decimal(n) + rest)
  {
    DecimalDigits(n);
    var s := mark + Decimal(n);
    assert (s + rest)[..|s + rest| - 1] == s + rest[..|rest| - 1];
  }

  lemma {:induction false} HeaderIsLine(c: Chunk)
    ensures IsLine(HeaderText(c))
  {
    var r4 := " @@\n";
    assert r4[..3] == " @@";
    var r3 := "," + Decimal(DstLength(c.lines)) + r4;
    var r2 := " +" + Decimal(c.dstPos) + r3;
    NumberInLine(",", DstLength(c.lines), r4);
    NumberInLine(" +", c.dstPos, r3);
    NumberInLine(",", SrcLength(c.lines), r2);
    NumberInLine("@@ -", c.srcPos, "," + Decimal(SrcLength(c.lines)) + r2);
  }

  lemma {:induction false} ChunkIsLines(c: Chunk)
    requires CleanChunk(c)
    ensures AllLines(ChunkTexts()(c))
  {
    HeaderIsLine(c);
    forall i | 0 <= i < |c.lines|
      ensures AllLines(LineTexts()(c.lines[i]))
    {
      LineIsLine(c.lines[i]);
    }
    FlatMapLines(c.lines, LineTexts());
  }

  lemma {:induction false} LineIsLine(l: Line)
    requires '\n' !in l.text
    ensures IsLine(LineText(l))
  {
  }

  lemma {:induction false} PatchIsLines(p: Patch)
    requires CleanPatch(p)
    ensures AllLines(PatchTexts()(p))
  {
    TextIsLine("--- ", p.src);
    TextIsLine("+++ ", p.dst);
    forall i | 0 <= i < |p.chunks|
      ensures AllLines(ChunkTexts()(p.chunks[i]))
    {
      ChunkIsLines(p.chunks[i]);
    }
    FlatMapLines(p.chunks, ChunkTexts());
  }

  /** Splitting the written file gives the lines that were written. */
  lemma {:induction false} LinesOfWritten(ps: seq<Patch>)
    requires Clean(ps)
    ensures Lines(FileOf(Written(ps))) == Written(ps)
  {
    forall i | 0 <= i < |ps|
      ensures AllLines(PatchTexts()(ps[i]))
    {
      PatchIsLines(ps[i]);
    }
    FlatMapLines(ps, PatchTexts());
    LinesOfFile(Written(ps));
  }

  // ----- What the written lines are taken for -----

  function LineEvents(): Line -> seq<Event> { (l: Line) => [EventOf(l)] }

  function ChunkEvents(): Chunk -> seq<Event> {
    (c: Chunk) => [ChunkStart(c.srcPos, c.dstPos)] + FlatMap(c.lines, LineEvents())
  }

  function PatchHeadEvents(p: Patch): seq<Event> { [SrcFile(p.src), DstFile(p.dst)] }

  function PatchEvents(): Patch -> seq<Event> {
    (p: Patch) => PatchHeadEvents(p) + FlatMap(p.chunks, ChunkEvents())
  }

  lemma {:induction false} EventsThrough<A>(s: seq<A>, texts: A -> seq<string>, events: A -> seq<Event>)
    requires forall i :: 0 <= i < |s| ==> Events(texts(s[i])) == events(s[i])
    ensures Events(FlatMap(s, texts)) == FlatMap(s, events)
    decreases |s|
  {
    if s == [] {
    } else {
      var n := |s| - 1;
      assert forall i :: 0 <= i < n ==> s[..n][i] == s[i];
      EventsThrough(s[..n], texts, events);
      FlatMapAppend(FlatMap(s[..n], texts), texts(s[n]), Classified());
    }
  }

  lemma {:induction false} EventsOfOne(s: string)
    ensures Events([s]) == [Classify(s)]
  {
    FlatMapOne(s, Classified());
  }

  lemma {:induction false} EventsOfChunk(c: Chunk)
    requires CleanChunk(c)
    ensures Events(ChunkTexts()(c)) == ChunkEvents()(c)
  {
    forall i | 0 <= i < |c.lines|
      ensures Events(LineTexts()(c.lines[i])) == LineEvents()(c.lines[i])
    {
      ClassifyWritten(c.lines[i]);
      EventsOfOne(LineText(c.lines[i]));
    }
    EventsThrough(c.lines, LineTexts(), LineEvents());
    ClassifyHeader(c);
    EventsOfOne(HeaderText(c));
    FlatMapAppend([HeaderText(c)], FlatMap(c.lines, LineTexts()), Classified());
  }

  lemma {:induction false} EventsOfHead(p: Patch)
    requires CleanPatch(p)
    ensures Events(PatchHead(p)) == PatchHeadEvents(p)
  {
    var a, b := "--- " + p.src + "\n", "+++ " + p.dst + "\n";
    ClassifyFiles(p.src);
    ClassifyFiles(p.dst);
    EventsOfOne(a);
    EventsOfOne(b);
    assert PatchHead(p) == [a] + [b];
    FlatMapAppend([a], [b], Classified());
  }

  lemma {:induction false} EventsOfPatch(p: Patch)
    requires CleanPatch(p)
    ensures Events(PatchTexts()(p)) == PatchEvents()(p)
  {
    forall i | 0 <= i < |p.chunks|
      ensures Events(ChunkTexts()(p.chunks[i])) == ChunkEvents()(p.chunks[i])
    {
      EventsOfChunk(p.chunks[i]);
    }
    EventsThrough(p.chunks, ChunkTexts(), ChunkEvents());
    EventsOfHead(p);
    FlatMapAppend(PatchHead(p), FlatMap(p.chunks, ChunkTexts()), Classified());
  }

  lemma {:induction false} EventsOfWritten(ps: seq<Patch>)
    requires Clean(ps)
    ensures Events(Written(ps)) == FlatMap(ps, PatchEvents())
  {
    forall i | 0 <= i < |ps|
      ensures Events(PatchTexts()(ps[i])) == PatchEvents()(ps[i])
    {
      EventsOfPatch(ps[i]);
    }
    EventsThrough(ps, PatchTexts(), PatchEvents());
  }

  // ----- Without mistaken lines, parsing gives the patches back -----

  ghost predicate PlainChunk(c: Chunk) {
    forall i :: 0 <= i < |c.lines| ==> !Mistaken(c.lines[i])
  }

  ghost predicate PlainPatch(p: Patch) {
    forall i :: 0 <= i < |p.chunks| ==> PlainChunk(p.chunks[i])
  }

  /** No removed line starts with two dashes and a space, no added line with two pluses and a space. */
  ghost predicate Plain(ps: seq<Patch>) {
    forall i :: 0 <= i < |ps| ==> PlainPatch(ps[i])
  }

  /** In the middle of chunk c, which is the last so far of a patch after the finished ones. */
  function At(done: seq<Patch>, p: Patch, cs: seq<Chunk>, c: Chunk): PState {
    PState(done + [p.(chunks := cs + [c])], Some((|done|, |cs|)))
  }

  lemma {:induction false} LineStep(done: seq<Patch>, p: Patch, cs: seq<Chunk>, c: Chunk, l: Line)
    ensures Step(At(done, p, cs, c), LineOf(l)) == Some(At(done, p, cs, c.(lines := c.lines + [l])))
  {
    var ps := done + [p.(chunks := cs + [c])];
    assert ps[|done|].chunks[|cs|] == c;
    assert (cs + [c])[|cs| := c.(lines := c.lines + [l])] == cs + [c.(lines := c.lines + [l])];
    assert ps[|done| := p.(chunks := cs + [c.(lines := c.lines + [l])])]
           == done + [p.(chunks := cs + [c.(lines := c.lines + [l])])];
  }

  lemma {:induction false} LineSteps(done: seq<Patch>, p: Patch, cs: seq<Chunk>, c: Chunk, k: nat)
    requires PlainChunk(c) && k <= |c.lines|
    ensures Steps(At(done, p, cs, c.(lines := [])), FlatMap(c.lines[..k], LineEvents()))
            == Some(At(done, p, cs, c.(lines := c.lines[..k])))
    decreases k
  {
    if k == 0 {
    } else {
      var l := c.lines[k - 1];
      LineSteps(done, p, cs, c, k - 1);
      LineEventsNext(c, k - 1);
      StepsSnoc(At(done, p, cs, c.(lines := [])), FlatMap(c.lines[..k - 1], LineEvents()), LineOf(l));
      LineStep(done, p, cs, c.(lines := c.lines[..k - 1]), l);
      assert c.lines[..k] == c.lines[..k - 1] + [l];
    }
  }

  lemma {:induction false} LineEventsNext(c: Chunk, k: nat)
    requires PlainChunk(c) && k < |c.lines|
    ensures FlatMap(c.lines[..k + 1], LineEvents()) == FlatMap(c.lines[..k], LineEvents()) + [LineOf(c.lines[k])]
  {
    FlatMapNext(c.lines, k, LineEvents());
    assert EventOf(c.lines[k]) == LineOf(c.lines[k]);
  }

  lemma {:induction false} ChunkSteps(done: seq<Patch>, p: Patch, cs: seq<Chunk>, c: Chunk, at: Option<(nat, nat)>)
    requires PlainChunk(c)
    ensures Steps(PState(done + [p.(chunks := cs)], at), ChunkEvents()(c)) == Some(At(done, p, cs, c))
  {
    var s, e := PState(done + [p.(chunks := cs)], at), ChunkStart(c.srcPos, c.dstPos);
    var empty := c.(lines := []);
    assert (done + [p.(chunks := cs)])[|done| := p.(chunks := cs + [empty])] == done + [p.(chunks := cs + [empty])];
    assert Step(s, e) == Some(At(done, p, cs, empty));
    LineSteps(done, p, cs, c, |c.lines|);
    assert c.lines[..|c.lines|] == c.lines;
    assert ChunkEvents()(c)[1..] == FlatMap(c.lines, LineEvents());
  }

  lemma {:induction false} ChunksSteps(done: seq<Patch>, p: Patch, k: nat, at: Option<(nat, nat)>)
    requires PlainPatch(p) && k <= |p.chunks|
    ensures var r := Steps(PState(done + [p.(chunks := [])], at), FlatMap(p.chunks[..k], ChunkEvents()));
            r.Some? && r.value.patches == done + [p.(chunks := p.chunks[..k])]
    decreases k
  {
    if k == 0 {
    } else {
      var s, c := PState(done + [p.(chunks := [])], at), p.chunks[k - 1];
      ChunksSteps(done, p, k - 1, at);
      FlatMapNext(p.chunks, k - 1, ChunkEvents());
      StepsAppend(s, FlatMap(p.chunks[..k - 1], ChunkEvents()), ChunkEvents()(c));
      var mid := Steps(s, FlatMap(p.chunks[..k - 1], ChunkEvents())).value;
      ChunkSteps(done, p, p.chunks[..k - 1], c, mid.chunkAt);
      assert p.chunks[..k] == p.chunks[..k - 1] + [c];
    }
  }

  lemma {:induction false} HeadSteps(done: seq<Patch>, p: Patch, at: Option<(nat, nat)>)
    ensures Steps(PState(done, at), PatchHeadEvents(p)) == Some(PState(done + [p.(chunks := [])], at))
  {
    var q := Patch(p.src, "", []);
    var s, es := PState(done + [q], at), [SrcFile(p.src), DstFile(p.dst)];
    assert Step(PState(done, at), es[0]) == Some(s);
    assert (done + [q])[|done| := q.(dst := p.dst)] == done + [p.(chunks := [])];
    assert Step(s, es[1]) == Some(PState(done + [p.(chunks := [])], at));
    assert es[1..] == [es[1]] && [es[1]][1..] == [];
    assert Steps(s, [es[1]]) == Step(s, es[1]);
    assert PatchHeadEvents(p) == es;
  }

  lemma {:induction false} PatchSteps(done: seq<Patch>, p: Patch, at: Option<(nat, nat)>)
    requires PlainPatch(p)
    ensures var r := Steps(PState(done, at), PatchEvents()(p)); r.Some? && r.value.patches == done + [p]
  {
    HeadSteps(done, p, at);
    assert p.chunks[..|p.chunks|] == p.chunks;
    var body := FlatMap(p.chunks, ChunkEvents());
    StepsAppend(PState(done, at), PatchHeadEvents(p), body);
    ChunksSteps(done, p, |p.chunks|, at);
    assert p.(chunks := p.chunks) == p;
  }

  lemma {:induction false} PlainSteps(ps: seq<Patch>, k: nat)
    requires Plain(ps) && k <= |ps|
    ensures var r := Steps(START, FlatMap(ps[..k], PatchEvents())); r.Some? && r.value.patches == ps[..k]
    decreases k
  {
    if k == 0 {
    } else {
      PlainSteps(ps, k - 1);
      FlatMapNext(ps, k - 1, PatchEvents());
      StepsAppend(START, FlatMap(ps[..k - 1], PatchEvents()), PatchEvents()(ps[k - 1]));
      PatchSteps(ps[..k - 1], ps[k - 1], Steps(START, FlatMap(ps[..k - 1], PatchEvents())).value.chunkAt);
      assert ps[..k] == ps[..k - 1] + [ps[k - 1]];
    }
  }

  // ----- A mistaken line is lost -----

  function LinesIn(): Chunk -> nat { (c: Chunk) => |c.lines| }
  function LinesInPatch(): Patch -> nat { (p: Patch) => Total(p.chunks, LinesIn()) }

  /** How many chunk lines there are. */
  function LineCount(ps: seq<Patch>): nat { Total(ps, LinesInPatch()) }

  function IsLineOf(): Event -> nat { (e: Event) => if e.LineOf? then 1 else 0 }

  lemma {:induction false} StepCounts(s: PState, e: Event)
    requires Step(s, e).Some?
    ensures LineCount(Step(s, e).value.patches) == LineCount(s.patches) + IsLineOf()(e)
  {
    var ps, n := s.patches, |s.patches|;
    match e
    case SrcFile(name) =>
      TotalAppend(ps, Patch(name, "", []), LinesInPatch());
    case DstFile(name) =>
      TotalUpdate(ps, n - 1, ps[n - 1].(dst := name), LinesInPatch());
    case ChunkStart(a, b) =>
      var p := ps[n - 1];
      TotalAppend(p.chunks, Chunk(a, b, []), LinesIn());
      TotalUpdate(ps, n - 1, p.(chunks := p.chunks + [Chunk(a, b, [])]), LinesInPatch());
    case LineOf(l) =>
      var i, j := s.chunkAt.value.0, s.chunkAt.value.1;
      var p := ps[i];
      var c := p.chunks[j].(lines := p.chunks[j].lines + [l]);
      TotalUpdate(p.chunks, j, c, LinesIn());
      TotalUpdate(ps, i, p.(chunks := p.chunks[j := c]), LinesInPatch());
  }

  /** A parse keeps exactly the lines it takes for lines. */
  lemma {:induction false} StepsCount(s: PState, es: seq<Event>)
    requires Steps(s, es).Some?
    ensures LineCount(Steps(s, es).value.patches) == LineCount(s.patches) + Total(es, IsLineOf())
    decreases |es|
  {
    if es == [] {
    } else {
      StepCounts(s, es[0]);
      StepsCount(Step(s, es[0]).value, es[1..]);
      TotalHead(es, IsLineOf());
    }
  }

  function Kept(): Line -> nat { (l: Line) => if Mistaken(l) then 0 else 1 }
  function KeptInChunk(): Chunk -> nat { (c: Chunk) => Total(c.lines, Kept()) }
  function KeptInPatch(): Patch -> nat { (p: Patch) => Total(p.chunks, KeptInChunk()) }

  lemma {:induction false} KeptOfLine(l: Line)
    ensures Kept()(l) == Total(LineEvents()(l), IsLineOf())
  {
  }

  lemma {:induction false} KeptOfChunk(c: Chunk)
    ensures KeptInChunk()(c) == Total(ChunkEvents()(c), IsLineOf())
  {
    forall i | 0 <= i < |c.lines|
      ensures Kept()(c.lines[i]) == Total(LineEvents()(c.lines[i]), IsLineOf())
    {
      KeptOfLine(c.lines[i]);
    }
    TotalFlatMap(c.lines, LineEvents(), IsLineOf(), Kept());
    var es := ChunkEvents()(c);
    TotalHead(es, IsLineOf());
    assert es[1..] == FlatMap(c.lines, LineEvents());
  }

  lemma {:induction false} KeptOfPatch(p: Patch)
    ensures KeptInPatch()(p) == Total(PatchEvents()(p), IsLineOf())
  {
    forall i | 0 <= i < |p.chunks|
      ensures KeptInChunk()(p.chunks[i]) == Total(ChunkEvents()(p.chunks[i]), IsLineOf())
    {
      KeptOfChunk(p.chunks[i]);
    }
    TotalFlatMap(p.chunks, ChunkEvents(), IsLineOf(), KeptInChunk());
    var es := PatchEvents()(p);
    TotalHead(es, IsLineOf());
    TotalHead(es[1..], IsLineOf());
    assert es[1..][1..] == FlatMap(p.chunks, ChunkEvents());
  }

  lemma {:induction false} KeptOfPatches(ps: seq<Patch>)
    ensures Total(ps, KeptInPatch()) == Total(FlatMap(ps, PatchEvents()), IsLineOf())
  {
    forall i | 0 <= i < |ps|
      ensures KeptInPatch()(ps[i]) == Total(PatchEvents()(ps[i]), IsLineOf())
    {
      KeptOfPatch(ps[i]);
    }
    TotalFlatMap(ps, PatchEvents(), IsLineOf(), KeptInPatch());
  }

  lemma {:induction false} AllKeptChunk(c: Chunk)
    ensures KeptInChunk()(c) <= LinesIn()(c)
    ensures KeptInChunk()(c) == LinesIn()(c) <==> PlainChunk(c)
  {
    TotalAtMostLength(c.lines, Kept());
    assert forall i :: 0 <= i < |c.lines| ==> (Kept()(c.lines[i]) == 1 <==> !Mistaken(c.lines[i]));
  }

  lemma {:induction false} AllKeptPatch(p: Patch)
    ensures KeptInPatch()(p) <= LinesInPatch()(p)
    ensures KeptInPatch()(p) == LinesInPatch()(p) <==> PlainPatch(p)
  {
    forall i | 0 <= i < |p.chunks|
      ensures KeptInChunk()(p.chunks[i]) <= LinesIn()(p.chunks[i])
      ensures KeptInChunk()(p.chunks[i]) == LinesIn()(p.chunks[i]) <==> PlainChunk(p.chunks[i])
    {
      AllKeptChunk(p.chunks[i]);
    }
    TotalAtMost(p.chunks, KeptInChunk(), LinesIn());
  }

  lemma {:induction false} AllKept(ps: seq<Patch>)
    ensures Total(ps, KeptInPatch()) <= LineCount(ps)
    ensures Total(ps, KeptInPatch()) == LineCount(ps) <==> Plain(ps)
  {
    forall i | 0 <= i < |ps|
      ensures KeptInPatch()(ps[i]) <= LinesInPatch()(ps[i])
      ensures KeptInPatch()(ps[i]) == LinesInPatch()(ps[i]) <==> PlainPatch(ps[i])
    {
      AllKeptPatch(ps[i]);
    }
    TotalAtMost(ps, KeptInPatch(), LinesInPatch());
  }

  // ----- Parsed texts have no newline -----

  ghost predicate CleanEvent(e: Event) {
    match e
    case SrcFile(name) => '\n' !in name
    case DstFile(name) => '\n' !in name
    case LineOf(l) => '\n' !in l.text
    case _ => true
  }

  lemma {:induction false} ClassifiedIsClean(s: string)
    ensures CleanEvent(Classify(s))
  {
  }

  lemma {:induction false} StepKeepsClean(s: PState, e: Event)
    requires Clean(s.patches) && CleanEvent(e) && Step(s, e).Some?
    ensures Clean(Step(s, e).value.patches)
  {
  }

  lemma {:induction false} ParsedIsClean(lines: seq<string>)
    requires Parsed(lines).Some?
    ensures Clean(Parsed(lines).value)
  {
    EventsClean(lines);
    StepsClean(START, Events(lines));
  }

  ghost predicate CleanEvents(es: seq<Event>) {
    forall i :: 0 <= i < |es| ==> CleanEvent(es[i])
  }

  lemma {:induction false} EventsClean(lines: seq<string>)
    ensures CleanEvents(Events(lines))
    decreases |lines|
  {
    if lines == [] {
    } else {
      EventsClean(lines[..|lines| - 1]);
      ClassifiedIsClean(lines[|lines| - 1]);
    }
  }

  lemma {:induction false} StepsClean(s: PState, es: seq<Event>)
    requires Clean(s.patches) && CleanEvents(es) && Steps(s, es).Some?
    ensures Clean(Steps(s, es).value.patches)
    decreases |es|
  {
    if es == [] {
    } else {
      StepKeepsClean(s, es[0]);
      StepsClean(Step(s, es[0]).value, es[1..]);
    }
  }

  // ----- The round trip -----

  lemma {:induction false} CleanRoundTrip(ps: seq<Patch>)
    requires Clean(ps)
    ensures Parsed(Lines(FileOf(Written(ps)))) == Some(ps) <==> Plain(ps)
  {
    LinesOfWritten(ps);
    EventsOfWritten(ps);
    var es := FlatMap(ps, PatchEvents());
    if Plain(ps) {
      PlainSteps(ps, |ps|);
      assert ps[..|ps|] == ps;
    }
    if Parsed(Written(ps)) == Some(ps) {
      StepsCount(START, es);
      KeptOfPatches(ps);
      AllKept(ps);
    }
  }

  /** Parsing what was written gives the patches back exactly when no text has a newline and no line is mistaken. */
  lemma {:induction false} RoundTrip(ps: seq<Patch>)
    ensures Parsed(Lines(FileOf(Written(ps)))) == Some(ps) <==> Clean(ps) && Plain(ps)
  {
    if Parsed(Lines(FileOf(Written(ps)))) == Some(ps) {
      ParsedIsClean(Lines(FileOf(Written(ps))));
    }
    if Clean(ps) {
      CleanRoundTrip(ps);
    }
  }

  /** However the parse ends, it keeps one chunk line per line that is not mistaken. */
  lemma {:induction false} MistakenLinesAreLost(ps: seq<Patch>)
    requires Clean(ps) && Parsed(Lines(FileOf(Written(ps)))).Some?
    ensures LineCount(Parsed(Lines(FileOf(Written(ps)))).value) == Total(ps, KeptInPatch()) <= LineCount(ps)
    ensures Total(ps, KeptInPatch()) == LineCount(ps) <==> Plain(ps)
  {
    LinesOfWritten(ps);
    EventsOfWritten(ps);
    StepsCount(START, FlatMap(ps, PatchEvents()));
    KeptOfPatches(ps);
    AllKept(ps);
  }

  /** A chunk that removes the line "-- x": the line comes back as the file header of a patch of its own. */
  lemma {:induction false} RemovedDashesAreLost()
    ensures var ps := [Patch("a", "b", [Chunk(1, 1, [Src("-- x")])])];
            && Clean(ps) && !Plain(ps)
            && Parsed(Lines(FileOf(Written(ps)))) == Some([Patch("a", "b", [Chunk(1, 1, [])]), Patch("x", "", [])])
  {
    var line := Src("-- x");
    var c := Chunk(1, 1, [line]);
    var p := Patch("a", "b", [c]);
    assert "-- " <= line.text && Mistaken(c.lines[0]);
    assert !PlainChunk(p.chunks[0]);
    assert !PlainPatch([p][0]);
    LinesOfWritten([p]);
    EventsOfWritten([p]);
    DashEvents(p, c, line);
    HeadSteps([], p, None);
    DashSteps(p);
    StepsAppend(START, PatchHeadEvents(p), [ChunkStart(1, 1), SrcFile("x")]);
  }

  lemma {:induction false} DashEvents(p: Patch, c: Chunk, line: Line)
    requires line == Src("-- x") && c == Chunk(1, 1, [line]) && p.chunks == [c]
    ensures FlatMap([p], PatchEvents()) == PatchHeadEvents(p) + [ChunkStart(1, 1), SrcFile("x")]
  {
    assert "-- x"[3..] == "x";
    assert "-- " <= "-- x";
    FlatMapOne(line, LineEvents());
    FlatMapOne(c, ChunkEvents());
    FlatMapOne(p, PatchEvents());
  }

  lemma {:induction false} DashSteps(p: Patch)
    ensures Steps(PState([] + [p.(chunks := [])], None), [ChunkStart(1, 1), SrcFile("x")])
            == Some(PState([p.(chunks := [Chunk(1, 1, [])]), Patch("x", "", [])], Some((0, 0))))
  {
    var es := [ChunkStart(1, 1), SrcFile("x")];
    var s0 := PState([] + [p.(chunks := [])], None);
    var s1 := PState([p.(chunks := [Chunk(1, 1, [])])], Some((0, 0)));
    assert s0.patches[0].chunks + [Chunk(1, 1, [])] == [Chunk(1, 1, [])];
    assert s0.patches[0 := p.(chunks := [Chunk(1, 1, [])])] == s1.patches;
    assert Step(s0, es[0]) == Some(s1);
    assert es[1..] == [es[1]] && [es[1]][1..] == [];
    assert Steps(s1, [es[1]]) == Step(s1, es[1]);
    assert s1.patches + [Patch("x", "", [])] == [p.(chunks := [Chunk(1, 1, [])]), Patch("x", "", [])];
    assert Steps(s0, es) == Steps(s1, es[1..]);
  }

  /** A chunk that adds the line "++ x": the line is lost and renames the destination. */
  lemma {:induction false} AddedPlusesRename()
    ensures var ps := [Patch("a", "b", [Chunk(1, 1, [Dst("++ x")])])];
            && Clean(ps) && !Plain(ps)
            && Parsed(Lines(FileOf(Written(ps)))) == Some([Patch("a", "x", [Chunk(1, 1, [])])])
  {
    var line := Dst("++ x");
    var c := Chunk(1, 1, [line]);
    var p := Patch("a", "b", [c]);
    assert "++ " <= line.text && Mistaken(c.lines[0]);
    assert !PlainChunk(p.chunks[0]);
    assert !PlainPatch([p][0]);
    LinesOfWritten([p]);
    EventsOfWritten([p]);
    PlusEvents(p, c, line);
    HeadSteps([], p, None);
    PlusSteps(p);
    StepsAppend(START, PatchHeadEvents(p), [ChunkStart(1, 1), DstFile("x")]);
  }

  lemma {:induction false} PlusEvents(p: Patch, c: Chunk, line: Line)
    requires line == Dst("++ x") && c == Chunk(1, 1, [line]) && p.chunks == [c]
    ensures FlatMap([p], PatchEvents()) == PatchHeadEvents(p) + [ChunkStart(1, 1), DstFile("x")]
  {
    assert "++ x"[3..] == "x";
    assert "++ " <= "++ x";
    FlatMapOne(line, LineEvents());
    FlatMapOne(c, ChunkEvents());
    FlatMapOne(p, PatchEvents());
  }

  lemma {:induction false} PlusSteps(p: Patch)
    ensures Steps(PState([] + [p.(chunks := [])], None), [ChunkStart(1, 1), DstFile("x")])
            == Some(PState([p.(chunks := [Chunk(1, 1, [])], dst := "x")], Some((0, 0))))
  {
    var es := [ChunkStart(1, 1), DstFile("x")];
    var s0 := PState([] + [p.(chunks := [])], None);
    var s1 := PState([p.(chunks := [Chunk(1, 1, [])])], Some((0, 0)));
    assert s0.patches[0].chunks + [Chunk(1, 1, [])] == [Chunk(1, 1, [])];
    assert s0.patches[0 := p.(chunks := [Chunk(1, 1, [])])] == s1.patches;
    assert Step(s0, es[0]) == Some(s1);
    assert es[1..] == [es[1]] && [es[1]][1..] == [];
    assert Steps(s1, [es[1]]) == Step(s1, es[1]);
    assert s1.patches[0 := s1.patches[0].(dst := "x")] == [p.(chunks := [Chunk(1, 1, [])], dst := "x")];
    assert Steps(s0, es) == Steps(s1, es[1..]);
  }

  /** Write and then parse: what the file holds, and whether the patches come back. */
  method WriteThenParse(ps: seq<Patch>) returns (file: string, r: Option<seq<Patch>>)
    ensures file == FileOf(Written(ps))
    ensures r == Some(ps) <==> Clean(ps) && Plain(ps)
  {
    file := Write(ps);
    r := ParsePatchset(Lines(file));
    RoundTrip(ps);
  }
}
