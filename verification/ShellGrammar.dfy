/**
 * The token lists that waf-tools/shellcmd.py accepts, as a grammar: which lists spell a line, and what
 * pipeline the line means.  The parser accepts exactly those lists and gives exactly those pipelines.
 */
module ShellGrammar {
  import opened Options
  import opened Sequences
  import opened ShellSyntax
  import opened ShellParser

  // ----- Lines and how they are spelled -----

  /** What may follow the name of a command. */
  datatype Part = Word(w: string) | ToFile(f: string) | ErrToFile(f: string) | ErrToOut | FromFile(f: string)

  datatype Clause =
    | Run(assignments: seq<string>, name: string, parts: seq<Part>)
    | ChangeDir(dir: Option<string>)

  /** Clauses with operators between them; the last may end in the mark of a redirection without its file. */
  datatype Line =
    | Last(clause: Clause, dangling: Option<string>)
    | More(clause: Clause, op: Op, rest: Line)

  function PartTokens(): Part -> seq<string> {
    (x: Part) => match x
                 case Word(w) => [w]
                 case ToFile(f) => [">", f]
                 case ErrToFile(f) => ["2>", f]
                 case ErrToOut => ["2>&1"]
                 case FromFile(f) => ["<", f]
  }

  function ClauseTokens(c: Clause): seq<string> {
    match c
    case Run(assignments, name, parts) => assignments + [name] + FlatMap(parts, PartTokens())
    case ChangeDir(dir) => if dir.Some? then ["cd", dir.value] else ["cd"]
  }

  function LineTokens(l: Line): seq<string> {
    match l
    case Last(c, dangling) => ClauseTokens(c) + if dangling.Some? then [dangling.value] else []
    case More(c, op, rest) => ClauseTokens(c) + [OpToken(op)] + LineTokens(rest)
  }

  // ----- Which lines are allowed -----

  predicate SetsErr(x: Part) { x.ErrToFile? || x.ErrToOut? }

  /** Each stream is redirected once at most, and no word looks like an operator or a redirection. */
  ghost predicate GoodParts(parts: seq<Part>) {
    && (forall i :: 0 <= i < |parts| && parts[i].Word? ==> !IsReserved(parts[i].w))
    && (forall i, j :: 0 <= i < j < |parts| ==> !(parts[i].ToFile? && parts[j].ToFile?))
    && (forall i, j :: 0 <= i < j < |parts| ==> !(SetsErr(parts[i]) && SetsErr(parts[j])))
    && (forall i, j :: 0 <= i < j < |parts| ==> !(parts[i].FromFile? && parts[j].FromFile?))
  }

  ghost predicate GoodClause(c: Clause) {
    match c
    case Run(assignments, name, parts) =>
      && (forall i :: 0 <= i < |assignments| ==> IsAssignment(assignments[i]))
      && name != "cd" && !IsAssignment(name) && GoodParts(parts)
    case ChangeDir(dir) => dir != Some("&&")
  }

  ghost predicate NoToFile(parts: seq<Part>) {
    forall i :: 0 <= i < |parts| ==> !parts[i].ToFile?
  }

  /** A cd may only be followed by &&, and a command that writes to a file not by a pipe. */
  ghost predicate GoodLine(l: Line) {
    match l
    case Last(c, dangling) =>
      GoodClause(c) && (dangling.Some? ==> c.Run? && dangling.value in [">", "2>", "<"])
    case More(c, op, rest) =>
      && GoodClause(c) && GoodLine(rest)
      && (c.ChangeDir? ==> op == And)
      && (c.Run? && op == Pipe ==> NoToFile(c.parts))
  }

  // ----- What a line means -----

  function Words(parts: seq<Part>): seq<string> {
    if parts == [] then []
    else
      var n := |parts| - 1;
      Words(parts[..n]) + if parts[n].Word? then [parts[n].w] else []
  }

  function StdinOf(parts: seq<Part>): Option<string> {
    if parts == [] then None
    else
      var n := |parts| - 1;
      if parts[n].FromFile? then Some(parts[n].f) else StdinOf(parts[..n])
  }

  function StdoutOf(parts: seq<Part>): Stdout {
    if parts == [] then OutNone
    else
      var n := |parts| - 1;
      if parts[n].ToFile? then OutFile(parts[n].f) else StdoutOf(parts[..n])
  }

  function StderrOf(parts: seq<Part>): Stderr {
    if parts == [] then ErrNone
    else
      var n := |parts| - 1;
      if parts[n].ErrToFile? then ErrFile(parts[n].f)
      else if parts[n].ErrToOut? then ErrStdout
      else StderrOf(parts[..n])
  }

  /** A later assignment to a name replaces an earlier one. */
  function EnvOf(assignments: seq<string>): map<string, string> {
    if assignments == [] then map[]
    else
      var n := |assignments| - 1;
      var a := SplitAssignment(assignments[n]);
      if a.Some? then EnvOf(assignments[..n])[a.value.0 := a.value.1] else EnvOf(assignments[..n])
  }

  function CommandOf(c: Clause): Command
    requires c.Run?
  {
    Command([c.name] + Words(c.parts), StdinOf(c.parts), StdoutOf(c.parts), StderrOf(c.parts), EnvOf(c.assignments))
  }

  /** The node of a clause; a pipe behind it becomes its output. */
  function NodeOf(c: Clause, next: Option<Op>): Node {
    match c
    case ChangeDir(dir) => Chdir(dir)
    case Run(_, _, _) => Cmd(if next == Some(Pipe) then CommandOf(c).(stdout := OutPipe) else CommandOf(c))
  }

  function Meaning(l: Line): seq<Node> {
    match l
    case Last(c, _) => [NodeOf(c, None)]
    case More(c, op, rest) => [NodeOf(c, Some(op)), Operator(op)] + Meaning(rest)
  }

  /** The tokens spell a line with the given meaning. */
  ghost predicate Spells(tokens: seq<string>, p: seq<Node>) {
    exists l :: GoodLine(l) && LineTokens(l) == tokens && Meaning(l) == p
  }

  // ----- One more part -----

  /** The part may follow the others. */
  ghost predicate Fits(parts: seq<Part>, x: Part) {
    match x
    case Word(w) => !IsReserved(w)
    case ToFile(_) => StdoutOf(parts) == OutNone
    case FromFile(_) => StdinOf(parts) == None
    case ErrToFile(_) => StderrOf(parts) == ErrNone
    case ErrToOut => StderrOf(parts) == ErrNone
  }

  lemma {:induction false} Unset(parts: seq<Part>)
    ensures StdoutOf(parts) == OutNone <==> forall i :: 0 <= i < |parts| ==> !parts[i].ToFile?
    ensures StdinOf(parts) == None <==> forall i :: 0 <= i < |parts| ==> !parts[i].FromFile?
    ensures StderrOf(parts) == ErrNone <==> forall i :: 0 <= i < |parts| ==> !SetsErr(parts[i])
    decreases |parts|
  {
    if parts == [] {
    } else {
      var n := |parts| - 1;
      Unset(parts[..n]);
      assert forall i :: 0 <= i < n ==> parts[..n][i] == parts[i];
    }
  }

  lemma {:induction false} GoodPartsSnoc(parts: seq<Part>, x: Part)
    ensures GoodParts(parts + [x]) <==> GoodParts(parts) && Fits(parts, x)
  {
    Unset(parts);
    var all := parts + [x];
    assert all[|parts|] == x && forall i :: 0 <= i < |parts| ==> all[i] == parts[i];
    if GoodParts(parts) && Fits(parts, x) {
      forall i, j | 0 <= i < j < |all|
        ensures !(all[i].ToFile? && all[j].ToFile?) && !(SetsErr(all[i]) && SetsErr(all[j]))
        ensures !(all[i].FromFile? && all[j].FromFile?)
      {
        assert all[i] == parts[i];
        assert j < |parts| ==> all[j] == parts[j];
      }
    }
    if GoodParts(all) {
      forall i, j | 0 <= i < j < |parts|
        ensures !(parts[i].ToFile? && parts[j].ToFile?) && !(SetsErr(parts[i]) && SetsErr(parts[j]))
        ensures !(parts[i].FromFile? && parts[j].FromFile?)
      {
        assert all[i] == parts[i] && all[j] == parts[j];
      }
      forall i | 0 <= i < |parts|
        ensures parts[i].Word? ==> !IsReserved(parts[i].w)
      {
        assert all[i] == parts[i];
      }
      assert Fits(parts, x) by {
        assert forall i :: 0 <= i < |parts| ==> all[i] == parts[i] && i < |parts| < |all|;
      }
    }
  }

  /** The command with one more part. */
  function With(c: Command, x: Part): Command {
    match x
    case Word(w) => c.(argv := c.argv + [w])
    case ToFile(f) => c.(stdout := OutFile(f))
    case FromFile(f) => c.(stdin := Some(f))
    case ErrToFile(f) => c.(stderr := ErrFile(f))
    case ErrToOut => c.(stderr := ErrStdout)
  }

  function AddPart(c: Clause, x: Part): Clause
    requires c.Run?
  {
    c.(parts := c.parts + [x])
  }

  lemma {:induction false} CommandOfMore(c: Clause, x: Part)
    requires c.Run?
    ensures CommandOf(AddPart(c, x)) == With(CommandOf(c), x)
  {
    PushPop(c.parts, x);
    if x.Word? {
      assert [c.name] + (Words(c.parts) + [x.w]) == [c.name] + Words(c.parts) + [x.w];
    } else {
      assert Words(c.parts) + [] == Words(c.parts);
    }
  }

  lemma {:induction false} ClauseTokensMore(c: Clause, x: Part, rest: seq<string>)
    requires c.Run?
    ensures ClauseTokens(AddPart(c, x)) + rest == ClauseTokens(c) + (PartTokens()(x) + rest)
  {
    FlatMapSnoc(c.parts, x, PartTokens());
    var a, b, t := c.assignments + [c.name], FlatMap(c.parts, PartTokens()), PartTokens()(x);
    assert a + (b + t) + rest == (a + b) + (t + rest);
  }

  // ----- The states of the parser -----

  /** Inside the command of a clause. */
  function InClause(before: seq<Node>, c: Clause): PState
    requires c.Run?
  {
    PState(InCommand, Some(Cmd(CommandOf(c))), before, map[])
  }

  function InCd(before: seq<Node>, dir: Option<string>): PState {
    PState(InChdir, Some(Chdir(dir)), before, map[])
  }

  /** At the beginning of a clause, behind some assignments. */
  function AtBegin(before: seq<Node>, assignments: seq<string>): PState {
    PState(Begin, None, before, EnvOf(assignments))
  }

  ghost predicate AllAssign(assignments: seq<string>) {
    forall i :: 0 <= i < |assignments| ==> IsAssignment(assignments[i])
  }

  lemma {:induction false} EnvOfMore(assignments: seq<string>, t: string)
    requires SplitAssignment(t).Some?
    ensures EnvOf(assignments + [t]) == EnvOf(assignments)[SplitAssignment(t).value.0 := SplitAssignment(t).value.1]
  {
    PushPop(assignments, t);
  }

  lemma {:induction false} EnvOfNone(assignments: seq<string>)
    requires AllAssign(assignments)
    ensures EnvOf(assignments) == map[] <==> assignments == []
  {
    if assignments == [] {
    } else {
      var n := |assignments| - 1;
      SplitsIffAssignment(assignments[n]);
      var a := SplitAssignment(assignments[n]).value;
      assert a.0 in EnvOf(assignments);
    }
  }

  // ----- Every allowed line is accepted -----

  lemma {:induction false} PartParses(before: seq<Node>, c: Clause, x: Part, rest: seq<string>)
    requires c.Run? && Fits(c.parts, x)
    ensures ParseFrom(InClause(before, c), PartTokens()(x) + rest) == ParseFrom(InClause(before, AddPart(c, x)), rest)
  {
    var s, t := InClause(before, c), InClause(before, AddPart(c, x));
    match x
    case Word(w) =>
      OneTokenStep(before, c, x, w);
      StepThenParse(s, w, t, rest);
    case ErrToOut =>
      OneTokenStep(before, c, x, "2>&1");
      StepThenParse(s, "2>&1", t, rest);
    case ToFile(f) =>
      TwoTokenSteps(before, c, x, ">", WantStdout);
      RedirectionParses(s, ">", s.(mode := WantStdout), f, t, rest);
    case ErrToFile(f) =>
      TwoTokenSteps(before, c, x, "2>", WantStderr);
      RedirectionParses(s, "2>", s.(mode := WantStderr), f, t, rest);
    case FromFile(f) =>
      TwoTokenSteps(before, c, x, "<", WantStdin);
      RedirectionParses(s, "<", s.(mode := WantStdin), f, t, rest);
  }

  lemma {:induction false} OneTokenStep(before: seq<Node>, c: Clause, x: Part, token: string)
    requires c.Run? && Fits(c.parts, x) && ((x == ErrToOut && token == "2>&1") || x == Word(token))
    ensures Step(InClause(before, c), token) == Some(InClause(before, AddPart(c, x)))
  {
    CommandOfMore(c, x);
  }

  lemma {:induction false} TwoTokenSteps(before: seq<Node>, c: Clause, x: Part, mark: string, mode: Mode)
    requires c.Run? && Fits(c.parts, x)
    requires (x.ToFile? && mark == ">" && mode == WantStdout) || (x.ErrToFile? && mark == "2>" && mode == WantStderr)
             || (x.FromFile? && mark == "<" && mode == WantStdin)
    ensures var s := InClause(before, c);
            && Step(s, mark) == Some(s.(mode := mode))
            && Step(s.(mode := mode), x.f) == Some(InClause(before, AddPart(c, x)))
  {
    CommandOfMore(c, x);
  }

  lemma {:induction false} RedirectionParses(s: PState, mark: string, m: PState, f: string, t: PState,
                                             rest: seq<string>)
    requires Step(s, mark) == Some(m) && Step(m, f) == Some(t)
    ensures ParseFrom(s, [mark, f] + rest) == ParseFrom(t, rest)
  {
    StepThenParse(s, mark, m, [f] + rest);
    StepThenParse(m, f, t, rest);
    assert [mark, f] + rest == [mark] + ([f] + rest);
  }

  lemma {:induction false} PartsParse(before: seq<Node>, c: Clause, more: seq<Part>, rest: seq<string>)
    requires c.Run? && GoodParts(c.parts + more)
    ensures ParseFrom(InClause(before, c), FlatMap(more, PartTokens()) + rest)
            == ParseFrom(InClause(before, c.(parts := c.parts + more)), rest)
    decreases |more|
  {
    if more == [] {
      assert c.parts + more == c.parts;
      assert [] + rest == rest;
    } else {
      var n := |more| - 1;
      var init, x := more[..n], more[n];
      var d := c.(parts := c.parts + init);
      assert c.parts + more == (c.parts + init) + [x];
      assert AddPart(d, x) == c.(parts := c.parts + more);
      GoodPartsSnoc(c.parts + init, x);
      PartsParse(before, c, init, PartTokens()(x) + rest);
      PartParses(before, d, x, rest);
      MorePartTokens(more, rest);
    }
  }

  lemma {:induction false} MorePartTokens(parts: seq<Part>, rest: seq<string>)
    requires parts != []
    ensures var n := |parts| - 1;
            FlatMap(parts, PartTokens()) + rest
            == FlatMap(parts[..n], PartTokens()) + (PartTokens()(parts[n]) + rest)
  {
    var n := |parts| - 1;
    assert parts == parts[..n] + [parts[n]];
    FlatMapSnoc(parts[..n], parts[n], PartTokens());
    Reassociate(FlatMap(parts[..n], PartTokens()), PartTokens()(parts[n]), rest);
  }

  lemma {:induction false} AssignmentsParse(before: seq<Node>, more: seq<string>, rest: seq<string>)
    requires AllAssign(more)
    ensures ParseFrom(AtBegin(before, []), more + rest) == ParseFrom(AtBegin(before, more), rest)
    decreases |more|
  {
    if more == [] {
      assert more + rest == rest;
    } else {
      var n := |more| - 1;
      var init, t := more[..n], more[n];
      assert more == init + [t];
      AssignmentsParse(before, init, [t] + rest);
      assert more + rest == init + ([t] + rest);
      SplitsIffAssignment(t);
      EnvOfMore(init, t);
      StepThenParse(AtBegin(before, init), t, AtBegin(before, more), rest);
    }
  }

  lemma {:induction false} NameParses(before: seq<Node>, assignments: seq<string>, name: string, rest: seq<string>)
    requires name != "cd" && !IsAssignment(name)
    ensures ParseFrom(AtBegin(before, assignments), [name] + rest)
            == ParseFrom(InClause(before, Run(assignments, name, [])), rest)
  {
    SplitsIffAssignment(name);
    assert [name] + [] == [name];
    StepThenParse(AtBegin(before, assignments), name, InClause(before, Run(assignments, name, [])), rest);
  }

  lemma {:induction false} RunParses(before: seq<Node>, c: Clause, rest: seq<string>)
    requires c.Run? && GoodClause(c)
    ensures ParseFrom(AtBegin(before, []), ClauseTokens(c) + rest) == ParseFrom(InClause(before, c), rest)
  {
    var a, b := [c.name], FlatMap(c.parts, PartTokens());
    AssignmentsParse(before, c.assignments, a + (b + rest));
    NameParses(before, c.assignments, c.name, b + rest);
    assert [] + c.parts == c.parts;
    PartsParse(before, Run(c.assignments, c.name, []), c.parts, rest);
    Reassociate(c.assignments, a, b);
    Reassociate(c.assignments + a, b, rest);
    Reassociate(c.assignments, a, b + rest);
  }

  lemma {:induction false} CdParses(before: seq<Node>, dir: Option<string>, rest: seq<string>)
    requires dir != Some("&&")
    ensures ParseFrom(AtBegin(before, []), ClauseTokens(ChangeDir(dir)) + rest) == ParseFrom(InCd(before, dir), rest)
  {
    CdIsNoAssignment();
    if dir.Some? {
      RedirectionParses(AtBegin(before, []), "cd", InCd(before, None), dir.value, InCd(before, dir), rest);
    } else {
      StepThenParse(AtBegin(before, []), "cd", InCd(before, None), rest);
    }
  }

  lemma {:induction false} CdIsNoAssignment()
    ensures SplitAssignment("cd") == None
  {
    WordLengthCd();
  }

  lemma {:induction false} LastParsed(before: seq<Node>, c: Clause, dangling: Option<string>)
    requires GoodLine(Last(c, dangling))
    ensures ParseFrom(AtBegin(before, []), LineTokens(Last(c, dangling))) == Some(before + Meaning(Last(c, dangling)))
  {
    var rest := if dangling.Some? then [dangling.value] else [];
    if c.ChangeDir? {
      CdParses(before, c.dir, rest);
    } else {
      RunParses(before, c, rest);
      if dangling.Some? {
        var s := InClause(before, c);
        var t := Step(s, dangling.value).value;
        assert t.current == s.current && t.pipeline == s.pipeline;
        StepThenParse(s, dangling.value, t, []);
        assert [dangling.value] + [] == rest;
      }
    }
  }

  lemma {:induction false} OperatorParses(before: seq<Node>, c: Clause, op: Op, rest: seq<string>)
    requires GoodClause(c) && (c.ChangeDir? ==> op == And) && (c.Run? && op == Pipe ==> NoToFile(c.parts))
    ensures ParseFrom(AtBegin(before, []), ClauseTokens(c) + ([OpToken(op)] + rest))
            == ParseFrom(AtBegin(before + [NodeOf(c, Some(op)), Operator(op)], []), rest)
  {
    var t := AtBegin(before + [NodeOf(c, Some(op)), Operator(op)], []);
    if c.ChangeDir? {
      CdParses(before, c.dir, [OpToken(op)] + rest);
      StepThenParse(InCd(before, c.dir), OpToken(op), t, rest);
    } else {
      RunParses(before, c, [OpToken(op)] + rest);
      Unset(c.parts);
      StepThenParse(InClause(before, c), OpToken(op), t, rest);
    }
  }

  lemma {:induction false} GoodLineParses(before: seq<Node>, l: Line)
    requires GoodLine(l)
    ensures ParseFrom(AtBegin(before, []), LineTokens(l)) == Some(before + Meaning(l))
    decreases l
  {
    match l
    case Last(c, dangling) => LastParsed(before, c, dangling);
    case More(c, op, rest) =>
      var nodes := [NodeOf(c, Some(op)), Operator(op)];
      OperatorParses(before, c, op, LineTokens(rest));
      GoodLineParses(before + nodes, rest);
      Reassociate(ClauseTokens(c), [OpToken(op)], LineTokens(rest));
      Reassociate(before, nodes, Meaning(rest));
  }

  lemma {:induction false} Reassociate<T>(a: seq<T>, b: seq<T>, c: seq<T>)
    ensures a + b + c == a + (b + c)
  {
  }

  // ----- Every accepted list spells an allowed line -----

  /** The line starts with the given tokens, goes on with the rest, and means what was parsed. */
  ghost predicate Reads(l: Line, start: seq<string>, rest: seq<string>, before: seq<Node>, p: seq<Node>) {
    GoodLine(l) && LineTokens(l) == start + rest && p == before + Meaning(l)
  }

  lemma {:induction false} FromBegin(before: seq<Node>, assignments: seq<string>, tokens: seq<string>, p: seq<Node>)
    returns (l: Line)
    requires AllAssign(assignments) && ParseFrom(AtBegin(before, assignments), tokens) == Some(p)
    ensures Reads(l, assignments, tokens, before, p)
    decreases |tokens|
  {
    if SplitAssignment(tokens[0]).Some? {
      AssignmentRead(before, assignments, tokens, p);
      l := FromBegin(before, assignments + [tokens[0]], tokens[1..], p);
    } else if tokens[0] == "cd" {
      CdRead(before, assignments, tokens, p);
      l := FromCd(before, None, tokens[1..], p);
      assert assignments + [tokens[0]] == ClauseTokens(ChangeDir(None));
    } else {
      NameRead(before, assignments, tokens, p);
      l := FromClause(before, Run(assignments, tokens[0], []), tokens[1..], p);
      assert assignments + [tokens[0]] == ClauseTokens(Run(assignments, tokens[0], []));
    }
    ReadsEarlier(l, assignments, tokens, before, p);
  }

  lemma {:induction false} ReadsEarlier(l: Line, a: seq<string>, tokens: seq<string>, before: seq<Node>, p: seq<Node>)
    requires tokens != [] && Reads(l, a + [tokens[0]], tokens[1..], before, p)
    ensures Reads(l, a, tokens, before, p)
  {
    Regroup(a, tokens);
  }

  lemma {:induction false} Regroup(a: seq<string>, tokens: seq<string>)
    requires tokens != []
    ensures a + [tokens[0]] + tokens[1..] == a + tokens
  {
    assert tokens == [tokens[0]] + tokens[1..];
  }

  lemma {:induction false} AssignmentRead(before: seq<Node>, assignments: seq<string>, tokens: seq<string>,
                                          p: seq<Node>)
    requires AllAssign(assignments) && ParseFrom(AtBegin(before, assignments), tokens) == Some(p)
    requires tokens != [] && SplitAssignment(tokens[0]).Some?
    ensures AllAssign(assignments + [tokens[0]])
    ensures ParseFrom(AtBegin(before, assignments + [tokens[0]]), tokens[1..]) == Some(p)
  {
    SplitsIffAssignment(tokens[0]);
    EnvOfMore(assignments, tokens[0]);
  }

  lemma {:induction false} CdRead(before: seq<Node>, assignments: seq<string>, tokens: seq<string>, p: seq<Node>)
    requires AllAssign(assignments) && ParseFrom(AtBegin(before, assignments), tokens) == Some(p)
    requires tokens != [] && tokens[0] == "cd"
    ensures assignments == [] && ParseFrom(InCd(before, None), tokens[1..]) == Some(p)
  {
    CdIsNoAssignment();
    EnvOfNone(assignments);
  }

  lemma {:induction false} NameRead(before: seq<Node>, assignments: seq<string>, tokens: seq<string>, p: seq<Node>)
    requires AllAssign(assignments) && ParseFrom(AtBegin(before, assignments), tokens) == Some(p)
    requires tokens != [] && tokens[0] != "cd" && SplitAssignment(tokens[0]).None?
    ensures GoodClause(Run(assignments, tokens[0], []))
    ensures ParseFrom(InClause(before, Run(assignments, tokens[0], [])), tokens[1..]) == Some(p)
  {
    SplitsIffAssignment(tokens[0]);
    assert [tokens[0]] + [] == [tokens[0]];
  }

  lemma {:induction false} FromCd(before: seq<Node>, dir: Option<string>, tokens: seq<string>, p: seq<Node>)
    returns (l: Line)
    requires dir != Some("&&") && ParseFrom(InCd(before, dir), tokens) == Some(p)
    ensures Reads(l, ClauseTokens(ChangeDir(dir)), tokens, before, p)
    decreases |tokens|
  {
    var c := ChangeDir(dir);
    if tokens == [] {
      l := Last(c, None);
    } else if tokens[0] == "&&" {
      var nodes := [Chdir(dir), Operator(And)];
      var rest := FromBegin(before + nodes, [], tokens[1..], p);
      l := More(c, And, rest);
      MoreReads(l, tokens, before, p);
    } else {
      l := FromCd(before, Some(tokens[0]), tokens[1..], p);
      assert ["cd", tokens[0]] + tokens[1..] == ["cd"] + tokens;
    }
  }

  lemma {:induction false} MoreReads(l: Line, tokens: seq<string>, before: seq<Node>, p: seq<Node>)
    requires l.More? && GoodClause(l.clause) && (l.clause.ChangeDir? ==> l.op == And)
    requires l.clause.Run? && l.op == Pipe ==> NoToFile(l.clause.parts)
    requires tokens != [] && tokens[0] == OpToken(l.op)
    requires Reads(l.rest, [], tokens[1..], before + [NodeOf(l.clause, Some(l.op)), Operator(l.op)], p)
    ensures Reads(l, ClauseTokens(l.clause), tokens, before, p)
  {
    var nodes := [NodeOf(l.clause, Some(l.op)), Operator(l.op)];
    assert [OpToken(l.op)] + ([] + tokens[1..]) == tokens;
    assert ClauseTokens(l.clause) + [OpToken(l.op)] + LineTokens(l.rest) == ClauseTokens(l.clause) + tokens;
    assert before + nodes + Meaning(l.rest) == before + (nodes + Meaning(l.rest));
  }

  lemma {:induction false} FromClause(before: seq<Node>, c: Clause, tokens: seq<string>, p: seq<Node>)
    returns (l: Line)
    requires c.Run? && GoodClause(c) && ParseFrom(InClause(before, c), tokens) == Some(p)
    ensures Reads(l, ClauseTokens(c), tokens, before, p)
    decreases |tokens|
  {
    if tokens == [] {
      l := Last(c, None);
    } else if tokens[0] == OpToken(Pipe) {
      l := FromOperator(before, c, Pipe, tokens, p);
    } else if tokens[0] == OpToken(And) {
      l := FromOperator(before, c, And, tokens, p);
    } else if tokens[0] == OpToken(Or) {
      l := FromOperator(before, c, Or, tokens, p);
    } else if tokens[0] in [">", "2>", "<"] && |tokens| == 1 {
      l := Last(c, Some(tokens[0]));
      LastReads(before, c, tokens, p);
    } else {
      var x, rest := PartRead(before, c, tokens, p);
      l := FromClause(before, AddPart(c, x), rest, p);
    }
  }

  lemma {:induction false} PartRead(before: seq<Node>, c: Clause, tokens: seq<string>, p: seq<Node>)
    returns (x: Part, rest: seq<string>)
    requires c.Run? && GoodClause(c) && ParseFrom(InClause(before, c), tokens) == Some(p)
    requires tokens != [] && tokens[0] !in ["|", "&&", "||"]
    requires tokens[0] in [">", "2>", "<"] ==> |tokens| > 1
    ensures |rest| < |tokens| && GoodClause(AddPart(c, x))
    ensures ParseFrom(InClause(before, AddPart(c, x)), rest) == Some(p)
    ensures ClauseTokens(AddPart(c, x)) + rest == ClauseTokens(c) + tokens
  {
    x := NextPart(before, c, tokens, p);
    var n := |PartTokens()(x)|;
    rest := tokens[n..];
    assert n > 0;
    assert tokens == PartTokens()(x) + rest;
    GoodPartsSnoc(c.parts, x);
    PartParses(before, c, x, rest);
    ClauseTokensMore(c, x, rest);
  }

  lemma {:induction false} FromOperator(before: seq<Node>, c: Clause, op: Op, tokens: seq<string>, p: seq<Node>)
    returns (l: Line)
    requires c.Run? && GoodClause(c) && ParseFrom(InClause(before, c), tokens) == Some(p)
    requires tokens != [] && tokens[0] == OpToken(op)
    ensures Reads(l, ClauseTokens(c), tokens, before, p)
    decreases |tokens|, 0
  {
    var nodes := [NodeOf(c, Some(op)), Operator(op)];
    OperatorRead(before, c, op, tokens, p);
    var rest := FromBegin(before + nodes, [], tokens[1..], p);
    l := More(c, op, rest);
    MoreReads(l, tokens, before, p);
  }

  lemma {:induction false} OperatorRead(before: seq<Node>, c: Clause, op: Op, tokens: seq<string>, p: seq<Node>)
    requires c.Run? && ParseFrom(InClause(before, c), tokens) == Some(p) && tokens != [] && tokens[0] == OpToken(op)
    ensures op == Pipe ==> NoToFile(c.parts)
    ensures ParseFrom(AtBegin(before + [NodeOf(c, Some(op)), Operator(op)], []), tokens[1..]) == Some(p)
  {
    Unset(c.parts);
  }

  lemma {:induction false} LastReads(before: seq<Node>, c: Clause, tokens: seq<string>, p: seq<Node>)
    requires c.Run? && GoodClause(c) && ParseFrom(InClause(before, c), tokens) == Some(p)
    requires |tokens| == 1 && tokens[0] in [">", "2>", "<"]
    ensures Reads(Last(c, Some(tokens[0])), ClauseTokens(c), tokens, before, p)
  {
    assert tokens == [tokens[0]] && tokens[1..] == [];
  }

  /** The next part of a command, when no operator and no dangling mark comes next. */
  lemma {:induction false} NextPart(before: seq<Node>, c: Clause, tokens: seq<string>, p: seq<Node>) returns (x: Part)
    requires c.Run? && ParseFrom(InClause(before, c), tokens) == Some(p)
    requires tokens != [] && tokens[0] !in ["|", "&&", "||"]
    requires tokens[0] in [">", "2>", "<"] ==> |tokens| > 1
    ensures Fits(c.parts, x) && PartTokens()(x) <= tokens
  {
    var t := tokens[0];
    if t == "2>&1" {
      x := ErrToOut;
    } else if t == ">" {
      x := ToFile(tokens[1]);
    } else if t == "2>" {
      x := ErrToFile(tokens[1]);
    } else if t == "<" {
      x := FromFile(tokens[1]);
    } else {
      x := Word(t);
    }
    if |tokens| > 1 {
      assert tokens[1..][0] == tokens[1];
    }
  }

  /** The parser accepts exactly the lists that spell an allowed line, and gives exactly its meaning. */
  lemma {:induction false} ParsesIffSpells(tokens: seq<string>, p: seq<Node>)
    ensures ParseFrom(START, tokens) == Some(p) <==> Spells(tokens, p)
  {
    if ParseFrom(START, tokens) == Some(p) {
      var l := FromBegin([], [], tokens, p);
      assert [] + tokens == tokens && [] + Meaning(l) == Meaning(l);
    }
    if Spells(tokens, p) {
      var l :| GoodLine(l) && LineTokens(l) == tokens && Meaning(l) == p;
      GoodLineParses([], l);
      assert [] + Meaning(l) == Meaning(l);
    }
  }

  /** A list is rejected exactly when it spells no allowed line. */
  lemma {:induction false} RejectsIffNoLine(tokens: seq<string>)
    ensures ParseFrom(START, tokens) == None <==> !exists p :: Spells(tokens, p)
  {
    if ParseFrom(START, tokens).Some? {
      ParsesIffSpells(tokens, ParseFrom(START, tokens).value);
    }
    if p :| Spells(tokens, p) {
      ParsesIffSpells(tokens, p);
    }
  }
}
