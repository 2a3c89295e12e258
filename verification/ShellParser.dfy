/** The token state machine of waf-tools/shellcmd.py. */
module ShellParser {
  import opened Options
  import opened ShellSyntax

  datatype Mode = Begin | InCommand | InChdir | WantStderr | WantStdout | WantStdin

  /** The loop variables of parse. */
  datatype PState = PState(mode: Mode, current: Option<Node>, pipeline: seq<Node>, env: map<string, string>)

  const START := PState(Begin, None, [], map[])

  function NewCommand(token: string, env: map<string, string>): Command {
    Command([token], None, OutNone, ErrNone, env)
  }

  /** Commit the current command and append an operator. */
  function CommitWith(s: PState, n: Node, op: Op): PState {
    s.(mode := Begin, current := None, pipeline := s.pipeline + [n, Operator(op)])
  }

  /** One token; None is a failing assertion. */
  function Step(s: PState, token: string): Option<PState> {
    match s.mode
    case Begin =>
      var a := SplitAssignment(token);
      if a.Some? then Some(s.(env := s.env[a.value.0 := a.value.1]))
      else if s.current.Some? then None
      else if token == "cd" then
        if s.env != map[] then None else Some(s.(mode := InChdir, current := Some(Chdir(None))))
      else Some(s.(mode := InCommand, current := Some(Cmd(NewCommand(token, s.env))), env := map[]))
    case InChdir =>
      if s.current.None? || !s.current.value.Chdir? then None
      else if token == "&&" then Some(CommitWith(s, s.current.value, And))
      else if s.current.value.dir.Some? then None
      else Some(s.(current := Some(Chdir(Some(token)))))
    case _ =>
      if s.current.None? || !s.current.value.Cmd? then None
      else StepCommand(s, s.current.value.cmd, token)
  }

  function StepCommand(s: PState, c: Command, token: string): Option<PState> {
    match s.mode
    case WantStdout => if c.stdout != OutNone then None else Some(WithCommand(s, c.(stdout := OutFile(token))))
    case WantStderr => if c.stderr != ErrNone then None else Some(WithCommand(s, c.(stderr := ErrFile(token))))
    case WantStdin => if c.stdin != None then None else Some(WithCommand(s, c.(stdin := Some(token))))
    case _ =>
      if token == ">" then Some(s.(mode := WantStdout))
      else if token == "2>" then Some(s.(mode := WantStderr))
      else if token == "2>&1" then if c.stderr != ErrNone then None else Some(WithCommand(s, c.(stderr := ErrStdout)))
      else if token == "<" then Some(s.(mode := WantStdin))
      else if token == "|" then
        if c.stdout != OutNone then None else Some(CommitWith(s, Cmd(c.(stdout := OutPipe)), Pipe))
      else if token == "&&" then Some(CommitWith(s, Cmd(c), And))
      else if token == "||" then Some(CommitWith(s, Cmd(c), Or))
      else Some(WithCommand(s, c.(argv := c.argv + [token])))
  }

  function WithCommand(s: PState, c: Command): PState {
    s.(mode := InCommand, current := Some(Cmd(c)))
  }

  /** The tokens from state s; None when an assertion fails on the way or at the final commit. */
  function ParseFrom(s: PState, tokens: seq<string>): Option<seq<Node>>
    decreases |tokens|
  {
    if tokens == [] then
      if s.current.None? then None else Some(s.pipeline + [s.current.value])
    else
      var t := Step(s, tokens[0]);
      if t.None? then None else ParseFrom(t.value, tokens[1..])
  }

  // ----- The parser itself -----

  /** The parse state lives in the object, as it does in shellcmd.py. */
  class Pipeline {
    var currentCommand: Option<Node>
    var pipeline: seq<Node>

    constructor ()
      ensures currentCommand == None && pipeline == []
    {
      currentCommand, pipeline := None, [];
    }

    /** Append the current command to the pipeline; asserts that there is one. */
    method CommitCommand() returns (ok: bool)
      modifies this
      ensures ok == old(currentCommand).Some?
      ensures ok ==> pipeline == old(pipeline) + [old(currentCommand).value] && currentCommand == None
      ensures !ok ==> pipeline == old(pipeline) && currentCommand == None
    {
      if currentCommand.None? {
        return false;
      }
      pipeline := pipeline + [currentCommand.value];
      currentCommand := None;
      return true;
    }

    /** The loop over the tokens; ok tells whether all assertions held. */
    method Parse(tokens: seq<string>) returns (ok: bool)
      modifies this
      ensures ok == ParseFrom(START, tokens).Some?
      ensures ok ==> currentCommand == None && Some(pipeline) == ParseFrom(START, tokens)
    {
      currentCommand, pipeline := None, [];
      var state, envVars := Begin, map[];
      for i := 0 to |tokens|
        invariant ParseFrom(PState(state, currentCommand, pipeline, envVars), tokens[i..]) == ParseFrom(START, tokens)
      {
        ghost var before := PState(state, currentCommand, pipeline, envVars);
        var token := tokens[i];
        assert tokens[i..][0] == token && tokens[i..][1..] == tokens[i + 1..];
        state, envVars, ok := Consume(state, envVars, token);
        if !ok {
          return;
        }
      }
      ok := CommitCommand();
    }

    /** The body of the token loop. */
    method Consume(state: Mode, envVars: map<string, string>, token: string)
      returns (state': Mode, envVars': map<string, string>, ok: bool)
      modifies this
      ensures ok == Step(PState(state, old(currentCommand), old(pipeline), envVars), token).Some?
      ensures ok ==> Step(PState(state, old(currentCommand), old(pipeline), envVars), token)
                     == Some(PState(state', currentCommand, pipeline, envVars'))
    {
      state', envVars', ok := state, envVars, true;
      if state == Begin {
        var envVarMatch := SplitAssignment(token);
        if envVarMatch.Some? {
          envVars' := envVars[envVarMatch.value.0 := envVarMatch.value.1];
        } else {
          ok := currentCommand == None;
          if ok {
            if token == "cd" {
              currentCommand := Some(Chdir(None));
              ok := envVars == map[];
              state' := InChdir;
            } else {
              currentCommand := Some(Cmd(Command([token], None, OutNone, ErrNone, map[])));
              if envVars != map[] {
                currentCommand := Some(Cmd(currentCommand.value.cmd.(env := envVars)));
                envVars' := map[];
              }
              state' := InCommand;
            }
          }
        }
      } else if currentCommand.None? {
        ok := false;
      } else if state == InChdir {
        if !currentCommand.value.Chdir? {
          ok := false;
        } else if token == "&&" {
          state' := CommitAndAppend(And);
        } else {
          ok := currentCommand.value.dir == None;
          currentCommand := Some(Chdir(Some(token)));
        }
      } else if !currentCommand.value.Cmd? {
        ok := false;
      } else {
        state', ok := ConsumeInCommand(state, token);
      }
    }

    method CommitAndAppend(op: Op) returns (state: Mode)
      requires currentCommand.Some?
      modifies this
      ensures state == Begin && currentCommand == None
      ensures pipeline == old(pipeline) + [old(currentCommand).value, Operator(op)]
    {
      var _ := CommitCommand();
      pipeline := pipeline + [Operator(op)];
      state := Begin;
    }

    method ConsumeInCommand(state: Mode, token: string) returns (state': Mode, ok: bool)
      requires currentCommand.Some? && currentCommand.value.Cmd? && state != Begin && state != InChdir
      modifies this
      ensures forall env: map<string, string> ::
                var s := PState(state, old(currentCommand), old(pipeline), env);
                && ok == StepCommand(s, old(currentCommand).value.cmd, token).Some?
                && (ok ==> StepCommand(s, old(currentCommand).value.cmd, token)
                           == Some(PState(state', currentCommand, pipeline, env)))
    {
      state', ok := InCommand, true;
      var c := currentCommand.value.cmd;
      if state == WantStdout {
        ok := c.stdout == OutNone;
        currentCommand := Some(Cmd(c.(stdout := OutFile(token))));
      } else if state == WantStderr {
        ok := c.stderr == ErrNone;
        currentCommand := Some(Cmd(c.(stderr := ErrFile(token))));
      } else if state == WantStdin {
        ok := c.stdin == None;
        currentCommand := Some(Cmd(c.(stdin := Some(token))));
      } else if token == ">" {
        state' := WantStdout;
      } else if token == "2>" {
        state' := WantStderr;
      } else if token == "2>&1" {
        ok := c.stderr == ErrNone;
        currentCommand := Some(Cmd(c.(stderr := ErrStdout)));
      } else if token == "<" {
        state' := WantStdin;
      } else if token == "|" {
        ok := c.stdout == OutNone;
        currentCommand := Some(Cmd(c.(stdout := OutPipe)));
        state' := CommitAndAppend(Pipe);
      } else if token == "&&" {
        state' := CommitAndAppend(And);
      } else if token == "||" {
        state' := CommitAndAppend(Or);
      } else {
        currentCommand := Some(Cmd(c.(argv := c.argv + [token])));
      }
    }
  }

  // ----- Whatever is accepted is well-formed -----

  ghost predicate StateInv(s: PState) {
    && Clauses(s.pipeline)
    && GoodEnv(s.env)
    && match s.mode
       case Begin => s.current == None
       case InChdir => s.env == map[] && s.current.Some? && s.current.value.Chdir? && s.current.value.dir != Some("&&")
       case _ => s.env == map[] && s.current.Some? && s.current.value.Cmd?
                 && GoodCommand(s.current.value.cmd) && s.current.value.cmd.stdout != OutPipe
  }

  lemma {:induction false} OperatorKeepsInv(s: PState, c: Command, op: Op)
    requires StateInv(s) && s.mode == InCommand && s.current == Some(Cmd(c)) && StepCommand(s, c, OpToken(op)).Some?
    ensures StateInv(StepCommand(s, c, OpToken(op)).value)
  {
    ClausesThenClause(s.pipeline, Cmd(if op == Pipe then c.(stdout := OutPipe) else c), op);
  }

  lemma {:induction false} CommandStepKeepsInv(s: PState, token: string)
    requires StateInv(s) && s.mode != Begin && s.mode != InChdir && StepCommand(s, s.current.value.cmd, token).Some?
    ensures StateInv(StepCommand(s, s.current.value.cmd, token).value)
  {
    var c := s.current.value.cmd;
    if s.mode == InCommand {
      if token == OpToken(Pipe) {
        OperatorKeepsInv(s, c, Pipe);
      } else if token == OpToken(And) {
        OperatorKeepsInv(s, c, And);
      } else if token == OpToken(Or) {
        OperatorKeepsInv(s, c, Or);
      } else {
        WordKeepsInv(s, c, token);
      }
    } else {
      RedirectionKeepsInv(s, c, token);
    }
  }

  lemma {:induction false} WordKeepsInv(s: PState, c: Command, token: string)
    requires StateInv(s) && s.mode == InCommand && s.current == Some(Cmd(c)) && StepCommand(s, c, token).Some?
    requires token != "|" && token != "&&" && token != "||"
    ensures StateInv(StepCommand(s, c, token).value)
  {
  }

  lemma {:induction false} RedirectionKeepsInv(s: PState, c: Command, token: string)
    requires StateInv(s) && s.mode != Begin && s.mode != InChdir && s.mode != InCommand
    requires s.current == Some(Cmd(c)) && StepCommand(s, c, token).Some?
    ensures StateInv(StepCommand(s, c, token).value)
  {
  }

  lemma {:induction false} StepKeepsInv(s: PState, token: string)
    requires StateInv(s) && Step(s, token).Some?
    ensures StateInv(Step(s, token).value)
  {
    match s.mode
    case Begin =>
      SplitsIffAssignment(token);
      if SplitAssignment(token).Some? {
        SplitIsWellFormed(token);
      }
    case InChdir =>
      if token == "&&" {
        ClausesThenClause(s.pipeline, s.current.value, And);
      }
    case _ =>
      CommandStepKeepsInv(s, token);
  }

  lemma {:induction false} ParseFromIsWellFormed(s: PState, tokens: seq<string>)
    requires StateInv(s) && ParseFrom(s, tokens).Some?
    ensures WellFormed(ParseFrom(s, tokens).value)
    decreases |tokens|
  {
    if tokens == [] {
      ClausesThenNode(s.pipeline, s.current.value);
    } else {
      StepKeepsInv(s, tokens[0]);
      ParseFromIsWellFormed(Step(s, tokens[0]).value, tokens[1..]);
    }
  }

  /** Every accepted token list gives a well-formed pipeline. */
  lemma {:induction false} AcceptedIsWellFormed(tokens: seq<string>)
    requires ParseFrom(START, tokens).Some?
    ensures WellFormed(ParseFrom(START, tokens).value)
  {
    ParseFromIsWellFormed(START, tokens);
  }

  // ----- Every well-formed pipeline is accepted -----

  ghost function SomeKey(env: map<string, string>): (k: string)
    requires env != map[]
    ensures k in env
  {
    var k :| k in env;
    k
  }

  /** The assignments of an environment, in some order. */
  ghost function EnvTokens(env: map<string, string>): seq<string>
    decreases |env|
  {
    if env == map[] then [] else
    var k := SomeKey(env);
    EnvShrinks(env, k);
    [k + "=" + env[k]] + EnvTokens(env - {k})
  }

  lemma {:induction false} EnvShrinks(env: map<string, string>, k: string)
    requires k in env
    ensures |env - {k}| < |env|
  {
  }

  function StdinTokens(c: Command): seq<string> {
    if c.stdin.Some? then ["<", c.stdin.value] else []
  }

  function StdoutTokens(c: Command): seq<string> {
    if c.stdout.OutFile? then [">", c.stdout.name] else []
  }

  function StderrTokens(c: Command): seq<string> {
    match c.stderr
    case ErrNone => []
    case ErrStdout => ["2>&1"]
    case ErrFile(f) => ["2>", f]
  }

  ghost function NodeTokens(n: Node): seq<string>
    requires n.Cmd? ==> n.cmd.argv != []
  {
    match n
    case Cmd(c) => EnvTokens(c.env) + c.argv + StdinTokens(c) + StdoutTokens(c) + StderrTokens(c)
    case Chdir(dir) => ["cd"] + if dir.Some? then [dir.value] else []
    case Operator(_) => []
  }

  function OpToken(op: Op): string {
    match op
    case Pipe => "|"
    case And => "&&"
    case Or => "||"
  }

  /** The tokens that spell a pipeline. */
  ghost function Spell(p: seq<Node>): seq<string>
    requires WellFormed(p)
  {
    if |p| == 1 then NodeTokens(p[0])
    else NodeTokens(p[0]) + [OpToken(p[1].op)] + Spell(p[2..])
  }

  /** All tokens from state s. */
  function Steps(s: PState, tokens: seq<string>): Option<PState>
    decreases |tokens|
  {
    if tokens == [] then Some(s) else
    var t := Step(s, tokens[0]);
    if t.None? then None else Steps(t.value, tokens[1..])
  }

  lemma {:induction false} StepsThenSteps(s: PState, a: seq<string>, b: seq<string>)
    requires Steps(s, a).Some?
    ensures Steps(s, a + b) == Steps(Steps(s, a).value, b)
    decreases |a|
  {
    if a == [] {
      assert a + b == b;
    } else {
      assert (a + b)[1..] == a[1..] + b;
      StepsThenSteps(Step(s, a[0]).value, a[1..], b);
    }
  }

  lemma {:induction false} StepsThenParse(s: PState, a: seq<string>, b: seq<string>)
    requires Steps(s, a).Some?
    ensures ParseFrom(s, a + b) == ParseFrom(Steps(s, a).value, b)
    decreases |a|
  {
    if a == [] {
      assert a + b == b;
    } else {
      assert (a + b)[1..] == a[1..] + b;
      StepsThenParse(Step(s, a[0]).value, a[1..], b);
    }
  }

  lemma {:induction false} EnvTokensParse(s: PState, env: map<string, string>)
    requires s.mode == Begin && GoodEnv(env)
    ensures Steps(s, EnvTokens(env)) == Some(s.(env := s.env + env))
    decreases |env|
  {
    if env == map[] {
      assert s.env + env == s.env;
    } else {
      var k := SomeKey(env);
      EnvShrinks(env, k);
      AssignmentStep(s, k, env[k]);
      EnvTokensParse(s.(env := s.env[k := env[k]]), env - {k});
      AssignmentsMerge(s.env, env, k);
      StepsThenSteps(s, [k + "=" + env[k]], EnvTokens(env - {k}));
    }
  }

  lemma {:induction false} AssignmentStep(s: PState, k: string, v: string)
    requires s.mode == Begin && IsName(k) && IsValue(v)
    ensures Steps(s, [k + "=" + v]) == Some(s.(env := s.env[k := v]))
  {
    AssignmentSplits(k, v);
    OneStep(s, k + "=" + v, s.(env := s.env[k := v]));
  }

  lemma {:induction false} AssignmentsMerge(known: map<string, string>, env: map<string, string>, k: string)
    requires k in env
    ensures known[k := env[k]] + (env - {k}) == known + env
  {
  }

  lemma {:induction false} ArgvParse(s: PState, c: Command, args: seq<string>)
    requires s.mode == InCommand && s.current == Some(Cmd(c))
    requires forall i :: 0 <= i < |args| ==> !IsReserved(args[i])
    ensures Steps(s, args) == Some(WithCommand(s, c.(argv := c.argv + args)))
    decreases |args|
  {
    if args == [] {
      assert c.argv + args == c.argv;
    } else {
      var d := c.(argv := c.argv + [args[0]]);
      assert !IsReserved(args[0]);
      ArgvParse(WithCommand(s, d), d, args[1..]);
      assert c.argv + [args[0]] + args[1..] == c.argv + args;
    }
  }

  lemma {:induction false} TwoSteps(s: PState, a: string, b: string, t: PState, u: PState)
    requires Step(s, a) == Some(t) && Step(t, b) == Some(u)
    ensures Steps(s, [a, b]) == Some(u)
  {
    assert [a, b][1..] == [b];
    assert Steps(t, [b]) == Some(u);
  }

  lemma {:induction false} OneStep(s: PState, a: string, t: PState)
    requires Step(s, a) == Some(t)
    ensures Steps(s, [a]) == Some(t)
  {
  }

  lemma {:induction false} StdinParse(s: PState, c: Command, target: Command)
    requires s.mode == InCommand && s.current == Some(Cmd(c)) && c.stdin == None
    ensures Steps(s, StdinTokens(target)) == Some(WithCommand(s, c.(stdin := target.stdin)))
  {
    if target.stdin.Some? {
      TwoSteps(s, "<", target.stdin.value, s.(mode := WantStdin), WithCommand(s, c.(stdin := target.stdin)));
    }
  }

  lemma {:induction false} StdoutParse(s: PState, c: Command, target: Command)
    requires s.mode == InCommand && s.current == Some(Cmd(c)) && c.stdout == OutNone
    ensures Steps(s, StdoutTokens(target))
            == Some(WithCommand(s, c.(stdout := if target.stdout.OutFile? then target.stdout else OutNone)))
  {
    if target.stdout.OutFile? {
      TwoSteps(s, ">", target.stdout.name, s.(mode := WantStdout), WithCommand(s, c.(stdout := target.stdout)));
    }
  }

  lemma {:induction false} StderrParse(s: PState, c: Command, target: Command)
    requires s.mode == InCommand && s.current == Some(Cmd(c)) && c.stderr == ErrNone
    ensures Steps(s, StderrTokens(target)) == Some(WithCommand(s, c.(stderr := target.stderr)))
  {
    match target.stderr
    case ErrNone =>
    case ErrStdout =>
      OneStep(s, "2>&1", WithCommand(s, c.(stderr := ErrStdout)));
    case ErrFile(f) =>
      TwoSteps(s, "2>", f, s.(mode := WantStderr), WithCommand(s, c.(stderr := target.stderr)));
  }

  /** What is on the way when the tokens of a command have been read: the pipe is still to come. */
  function Unpiped(c: Command): Command {
    if c.stdout == OutPipe then c.(stdout := OutNone) else c
  }

  lemma {:induction false} NameParse(s: PState, name: string)
    requires s.mode == Begin && s.current == None && name != "cd" && SplitAssignment(name) == None
    ensures Steps(s, [name]) == Some(PState(InCommand, Some(Cmd(NewCommand(name, s.env))), s.pipeline, map[]))
  {
  }

  lemma {:induction false} WordsParse(s: PState, c: Command)
    requires s.mode == Begin && s.current == None && s.env == map[] && GoodCommand(c)
    ensures Steps(s, EnvTokens(c.env) + c.argv)
            == Some(PState(InCommand, Some(Cmd(NewCommand(c.argv[0], c.env).(argv := c.argv))), s.pipeline, map[]))
  {
    var s1 := s.(env := c.env);
    EnvTokensParse(s, c.env);
    assert s.env + c.env == c.env;
    StepsThenSteps(s, EnvTokens(c.env), c.argv);
    var d := NewCommand(c.argv[0], c.env);
    SplitsIffAssignment(c.argv[0]);
    NameParse(s1, c.argv[0]);
    var s2 := PState(InCommand, Some(Cmd(d)), s.pipeline, map[]);
    assert c.argv == [c.argv[0]] + c.argv[1..];
    StepsThenSteps(s1, [c.argv[0]], c.argv[1..]);
    ArgvParse(s2, d, c.argv[1..]);
  }

  lemma {:induction false} CommandParse(s: PState, c: Command)
    requires s.mode == Begin && s.current == None && s.env == map[] && GoodCommand(c)
    ensures Steps(s, NodeTokens(Cmd(c))) == Some(PState(InCommand, Some(Cmd(Unpiped(c))), s.pipeline, map[]))
  {
    var a, i, o, e := EnvTokens(c.env) + c.argv, StdinTokens(c), StdoutTokens(c), StderrTokens(c);
    var d1 := NewCommand(c.argv[0], c.env).(argv := c.argv);
    var d2 := d1.(stdin := c.stdin);
    var d3 := d2.(stdout := if c.stdout.OutFile? then c.stdout else OutNone);
    var s1 := PState(InCommand, Some(Cmd(d1)), s.pipeline, map[]);
    WordsParse(s, c);
    StdinParse(s1, d1, c);
    StdoutParse(WithCommand(s1, d2), d2, c);
    StderrParse(WithCommand(s1, d3), d3, c);
    StepsThenSteps(s, a, i);
    StepsThenSteps(s, a + i, o);
    StepsThenSteps(s, a + i + o, e);
    assert d3.(stderr := c.stderr) == Unpiped(c);
  }

  lemma {:induction false} ChdirParse(s: PState, dir: Option<string>)
    requires s == PState(Begin, None, s.pipeline, map[]) && dir != Some("&&")
    ensures Steps(s, NodeTokens(Chdir(dir))) == Some(PState(InChdir, Some(Chdir(dir)), s.pipeline, map[]))
  {
    var t := PState(InChdir, Some(Chdir(None)), s.pipeline, map[]);
    assert SplitAssignment("cd") == None by {
      assert WordLength("cd") == 2 by {
        assert "cd" == "cd"[..2];
        WordLengthCd();
      }
    }
    if dir.Some? {
      assert NodeTokens(Chdir(dir)) == ["cd", dir.value];
      TwoSteps(s, "cd", dir.value, t, t.(current := Some(Chdir(dir))));
    } else {
      assert NodeTokens(Chdir(dir)) == ["cd"];
      OneStep(s, "cd", t);
    }
  }

  lemma {:induction false} WordLengthCd()
    ensures WordLength("cd") == 2
  {
  }

  lemma {:induction false} NodeParse(s: PState, n: Node, next: Option<Op>)
    requires s == PState(Begin, None, s.pipeline, map[]) && GoodNode(n, next)
    ensures Steps(s, NodeTokens(n)).Some?
    ensures next == None ==> ParseFrom(Steps(s, NodeTokens(n)).value, []) == Some(s.pipeline + [n])
    ensures next.Some? ==> Step(Steps(s, NodeTokens(n)).value, OpToken(next.value))
                           == Some(s.(pipeline := s.pipeline + [n, Operator(next.value)]))
  {
    match n
    case Cmd(c) =>
      CommandParse(s, c);
    case Chdir(dir) =>
      ChdirParse(s, dir);
  }

  lemma {:induction false} LastParses(n: Node, before: seq<Node>)
    requires GoodNode(n, None)
    ensures ParseFrom(PState(Begin, None, before, map[]), NodeTokens(n)) == Some(before + [n])
  {
    var s := PState(Begin, None, before, map[]);
    NodeParse(s, n, None);
    StepsThenParse(s, NodeTokens(n), []);
    assert NodeTokens(n) + [] == NodeTokens(n);
  }

  lemma {:induction false} ClauseParses(n: Node, op: Op, before: seq<Node>, rest: seq<string>)
    requires GoodNode(n, Some(op))
    ensures ParseFrom(PState(Begin, None, before, map[]), NodeTokens(n) + [OpToken(op)] + rest)
            == ParseFrom(PState(Begin, None, before + [n, Operator(op)], map[]), rest)
  {
    var s, tokens := PState(Begin, None, before, map[]), NodeTokens(n);
    NodeParse(s, n, Some(op));
    StepsThenParse(s, tokens, [OpToken(op)] + rest);
    assert tokens + [OpToken(op)] + rest == tokens + ([OpToken(op)] + rest);
    StepThenParse(Steps(s, tokens).value, OpToken(op), s.(pipeline := before + [n, Operator(op)]), rest);
  }

  lemma {:induction false} StepThenParse(s: PState, token: string, t: PState, rest: seq<string>)
    requires Step(s, token) == Some(t)
    ensures ParseFrom(s, [token] + rest) == ParseFrom(t, rest)
  {
    assert ([token] + rest)[1..] == rest;
  }

  lemma {:induction false} SpellParses(p: seq<Node>, before: seq<Node>)
    requires WellFormed(p)
    ensures ParseFrom(PState(Begin, None, before, map[]), Spell(p)) == Some(before + p)
    decreases |p|
  {
    if |p| == 1 {
      LastParses(p[0], before);
      assert [p[0]] == p;
    } else {
      SpellParses(p[2..], before + [p[0], p[1]]);
      MoreParses(p, before);
    }
  }

  lemma {:induction false} MoreParses(p: seq<Node>, before: seq<Node>)
    requires WellFormed(p) && |p| > 1
    requires ParseFrom(PState(Begin, None, before + [p[0], p[1]], map[]), Spell(p[2..]))
             == Some(before + [p[0], p[1]] + p[2..])
    ensures ParseFrom(PState(Begin, None, before, map[]), Spell(p)) == Some(before + p)
  {
    var op := p[1].op;
    assert p[1] == Operator(op);
    ClauseParses(p[0], op, before, Spell(p[2..]));
    TwoFirst(p, before);
  }

  lemma {:induction false} TwoFirst(p: seq<Node>, before: seq<Node>)
    requires |p| > 1
    ensures before + [p[0], p[1]] + p[2..] == before + p
  {
    assert p == [p[0], p[1]] + p[2..];
  }

  /** Parsing the spelling of a well-formed pipeline gives the pipeline back. */
  lemma {:induction false} SpellRoundTrip(p: seq<Node>)
    requires WellFormed(p)
    ensures ParseFrom(START, Spell(p)) == Some(p)
  {
    SpellParses(p, []);
    assert [] + p == p;
  }

  /** The well-formed pipelines are exactly those that some token list parses to. */
  lemma {:induction false} WellFormedIffParsed(p: seq<Node>)
    ensures WellFormed(p) <==> exists tokens :: ParseFrom(START, tokens) == Some(p)
  {
    if WellFormed(p) {
      SpellRoundTrip(p);
    }
    forall tokens | ParseFrom(START, tokens) == Some(p)
      ensures WellFormed(p)
    {
      AcceptedIsWellFormed(tokens);
    }
  }
}
