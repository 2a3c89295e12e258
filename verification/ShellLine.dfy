/** Parser and executor of waf-tools/shellcmd.py together: from a list of tokens to a result. */
module ShellLine {
  import opened Options
  import opened ShellSyntax
  import opened ShellParser
  import opened ShellRun
  import opened ShellAndOr

  /**
   * Whatever the parser accepts can be run, and it returns a code for all exit codes exactly when every
   * cd names a directory and none ends the line.
   */
  lemma {:induction false} AcceptedReturnsCode(tokens: seq<string>)
    requires ParseFrom(START, tokens).Some?
    ensures var p := ParseFrom(START, tokens).value;
            && NodeAt(p, 0)
            && (Complete(p) <==> forall codes: seq<int> :: |codes| == |p| ==> Eval(Rest(p, 0, []), codes).Code?)
  {
    var p := ParseFrom(START, tokens).value;
    AcceptedIsNodes(tokens);
    CodeIffComplete(p);
  }

  /**
   * Every accepted line runs as POSIX says for all exit codes exactly when it is complete and uses only one
   * operator behind the cds at its start.
   */
  lemma {:induction false} AcceptedAgreesIff(tokens: seq<string>)
    requires ParseFrom(START, tokens).Some?
    ensures var p := ParseFrom(START, tokens).value;
            && NodeAt(p, 0)
            && (Complete(p) && OneOperator(SkipCds(ListFrom(p, 0))) <==>
                forall codes: seq<int> :: |codes| == |p| ==> AgreesOn(p, codes))
  {
    AcceptedIsNodes(tokens);
    AgreesIff(ParseFrom(START, tokens).value);
  }

  lemma {:induction false} AcceptedIsNodes(tokens: seq<string>)
    requires ParseFrom(START, tokens).Some?
    ensures NodeAt(ParseFrom(START, tokens).value, 0)
  {
    var p := ParseFrom(START, tokens).value;
    AcceptedIsWellFormed(tokens);
    assert p[0..] == p;
    WellFormedIsRunnable(p, 0);
  }

  /** What a run of the pipeline is to return. */
  ghost predicate Returns(p: seq<Node>, codes: seq<int>, r: RunResult)
    requires NodeAt(p, 0) && |codes| == |p|
  {
    && r == Eval(Rest(p, 0, []), codes)
    && (Complete(p) ==> r == Code(RightValue(ListFrom(p, 0), codes)))
    && (Complete(p) && OneOperator(SkipCds(ListFrom(p, 0))) ==> r == Code(PosixValue(p, codes)))
  }

  method RunParsed(p: seq<Node>, exits: nat -> int) returns (r: RunResult, ghost codes: seq<int>)
    requires NodeAt(p, 0)
    ensures |codes| == |p| && forall i :: 0 <= i < |p| ==> codes[i] == exits(i)
    ensures Returns(p, codes, r)
  {
    var exitCodes := seq(|p|, i requires 0 <= i < |p| => exits(i));
    codes := exitCodes;
    var ps, files, closed;
    r, ps, files, closed := Run(p, exitCodes);
    LineMeaning(p, codes);
  }

  /** Parse a line and run it, when the command at position i of the pipeline would exit with exits(i). */
  method RunLine(tokens: seq<string>, exits: nat -> int)
    returns (ok: bool, r: RunResult, ghost p: seq<Node>, ghost codes: seq<int>)
    ensures ok <==> ParseFrom(START, tokens).Some?
    ensures ok ==> Some(p) == ParseFrom(START, tokens) && NodeAt(p, 0)
    ensures ok ==> |codes| == |p| && forall i :: 0 <= i < |p| ==> codes[i] == exits(i)
    ensures ok ==> Returns(p, codes, r)
  {
    r, p, codes := NoValue, [], [];
    var line := new Pipeline();
    ok := line.Parse(tokens);
    if ok {
      AcceptedIsNodes(tokens);
      p := line.pipeline;
      r, codes := RunParsed(line.pipeline, exits);
    }
  }

  lemma {:induction false} LineMeaning(p: seq<Node>, codes: seq<int>)
    requires NodeAt(p, 0) && |codes| == |p|
    ensures Complete(p) ==> Eval(Rest(p, 0, []), codes) == Code(RightValue(ListFrom(p, 0), codes))
    ensures Complete(p) && OneOperator(SkipCds(ListFrom(p, 0))) ==>
              Eval(Rest(p, 0, []), codes) == Code(PosixValue(p, codes))
  {
    if Complete(p) {
      EvalIsRightNested(p, 0, [], codes);
      AgreesIffOneOperator(p);
      assert OneOperator(SkipCds(ListFrom(p, 0))) ==> AgreesOn(p, codes);
    }
  }

  /**
   * Two commands with an operator between them: the second runs exactly when && follows a success or ||
   * a failure, whatever the exit codes, negative ones included.
   */
  lemma {:induction false} TwoCommands(a: Command, b: Command, op: Op, x: int, y: int)
    requires op != Pipe && a.stdout != OutPipe
    ensures var p := [Cmd(a), Operator(op), Cmd(b)];
            NodeAt(p, 0) &&
            if (op == And && x != 0) || (op == Or && x == 0)
            then Eval(Rest(p, 0, []), [x, 0, y]) == Code(x) && Started(Rest(p, 0, []), [x, 0, y]) == [0]
            else Eval(Rest(p, 0, []), [x, 0, y]) == Code(y) && Started(Rest(p, 0, []), [x, 0, y]) == [0, 2]
  {
    var p := [Cmd(a), Operator(op), Cmd(b)];
    assert NodeAt(p, 2);
    OpStep(p, 0, []);
    EndStep(p, 2, []);
    assert [] + [0] == [0] && [] + [2] == [2] && [0] + [2] == [0, 2];
  }

  /** A relative directory is one without a slash in front, and here also without one at its end. */
  predicate Relative(d: string) {
    d != [] && d[0] != '/' && d[|d| - 1] != '/'
  }

  /** Two cds in a row: relative directories add up, and an absolute one starts afresh. */
  lemma {:induction false} DirectoriesAddUp(x: string, y: string, c: Command, previous: nat, k: nat)
    requires Relative(x) && y != []
    ensures var p := [Chdir(Some(x)), Operator(And), Chdir(Some(y)), Operator(And), Cmd(c)];
            && (Relative(y) ==> ProcessAt(p, 4, previous, k).cwd == Some("./" + x + "/" + y))
            && (y[0] == '/' ==> ProcessAt(p, 4, previous, k).cwd == Some(y))
  {
    var p := [Chdir(Some(x)), Operator(And), Chdir(Some(y)), Operator(And), Cmd(c)];
    assert CwdAt(p, 0) == ".";
    assert CwdAt(p, 2) == Join(".", x);
    assert Join(".", x) == "." + "/" + x;
    assert "." + "/" == "./";
    assert CwdAt(p, 4) == Join("./" + x, y);
    if Relative(y) {
      assert Join("./" + x, y) == "./" + x + "/" + y;
    }
  }

  /** Without a cd the process stays in the current directory. */
  lemma {:induction false} StaysInDirectory(c: Command, previous: nat, k: nat)
    ensures ProcessAt([Cmd(c)], 0, previous, k).cwd == None
  {
  }

  // ----- Lines that show why the conditions are needed -----

  function Word(name: string): Node {
    Cmd(NewCommand(name, map[]))
  }

  /** A one-letter command name is no assignment. */
  lemma {:induction false} LetterIsName(token: string)
    requires |token| <= 2 && '=' !in token
    ensures SplitAssignment(token) == None
  {
    var n := WordLength(token);
    assert n < |token| ==> token[n] in token;
  }

  /** cd d: the executor pops an operator that is not there. */
  lemma {:induction false} LoneCdFails()
    ensures var p := [Chdir(Some("d"))];
            && ParseFrom(START, ["cd", "d"]) == Some(p) && NodeAt(p, 0) && !Complete(p)
            && Eval(Rest(p, 0, []), [0]) == Failed(IndexError)
  {
    var p := [Chdir(Some("d"))];
    LetterIsName("cd");
    var s1 := START.(mode := InChdir, current := Some(Chdir(None)));
    var s2 := s1.(current := Some(Chdir(Some("d"))));
    StepThenParse(s1, "d", s2, []);
    StepThenParse(START, "cd", s1, ["d"]);
    assert ["d"] + [] == ["d"] && ["cd"] + ["d"] == ["cd", "d"];
    assert s2.pipeline + [Chdir(Some("d"))] == p;
    assert p[|p| - 1].Chdir?;
    EndStep(p, 0, []);
  }

  /** cd alone: the missing operator is noticed before the missing directory. */
  lemma {:induction false} BareCdFails()
    ensures var p := [Chdir(None)];
            ParseFrom(START, ["cd"]) == Some(p) && NodeAt(p, 0) && Eval(Rest(p, 0, []), [0]) == Failed(IndexError)
  {
    var p := [Chdir(None)];
    LetterIsName("cd");
    var s1 := START.(mode := InChdir, current := Some(Chdir(None)));
    StepThenParse(START, "cd", s1, []);
    assert ["cd"] + [] == ["cd"] && s1.pipeline + [Chdir(None)] == p;
    EndStep(p, 0, []);
  }

  /** cd && a: there is no directory to join. */
  lemma {:induction false} CdWithoutDirectoryFails()
    ensures var p := [Chdir(None), Operator(And), Word("a")];
            && ParseFrom(START, ["cd", "&&", "a"]) == Some(p) && NodeAt(p, 0) && !Complete(p)
            && Eval(Rest(p, 0, []), [0, 0, 0]) == Failed(TypeError)
  {
    var p := [Chdir(None), Operator(And), Word("a")];
    LetterIsName("cd");
    LetterIsName("a");
    var s1 := START.(mode := InChdir, current := Some(Chdir(None)));
    var s2 := CommitWith(s1, Chdir(None), And);
    var s3 := Step(s2, "a").value;
    assert s3.pipeline + [Word("a")] == p;
    StepThenParse(s2, "a", s3, []);
    StepThenParse(s1, "&&", s2, ["a"]);
    StepThenParse(START, "cd", s1, ["&&", "a"]);
    assert ["a"] + [] == ["a"] && ["&&"] + ["a"] == ["&&", "a"] && ["cd"] + ["&&", "a"] == ["cd", "&&", "a"];
    assert NodeAt(p, 2);
    NoDirStep(p, 0, []);
  }

  /** a || cd d && b, where a succeeds and b fails: POSIX goes on behind the cd, the executor returns. */
  lemma {:induction false} CdAfterOr()
    ensures var p := [Word("a"), Operator(Or), Chdir(Some("d")), Operator(And), Word("b")];
            var codes := [0, 0, 0, 0, 1];
            && ParseFrom(START, ["a", "||", "cd", "d", "&&", "b"]) == Some(p)
            && NodeAt(p, 0) && Complete(p) && !OneOperator(SkipCds(ListFrom(p, 0)))
            && Eval(Rest(p, 0, []), codes) == Code(0) && PosixValue(p, codes) == 1
  {
    var p := [Word("a"), Operator(Or), Chdir(Some("d")), Operator(And), Word("b")];
    CdAfterOrParses(p);
    assert NodeAt(p, 4);
    assert NodeAt(p, 2);
    assert ListFrom(p, 4) == Only(Last(4));
    assert ListFrom(p, 2) == List(Cd, And, Only(Last(4)));
    assert ListFrom(p, 0) == List(Last(0), Or, List(Cd, And, Only(Last(4))));
    EvalIsRightNested(p, 0, [], [0, 0, 0, 0, 1]);
  }

  lemma {:induction false} CdAfterOrParses(p: seq<Node>)
    requires p == [Word("a"), Operator(Or), Chdir(Some("d")), Operator(And), Word("b")]
    ensures ParseFrom(START, ["a", "||", "cd", "d", "&&", "b"]) == Some(p)
  {
    LetterIsName("a");
    LetterIsName("cd");
    LetterIsName("b");
    var s1 := Step(START, "a").value;
    var s2 := CommitWith(s1, Word("a"), Or);
    var s3 := s2.(mode := InChdir, current := Some(Chdir(None)));
    var s4 := s3.(current := Some(Chdir(Some("d"))));
    var s5 := CommitWith(s4, Chdir(Some("d")), And);
    var s6 := Step(s5, "b").value;
    assert s6.pipeline + [Word("b")] == p;
    StepThenParse(s5, "b", s6, []);
    StepThenParse(s4, "&&", s5, ["b"]);
    StepThenParse(s3, "d", s4, ["&&", "b"]);
    StepThenParse(s2, "cd", s3, ["d", "&&", "b"]);
    StepThenParse(s1, "||", s2, ["cd", "d", "&&", "b"]);
    StepThenParse(START, "a", s1, ["||", "cd", "d", "&&", "b"]);
    assert ["b"] + [] == ["b"] && ["&&"] + ["b"] == ["&&", "b"];
    assert ["d"] + ["&&", "b"] == ["d", "&&", "b"];
    assert ["cd"] + ["d", "&&", "b"] == ["cd", "d", "&&", "b"];
    assert ["||"] + ["cd", "d", "&&", "b"] == ["||", "cd", "d", "&&", "b"];
    assert ["a"] + ["||", "cd", "d", "&&", "b"] == ["a", "||", "cd", "d", "&&", "b"];
  }

  /** cd d && a || b uses both operators, and yet the readings agree: the cd comes before the first command. */
  lemma {:induction false} LeadingCdIsHarmless(codes: seq<int>)
    requires |codes| == 5
    ensures var p := [Chdir(Some("d")), Operator(And), Word("a"), Operator(Or), Word("b")];
            NodeAt(p, 0) && Complete(p) && AgreesOn(p, codes)
  {
    var p := [Chdir(Some("d")), Operator(And), Word("a"), Operator(Or), Word("b")];
    assert NodeAt(p, 4);
    assert NodeAt(p, 2);
    assert ListFrom(p, 4) == Only(Last(4));
    assert ListFrom(p, 2) == List(Last(2), Or, Only(Last(4)));
    assert SkipCds(ListFrom(p, 0)) == List(Last(2), Or, Only(Last(4)));
    AgreesIffOneOperator(p);
  }
}
