/** The pipelines of waf-tools/shellcmd.py: what its parser builds and its executor runs. */
module ShellSyntax {
  import opened Options
  import opened Strings

  datatype Stdout = OutNone | OutPipe | OutFile(name: string)
  datatype Stderr = ErrNone | ErrStdout | ErrFile(name: string)

  /** argv[0] is the command name; an empty env stands for no environment assignments. */
  datatype Command = Command(
    argv: seq<string>, stdin: Option<string>, stdout: Stdout, stderr: Stderr, env: map<string, string>)

  datatype Op = Pipe | And | Or

  datatype Node = Cmd(cmd: Command) | Chdir(dir: Option<string>) | Operator(op: Op)

  // ----- Environment assignments: ^([a-zA-Z0-9_]+)=(\S+)$ -----

  predicate IsWordChar(c: char) {
    'a' <= c <= 'z' || 'A' <= c <= 'Z' || '0' <= c <= '9' || c == '_'
  }

  /** The characters that \s matches in a text string. */
  predicate IsSpace(c: char) {
    var k := c as int;
    9 <= k <= 13 || 28 <= k <= 32 || k == 133 || k == 160 || k == 5760 || 8192 <= k <= 8202
    || k == 8232 || k == 8233 || k == 8239 || k == 8287 || k == 12288
  }

  /** The same by code: digits, capital letters, the underscore and small letters. */
  lemma {:induction false} WordCharCodes(c: char)
    ensures IsWordChar(c) <==>
            var k := c as int; 48 <= k <= 57 || 65 <= k <= 90 || k == 95 || 97 <= k <= 122
  {
  }

  /** The same one by one: the five control blanks, the four separators, the space, and the others of Unicode. */
  lemma {:induction false} SpaceCodes(c: char)
    ensures IsSpace(c) <==>
            c as int in {9, 10, 11, 12, 13, 28, 29, 30, 31, 32, 133, 160, 5760, 8192, 8193, 8194, 8195, 8196, 8197,
                         8198, 8199, 8200, 8201, 8202, 8232, 8233, 8239, 8287, 12288}
  {
  }

  predicate IsName(s: string) {
    s != [] && forall i :: 0 <= i < |s| ==> IsWordChar(s[i])
  }

  predicate IsValue(s: string) {
    s != [] && forall i :: 0 <= i < |s| ==> !IsSpace(s[i])
  }

  /** The length of the longest prefix of word characters. */
  function WordLength(s: string): nat
    ensures WordLength(s) <= |s|
  {
    if s == [] || !IsWordChar(s[0]) then 0 else 1 + WordLength(s[1..])
  }

  /** Name and value, when the token is an environment assignment. */
  function SplitAssignment(token: string): Option<(string, string)> {
    var n := WordLength(token);
    if n == 0 || n == |token| || token[n] != '=' then None else
    var v := Chomp(token[n + 1..]);
    if IsValue(v) then Some((token[..n], v)) else None
  }

  lemma {:induction false} WordLengthOf(name: string, rest: string)
    requires forall i :: 0 <= i < |name| ==> IsWordChar(name[i])
    requires rest != [] && !IsWordChar(rest[0])
    ensures WordLength(name + rest) == |name|
  {
    if name == [] {
      assert name + rest == rest;
    } else {
      assert (name + rest)[1..] == name[1..] + rest;
      WordLengthOf(name[1..], rest);
    }
  }

  lemma {:induction false} WordPrefix(s: string)
    ensures forall i :: 0 <= i < WordLength(s) ==> IsWordChar(s[i])
  {
    if s == [] || !IsWordChar(s[0]) {
    } else {
      WordPrefix(s[1..]);
      forall i | 0 <= i < WordLength(s)
        ensures IsWordChar(s[i])
      {
        if i > 0 {
          assert s[i] == s[1..][i - 1];
        }
      }
    }
  }

  lemma {:induction false} AssignmentSplits(name: string, value: string)
    requires IsName(name) && IsValue(value)
    ensures SplitAssignment(name + "=" + value) == Some((name, value))
  {
    var token := name + "=" + value;
    var rest := "=" + value;
    assert token == name + rest;
    WordLengthOf(name, rest);
    assert token[..|name|] == name && token[|name| + 1..] == value;
    assert !IsSpace(value[|value| - 1]);
    assert IsSpace('\n');
  }

  lemma {:induction false} SplitIsWellFormed(token: string)
    requires SplitAssignment(token).Some?
    ensures IsName(SplitAssignment(token).value.0) && IsValue(SplitAssignment(token).value.1)
  {
    WordPrefix(token);
  }

  /** The token assigns the value to the name; a newline at its end is not part of the value. */
  predicate Assigns(token: string, name: string, value: string) {
    && IsName(name) && IsValue(value)
    && (token == name + "=" + value || token == name + "=" + value + "\n")
  }

  ghost predicate IsAssignment(token: string) {
    exists name, value :: Assigns(token, name, value)
  }

  lemma {:induction false} AssignmentWithNewline(name: string, value: string)
    requires IsName(name) && IsValue(value)
    ensures SplitAssignment(name + "=" + value + "\n") == Some((name, value))
  {
    var token := name + "=" + value + "\n";
    var rest := "=" + value + "\n";
    assert token == name + rest;
    WordLengthOf(name, rest);
    assert token[..|name|] == name && token[|name| + 1..] == value + "\n";
    assert Chomp(value + "\n") == value;
  }

  /** What is split off is the name and the value, and nothing else is taken for an assignment. */
  lemma {:induction false} SplitIff(token: string, name: string, value: string)
    ensures SplitAssignment(token) == Some((name, value)) <==> Assigns(token, name, value)
  {
    if SplitAssignment(token) == Some((name, value)) {
      SplitIsWellFormed(token);
      SplitJoins(token);
    }
    if Assigns(token, name, value) {
      AssignmentSplits(name, value);
      AssignmentWithNewline(name, value);
    }
  }

  lemma {:induction false} SplitJoins(token: string)
    requires SplitAssignment(token).Some?
    ensures var (name, value) := SplitAssignment(token).value;
            token == name + "=" + value || token == name + "=" + value + "\n"
  {
    var n := WordLength(token);
    var tail := token[n + 1..];
    assert token == token[..n] + "=" + tail;
    assert tail == Chomp(tail) || tail == Chomp(tail) + "\n";
    assert token[..n] + "=" + (Chomp(tail) + "\n") == token[..n] + "=" + Chomp(tail) + "\n";
  }

  lemma {:induction false} SplitsIffAssignment(token: string)
    ensures SplitAssignment(token).Some? <==> IsAssignment(token)
  {
    if SplitAssignment(token).Some? {
      var (name, value) := SplitAssignment(token).value;
      SplitIff(token, name, value);
    }
    if IsAssignment(token) {
      var name, value :| Assigns(token, name, value);
      SplitIff(token, name, value);
    }
  }

  // ----- Well-formed pipelines -----

  predicate IsReserved(token: string) {
    token in [">", "2>", "2>&1", "<", "|", "&&", "||"]
  }

  ghost predicate GoodEnv(env: map<string, string>) {
    forall k :: k in env ==> IsName(k) && IsValue(env[k])
  }

  /** A command that some token list spells. */
  ghost predicate GoodCommand(c: Command) {
    && c.argv != []
    && c.argv[0] != "cd" && !IsAssignment(c.argv[0])
    && (forall i :: 1 <= i < |c.argv| ==> !IsReserved(c.argv[i]))
    && GoodEnv(c.env)
  }

  /** A command or cd that may stand before the operator next, or at the end. */
  ghost predicate GoodNode(n: Node, next: Option<Op>) {
    match n
    case Cmd(c) => GoodCommand(c) && (c.stdout == OutPipe <==> next == Some(Pipe))
    case Chdir(dir) => (next == None || next == Some(And)) && dir != Some("&&")
    case Operator(_) => false
  }

  /** Nodes and operators in turn, ending with an operator (or empty). */
  ghost predicate Clauses(p: seq<Node>) {
    p != [] ==> |p| >= 2 && p[1].Operator? && GoodNode(p[0], Some(p[1].op)) && Clauses(p[2..])
  }

  /** Nodes and operators in turn, ending with a node. */
  ghost predicate WellFormed(p: seq<Node>) {
    && p != []
    && if |p| == 1 then GoodNode(p[0], None)
       else p[1].Operator? && GoodNode(p[0], Some(p[1].op)) && WellFormed(p[2..])
  }

  lemma {:induction false} ClausesThenClause(p: seq<Node>, n: Node, op: Op)
    requires Clauses(p) && GoodNode(n, Some(op))
    ensures Clauses(p + [n, Operator(op)])
  {
    if p == [] {
      assert p + [n, Operator(op)] == [n, Operator(op)];
    } else {
      ClausesThenClause(p[2..], n, op);
      assert (p + [n, Operator(op)])[2..] == p[2..] + [n, Operator(op)];
    }
  }

  lemma {:induction false} ClausesThenNode(p: seq<Node>, n: Node)
    requires Clauses(p) && GoodNode(n, None)
    ensures WellFormed(p + [n])
  {
    if p == [] {
      assert p + [n] == [n];
    } else {
      ClausesThenNode(p[2..], n);
      assert (p + [n])[2..] == p[2..] + [n];
    }
  }

  /** The same, position by position: operators at the odd positions and nowhere else, and so on. */
  lemma {:induction false} WellFormedAt(p: seq<Node>, i: nat)
    requires WellFormed(p) && i < |p|
    ensures |p| % 2 == 1
    ensures p[i].Operator? <==> i % 2 == 1
    ensures i % 2 == 0 ==> GoodNode(p[i], if i + 1 < |p| && p[i + 1].Operator? then Some(p[i + 1].op) else None)
  {
    if |p| <= 1 {
    } else {
      if i >= 2 {
        WellFormedAt(p[2..], i - 2);
        assert p[i] == p[2..][i - 2];
        assert i + 1 < |p| ==> p[i + 1] == p[2..][i - 1];
      } else {
        WellFormedAt(p[2..], 0);
      }
    }
  }
}
