/**
 * The executor of waf-tools/shellcmd.py, without its verbose output.  Processes are an oracle:
 * codes[i] is what the command at position i exits with if it is started.
 */
module ShellRun {
  import opened Options
  import opened Sequences
  import opened ShellSyntax

  datatype RunError = IndexError | TypeError

  /** Falling out of the loop returns None. */
  datatype RunResult = Code(value: int) | NoValue | Failed(error: RunError)

  // ----- What a pipeline means -----

  /**
   * A pipeline as pipe groups joined by && and ||, the rest of the line hanging off the right of
   * each operator.  A group lists the positions of its commands.  cd disappears into the group it
   * stands in; a cd that ends the line, or names no directory, makes the line fail there.
   */
  datatype Script =
    | Finish(group: seq<nat>)
    | Then(group: seq<nat>, op: Op, rest: Script)
    | Crash(group: seq<nat>, error: RunError)

  /** Put commands in front of the first group. */
  function Prefixed(before: seq<nat>, s: Script): Script {
    match s
    case Finish(g) => Finish(before + g)
    case Then(g, op, rest) => Then(before + g, op, rest)
    case Crash(g, e) => Crash(before + g, e)
  }

  /**
   * A node stands at position i, and from there on nodes and operators take turns: cd only before
   * && or at the end, a piped command exactly before a pipe.
   */
  ghost predicate NodeAt(p: seq<Node>, i: nat)
    decreases |p| - i
  {
    && i < |p| && !p[i].Operator?
    && (i + 1 < |p| ==>
          && p[i + 1].Operator?
          && (p[i].Chdir? ==> p[i + 1].op == And)
          && (p[i].Cmd? ==> (p[i].cmd.stdout == OutPipe <==> p[i + 1].op == Pipe))
          && NodeAt(p, i + 2))
  }

  /** Every pipeline that the parser returns can be run. */
  lemma {:induction false} WellFormedIsRunnable(p: seq<Node>, i: nat)
    requires i < |p| && WellFormed(p[i..])
    ensures NodeAt(p, i)
    decreases |p| - i
  {
    assert p[i..][0] == p[i];
    if i + 1 == |p| {
    } else {
      assert p[i..][1] == p[i + 1];
      assert p[i..][2..] == p[i + 2..];
      assert WellFormed(p[i + 2..]);
      assert p[i + 2..] != [];
      WellFormedIsRunnable(p, i + 2);
    }
  }

  lemma {:induction false} NodeAtNext(p: seq<Node>, i: nat)
    requires NodeAt(p, i)
    ensures i + 1 < |p| ==> NodeAt(p, i + 2)
  {
  }

  ghost function ScriptFrom(p: seq<Node>, i: nat): Script
    requires NodeAt(p, i)
    decreases |p| - i
  {
    NodeAtNext(p, i);
    if p[i].Chdir? then
      if i + 1 == |p| then Crash([], IndexError)
      else if p[i].dir.None? then Crash([], TypeError)
      else ScriptFrom(p, i + 2)
    else if i + 1 == |p| then Finish([i])
    else if p[i + 1].op == Pipe then Prefixed([i], ScriptFrom(p, i + 2))
    else Then([i], p[i + 1].op, ScriptFrom(p, i + 2))
  }

  /** No group is empty, except before a crash. */
  ghost predicate GroupsStarted(s: Script, n: nat) {
    match s
    case Finish(g) => g != [] && g[|g| - 1] < n
    case Then(g, op, rest) => g != [] && g[|g| - 1] < n && op != Pipe && GroupsStarted(rest, n)
    case Crash(_, _) => true
  }

  lemma {:induction false} ScriptGroupsStarted(p: seq<Node>, i: nat)
    requires NodeAt(p, i)
    ensures GroupsStarted(ScriptFrom(p, i), |p|)
    decreases |p| - i
  {
    NodeAtNext(p, i);
    if i + 1 == |p| {
    } else {
      ScriptGroupsStarted(p, i + 2);
    }
  }

  /** The value of a pipe group is the exit code of its last command. */
  function GroupValue(g: seq<nat>, codes: seq<int>): int
    requires g != [] && g[|g| - 1] < |codes|
  {
    codes[g[|g| - 1]]
  }

  /** Whether the operator skips what follows a command of that value. */
  predicate Stops(op: Op, value: int) {
    (op == And && value != 0) || (op == Or && value == 0)
  }

  /** The right-nested evaluator. */
  function Eval(s: Script, codes: seq<int>): RunResult
    requires GroupsStarted(s, |codes|)
    decreases s
  {
    match s
    case Finish(g) => Code(GroupValue(g, codes))
    case Then(g, op, rest) =>
      if Stops(op, GroupValue(g, codes)) then Code(GroupValue(g, codes)) else Eval(rest, codes)
    case Crash(_, e) => Failed(e)
  }

  /** The commands that are started, in order. */
  function Started(s: Script, codes: seq<int>): seq<nat>
    requires GroupsStarted(s, |codes|)
    decreases s
  {
    match s
    case Finish(g) => g
    case Then(g, op, rest) => if Stops(op, GroupValue(g, codes)) then g else g + Started(rest, codes)
    case Crash(g, _) => g
  }

  /** The standard input of the command at position i is the output of the command before it. */
  predicate PipedAt(p: seq<Node>, i: nat)
    requires i <= |p|
  {
    i >= 2 && p[i - 1].Operator? &&
    (p[i - 1].op == Pipe || (p[i - 2].Chdir? && PipedAt(p, i - 2)))
  }

  /** A path below a directory, unless the path is absolute. */
  function Join(a: string, b: string): string {
    if b != [] && b[0] == '/' then b
    else if a == [] || a[|a| - 1] == '/' then a + b
    else a + "/" + b
  }

  /** The working directory that the cds before position i add up to. */
  function CwdAt(p: seq<Node>, i: nat): string
    requires i <= |p|
  {
    if i < 2 then "." else
    var before := CwdAt(p, i - 2);
    if p[i - 2].Chdir? && p[i - 2].dir.Some? then Join(before, p[i - 2].dir.value) else before
  }

  // ----- Files -----

  /** The shared /dev/null handle, or the k-th file that this run opened. */
  datatype Handle = DevNull | Opened(k: nat)

  predicate IsNull(name: string) {
    name == "NUL:" || name == "/dev/null"
  }

  function InFiles(c: Command, piped: bool): seq<string> {
    if !piped && c.stdin.Some? then [c.stdin.value] else []
  }

  function OutFiles(c: Command): seq<string> {
    if c.stdout.OutFile? && !IsNull(c.stdout.name) then [c.stdout.name] else []
  }

  function ErrFiles(c: Command): seq<string> {
    if c.stderr.ErrFile? && !IsNull(c.stderr.name) then [c.stderr.name] else []
  }

  /** The files that are opened for one command, in order. */
  function FilesOf(c: Command, piped: bool): seq<string> {
    InFiles(c, piped) + OutFiles(c) + ErrFiles(c)
  }

  /** Input, output and errors are opened in this order; a pipe takes the place of the input file. */
  lemma {:induction false} OpensInOrder(argv: seq<string>, i: string, o: string, e: string, env: map<string, string>)
    requires !IsNull(o) && !IsNull(e)
    ensures var c := Command(argv, Some(i), OutFile(o), ErrFile(e), env);
            FilesOf(c, false) == [i, o, e] && FilesOf(c, true) == [o, e]
  {
  }

  /** The files that are opened for the commands at the given positions. */
  function FilesFor(p: seq<Node>, started: seq<nat>): seq<string> {
    if started == [] then [] else
    var i := started[|started| - 1];
    FilesFor(p, started[..|started| - 1]) + if i < |p| && p[i].Cmd? then FilesOf(p[i].cmd, PipedAt(p, i)) else []
  }

  datatype Stdin = Inherited | FromFile(h: Handle) | FromPipe(i: nat)
  datatype Output = Kept | IntoPipe | IntoStdout | IntoFile(h: Handle)

  /** A started process: its position, working directory (None for the current one), input and outputs. */
  datatype Process = Process(i: nat, cwd: Option<string>, stdin: Stdin, stdout: Output, stderr: Output)

  function Positions(ps: seq<Process>): seq<nat> {
    if ps == [] then [] else Positions(ps[..|ps| - 1]) + [ps[|ps| - 1].i]
  }

  predicate WritesPipe(p: seq<Node>, i: nat) {
    i < |p| && p[i].Cmd? && p[i].cmd.stdout == OutPipe
  }

  /** The handle for an output file when k files have been opened. */
  function HandleFor(name: string, k: nat): Handle {
    if IsNull(name) then DevNull else Opened(k)
  }

  function StdinFor(c: Command, piped: bool, previous: nat, k: nat): Stdin {
    if piped then FromPipe(previous) else if c.stdin.Some? then FromFile(Opened(k)) else Inherited
  }

  function StdoutFor(c: Command, k: nat): Output {
    match c.stdout
    case OutNone => Kept
    case OutPipe => IntoPipe
    case OutFile(name) => IntoFile(HandleFor(name, k))
  }

  function StderrFor(c: Command, k: nat): Output {
    match c.stderr
    case ErrNone => Kept
    case ErrStdout => IntoStdout
    case ErrFile(name) => IntoFile(HandleFor(name, k))
  }

  /** The process for the command at position i after the one at position previous, with k files opened before. */
  function ProcessAt(p: seq<Node>, i: nat, previous: nat, k: nat): Process
    requires i < |p| && p[i].Cmd?
  {
    var c, piped := p[i].cmd, PipedAt(p, i);
    var k1 := k + |InFiles(c, piped)|;
    var k2 := k1 + |OutFiles(c)|;
    Process(i, if CwdAt(p, i) == "." then None else Some(CwdAt(p, i)),
            StdinFor(c, piped, previous, k), StdoutFor(c, k1), StderrFor(c, k2))
  }

  /** The process for the command at position i after the processes ps. */
  function NextProcess(p: seq<Node>, ps: seq<Process>, i: nat): Process
    requires i < |p| && p[i].Cmd?
  {
    ProcessAt(p, i, if ps != [] then ps[|ps| - 1].i else 0, |FilesFor(p, Positions(ps))|)
  }

  /** The process is the one that its place in the pipeline and the processes before it ask for. */
  ghost predicate WellStarted(p: seq<Node>, ps: seq<Process>, k: nat)
    requires k < |ps|
  {
    var x := ps[k];
    && x.i < |p| && p[x.i].Cmd?
    && (PipedAt(p, x.i) ==> k > 0 && WritesPipe(p, ps[k - 1].i))
    && x == ProcessAt(p, x.i, if k > 0 then ps[k - 1].i else 0, |FilesFor(p, Positions(ps[..k]))|)
  }

  /** Behind a pipe, a process reads what the process started before it writes. */
  ghost predicate ReadsBefore(p: seq<Node>, ps: seq<Process>, k: nat)
    requires k < |ps|
  {
    ps[k].i < |p| && PipedAt(p, ps[k].i) ==>
      k > 0 && ps[k].stdin == FromPipe(ps[k - 1].i) && ps[k - 1].stdout == IntoPipe
  }

  /** The handle is that of the file with the name; the null names share one handle. */
  ghost predicate Holds(files: seq<string>, h: Handle, name: string) {
    if h.DevNull? then IsNull(name) else h.k < |files| && files[h.k] == name
  }

  /** The handles of a process are those of the files that its command names. */
  ghost predicate OwnFiles(p: seq<Node>, files: seq<string>, x: Process) {
    && x.i < |p| && p[x.i].Cmd?
    && (x.stdin.FromPipe? <==> PipedAt(p, x.i))
    && (x.stdin.FromFile? <==> !PipedAt(p, x.i) && p[x.i].cmd.stdin.Some?)
    && (x.stdin.FromFile? ==> x.stdin.h.Opened? && Holds(files, x.stdin.h, p[x.i].cmd.stdin.value))
    && (match p[x.i].cmd.stdout
        case OutNone => x.stdout == Kept
        case OutPipe => x.stdout == IntoPipe
        case OutFile(name) => WritesTo(files, x.stdout, name))
    && (match p[x.i].cmd.stderr
        case ErrNone => x.stderr == Kept
        case ErrStdout => x.stderr == IntoStdout
        case ErrFile(name) => WritesTo(files, x.stderr, name))
  }

  /** The output goes to the file with the name, or to the shared handle for a null name. */
  ghost predicate WritesTo(files: seq<string>, out: Output, name: string) {
    out.IntoFile? && Holds(files, out.h, name) && (out.h.DevNull? <==> name == "NUL:" || name == "/dev/null")
  }

  lemma {:induction false} ProcessOwnsFiles(p: seq<Node>, i: nat, previous: nat, before: seq<string>,
                                            after: seq<string>)
    requires i < |p| && p[i].Cmd?
    ensures OwnFiles(p, before + FilesOf(p[i].cmd, PipedAt(p, i)) + after, ProcessAt(p, i, previous, |before|))
  {
    var c, piped := p[i].cmd, PipedAt(p, i);
    var files := before + FilesOf(c, piped) + after;
    var k1 := |before| + |InFiles(c, piped)|;
    assert InFiles(c, piped) != [] ==> files[|before|] == InFiles(c, piped)[0];
    assert OutFiles(c) != [] ==> files[k1] == OutFiles(c)[0];
    assert ErrFiles(c) != [] ==> files[k1 + |OutFiles(c)|] == ErrFiles(c)[0];
  }

  lemma {:induction false} FilesUpTo(p: seq<Node>, ps: seq<Process>, k: nat)
    requires k <= |ps|
    ensures FilesFor(p, Positions(ps[..k])) <= FilesFor(p, Positions(ps))
    decreases |ps|
  {
    if k == |ps| {
      assert ps[..k] == ps;
    } else {
      var init := ps[..|ps| - 1];
      FilesUpTo(p, init, k);
      assert init[..k] == ps[..k];
      assert Positions(ps)[..|ps| - 1] == Positions(init) by {
        PositionsLength(init);
      }
    }
  }

  lemma {:induction false} PositionsLength(ps: seq<Process>)
    ensures |Positions(ps)| == |ps|
  {
    if ps == [] {
    } else {
      PositionsLength(ps[..|ps| - 1]);
    }
  }

  lemma {:induction false} FilesThenOwn(p: seq<Node>, ps: seq<Process>, k: nat)
    requires k < |ps| && ps[k].i < |p| && p[ps[k].i].Cmd?
    ensures FilesFor(p, Positions(ps[..k])) + FilesOf(p[ps[k].i].cmd, PipedAt(p, ps[k].i)) <= FilesFor(p, Positions(ps))
  {
    FilesUpTo(p, ps, k + 1);
    assert ps[..k + 1][..k] == ps[..k];
    FilesForOneMore(p, Positions(ps[..k]), ps[k].i);
  }

  /** A process that was started well uses its own files. */
  lemma {:induction false} StartedOwnsFiles(p: seq<Node>, ps: seq<Process>, k: nat)
    requires k < |ps| && WellStarted(p, ps, k)
    ensures OwnFiles(p, FilesFor(p, Positions(ps)), ps[k])
  {
    FilesThenOwn(p, ps, k);
    var i := ps[k].i;
    var previous := if k > 0 then ps[k - 1].i else 0;
    OwnAmong(p, i, previous, FilesFor(p, Positions(ps[..k])), FilesFor(p, Positions(ps)));
  }

  lemma {:induction false} OwnAmong(p: seq<Node>, i: nat, previous: nat, before: seq<string>, files: seq<string>)
    requires i < |p| && p[i].Cmd? && before + FilesOf(p[i].cmd, PipedAt(p, i)) <= files
    ensures OwnFiles(p, files, ProcessAt(p, i, previous, |before|))
  {
    var own := FilesOf(p[i].cmd, PipedAt(p, i));
    var after := files[|before + own|..];
    assert files == before + own + after;
    ProcessOwnsFiles(p, i, previous, before, after);
  }

  /** [lo, lo + 1, ..., hi - 1] */
  function Range(lo: nat, hi: nat): seq<nat> {
    if hi <= lo then [] else Range(lo, hi - 1) + [hi - 1]
  }

  lemma {:induction false} RangeJoins(lo: nat, mid: nat, hi: nat)
    requires lo <= mid <= hi
    ensures Range(lo, mid) + Range(mid, hi) == Range(lo, hi)
  {
    if mid == hi {
      assert Range(lo, mid) + [] == Range(lo, mid);
    } else {
      RangeJoins(lo, mid, hi - 1);
      assert Range(lo, mid) + (Range(mid, hi - 1) + [hi - 1]) == Range(lo, mid) + Range(mid, hi - 1) + [hi - 1];
    }
  }

  lemma {:induction false} RangeLength(lo: nat, hi: nat)
    requires lo <= hi
    ensures |Range(lo, hi)| == hi - lo
    ensures forall k :: 0 <= k < hi - lo ==> Range(lo, hi)[k] == lo + k
  {
    if lo == hi {
    } else {
      RangeLength(lo, hi - 1);
    }
  }

  /** The real files among the handles, in order. */
  function Real(hs: seq<Handle>): seq<nat> {
    if hs == [] then [] else
    var n := |hs| - 1;
    Real(hs[..n]) + if hs[n].Opened? then [hs[n].k] else []
  }

  /** Open an output file; the two null names share one handle. */
  method OpenOutFile(name: string, files0: seq<string>) returns (h: Handle, files: seq<string>)
    ensures if IsNull(name) then h == DevNull && files == files0
            else h == Opened(|files0|) && files == files0 + [name]
  {
    if name in ["NUL:", "/dev/null"] {
      return DevNull, files0;
    }
    return Opened(|files0|), files0 + [name];
  }

  /** The handles to close, beyond those in toClose0, are those of the files opened since. */
  ghost predicate Remembers(toClose0: seq<Handle>, lo: nat, toClose: seq<Handle>, files: seq<string>) {
    lo <= |files| && Real(toClose) == Real(toClose0) + Range(lo, |files|)
  }

  lemma {:induction false} RememberFile(toClose0: seq<Handle>, lo: nat, toClose: seq<Handle>, files: seq<string>,
                                        name: string)
    requires Remembers(toClose0, lo, toClose, files)
    ensures Remembers(toClose0, lo, toClose + [Opened(|files|)], files + [name])
  {
  }

  lemma {:induction false} RememberNull(toClose0: seq<Handle>, lo: nat, toClose: seq<Handle>, files: seq<string>)
    requires Remembers(toClose0, lo, toClose, files)
    ensures Remembers(toClose0, lo, toClose + [DevNull], files)
  {
  }

  /** Open an output file, if one is asked for, and remember its handle. */
  method OpenOutput(name: Option<string>, files0: seq<string>, toClose0: seq<Handle>, ghost start: seq<Handle>,
                    ghost lo: nat)
    returns (h: Option<Handle>, files: seq<string>, toClose: seq<Handle>)
    requires Remembers(start, lo, toClose0, files0)
    ensures h == if name.Some? then Some(HandleFor(name.value, |files0|)) else None
    ensures Remembers(start, lo, toClose, files)
    ensures files == files0 + if name.Some? && !IsNull(name.value) then [name.value] else []
  {
    h, files, toClose := None, files0, toClose0;
    if name.Some? {
      RememberFile(start, lo, toClose, files, name.value);
      RememberNull(start, lo, toClose, files);
      var file;
      file, files := OpenOutFile(name.value, files);
      h, toClose := Some(file), toClose + [file];
    }
  }

  /** Open the input file, if one is asked for and the input is no pipe, and remember its handle. */
  method OpenInput(c: Command, piped: bool, files0: seq<string>, toClose0: seq<Handle>)
    returns (stdin: Option<Handle>, files: seq<string>, toClose: seq<Handle>)
    ensures files == files0 + InFiles(c, piped)
    ensures Remembers(toClose0, |files0|, toClose, files)
    ensures stdin == if !piped && c.stdin.Some? then Some(Opened(|files0|)) else None
  {
    stdin, files, toClose := None, files0, toClose0;
    assert Range(|files0|, |files0|) == [];
    if !piped && c.stdin.Some? {
      RememberFile(toClose0, |files0|, toClose, files, c.stdin.value);
      stdin := Some(Opened(|files|));
      toClose := toClose + [Opened(|files|)];
      files := files + [c.stdin.value];
    }
  }

  method OpenStdout(c: Command, files0: seq<string>, toClose0: seq<Handle>, ghost start: seq<Handle>, ghost lo: nat)
    returns (stdout: Output, files: seq<string>, toClose: seq<Handle>)
    requires Remembers(start, lo, toClose0, files0)
    ensures Remembers(start, lo, toClose, files)
    ensures stdout == StdoutFor(c, |files0|) && files == files0 + OutFiles(c)
  {
    var name := if c.stdout.OutFile? then Some(c.stdout.name) else None;
    var h;
    h, files, toClose := OpenOutput(name, files0, toClose0, start, lo);
    stdout := if h.Some? then IntoFile(h.value) else if c.stdout.OutPipe? then IntoPipe else Kept;
  }

  method OpenStderr(c: Command, files0: seq<string>, toClose0: seq<Handle>, ghost start: seq<Handle>, ghost lo: nat)
    returns (stderr: Output, files: seq<string>, toClose: seq<Handle>)
    requires Remembers(start, lo, toClose0, files0)
    ensures Remembers(start, lo, toClose, files)
    ensures stderr == StderrFor(c, |files0|) && files == files0 + ErrFiles(c)
  {
    var name := if c.stderr.ErrFile? then Some(c.stderr.name) else None;
    var h;
    h, files, toClose := OpenOutput(name, files0, toClose0, start, lo);
    stderr := if h.Some? then IntoFile(h.value) else if c.stderr.ErrStdout? then IntoStdout else Kept;
  }

  /** Set up the files of one command and remember them for closing. */
  method OpenFiles(c: Command, piped: bool, files0: seq<string>, toClose0: seq<Handle>)
    returns (stdin: Option<Handle>, stdout: Output, stderr: Output, files: seq<string>, toClose: seq<Handle>)
    ensures files == files0 + FilesOf(c, piped)
    ensures Remembers(toClose0, |files0|, toClose, files)
    ensures stdin == if !piped && c.stdin.Some? then Some(Opened(|files0|)) else None
    ensures stdout == StdoutFor(c, |files0| + |InFiles(c, piped)|)
    ensures stderr == StderrFor(c, |files0| + |InFiles(c, piped)| + |OutFiles(c)|)
  {
    stdin, files, toClose := OpenInput(c, piped, files0, toClose0);
    stdout, files, toClose := OpenStdout(c, files, toClose, toClose0, |files0|);
    stderr, files, toClose := OpenStderr(c, files, toClose, toClose0, |files0|);
  }

  /** Close every remembered handle that is not the shared one. */
  method CloseFiles(toClose: seq<Handle>, closed0: seq<nat>) returns (closed: seq<nat>)
    ensures closed == closed0 + Real(toClose)
  {
    closed := closed0;
    for k := 0 to |toClose|
      invariant closed == closed0 + Real(toClose[..k])
    {
      assert toClose[..k + 1][..k] == toClose[..k];
      if toClose[k] != DevNull {
        closed := closed + [toClose[k].k];
      }
    }
    assert toClose[..|toClose|] == toClose;
  }

  /**
   * Wait for all processes of a group; the value is the last exit code if any of them is
   * non-zero, and 0 otherwise: in either case the exit code of the last command.
   */
  method ExecPipedCommands(group: seq<nat>, codes: seq<int>) returns (retval: int)
    requires group != [] && forall k :: 0 <= k < |group| ==> group[k] < |codes|
    ensures retval == GroupValue(group, codes)
  {
    var retvals: seq<int> := [];
    for k := 0 to |group|
      invariant |retvals| == k && forall j :: 0 <= j < k ==> retvals[j] == codes[group[j]]
    {
      retvals := retvals + [codes[group[k]]];
    }
    retval := 0;
    for k := 0 to |retvals|
      invariant retval == 0 && forall j :: 0 <= j < k ==> retvals[j] == 0
    {
      if retvals[k] != 0 {
        retval := retvals[|retvals| - 1];
        break;
      }
    }
  }

  // ----- One step of the executor against the meaning -----

  lemma {:induction false} PrefixedStarted(before: seq<nat>, s: Script, n: nat)
    requires GroupsStarted(s, n)
    ensures GroupsStarted(Prefixed(before, s), n)
  {
  }

  /** What is still to come, at node i, when the commands in group are waiting for the end of their group. */
  ghost function Rest(p: seq<Node>, i: nat, group: seq<nat>): Script
    requires NodeAt(p, i)
    ensures GroupsStarted(Rest(p, i, group), |p|)
  {
    ScriptGroupsStarted(p, i);
    PrefixedStarted(group, ScriptFrom(p, i), |p|);
    Prefixed(group, ScriptFrom(p, i))
  }

  /** What a run is to return and which commands it is to start. */
  datatype Goal = Goal(result: RunResult, started: seq<nat>)

  function GoalOf(s: Script, codes: seq<int>): Goal
    requires GroupsStarted(s, |codes|)
  {
    Goal(Eval(s, codes), Started(s, codes))
  }

  /** Having started past, the rest of the run reaches the goal. */
  ghost predicate OnTrack(goal: Goal, codes: seq<int>, past: seq<nat>, rest: Script)
    requires GroupsStarted(rest, |codes|)
  {
    && goal.result == Eval(rest, codes)
    && goal.started == past + Started(rest, codes)
  }

  lemma {:induction false} ChdirStep(p: seq<Node>, i: nat, group: seq<nat>)
    requires NodeAt(p, i) && p[i].Chdir? && i + 1 < |p| && p[i].dir.Some?
    ensures NodeAt(p, i + 2)
    ensures Rest(p, i, group) == Rest(p, i + 2, group)
    ensures PipedAt(p, i + 2) == PipedAt(p, i)
    ensures CwdAt(p, i + 2) == Join(CwdAt(p, i), p[i].dir.value)
  {
  }

  lemma {:induction false} PipeStep(p: seq<Node>, i: nat, group: seq<nat>)
    requires NodeAt(p, i) && p[i].Cmd? && i + 1 < |p| && p[i + 1] == Operator(Pipe)
    ensures NodeAt(p, i + 2)
    ensures Rest(p, i, group) == Rest(p, i + 2, group + [i])
    ensures PipedAt(p, i + 2) && CwdAt(p, i + 2) == CwdAt(p, i)
  {
  }

  lemma {:induction false} OpStep(p: seq<Node>, i: nat, group: seq<nat>)
    requires NodeAt(p, i) && p[i].Cmd? && i + 1 < |p| && p[i + 1] != Operator(Pipe)
    ensures p[i + 1].Operator? && NodeAt(p, i + 2)
    ensures Rest(p, i, group) == Then(group + [i], p[i + 1].op, Rest(p, i + 2, []))
    ensures !PipedAt(p, i + 2) && CwdAt(p, i + 2) == CwdAt(p, i)
  {
  }

  lemma {:induction false} EndStep(p: seq<Node>, i: nat, group: seq<nat>)
    requires NodeAt(p, i) && i + 1 == |p|
    ensures Rest(p, i, group) == if p[i].Cmd? then Finish(group + [i]) else Crash(group, IndexError)
  {
  }

  lemma {:induction false} NoDirStep(p: seq<Node>, i: nat, group: seq<nat>)
    requires NodeAt(p, i) && p[i].Chdir? && i + 1 < |p| && p[i].dir.None?
    ensures Rest(p, i, group) == Crash(group, TypeError)
  {
  }

  lemma {:induction false} GoOn(goal: Goal, codes: seq<int>, past: seq<nat>, group: seq<nat>, op: Op, rest: Script)
    requires GroupsStarted(Then(group, op, rest), |codes|)
    requires OnTrack(goal, codes, past, Then(group, op, rest)) && !Stops(op, GroupValue(group, codes))
    ensures OnTrack(goal, codes, past + group, rest)
  {
  }

  // ----- The executor -----

  /** The bookkeeping of the run after the processes ps have been started. */
  ghost predicate Books(p: seq<Node>, ps: seq<Process>, files: seq<string>, toClose: seq<Handle>, closed: seq<nat>) {
    && (forall k :: 0 <= k < |ps| ==> WellStarted(p, ps, k))
    && files == FilesFor(p, Positions(ps))
    && |closed| <= |files|
    && closed == Range(0, |closed|)
    && Real(toClose) == Range(|closed|, |files|)
  }

  /** Start the command at position i. */
  method Start(p: seq<Node>, i: nat, piped: bool, cwd: string, ps0: seq<Process>, files0: seq<string>,
               toClose0: seq<Handle>, ghost closed: seq<nat>)
    returns (ps: seq<Process>, files: seq<string>, toClose: seq<Handle>)
    requires i < |p| && p[i].Cmd? && piped == PipedAt(p, i) && cwd == CwdAt(p, i)
    requires piped ==> ps0 != [] && WritesPipe(p, ps0[|ps0| - 1].i)
    requires Books(p, ps0, files0, toClose0, closed)
    ensures Books(p, ps, files, toClose, closed)
    ensures Positions(ps) == Positions(ps0) + [i]
  {
    var process;
    process, files, toClose := SetUp(p, i, piped, cwd, if ps0 != [] then ps0[|ps0| - 1].i else 0, files0, toClose0);
    ps := ps0 + [process];
    NewIsWellStarted(p, ps0, i);
    BooksGrow(p, ps0, process, files0, toClose0, closed, files, toClose);
  }

  /** The files of the command at position i are opened, and its process is put together. */
  method SetUp(p: seq<Node>, i: nat, piped: bool, cwd: string, previous: nat, files0: seq<string>,
               toClose0: seq<Handle>)
    returns (process: Process, files: seq<string>, toClose: seq<Handle>)
    requires i < |p| && p[i].Cmd? && piped == PipedAt(p, i) && cwd == CwdAt(p, i)
    ensures process == ProcessAt(p, i, previous, |files0|)
    ensures files == files0 + FilesOf(p[i].cmd, piped)
    ensures Remembers(toClose0, |files0|, toClose, files)
  {
    var file, stdout, stderr;
    file, stdout, stderr, files, toClose := OpenFiles(p[i].cmd, piped, files0, toClose0);
    var stdin := if piped then FromPipe(previous) else if file.Some? then FromFile(file.value) else Inherited;
    var procCwd := if cwd == "." then None else Some(cwd);
    process := Process(i, procCwd, stdin, stdout, stderr);
  }

  lemma {:induction false} BooksGrow(p: seq<Node>, ps: seq<Process>, x: Process, files0: seq<string>,
                                     toClose0: seq<Handle>,
                                     closed: seq<nat>, files: seq<string>, toClose: seq<Handle>)
    requires Books(p, ps, files0, toClose0, closed)
    requires x.i < |p| && p[x.i].Cmd? && WellStarted(p, ps + [x], |ps|)
    requires files == files0 + FilesOf(p[x.i].cmd, PipedAt(p, x.i))
    requires Remembers(toClose0, |files0|, toClose, files)
    ensures Books(p, ps + [x], files, toClose, closed)
    ensures Positions(ps + [x]) == Positions(ps) + [x.i]
  {
    var more := ps + [x];
    assert more[..|ps|] == ps;
    FilesForOneMore(p, Positions(ps), x.i);
    forall k | 0 <= k < |more|
      ensures WellStarted(p, more, k)
    {
      StaysWellStarted(p, ps, x, k);
    }
    RangeJoins(|closed|, |files0|, |files|);
  }

  lemma {:induction false} FilesForOneMore(p: seq<Node>, started: seq<nat>, i: nat)
    requires i < |p| && p[i].Cmd?
    ensures FilesFor(p, started + [i]) == FilesFor(p, started) + FilesOf(p[i].cmd, PipedAt(p, i))
  {
  }

  lemma {:induction false} StaysWellStarted(p: seq<Node>, ps: seq<Process>, x: Process, k: nat)
    requires k <= |ps| && (k < |ps| ==> WellStarted(p, ps, k))
    requires WellStarted(p, ps + [x], |ps|)
    ensures WellStarted(p, ps + [x], k)
  {
    if k < |ps| {
      var more := ps + [x];
      assert more[k] == ps[k] && more[..k] == ps[..k];
      assert k > 0 ==> more[k - 1] == ps[k - 1];
    }
  }

  lemma {:induction false} NewIsWellStarted(p: seq<Node>, ps: seq<Process>, i: nat)
    requires i < |p| && p[i].Cmd?
    requires PipedAt(p, i) ==> ps != [] && WritesPipe(p, ps[|ps| - 1].i)
    ensures WellStarted(p, ps + [NextProcess(p, ps, i)], |ps|)
  {
    var more := ps + [NextProcess(p, ps, i)];
    assert more[..|ps|] == ps;
    assert ps != [] ==> more[|ps| - 1] == ps[|ps| - 1];
  }

  /** The files of the group that just ended are closed; nothing is left open. */
  method EndGroup(p: seq<Node>, group: seq<nat>, codes: seq<int>, ghost ps: seq<Process>, ghost files: seq<string>,
                  toClose: seq<Handle>, closed0: seq<nat>)
    returns (value: int, closed: seq<nat>)
    requires group != [] && forall k :: 0 <= k < |group| ==> group[k] < |codes|
    requires Books(p, ps, files, toClose, closed0)
    ensures value == GroupValue(group, codes)
    ensures Books(p, ps, files, [], closed) && closed == Range(0, |files|)
  {
    value := ExecPipedCommands(group, codes);
    closed := CloseFiles(toClose, closed0);
    RangeJoins(0, |closed0|, |files|);
    RangeLength(0, |files|);
  }

  /** The loop variables: position, pipe group so far, directory, processes and files. */
  datatype RunState = RunState(
    i: nat, group: seq<nat>, cwd: string, ps: seq<Process>, files: seq<string>, toClose: seq<Handle>, closed: seq<nat>)

  /** Where the run is: at node i with the commands in group waiting, on the way to the goal. */
  ghost predicate Place(p: seq<Node>, codes: seq<int>, goal: Goal, i: nat, group: seq<nat>, cwd: string,
                        past: seq<nat>) {
    && |codes| == |p| && NodeAt(p, i)
    && OnTrack(goal, codes, past, Rest(p, i, group))
    && (forall k :: 0 <= k < |group| ==> group[k] < |codes|)
    && (PipedAt(p, i) <==> group != [])
    && (group != [] ==> WritesPipe(p, group[|group| - 1]))
    && cwd == CwdAt(p, i)
  }

  ghost predicate RunInv(p: seq<Node>, codes: seq<int>, goal: Goal, s: RunState, past: seq<nat>) {
    && Place(p, codes, goal, s.i, s.group, s.cwd, past)
    && Books(p, s.ps, s.files, s.toClose, s.closed)
    && Positions(s.ps) == past + s.group
  }

  lemma {:induction false} MoveOn(p: seq<Node>, codes: seq<int>, goal: Goal, i: nat, s: RunState, past: seq<nat>)
    requires i < s.i
    requires Place(p, codes, goal, s.i, s.group, s.cwd, past)
    requires Books(p, s.ps, s.files, s.toClose, s.closed)
    requires Positions(s.ps) == past + s.group
    ensures Progress(p, codes, goal, i, s, NoValue, past)
  {
  }

  /** What holds when the run ends. */
  ghost predicate RunDone(p: seq<Node>, goal: Goal, s: RunState, r: RunResult) {
    && r == goal.result
    && Positions(s.ps) == goal.started
    && Books(p, s.ps, s.files, s.toClose, s.closed)
    && (r.Code? ==> s.closed == Range(0, |s.files|))
  }

  /** After a step from node i the run is either further on or over. */
  ghost predicate Progress(p: seq<Node>, codes: seq<int>, goal: Goal, i: nat, s: RunState, r: RunResult,
                           past: seq<nat>) {
    if r == NoValue then i < s.i && RunInv(p, codes, goal, s, past) else RunDone(p, goal, s, r)
  }

  lemma {:induction false} Conclude(p: seq<Node>, codes: seq<int>, goal: Goal, i: nat, s: RunState, r: RunResult,
                                    past: seq<nat>)
    requires goal == Goal(r, Positions(s.ps)) && r != NoValue
    requires Books(p, s.ps, s.files, s.toClose, s.closed)
    requires r.Code? ==> s.closed == Range(0, |s.files|)
    ensures Progress(p, codes, goal, i, s, r, past)
  {
  }

  // How each kind of node moves the place.

  lemma {:induction false} PlaceAfterChdir(p: seq<Node>, codes: seq<int>, goal: Goal, i: nat, group: seq<nat>,
                                           cwd: string, past: seq<nat>)
    requires Place(p, codes, goal, i, group, cwd, past) && p[i].Chdir?
    ensures i + 1 == |p| ==> goal == Goal(Failed(IndexError), past + group)
    ensures i + 1 < |p| && p[i].dir.None? ==> goal == Goal(Failed(TypeError), past + group)
    ensures i + 1 < |p| && p[i].dir.Some? ==> Place(p, codes, goal, i + 2, group, Join(cwd, p[i].dir.value), past)
  {
  }

  lemma {:induction false} PlaceAfterPipe(p: seq<Node>, codes: seq<int>, goal: Goal, i: nat, group: seq<nat>,
                                          cwd: string, past: seq<nat>)
    requires Place(p, codes, goal, i, group, cwd, past) && p[i].Cmd? && i + 1 < |p| && p[i + 1] == Operator(Pipe)
    ensures Place(p, codes, goal, i + 2, group + [i], cwd, past)
  {
    NodeAtNext(p, i);
    PipeStep(p, i, group);
  }

  lemma {:induction false} PlaceAtLastGroup(p: seq<Node>, codes: seq<int>, goal: Goal, i: nat, group: seq<nat>,
                                            cwd: string, past: seq<nat>)
    requires Place(p, codes, goal, i, group, cwd, past) && p[i].Cmd?
    requires i + 1 == |p| || (p[i + 1] != Operator(Pipe) && Stops(p[i + 1].op, codes[i]))
    ensures goal == Goal(Code(codes[i]), past + (group + [i]))
  {
  }

  lemma {:induction false} PlaceAfterGroup(p: seq<Node>, codes: seq<int>, goal: Goal, i: nat, group: seq<nat>,
                                           cwd: string, past: seq<nat>)
    requires Place(p, codes, goal, i, group, cwd, past) && p[i].Cmd?
    requires i + 1 < |p| && p[i + 1] != Operator(Pipe) && !Stops(p[i + 1].op, codes[i])
    ensures Place(p, codes, goal, i + 2, [], cwd, past + (group + [i]))
  {
    OpStep(p, i, group);
    GoOn(goal, codes, past, group + [i], p[i + 1].op, Rest(p, i + 2, []));
  }

  /** A cd: change the directory, or fail. */
  method RunChdir(p: seq<Node>, codes: seq<int>, ghost goal: Goal, s0: RunState, ghost past: seq<nat>)
    returns (s: RunState, r: RunResult)
    requires RunInv(p, codes, goal, s0, past) && p[s0.i].Chdir?
    ensures Progress(p, codes, goal, s0.i, s, r, past)
  {
    s := s0;
    if s.i + 1 == |p| {
      ChdirFails(p, codes, goal, s, past);
      return s, Failed(IndexError);
    }
    if p[s.i].dir.None? {
      ChdirFails(p, codes, goal, s, past);
      return s, Failed(TypeError);
    }
    ChdirPasses(p, codes, goal, s, past);
    s := s.(cwd := Join(s.cwd, p[s.i].dir.value), i := s.i + 2);
    r := NoValue;
  }

  lemma {:induction false} ChdirFails(p: seq<Node>, codes: seq<int>, goal: Goal, s: RunState, past: seq<nat>)
    requires RunInv(p, codes, goal, s, past) && p[s.i].Chdir? && (s.i + 1 == |p| || p[s.i].dir.None?)
    ensures Progress(p, codes, goal, s.i, s, Failed(if s.i + 1 == |p| then IndexError else TypeError), past)
  {
  }

  lemma {:induction false} ChdirPasses(p: seq<Node>, codes: seq<int>, goal: Goal, s: RunState, past: seq<nat>)
    requires RunInv(p, codes, goal, s, past) && p[s.i].Chdir? && s.i + 1 < |p| && p[s.i].dir.Some?
    ensures Progress(p, codes, goal, s.i, s.(cwd := Join(s.cwd, p[s.i].dir.value), i := s.i + 2), NoValue, past)
  {
    PlaceAfterChdir(p, codes, goal, s.i, s.group, s.cwd, past);
    MoveOn(p, codes, goal, s.i, s.(cwd := Join(s.cwd, p[s.i].dir.value), i := s.i + 2), past);
  }

  /** The command at position i has been started; waiting are the commands of its group before it. */
  ghost predicate StartedNode(p: seq<Node>, codes: seq<int>, goal: Goal, s: RunState, waiting: seq<nat>,
                              past: seq<nat>) {
    && Place(p, codes, goal, s.i, waiting, s.cwd, past)
    && p[s.i].Cmd?
    && s.group == waiting + [s.i]
    && Books(p, s.ps, s.files, s.toClose, s.closed)
    && Positions(s.ps) == past + s.group
  }

  /** The end of a pipe group: wait, close, and let the operator decide. */
  method RunGroup(p: seq<Node>, codes: seq<int>, ghost goal: Goal, s0: RunState, ghost waiting: seq<nat>,
                  ghost past0: seq<nat>)
    returns (s: RunState, r: RunResult, ghost past: seq<nat>)
    requires StartedNode(p, codes, goal, s0, waiting, past0) && (s0.i + 1 < |p| ==> p[s0.i + 1] != Operator(Pipe))
    ensures Progress(p, codes, goal, s0.i, s, r, past)
  {
    GroupReady(p, codes, s0.i, waiting, s0.group);
    var value, closed := EndGroup(p, s0.group, codes, s0.ps, s0.files, s0.toClose, s0.closed);
    s := s0.(toClose := [], closed := closed);
    var next := s.(group := [], i := s0.i + 2);
    GroupEnds(p, codes, goal, s0, waiting, past0, s, value, next);
    if s0.i + 1 == |p| {
      return s, Code(value), past0;
    } else if p[s0.i + 1].op == Or {
      if value == 0 {
        return s, Code(value), past0;
      }
    } else {
      if value != 0 {
        return s, Code(value), past0;
      }
    }
    return next, NoValue, past0 + s0.group;
  }

  /** The group that ends here can be waited for, and its value is the code of its last command. */
  lemma {:induction false} GroupReady(p: seq<Node>, codes: seq<int>, i: nat, waiting: seq<nat>, group: seq<nat>)
    requires NodeAt(p, i) && |codes| == |p| && group == waiting + [i]
    requires forall k :: 0 <= k < |waiting| ==> waiting[k] < |codes|
    ensures group != [] && (forall k :: 0 <= k < |group| ==> group[k] < |codes|)
    ensures GroupValue(group, codes) == codes[i]
    ensures i + 1 < |p| ==> p[i + 1].Operator?
  {
  }

  lemma {:induction false} GroupEnds(p: seq<Node>, codes: seq<int>, goal: Goal, s0: RunState, waiting: seq<nat>,
                                     past: seq<nat>, s: RunState, value: int, next: RunState)
    requires StartedNode(p, codes, goal, s0, waiting, past)
    requires s0.i + 1 < |p| ==> p[s0.i + 1].Operator? && p[s0.i + 1] != Operator(Pipe)
    requires s == s0.(toClose := [], closed := s.closed) && Books(p, s.ps, s.files, [], s.closed)
    requires s.closed == Range(0, |s.files|) && value == codes[s0.i] && next == s.(group := [], i := s0.i + 2)
    ensures s0.i + 1 == |p| || Stops(p[s0.i + 1].op, value) ==> Progress(p, codes, goal, s0.i, s, Code(value), past)
    ensures !(s0.i + 1 == |p| || Stops(p[s0.i + 1].op, value)) ==>
              Progress(p, codes, goal, s0.i, next, NoValue, past + s0.group)
  {
    StaysStarted(p, codes, goal, s0, waiting, past, s);
    if s0.i + 1 == |p| || Stops(p[s0.i + 1].op, value) {
      GroupIsLast(p, codes, goal, s, waiting, past);
    } else {
      GroupPasses(p, codes, goal, s, waiting, past);
    }
  }

  lemma {:induction false} GroupIsLast(p: seq<Node>, codes: seq<int>, goal: Goal, s: RunState, waiting: seq<nat>,
                                       past: seq<nat>)
    requires StartedNode(p, codes, goal, s, waiting, past) && s.closed == Range(0, |s.files|)
    requires s.i + 1 == |p| || (p[s.i + 1] != Operator(Pipe) && Stops(p[s.i + 1].op, codes[s.i]))
    ensures Progress(p, codes, goal, s.i, s, Code(codes[s.i]), past)
  {
    LastGoal(p, codes, goal, s, waiting, past);
    Conclude(p, codes, goal, s.i, s, Code(codes[s.i]), past);
  }

  lemma {:induction false} LastGoal(p: seq<Node>, codes: seq<int>, goal: Goal, s: RunState, waiting: seq<nat>,
                                    past: seq<nat>)
    requires Place(p, codes, goal, s.i, waiting, s.cwd, past) && p[s.i].Cmd?
    requires s.group == waiting + [s.i] && Positions(s.ps) == past + s.group
    requires s.i + 1 == |p| || (p[s.i + 1] != Operator(Pipe) && Stops(p[s.i + 1].op, codes[s.i]))
    ensures goal == Goal(Code(codes[s.i]), Positions(s.ps))
  {
    PlaceAtLastGroup(p, codes, goal, s.i, waiting, s.cwd, past);
  }

  lemma {:induction false} NextGroup(p: seq<Node>, codes: seq<int>, goal: Goal, s: RunState, past: seq<nat>)
    requires Place(p, codes, goal, s.i + 2, [], s.cwd, past)
    requires Books(p, s.ps, s.files, s.toClose, s.closed)
    requires Positions(s.ps) == past
    ensures Progress(p, codes, goal, s.i, s.(group := [], i := s.i + 2), NoValue, past)
  {
  }

  lemma {:induction false} GroupPasses(p: seq<Node>, codes: seq<int>, goal: Goal, s: RunState, waiting: seq<nat>,
                                       past: seq<nat>)
    requires StartedNode(p, codes, goal, s, waiting, past)
    requires s.i + 1 < |p| && p[s.i + 1] != Operator(Pipe) && !Stops(p[s.i + 1].op, codes[s.i])
    ensures Progress(p, codes, goal, s.i, s.(group := [], i := s.i + 2), NoValue, past + s.group)
  {
    PlaceAfterGroup(p, codes, goal, s.i, waiting, s.cwd, past);
    NextGroup(p, codes, goal, s, past + s.group);
  }

  lemma {:induction false} StaysStarted(p: seq<Node>, codes: seq<int>, goal: Goal, s0: RunState, waiting: seq<nat>,
                                        past: seq<nat>, s: RunState)
    requires StartedNode(p, codes, goal, s0, waiting, past)
    requires s == s0.(toClose := [], closed := s.closed) && Books(p, s.ps, s.files, [], s.closed)
    ensures StartedNode(p, codes, goal, s, waiting, past)
  {
  }

  /** Start the command at the current position and add it to the group. */
  method StartNode(p: seq<Node>, codes: seq<int>, ghost goal: Goal, s0: RunState, ghost past: seq<nat>)
    returns (s: RunState)
    requires RunInv(p, codes, goal, s0, past) && p[s0.i].Cmd?
    ensures s.i == s0.i && StartedNode(p, codes, goal, s, s0.group, past)
  {
    if s0.group != [] {
      LastPosition(s0.ps, past, s0.group);
    }
    var ps, files, toClose := Start(p, s0.i, s0.group != [], s0.cwd, s0.ps, s0.files, s0.toClose, s0.closed);
    s := s0.(ps := ps, files := files, toClose := toClose, group := s0.group + [s0.i]);
    OneMoreStarted(p, codes, goal, s0, past, s);
  }

  lemma {:induction false} OneMoreStarted(p: seq<Node>, codes: seq<int>, goal: Goal, s0: RunState, past: seq<nat>,
                                          s: RunState)
    requires Place(p, codes, goal, s0.i, s0.group, s0.cwd, past) && p[s0.i].Cmd?
    requires s == s0.(ps := s.ps, files := s.files, toClose := s.toClose, group := s0.group + [s0.i])
    requires Books(p, s.ps, s.files, s.toClose, s.closed) && Positions(s.ps) == past + s0.group + [s0.i]
    ensures StartedNode(p, codes, goal, s, s0.group, past)
  {
    assert past + s0.group + [s0.i] == past + (s0.group + [s0.i]);
  }

  /** A command: start it, and end the group unless a pipe follows. */
  method RunCommand(p: seq<Node>, codes: seq<int>, ghost goal: Goal, s0: RunState, ghost past0: seq<nat>)
    returns (s: RunState, r: RunResult, ghost past: seq<nat>)
    requires RunInv(p, codes, goal, s0, past0) && p[s0.i].Cmd?
    ensures Progress(p, codes, goal, s0.i, s, r, past)
  {
    s := StartNode(p, codes, goal, s0, past0);
    if s.i + 1 < |p| && p[s.i + 1] == Operator(Pipe) {
      ContinuePipe(p, codes, goal, s, s0.group, past0);
      s, r, past := s.(i := s.i + 2), NoValue, past0;
    } else {
      s, r, past := RunGroup(p, codes, goal, s, s0.group, past0);
    }
  }

  lemma {:induction false} ContinuePipe(p: seq<Node>, codes: seq<int>, goal: Goal, s0: RunState, waiting: seq<nat>,
                                        past: seq<nat>)
    requires StartedNode(p, codes, goal, s0, waiting, past) && s0.i + 1 < |p| && p[s0.i + 1] == Operator(Pipe)
    ensures Progress(p, codes, goal, s0.i, s0.(i := s0.i + 2), NoValue, past)
  {
    PlaceAfterPipe(p, codes, goal, s0.i, waiting, s0.cwd, past);
    MoveOn(p, codes, goal, s0.i, s0.(i := s0.i + 2), past);
  }

  lemma {:induction false} LastPosition(ps: seq<Process>, past: seq<nat>, group: seq<nat>)
    requires Positions(ps) == past + group && group != []
    ensures ps != [] && ps[|ps| - 1].i == group[|group| - 1]
  {
    assert (past + group)[|past + group| - 1] == group[|group| - 1];
  }

  lemma {:induction false} RunStarts(p: seq<Node>, codes: seq<int>)
    requires |codes| == |p| && NodeAt(p, 0)
    ensures RunInv(p, codes, GoalOf(Rest(p, 0, []), codes), RunState(0, [], ".", [], [], [], []), [])
  {
  }

  /**
   * Run a parsed pipeline.  The result is the value of the right-nested evaluator; the processes
   * started are those the evaluator starts, in order, each with its working directory, its
   * input, its outputs and its own files; and when the run returns a code every file that was opened
   * has been closed once, in order.
   */
  method Run(p: seq<Node>, codes: seq<int>)
    returns (r: RunResult, ps: seq<Process>, files: seq<string>, closed: seq<nat>)
    requires |codes| == |p| && (p == [] || NodeAt(p, 0))
    ensures p == [] ==> r == NoValue && ps == []
    ensures p != [] ==> r == Eval(Rest(p, 0, []), codes) && Positions(ps) == Started(Rest(p, 0, []), codes)
    ensures forall k :: 0 <= k < |ps| ==> WellStarted(p, ps, k) && OwnFiles(p, files, ps[k]) && ReadsBefore(p, ps, k)
    ensures files == FilesFor(p, Positions(ps))
    ensures if r.Failed? then |closed| <= |files| && closed == Range(0, |closed|) else closed == Range(0, |files|)
  {
    r := NoValue;
    var s := RunState(0, [], ".", [], [], [], []);
    if p == [] {
      return r, s.ps, s.files, s.closed;
    }
    ghost var past: seq<nat> := [];
    ghost var goal := GoalOf(Rest(p, 0, []), codes);
    RunStarts(p, codes);
    while r == NoValue
      invariant r == NoValue ==> RunInv(p, codes, goal, s, past)
      invariant r != NoValue ==> RunDone(p, goal, s, r)
      decreases r == NoValue, |p| - s.i
    {
      NodeAtNext(p, s.i);
      if p[s.i].Chdir? {
        s, r := RunChdir(p, codes, goal, s, past);
      } else {
        s, r, past := RunCommand(p, codes, goal, s, past);
      }
    }
    ps, files, closed := s.ps, s.files, s.closed;
    AllOwnFiles(p, ps, files);
  }

  lemma {:induction false} AllOwnFiles(p: seq<Node>, ps: seq<Process>, files: seq<string>)
    requires files == FilesFor(p, Positions(ps)) && forall k :: 0 <= k < |ps| ==> WellStarted(p, ps, k)
    ensures forall k :: 0 <= k < |ps| ==> OwnFiles(p, files, ps[k]) && ReadsBefore(p, ps, k)
  {
    forall k | 0 <= k < |ps|
      ensures OwnFiles(p, files, ps[k]) && ReadsBefore(p, ps, k)
    {
      StartedOwnsFiles(p, ps, k);
      StartedReadsBefore(p, ps, k);
    }
  }

  lemma {:induction false} StartedReadsBefore(p: seq<Node>, ps: seq<Process>, k: nat)
    requires k < |ps| && WellStarted(p, ps, k) && (k > 0 ==> WellStarted(p, ps, k - 1))
    ensures ReadsBefore(p, ps, k)
  {
  }

  // ----- When a code comes back -----

  /** Every cd names a directory and the pipeline does not end in one. */
  ghost predicate Complete(p: seq<Node>) {
    && (forall i :: 0 <= i < |p| && p[i].Chdir? ==> p[i].dir.Some?)
    && (p != [] ==> !p[|p| - 1].Chdir?)
  }

  lemma {:induction false} CompleteReturnsCode(p: seq<Node>, i: nat, group: seq<nat>, codes: seq<int>)
    requires NodeAt(p, i) && Complete(p) && |codes| == |p|
    ensures Eval(Rest(p, i, group), codes).Code?
    decreases |p| - i
  {
    NodeAtNext(p, i);
    if i + 1 == |p| {
      EndStep(p, i, group);
    } else if p[i].Chdir? {
      ChdirStep(p, i, group);
      CompleteReturnsCode(p, i + 2, group, codes);
    } else if p[i + 1] == Operator(Pipe) {
      PipeStep(p, i, group);
      CompleteReturnsCode(p, i + 2, group + [i], codes);
    } else {
      OpStep(p, i, group);
      CompleteReturnsCode(p, i + 2, [], codes);
    }
  }

  ghost predicate PassesAt(p: seq<Node>, codes: seq<int>, i: nat) {
    i < |codes| && (i + 1 < |p| && p[i + 1].Operator? ==> !Stops(p[i + 1].op, codes[i]))
  }

  /** Exit codes that let every operator pass. */
  ghost predicate Passing(p: seq<Node>, codes: seq<int>) {
    |codes| == |p| && forall i :: 0 <= i < |p| ==> PassesAt(p, codes, i)
  }

  function PassingCodes(p: seq<Node>): (codes: seq<int>)
    ensures Passing(p, codes)
  {
    seq(|p|, i requires 0 <= i < |p| => if i + 1 < |p| && p[i + 1] == Operator(Or) then 1 else 0)
  }

  lemma {:induction false} PassesOn(group: seq<nat>, op: Op, rest: Script, codes: seq<int>)
    requires GroupsStarted(Then(group, op, rest), |codes|) && !Stops(op, GroupValue(group, codes))
    ensures Eval(Then(group, op, rest), codes) == Eval(rest, codes)
  {
  }

  /** When every operator passes, the run gets as far as the cd at position bad, and fails. */
  lemma {:induction false} IncompleteFails(p: seq<Node>, i: nat, group: seq<nat>, bad: nat, codes: seq<int>)
    requires NodeAt(p, i) && i <= bad < |p| && p[bad].Chdir? && (p[bad].dir.None? || bad + 1 == |p|)
    requires Passing(p, codes)
    ensures Eval(Rest(p, i, group), codes).Failed?
    decreases |p| - i
  {
    NodeAtNext(p, i);
    if i + 1 == |p| {
      EndStep(p, i, group);
    } else if p[i].Chdir? && p[i].dir.None? {
      NoDirStep(p, i, group);
    } else if p[i].Chdir? {
      ChdirStep(p, i, group);
      IncompleteFails(p, i + 2, group, bad, codes);
    } else if p[i + 1] == Operator(Pipe) {
      PipeStep(p, i, group);
      IncompleteFails(p, i + 2, group + [i], bad, codes);
    } else {
      OpStep(p, i, group);
      assert PassesAt(p, codes, i);
      PassesOn(group + [i], p[i + 1].op, Rest(p, i + 2, []), codes);
      IncompleteFails(p, i + 2, [], bad, codes);
    }
  }

  /** A pipeline returns a code whatever its commands exit with exactly when it is complete. */
  lemma {:induction false} CodeIffComplete(p: seq<Node>)
    requires NodeAt(p, 0)
    ensures Complete(p) <==> forall codes: seq<int> :: |codes| == |p| ==> Eval(Rest(p, 0, []), codes).Code?
  {
    if Complete(p) {
      forall codes: seq<int> | |codes| == |p|
        ensures Eval(Rest(p, 0, []), codes).Code?
      {
        CompleteReturnsCode(p, 0, [], codes);
      }
    } else {
      var bad :| 0 <= bad < |p| && p[bad].Chdir? && (p[bad].dir.None? || bad + 1 == |p|);
      IncompleteFails(p, 0, [], bad, PassingCodes(p));
    }
  }

  // ----- Which groups run -----

  ghost predicate NoCrash(s: Script) {
    match s
    case Finish(g) => g != []
    case Then(g, op, rest) => g != [] && op != Pipe && NoCrash(rest)
    case Crash(_, _) => false
  }

  lemma {:induction false} CompleteDoesNotCrash(p: seq<Node>, i: nat)
    requires NodeAt(p, i) && Complete(p)
    ensures NoCrash(ScriptFrom(p, i))
    decreases |p| - i
  {
    NodeAtNext(p, i);
    if i + 1 == |p| {
    } else {
      CompleteDoesNotCrash(p, i + 2);
    }
  }

  ghost function GroupsOf(s: Script): (r: seq<seq<nat>>)
    ensures |r| > 0
  {
    if s.Then? then [s.group] + GroupsOf(s.rest) else [s.group]
  }

  ghost function OpsOf(s: Script): (r: seq<Op>)
    ensures |GroupsOf(s)| == |r| + 1
  {
    if s.Then? then [s.op] + OpsOf(s.rest) else []
  }

  /** Every group before group k lets the line go on, and group k ends it: success before ||, failure before &&. */
  ghost predicate EndsWith(vals: seq<int>, ops: seq<Op>, k: nat) {
    && k <= |ops| && |vals| == |ops| + 1
    && (forall j :: 0 <= j < k ==> (ops[j] == And && vals[j] == 0) || (ops[j] == Or && vals[j] != 0))
    && (k < |ops| ==> (ops[k] == And && vals[k] != 0) || (ops[k] == Or && vals[k] == 0))
  }

  /** The codes of the last commands of the groups. */
  ghost function GroupCodes(groups: seq<seq<nat>>, codes: seq<int>): (r: seq<int>)
    ensures |r| == |groups|
  {
    if groups == [] then []
    else
      var g := groups[0];
      [if g != [] && g[|g| - 1] < |codes| then codes[g[|g| - 1]] else 0] + GroupCodes(groups[1..], codes)
  }

  /** The groups run in turn up to the first that ends the line, whose code is returned. */
  lemma {:induction false} RunsUpTo(s: Script, codes: seq<int>) returns (k: nat)
    requires NoCrash(s) && GroupsStarted(s, |codes|)
    ensures k < |GroupsOf(s)| && EndsWith(GroupCodes(GroupsOf(s), codes), OpsOf(s), k)
    ensures Eval(s, codes) == Code(GroupCodes(GroupsOf(s), codes)[k])
    ensures Started(s, codes) == Flatten(GroupsOf(s)[..k + 1])
    decreases s
  {
    var groups, ops := GroupsOf(s), OpsOf(s);
    var vals := GroupCodes(groups, codes);
    assert vals[0] == GroupValue(s.group, codes);
    if s.Finish? || Stops(s.op, GroupValue(s.group, codes)) {
      k := 0;
      assert groups[..1] == [s.group];
      FlatMapOne(s.group, Itself());
    } else {
      var m := RunsUpTo(s.rest, codes);
      k := m + 1;
      assert groups[1..] == GroupsOf(s.rest) && ops[1..] == OpsOf(s.rest);
      GoesOn(vals, ops, m);
      FirstGroup(s.group, GroupsOf(s.rest), m + 1);
    }
  }

  lemma {:induction false} GoesOn(vals: seq<int>, ops: seq<Op>, m: nat)
    requires |vals| == |ops| + 1 && ops != [] && EndsWith(vals[1..], ops[1..], m)
    requires (ops[0] == And && vals[0] == 0) || (ops[0] == Or && vals[0] != 0)
    ensures EndsWith(vals, ops, m + 1)
  {
    forall j | 0 <= j < m + 1
      ensures (ops[j] == And && vals[j] == 0) || (ops[j] == Or && vals[j] != 0)
    {
      if j > 0 {
        assert ops[j] == ops[1..][j - 1] && vals[j] == vals[1..][j - 1];
      }
    }
  }

  lemma {:induction false} FirstGroup(g: seq<nat>, rest: seq<seq<nat>>, n: nat)
    requires n <= |rest|
    ensures g + Flatten(rest[..n]) == Flatten(([g] + rest)[..n + 1])
  {
    assert ([g] + rest)[..n + 1] == [g] + rest[..n];
    FlatMapAppend([g], rest[..n], Itself());
    FlatMapOne(g, Itself());
  }
}
