/**
 * How the right-nested && and || of waf-tools/shellcmd.py compare with the left-associative
 * and-or lists of the Shell Command Language, section 2.9.3 of POSIX.1-2017.
 *
 * Both readings are defined on the same and-or list.  Its items are the pipe groups of the line, and
 * a cd is a command like any other there: its exit status is 0, and the && behind it is an operator.
 */
module ShellAndOr {
  import opened ShellSyntax
  import opened ShellRun

  /** A pipe group, known by its last command: a cd, or the command at a position. */
  datatype Item = Cd | Last(q: nat)

  datatype AndOrList = Only(item: Item) | List(item: Item, op: Op, rest: AndOrList)

  /** The and-or list that begins at node i. */
  ghost function ListFrom(p: seq<Node>, i: nat): AndOrList
    requires NodeAt(p, i)
    decreases |p| - i
  {
    NodeAtNext(p, i);
    var item := if p[i].Chdir? then Cd else Last(i);
    if i + 1 == |p| then Only(item)
    else if p[i + 1].op == Pipe then ListFrom(p, i + 2)
    else List(item, p[i + 1].op, ListFrom(p, i + 2))
  }

  /** The exit status of a group: that of its last command, section 2.9.2. */
  function Value(x: Item, codes: seq<int>): int {
    if x.Last? && x.q < |codes| then codes[x.q] else 0
  }

  /** The first operator that stops ends the whole line. */
  function RightValue(l: AndOrList, codes: seq<int>): int {
    var v := Value(l.item, codes);
    if l.Only? || Stops(l.op, v) then v else RightValue(l.rest, codes)
  }

  /** In POSIX, && skips the next group after a failure, and || after a success. */
  predicate Skips(op: Op, status: int) {
    match op
    case And => status != 0
    case Or => status == 0
    case Pipe => false
  }

  /** The list so far has the given status and op follows; an operator that stops skips just the next group. */
  function LeftFrom(status: int, op: Op, l: AndOrList, codes: seq<int>): int
    decreases l
  {
    var s := if Skips(op, status) then status else Value(l.item, codes);
    if l.Only? then s else LeftFrom(s, l.op, l.rest, codes)
  }

  /** The value that section 2.9.3 gives to the list. */
  function LeftValue(l: AndOrList, codes: seq<int>): int {
    if l.Only? then Value(l.item, codes) else LeftFrom(Value(l.item, codes), l.op, l.rest, codes)
  }

  /** The status of the line in POSIX. */
  ghost function PosixValue(p: seq<Node>, codes: seq<int>): int
    requires NodeAt(p, 0)
  {
    LeftValue(ListFrom(p, 0), codes)
  }

  // ----- The lists of complete lines -----

  /** A cd is followed by && and does not end the list; pipes are inside the groups. */
  ghost predicate Shaped(l: AndOrList) {
    if l.Only? then l.item.Last? else l.op != Pipe && (l.item.Cd? ==> l.op == And) && Shaped(l.rest)
  }

  /** The groups end at rising positions from lo on. */
  ghost predicate Rising(l: AndOrList, lo: nat, n: nat) {
    && (l.item.Last? ==> lo <= l.item.q < n)
    && (l.List? ==> Rising(l.rest, if l.item.Last? then l.item.q + 1 else lo, n))
  }

  lemma {:induction false} RisingFromBelow(l: AndOrList, lo: nat, hi: nat, n: nat)
    requires lo <= hi && Rising(l, hi, n)
    ensures Rising(l, lo, n)
    decreases l
  {
    if l.Only? || l.item.Last? {
    } else {
      RisingFromBelow(l.rest, lo, hi, n);
    }
  }

  lemma {:induction false} ListIsShaped(p: seq<Node>, i: nat)
    requires NodeAt(p, i) && Complete(p)
    ensures Shaped(ListFrom(p, i)) && Rising(ListFrom(p, i), i, |p|)
    decreases |p| - i
  {
    NodeAtNext(p, i);
    if i + 1 == |p| {
    } else {
      ListIsShaped(p, i + 2);
      RisingFromBelow(ListFrom(p, i + 2), i, i + 2, |p|);
      RisingFromBelow(ListFrom(p, i + 2), i + 1, i + 2, |p|);
    }
  }

  /** The executor, which forgets a cd and its operator, computes the right-nested value of the whole list. */
  lemma {:induction false} EvalIsRightNested(p: seq<Node>, i: nat, group: seq<nat>, codes: seq<int>)
    requires NodeAt(p, i) && Complete(p) && |codes| == |p|
    ensures Eval(Rest(p, i, group), codes) == Code(RightValue(ListFrom(p, i), codes))
    decreases |p| - i
  {
    NodeAtNext(p, i);
    if i + 1 == |p| {
      EndStep(p, i, group);
    } else if p[i].Chdir? {
      ChdirStep(p, i, group);
      EvalIsRightNested(p, i + 2, group, codes);
    } else if p[i + 1] == Operator(Pipe) {
      PipeStep(p, i, group);
      EvalIsRightNested(p, i + 2, group + [i], codes);
    } else {
      OpStep(p, i, group);
      EvalIsRightNested(p, i + 2, [], codes);
    }
  }

  // ----- Agreement -----

  /** Every operator of the list is op. */
  predicate OnlyOp(l: AndOrList, op: Op) {
    l.Only? || (l.op == op && OnlyOp(l.rest, op))
  }

  predicate OneOperator(l: AndOrList) {
    l.Only? || OnlyOp(l.rest, l.op)
  }

  /** The list without the cds that come before the first group that ends in a command. */
  function SkipCds(l: AndOrList): AndOrList {
    if l.List? && l.item.Cd? then SkipCds(l.rest) else l
  }

  lemma {:induction false} SkippedCds(l: AndOrList, codes: seq<int>, lo: nat, n: nat)
    requires Shaped(l) && Rising(l, lo, n)
    ensures var k := SkipCds(l); Shaped(k) && k.item.Last? && Rising(k, lo, n)
    ensures RightValue(SkipCds(l), codes) == RightValue(l, codes)
    ensures LeftValue(SkipCds(l), codes) == LeftValue(l, codes)
    decreases l
  {
    if l.Only? || l.item.Last? {
    } else {
      SkippedCds(l.rest, codes, lo, n);
    }
  }

  lemma {:induction false} StoppedStays(status: int, op: Op, l: AndOrList, codes: seq<int>)
    requires Skips(op, status) && OnlyOp(l, op)
    ensures LeftFrom(status, op, l, codes) == status
    decreases l
  {
    if l.Only? {
    } else {
      StoppedStays(status, op, l.rest, codes);
    }
  }

  /** With one operator only the two readings agree. */
  lemma {:induction false} SameOpAgrees(l: AndOrList, codes: seq<int>)
    requires OneOperator(l)
    ensures RightValue(l, codes) == LeftValue(l, codes)
    decreases l
  {
    if l.Only? {
    } else if Skips(l.op, Value(l.item, codes)) {
      StoppedStays(Value(l.item, codes), l.op, l.rest, codes);
    } else {
      SameOpAgrees(l.rest, codes);
    }
  }

  /** A value that the operator lets pass. */
  function Passing(op: Op): int { if op == Or then 1 else 0 }

  /** Every group that ends in a command has value d. */
  ghost predicate AllAre(l: AndOrList, codes: seq<int>, d: int) {
    (l.item.Last? ==> Value(l.item, codes) == d) && (l.List? ==> AllAre(l.rest, codes, d))
  }

  /** Then the list ends with d: a cd may bring the status to 0, but the && behind it takes the next group. */
  lemma {:induction false} LeftSettles(status: int, op: Op, l: AndOrList, codes: seq<int>, d: int)
    requires Shaped(l) && AllAre(l, codes, d) && (d == 0 || d == 1)
    requires status == d || (status == 0 && op == And)
    ensures LeftFrom(status, op, l, codes) == d
    decreases l
  {
    if l.Only? {
    } else {
      var s := if Skips(op, status) then status else Value(l.item, codes);
      LeftSettles(s, l.op, l.rest, codes, d);
    }
  }

  /** A status that stops op is kept up to the first other operator, which takes the next group. */
  lemma {:induction false} LeftGoesOn(op: Op, l: AndOrList, codes: seq<int>)
    requires op != Pipe && Shaped(l) && AllAre(l, codes, Passing(op)) && !OnlyOp(l, op)
    ensures LeftFrom(1 - Passing(op), op, l, codes) == Passing(op)
    decreases l
  {
    var d := Passing(op);
    if l.op == op {
      LeftGoesOn(op, l.rest, codes);
    } else if op == Or {
      LeftSettles(0, And, l.rest, codes, d);
    } else if l.rest.List? {
      LeftSettles(0, l.rest.op, l.rest.rest, codes, d);
    }
  }

  /** The exit codes that stop op at position q only. */
  function CodesStoppingAt(n: nat, op: Op, q: nat): (codes: seq<int>)
    requires q < n
    ensures |codes| == n
    ensures forall i :: 0 <= i < n ==> codes[i] == if i == q then 1 - Passing(op) else Passing(op)
  {
    seq(n, i => if i == q then 1 - Passing(op) else Passing(op))
  }

  lemma {:induction false} LaterGroupsPass(l: AndOrList, lo: nat, n: nat, op: Op, q: nat)
    requires q < lo && q < n && Rising(l, lo, n)
    ensures AllAre(l, CodesStoppingAt(n, op, q), Passing(op))
    decreases l
  {
    if l.Only? {
    } else {
      LaterGroupsPass(l.rest, if l.item.Last? then l.item.q + 1 else lo, n, op, q);
    }
  }

  /** With both operators behind a first command, stopping there makes the difference. */
  lemma {:induction false} MixedOpsDiffer(l: AndOrList, lo: nat, n: nat) returns (codes: seq<int>)
    requires Shaped(l) && Rising(l, lo, n) && l.item.Last? && !OneOperator(l)
    ensures |codes| == n && RightValue(l, codes) != LeftValue(l, codes)
  {
    var q := l.item.q;
    codes := CodesStoppingAt(n, l.op, q);
    LaterGroupsPass(l.rest, q + 1, n, l.op, q);
    LeftGoesOn(l.op, l.rest, codes);
  }

  /** The executor returns what POSIX says. */
  ghost predicate AgreesOn(p: seq<Node>, codes: seq<int>)
    requires NodeAt(p, 0) && |codes| == |p|
  {
    Eval(Rest(p, 0, []), codes) == Code(PosixValue(p, codes))
  }

  /**
   * The executor agrees with POSIX on all exit codes exactly when the line uses only one of && and ||
   * once the cds before its first command, or before the end of its first pipe group, are left out
   * together with the && behind them.
   */
  lemma {:induction false} AgreesIffOneOperator(p: seq<Node>)
    requires NodeAt(p, 0) && Complete(p)
    ensures OneOperator(SkipCds(ListFrom(p, 0))) <==>
            forall codes: seq<int> :: |codes| == |p| ==> AgreesOn(p, codes)
  {
    var l := ListFrom(p, 0);
    ListIsShaped(p, 0);
    if OneOperator(SkipCds(l)) {
      forall codes: seq<int> | |codes| == |p|
        ensures AgreesOn(p, codes)
      {
        SkippedCds(l, codes, 0, |p|);
        SameOpAgrees(SkipCds(l), codes);
        EvalIsRightNested(p, 0, [], codes);
      }
    } else {
      SkippedCds(l, [], 0, |p|);
      var codes := MixedOpsDiffer(SkipCds(l), 0, |p|);
      SkippedCds(l, codes, 0, |p|);
      EvalIsRightNested(p, 0, [], codes);
      assert !AgreesOn(p, codes);
    }
  }

  /** On every line the executor agrees with POSIX on all exit codes exactly when the line is complete, too. */
  lemma {:induction false} AgreesIff(p: seq<Node>)
    requires NodeAt(p, 0)
    ensures Complete(p) && OneOperator(SkipCds(ListFrom(p, 0))) <==>
            forall codes: seq<int> :: |codes| == |p| ==> AgreesOn(p, codes)
  {
    CodeIffComplete(p);
    if Complete(p) {
      AgreesIffOneOperator(p);
    } else {
      var codes: seq<int> :| |codes| == |p| && !Eval(Rest(p, 0, []), codes).Code?;
      assert !AgreesOn(p, codes);
    }
  }
}
