/**
 * What a run of the thread pool of test.py comes to: what each counter counts, and what the interrupt does
 * to the jobs that no worker has started.
 */
module PoolOutcome {
  import opened Totals
  import opened Pool

  // ----- The counters -----

  function Passed(): Report -> nat { (r: Report) => One(!r.isBreak && !r.isSkip && r.returncode == 0) }
  function Failed(): Report -> nat { (r: Report) => One(!r.isBreak && !r.isSkip && r.returncode == 1) }
  function Valgrind(): Report -> nat { (r: Report) => One(!r.isBreak && !r.isSkip && r.returncode == 2) }
  function Crashed(): Report -> nat {
    (r: Report) => One(!r.isBreak && !r.isSkip && r.returncode != 0 && r.returncode != 1 && r.returncode != 2)
  }
  function Skipped(): Report -> nat { (r: Report) => One(!r.isBreak && r.isSkip) }

  /** Each counter is the number of the reports it stands for; broken reports are in none. */
  ghost predicate Counters(t: Tally, reports: seq<Report>) {
    && t.passed == Total(reports, Passed())
    && t.failed == Total(reports, Failed())
    && t.valgrind == Total(reports, Valgrind())
    && t.crashed == Total(reports, Crashed())
    && t.skipped == Total(reports, Skipped())
  }

  lemma {:induction false} CountCounts(t: Tally, reports: seq<Report>, r: Report)
    requires Counters(t, reports)
    ensures Counters(Count(t, r), reports + [r])
  {
    TotalAppend(reports, r, Passed());
    TotalAppend(reports, r, Failed());
    TotalAppend(reports, r, Valgrind());
    TotalAppend(reports, r, Crashed());
    TotalAppend(reports, r, Skipped());
  }

  lemma {:induction false} StepKeepsCounters(c: Config, s: State, e: Event)
    requires Enabled(c, s, e) && Counters(s.tally, s.collected)
    ensures Counters(Next(c, s, e).tally, Next(c, s, e).collected)
  {
    if e.MainStep? && s.main.Collecting? && s.main.n < |c.jobs| {
      CountCounts(s.tally, s.collected, s.outQ[0]);
    } else {
      assert Next(c, s, e).tally == s.tally && Next(c, s, e).collected == s.collected;
    }
  }

  lemma {:induction false} RunKeepsCounters(c: Config, s: State, run: seq<Event>)
    requires Possible(c, s, run) && Counters(s.tally, s.collected)
    ensures Counters(After(c, s, run).tally, After(c, s, run).collected)
    decreases |run|
  {
    if run == [] {
    } else {
      StepKeepsCounters(c, s, run[0]);
      RunKeepsCounters(c, Next(c, s, run[0]), run[1..]);
    }
  }

  /** At every moment of every run each counter is the number of the collected reports it stands for. */
  lemma {:induction false} CountersCountReports(c: Config, run: seq<Event>)
    requires Possible(c, Init(c), run)
    ensures Counters(After(c, Init(c), run).tally, After(c, Init(c), run).collected)
  {
    RunKeepsCounters(c, Init(c), run);
  }

  // ----- The interrupt -----

  ghost predicate NoneOf(reports: seq<Report>, id: nat) {
    forall i :: 0 <= i < |reports| ==> reports[i].id != id
  }

  /** No worker has got as far as looking at the interrupt for the job, and it has not come back. */
  ghost predicate NotStarted(s: State, id: nat) {
    && (forall w :: 0 <= w < |s.workers| ==>
          s.workers[w] != Running(id) && !(s.workers[w].Reporting? && s.workers[w].report.id == id))
    && NoneOf(s.outQ, id) && NoneOf(s.collected, id)
  }

  ghost predicate AllBroken(reports: seq<Report>, id: nat) {
    forall i :: 0 <= i < |reports| && reports[i].id == id ==> reports[i].isBreak
  }

  /** The interrupt is set, the job is not running, and where it has been reported it is a break. */
  ghost predicate Broken(s: State, id: nat) {
    && s.threadExit
    && (forall w :: 0 <= w < |s.workers| ==>
          && s.workers[w] != Running(id)
          && (s.workers[w].Reporting? && s.workers[w].report.id == id ==> s.workers[w].report.isBreak))
    && AllBroken(s.outQ, id) && AllBroken(s.collected, id)
  }

  lemma {:induction false} StepKeepsBroken(c: Config, s: State, e: Event, id: nat)
    requires Enabled(c, s, e) && Broken(s, id)
    ensures Broken(Next(c, s, e), id)
  {
    match e
    case MainStep => MainKeepsBroken(c, s, id);
    case WorkerStep(w) => WorkerKeepsBroken(c, s, w, id);
    case Interrupt =>
  }

  lemma {:induction false} MainKeepsBroken(c: Config, s: State, id: nat)
    requires MainEnabled(c, s) && Broken(s, id)
    ensures Broken(MainNext(c, s), id)
  {
    var t := MainNext(c, s);
    if s.main.Collecting? && s.main.n < |c.jobs| {
      assert AllBroken([s.outQ[0]], id) && AllBroken(s.outQ[1..], id);
    }
  }

  lemma {:induction false} WorkerKeepsBroken(c: Config, s: State, w: nat, id: nat)
    requires WorkerEnabled(c, s, w) && Broken(s, id)
    ensures Broken(WorkerNext(c, s, w), id)
  {
  }

  lemma {:induction false} RunKeepsBroken(c: Config, s: State, run: seq<Event>, id: nat)
    requires Possible(c, s, run) && Broken(s, id)
    ensures Broken(After(c, s, run), id)
    decreases |run|
  {
    if run == [] {
    } else {
      StepKeepsBroken(c, s, run[0], id);
      RunKeepsBroken(c, Next(c, s, run[0]), run[1..], id);
    }
  }

  /** The job is still to be dispatched, is queued, or is held by a worker that has not looked at the interrupt. */
  ghost predicate Pending(c: Config, s: State, id: nat) {
    id >= Dispatched(c, s) || Work(id) in s.inQ || Took(id) in s.workers
  }

  lemma {:induction false} NoReports(reports: seq<Report>, id: nat)
    requires Total(reports, ReportOf(id)) == 0
    ensures NoneOf(reports, id)
  {
    TotalZero(reports, ReportOf(id));
    forall i | 0 <= i < |reports|
      ensures reports[i].id != id
    {
      assert ReportOf(id)(reports[i]) == 0;
    }
  }

  lemma {:induction false} NoHolders(workers: seq<Worker>, id: nat)
    requires Total(workers, HeldJob(id)) == 0
    ensures forall w :: 0 <= w < |workers| ==>
              workers[w] != Running(id) && !(workers[w].Reporting? && workers[w].report.id == id)
  {
    TotalZero(workers, HeldJob(id));
    forall w | 0 <= w < |workers|
      ensures workers[w] != Running(id) && !(workers[w].Reporting? && workers[w].report.id == id)
    {
      assert HeldJob(id)(workers[w]) == 0;
    }
  }

  /** In every reachable state a pending job has been started by no worker. */
  lemma {:induction false} PendingIsNotStarted(c: Config, s: State, id: nat)
    requires Inv(c, s) && Pending(c, s, id)
    ensures NotStarted(s, id)
  {
    assert Places(s, id) == One(id < Dispatched(c, s));
    if id >= Dispatched(c, s) {
      NoHolders(s.workers, id);
    } else if Work(id) in s.inQ {
      var i :| 0 <= i < |s.inQ| && s.inQ[i] == Work(id);
      TotalUpdate(s.inQ, i, Pill, QueuedJob(id));
      NoHolders(s.workers, id);
    } else {
      var w :| 0 <= w < |s.workers| && s.workers[w] == Took(id);
      TotalUpdate(s.workers, w, Waiting, HeldJob(id));
      NoHolders(s.workers[w := Waiting], id);
      assert forall v :: 0 <= v < |s.workers| && v != w ==> s.workers[w := Waiting][v] == s.workers[v];
    }
    NoReports(s.outQ, id);
    NoReports(s.collected, id);
  }

  /**
   * A job that is pending when the interrupt is set is never run: whatever happens afterwards, no worker is
   * running it, and its report is a break.
   */
  lemma {:induction false} InterruptStopsPending(c: Config, before: seq<Event>, later: seq<Event>, id: nat)
    requires Possible(c, Init(c), before)
    requires var s := After(c, Init(c), before); s.threadExit && Pending(c, s, id) && Possible(c, s, later)
    ensures Broken(After(c, After(c, Init(c), before), later), id)
  {
    var s := After(c, Init(c), before);
    ReachableInv(c, before);
    PendingIsNotStarted(c, s, id);
    RunKeepsBroken(c, s, later, id);
  }

  /** So when the main thread returns, the job has come back as a break and the status is 1. */
  lemma {:induction false} InterruptedStatus(c: Config, s: State, id: nat)
    requires Inv(c, s) && s.main.Returned? && Broken(s, id) && id < |c.jobs|
    ensures s.main.status == 1
    ensures exists i :: 0 <= i < |s.collected| && s.collected[i].id == id && s.collected[i].isBreak
  {
    EachJobReportedOnce(c, s, id);
    var i :| 0 <= i < |s.collected| && s.collected[i].id == id;
    assert s.collected[i].isBreak;
    StatusFromReports(c, s);
  }

  /** A job that is to be skipped is never run. */
  lemma {:induction false} SkippedIsNeverRun(c: Config, run: seq<Event>, w: nat, id: nat)
    requires Possible(c, Init(c), run) && w < |After(c, Init(c), run).workers|
    requires After(c, Init(c), run).workers[w] == Running(id)
    ensures id < |c.jobs| && !c.jobs[id].skip
  {
    ReachableInv(c, run);
    assert GoodWorker(c, After(c, Init(c), run).threadExit, After(c, Init(c), run).workers[w]);
  }

  // ----- A job that runs -----

  /** The report is that of a job that was run. */
  predicate Honest(c: Config, r: Report) {
    r.id < |c.jobs| && !r.isBreak && !r.isSkip && r.returncode == c.jobs[r.id].exitCode
  }

  ghost predicate AllHonest(c: Config, reports: seq<Report>, id: nat) {
    forall i :: 0 <= i < |reports| && reports[i].id == id ==> Honest(c, reports[i])
  }

  /** The job has left the queue and is past the checks; where it has been reported, it was run. */
  ghost predicate Ran(c: Config, s: State, id: nat) {
    && id < Dispatched(c, s) && Work(id) !in s.inQ
    && (forall w :: 0 <= w < |s.workers| ==>
          && s.workers[w] != Took(id)
          && (s.workers[w].Reporting? && s.workers[w].report.id == id ==> Honest(c, s.workers[w].report)))
    && AllHonest(c, s.outQ, id) && AllHonest(c, s.collected, id)
  }

  lemma {:induction false} MainKeepsRan(c: Config, s: State, id: nat)
    requires MainInv(c, s) && MainEnabled(c, s) && Ran(c, s, id)
    ensures Ran(c, MainNext(c, s), id)
  {
    if s.main.Collecting? && s.main.n < |c.jobs| {
      assert AllHonest(c, [s.outQ[0]], id) && AllHonest(c, s.outQ[1..], id);
    }
  }

  lemma {:induction false} WorkerKeepsRan(c: Config, s: State, w: nat, id: nat)
    requires WorkerEnabled(c, s, w) && Ran(c, s, id)
    ensures Ran(c, WorkerNext(c, s, w), id)
  {
    if s.workers[w].Waiting? {
      assert s.inQ[0] in s.inQ;
      assert forall x :: x in s.inQ[1..] ==> x in s.inQ;
    }
  }

  lemma {:induction false} RunKeepsRan(c: Config, s: State, run: seq<Event>, id: nat)
    requires Inv(c, s) && Possible(c, s, run) && Ran(c, s, id)
    ensures Ran(c, After(c, s, run), id)
    decreases |run|
  {
    if run == [] {
    } else {
      match run[0] {
        case MainStep => MainKeepsRan(c, s, id);
        case WorkerStep(w) => WorkerKeepsRan(c, s, w, id);
        case Interrupt =>
      }
      StepKeepsInv(c, s, run[0]);
      RunKeepsRan(c, Next(c, s, run[0]), run[1..], id);
    }
  }

  lemma {:induction false} RunningIsPast(c: Config, s: State, w: nat, id: nat)
    requires Inv(c, s) && w < |s.workers| && s.workers[w] == Running(id)
    ensures Ran(c, s, id)
  {
    assert Places(s, id) == One(id < Dispatched(c, s));
    TotalUpdate(s.workers, w, Waiting, HeldJob(id));
    var others := s.workers[w := Waiting];
    TotalZero(others, HeldJob(id));
    forall v | 0 <= v < |s.workers|
      ensures s.workers[v] != Took(id) && !(s.workers[v].Reporting? && s.workers[v].report.id == id)
    {
      assert v != w ==> others[v] == s.workers[v] && HeldJob(id)(others[v]) == 0;
    }
    NotQueued(s.inQ, id);
    NoReports(s.outQ, id);
    NoReports(s.collected, id);
  }

  lemma {:induction false} NotQueued(q: seq<Item>, id: nat)
    requires Total(q, QueuedJob(id)) == 0
    ensures Work(id) !in q
  {
    TotalZero(q, QueuedJob(id));
    forall i | 0 <= i < |q|
      ensures q[i] != Work(id)
    {
      assert QueuedJob(id)(q[i]) == 0;
    }
  }

  /** A job that a worker has started comes back unbroken with its own return code, interrupt or not. */
  lemma {:induction false} RunningComesBack(c: Config, before: seq<Event>, later: seq<Event>, w: nat, id: nat)
    requires Possible(c, Init(c), before)
    requires var s := After(c, Init(c), before);
             w < |s.workers| && s.workers[w] == Running(id) && Possible(c, s, later)
    ensures Ran(c, After(c, After(c, Init(c), before), later), id)
  {
    var s := After(c, Init(c), before);
    ReachableInv(c, before);
    RunningIsPast(c, s, w, id);
    RunKeepsRan(c, s, later, id);
  }
}
