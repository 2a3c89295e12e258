/**
 * The thread pool of test.py: a main thread that starts workers, queues jobs and then one break
 * job per worker, collects as many reports as it queued jobs, joins the workers and computes the
 * exit status; workers that loop over the input queue; and an interrupt that may set the global
 * thread_exit at any moment.
 *
 * The model is a state machine.  One event is one atomic action of one thread, so every sequence
 * of enabled events is one interleaving.
 */
module Pool {
  import opened Totals

  // ----- States -----

  /** A queued test: whether it is to be skipped, and what its process would return. */
  datatype JobSpec = JobSpec(skip: bool, exitCode: int)

  datatype Config = Config(jobs: seq<JobSpec>, processors: nat)

  /** The input queue carries jobs and break jobs. */
  datatype Item = Work(id: nat) | Pill

  /** A job as it comes back.  A job that was not run has return code False, which equals 0. */
  datatype Report = Report(id: nat, isBreak: bool, isSkip: bool, returncode: int)

  datatype Worker =
    | Unstarted
    | Waiting                      // in input_queue.get()
    | Took(id: nat)                // holds a job, has not yet looked at thread_exit
    | Running(id: nat)             // in run_job_synchronously
    | Reporting(report: Report)    // about to put the job on the output queue
    | Exited

  datatype Main =
    | Starting(n: nat)
    | Dispatching(n: nat)
    | Pilling(n: nat)
    | Collecting(n: nat)
    | Joining(n: nat)
    | Returned(status: int)

  datatype Tally = Tally(passed: nat, failed: nat, valgrind: nat, crashed: nat, skipped: nat)

  datatype State = State(
    main: Main,
    inQ: seq<Item>,
    outQ: seq<Report>,
    workers: seq<Worker>,
    threadExit: bool,
    collected: seq<Report>,
    tally: Tally)

  datatype Event = MainStep | WorkerStep(w: nat) | Interrupt

  // ----- Steps -----

  function Init(c: Config): State {
    State(Starting(0), [], [], seq(c.processors, _ => Unstarted), false, [], Tally(0, 0, 0, 0, 0))
  }

  predicate MainEnabled(c: Config, s: State) {
    match s.main
    case Collecting(n) => n < |c.jobs| ==> s.outQ != []
    case Joining(n) => n < |s.workers| ==> s.workers[n] == Exited
    case Returned(_) => false
    case _ => true
  }

  predicate WorkerEnabled(c: Config, s: State, w: nat) {
    && w < |s.workers|
    && match s.workers[w]
       case Unstarted => false
       case Waiting => s.inQ != []
       case Took(id) => id < |c.jobs|
       case Running(id) => id < |c.jobs|
       case Reporting(_) => true
       case Exited => false
  }

  predicate Enabled(c: Config, s: State, e: Event) {
    match e
    case MainStep => MainEnabled(c, s)
    case WorkerStep(w) => WorkerEnabled(c, s, w)
    case Interrupt => !s.threadExit
  }

  /** The counters of the collect loop. */
  function Count(t: Tally, r: Report): Tally {
    if r.isBreak then t
    else if r.isSkip then t.(skipped := t.skipped + 1)
    else if r.returncode == 0 then t.(passed := t.passed + 1)
    else if r.returncode == 1 then t.(failed := t.failed + 1)
    else if r.returncode == 2 then t.(valgrind := t.valgrind + 1)
    else t.(crashed := t.crashed + 1)
  }

  function MainNext(c: Config, s: State): State
    requires MainEnabled(c, s)
  {
    match s.main
    case Starting(n) =>
      if n < |s.workers| then s.(main := Starting(n + 1), workers := s.workers[n := Waiting])
      else s.(main := Dispatching(0))
    case Dispatching(n) =>
      if n < |c.jobs| then s.(main := Dispatching(n + 1), inQ := s.inQ + [Work(n)])
      else s.(main := Pilling(0))
    case Pilling(n) =>
      if n < |s.workers| then s.(main := Pilling(n + 1), inQ := s.inQ + [Pill])
      else s.(main := Collecting(0))
    case Collecting(n) =>
      if n < |c.jobs| then
        s.(main := Collecting(n + 1), outQ := s.outQ[1..], collected := s.collected + [s.outQ[0]],
           tally := Count(s.tally, s.outQ[0]))
      else s.(main := Joining(0))
    case Joining(n) =>
      if n < |s.workers| then s.(main := Joining(n + 1))
      else s.(main := Returned(if s.tally.passed + s.tally.skipped == |c.jobs| then 0 else 1))
  }

  /** What a worker does with the job it holds; the interrupt is looked at before the skip flag. */
  function AfterCheck(c: Config, threadExit: bool, id: nat): Worker
    requires id < |c.jobs|
  {
    if threadExit then Reporting(Report(id, true, c.jobs[id].skip, 0))
    else if c.jobs[id].skip then Reporting(Report(id, false, true, 0))
    else Running(id)
  }

  function WorkerNext(c: Config, s: State, w: nat): State
    requires WorkerEnabled(c, s, w)
  {
    match s.workers[w]
    case Waiting =>
      s.(inQ := s.inQ[1..],
         workers := s.workers[w := if s.inQ[0] == Pill then Exited else Took(s.inQ[0].id)])
    case Took(id) => s.(workers := s.workers[w := AfterCheck(c, s.threadExit, id)])
    case Running(id) => s.(workers := s.workers[w := Reporting(Report(id, false, false, c.jobs[id].exitCode))])
    case Reporting(r) => s.(outQ := s.outQ + [r], workers := s.workers[w := Waiting])
  }

  function Next(c: Config, s: State, e: Event): State
    requires Enabled(c, s, e)
  {
    match e
    case MainStep => MainNext(c, s)
    case WorkerStep(w) => WorkerNext(c, s, w)
    case Interrupt => s.(threadExit := true)
  }

  /** The events can happen one after the other from s. */
  predicate Possible(c: Config, s: State, run: seq<Event>)
    decreases |run|
  {
    run == [] || (Enabled(c, s, run[0]) && Possible(c, Next(c, s, run[0]), run[1..]))
  }

  function After(c: Config, s: State, run: seq<Event>): State
    requires Possible(c, s, run)
    decreases |run|
  {
    if run == [] then s else After(c, Next(c, s, run[0]), run[1..])
  }

  // ----- Where jobs and break jobs are -----

  function One(b: bool): nat { if b then 1 else 0 }

  function IsWork(): Item -> nat { (x: Item) => One(x.Work?) }
  function IsPill(): Item -> nat { (x: Item) => One(x.Pill?) }
  function IsBusy(): Worker -> nat { (x: Worker) => One(x.Took? || x.Running? || x.Reporting?) }
  function IsExited(): Worker -> nat { (x: Worker) => One(x.Exited?) }
  function QueuedJob(id: nat): Item -> nat { (x: Item) => One(x == Work(id)) }
  function ReportOf(id: nat): Report -> nat { (x: Report) => One(x.id == id) }
  function HeldJob(id: nat): Worker -> nat {
    (x: Worker) => One(match x
                       case Took(i) => i == id
                       case Running(i) => i == id
                       case Reporting(r) => r.id == id
                       case _ => false)
  }

  /** The number of places at which job id is: input queue, a worker's hands, output queue, collected. */
  function Places(s: State, id: nat): nat {
    Total(s.inQ, QueuedJob(id)) + Total(s.workers, HeldJob(id))
    + Total(s.outQ, ReportOf(id)) + Total(s.collected, ReportOf(id))
  }

  function Dispatched(c: Config, s: State): nat {
    match s.main
    case Starting(_) => 0
    case Dispatching(n) => n
    case _ => |c.jobs|
  }

  function PillsPut(c: Config, s: State): nat {
    match s.main
    case Starting(_) => 0
    case Dispatching(_) => 0
    case Pilling(n) => n
    case _ => c.processors
  }

  // ----- The invariant -----

  /** The program counter of the main thread is within its loops. */
  predicate MainInv(c: Config, s: State) {
    && |s.workers| == c.processors
    && (match s.main
        case Starting(n) => n <= c.processors
        case Dispatching(n) => n <= |c.jobs|
        case Pilling(n) => n <= c.processors
        case Collecting(n) => n <= |c.jobs|
        case Joining(n) => n <= c.processors
        case Returned(_) => true)
  }

  ghost predicate WorkersInv(c: Config, s: State) {
    && (forall w :: 0 <= w < |s.workers| ==> (s.workers[w] == Unstarted <==> s.main.Starting? && w >= s.main.n))
    && (forall w :: 0 <= w < |s.workers| && ((s.main.Joining? && w < s.main.n) || s.main.Returned?) ==>
          s.workers[w] == Exited)
  }

  /** Jobs stand before break jobs; once a break job has been taken no job is queued. */
  ghost predicate QueueInv(c: Config, s: State) {
    && (forall i, j :: 0 <= i < j < |s.inQ| && s.inQ[i].Pill? ==> s.inQ[j].Pill?)
    && (PillsPut(c, s) > 0 ==> Dispatched(c, s) == |c.jobs|)
    && (Total(s.workers, IsExited()) > 0 ==> Total(s.inQ, IsWork()) == 0)
    && Total(s.inQ, IsPill()) + Total(s.workers, IsExited()) == PillsPut(c, s)
    && (Dispatched(c, s) < |c.jobs| ==> PillsPut(c, s) == 0)
  }

  /** Every dispatched job is in exactly one place, and no other job is anywhere. */
  ghost predicate PlacesInv(c: Config, s: State) {
    && (forall id: nat :: Places(s, id) == One(id < Dispatched(c, s)))
    && InPool(s) == Dispatched(c, s)
  }

  /** How many jobs have been dispatched, counted where they are. */
  function InPool(s: State): nat {
    Total(s.inQ, IsWork()) + Total(s.workers, IsBusy()) + |s.outQ| + |s.collected|
  }

  /** A report tells the truth about its job; it is a break only after an interrupt. */
  predicate GoodReport(c: Config, threadExit: bool, r: Report) {
    && r.id < |c.jobs|
    && r.isSkip == c.jobs[r.id].skip
    && (r.isBreak ==> threadExit)
    && (!r.isBreak && !r.isSkip ==> r.returncode == c.jobs[r.id].exitCode)
  }

  predicate GoodWorker(c: Config, threadExit: bool, x: Worker) {
    match x
    case Took(id) => id < |c.jobs|
    case Running(id) => id < |c.jobs| && !c.jobs[id].skip
    case Reporting(r) => GoodReport(c, threadExit, r)
    case _ => true
  }

  ghost predicate ReportsInv(c: Config, s: State) {
    && (forall i :: 0 <= i < |s.outQ| ==> GoodReport(c, s.threadExit, s.outQ[i]))
    && (forall i :: 0 <= i < |s.collected| ==> GoodReport(c, s.threadExit, s.collected[i]))
    && (forall w :: 0 <= w < |s.workers| ==> GoodWorker(c, s.threadExit, s.workers[w]))
    && (forall i :: 0 <= i < |s.inQ| && s.inQ[i].Work? ==> s.inQ[i].id < |c.jobs|)
  }

  function IsGood(): Report -> nat { (r: Report) => One(!r.isBreak && (r.isSkip || r.returncode == 0)) }
  function IsBroken(): Report -> nat { (r: Report) => One(r.isBreak) }

  function Counted(t: Tally): nat {
    t.passed + t.failed + t.valgrind + t.crashed + t.skipped
  }

  /** The counters account for every collected report. */
  ghost predicate TallyInv(c: Config, s: State) {
    && s.tally.passed + s.tally.skipped == Total(s.collected, IsGood())
    && Counted(s.tally) + Total(s.collected, IsBroken()) == |s.collected|
    && (match s.main
        case Collecting(n) => |s.collected| == n
        case Joining(_) => |s.collected| == |c.jobs|
        case Returned(status) =>
          |s.collected| == |c.jobs| && status == if Total(s.collected, IsGood()) == |c.jobs| then 0 else 1
        case _ => s.collected == [])
    && (c.processors == 0 ==> s.outQ == [] && s.collected == [])
  }

  ghost predicate Inv(c: Config, s: State) {
    && MainInv(c, s)
    && WorkersInv(c, s)
    && QueueInv(c, s)
    && PlacesInv(c, s)
    && ReportsInv(c, s)
    && TallyInv(c, s)
  }

  // ----- Every step keeps the invariant -----

  lemma {:induction false} InitKeepsInv(c: Config)
    ensures Inv(c, Init(c))
  {
    var s := Init(c);
    TotalZero(s.workers, IsExited());
    TotalZero(s.workers, IsBusy());
    forall id: nat
      ensures Places(s, id) == 0
    {
      TotalZero(s.workers, HeldJob(id));
    }
  }

  lemma {:induction false} InterruptKeepsInv(c: Config, s: State)
    requires Inv(c, s)
    ensures Inv(c, s.(threadExit := true))
  {
    var t := s.(threadExit := true);
    forall id: nat
      ensures Places(t, id) == One(id < Dispatched(c, t))
    {
      assert Places(t, id) == Places(s, id);
    }
  }

  lemma {:induction false} MainKeepsWorkers(c: Config, s: State)
    requires MainInv(c, s) && WorkersInv(c, s) && MainEnabled(c, s)
    ensures MainInv(c, MainNext(c, s)) && WorkersInv(c, MainNext(c, s))
  {
  }

  lemma {:induction false} NoPillsQueued(q: seq<Item>)
    requires Total(q, IsPill()) == 0
    ensures forall i :: 0 <= i < |q| ==> q[i].Work?
  {
    TotalZero(q, IsPill());
    forall i | 0 <= i < |q|
      ensures q[i].Work?
    {
      assert IsPill()(q[i]) == 0;
    }
  }

  lemma {:induction false} DispatchKeepsQueue(c: Config, s: State)
    requires QueueInv(c, s) && s.main.Dispatching? && s.main.n < |c.jobs|
    ensures QueueInv(c, MainNext(c, s))
  {
    TotalAppend(s.inQ, Work(s.main.n), IsPill());
    NoPillsQueued(s.inQ);
  }

  lemma {:induction false} PillKeepsQueue(c: Config, s: State)
    requires MainInv(c, s) && QueueInv(c, s) && s.main.Pilling? && s.main.n < |s.workers|
    ensures QueueInv(c, MainNext(c, s))
  {
    TotalAppend(s.inQ, Pill, IsPill());
    TotalAppend(s.inQ, Pill, IsWork());
  }

  lemma {:induction false} MainKeepsQueue(c: Config, s: State)
    requires MainInv(c, s) && WorkersInv(c, s) && QueueInv(c, s) && MainEnabled(c, s)
    ensures QueueInv(c, MainNext(c, s))
  {
    if s.main.Dispatching? && s.main.n < |c.jobs| {
      DispatchKeepsQueue(c, s);
    } else if s.main.Pilling? && s.main.n < |s.workers| {
      PillKeepsQueue(c, s);
    } else if s.main.Starting? && s.main.n < |s.workers| {
      StartKeepsQueue(c, s);
    } else {
      IdleKeepsQueue(c, s);
    }
  }

  /** The main thread moves on or collects; it leaves the queue alone. */
  lemma {:induction false} IdleKeepsQueue(c: Config, s: State)
    requires MainInv(c, s) && QueueInv(c, s) && MainEnabled(c, s)
    requires MainNext(c, s).inQ == s.inQ && MainNext(c, s).workers == s.workers
    ensures QueueInv(c, MainNext(c, s))
  {
    assert PillsPut(c, MainNext(c, s)) == PillsPut(c, s) && Dispatched(c, MainNext(c, s)) == Dispatched(c, s);
  }

  lemma {:induction false} StartKeepsQueue(c: Config, s: State)
    requires WorkersInv(c, s) && QueueInv(c, s) && s.main.Starting? && s.main.n < |s.workers|
    ensures QueueInv(c, MainNext(c, s))
  {
    TotalUpdate(s.workers, s.main.n, Waiting, IsExited());
  }

  lemma {:induction false} MainKeepsPlaces(c: Config, s: State)
    requires MainInv(c, s) && PlacesInv(c, s) && MainEnabled(c, s) && WorkersInv(c, s)
    ensures PlacesInv(c, MainNext(c, s))
  {
    var t := MainNext(c, s);
    forall id: nat
      ensures Places(t, id) == One(id < Dispatched(c, t))
    {
      assert Places(s, id) == One(id < Dispatched(c, s));
      MainMovesJob(c, s, id);
    }
    MainKeepsCount(c, s);
  }

  lemma {:induction false} MainKeepsCount(c: Config, s: State)
    requires MainInv(c, s) && MainEnabled(c, s) && WorkersInv(c, s) && InPool(s) == Dispatched(c, s)
    ensures InPool(MainNext(c, s)) == Dispatched(c, MainNext(c, s))
  {
    MainCounts(c, s);
    MainDispatches(c, s);
  }

  predicate Dispatches(c: Config, s: State) { s.main.Dispatching? && s.main.n < |c.jobs| }

  lemma {:induction false} MainCounts(c: Config, s: State)
    requires MainEnabled(c, s) && WorkersInv(c, s)
    ensures InPool(MainNext(c, s)) == InPool(s) + One(Dispatches(c, s))
  {
    if s.main.Starting? && s.main.n < |s.workers| {
      TotalUpdate(s.workers, s.main.n, Waiting, IsBusy());
    } else if Dispatches(c, s) {
      TotalAppend(s.inQ, Work(s.main.n), IsWork());
    } else if s.main.Pilling? && s.main.n < |s.workers| {
      TotalAppend(s.inQ, Pill, IsWork());
    }
  }

  lemma {:induction false} MainDispatches(c: Config, s: State)
    requires MainInv(c, s) && MainEnabled(c, s)
    ensures Dispatched(c, MainNext(c, s)) == Dispatched(c, s) + One(Dispatches(c, s))
  {
  }

  lemma {:induction false} MainMovesJob(c: Config, s: State, id: nat)
    requires MainInv(c, s) && MainEnabled(c, s) && WorkersInv(c, s)
    ensures Places(MainNext(c, s), id) == Places(s, id) + One(s.main == Dispatching(id) && id < |c.jobs|)
  {
    match s.main
    case Starting(n) =>
      if n < |s.workers| {
        TotalUpdate(s.workers, n, Waiting, HeldJob(id));
      }
    case Dispatching(n) =>
      if n < |c.jobs| {
        TotalAppend(s.inQ, Work(n), QueuedJob(id));
      }
    case Pilling(n) =>
      if n < |s.workers| {
        TotalAppend(s.inQ, Pill, QueuedJob(id));
      }
    case Collecting(n) =>
      if n < |c.jobs| {
        TotalHead(s.outQ, ReportOf(id));
        TotalAppend(s.collected, s.outQ[0], ReportOf(id));
      }
    case Joining(n) =>
  }

  lemma {:induction false} MainKeepsReports(c: Config, s: State)
    requires ReportsInv(c, s) && MainEnabled(c, s)
    ensures ReportsInv(c, MainNext(c, s))
  {
  }

  lemma {:induction false} CountAccounts(t: Tally, r: Report)
    ensures Counted(Count(t, r)) + One(r.isBreak) == Counted(t) + 1
    ensures Count(t, r).passed + Count(t, r).skipped == t.passed + t.skipped + IsGood()(r)
  {
  }

  lemma {:induction false} MainKeepsTally(c: Config, s: State)
    requires MainInv(c, s) && TallyInv(c, s) && MainEnabled(c, s)
    ensures TallyInv(c, MainNext(c, s))
  {
    if s.main.Collecting? && s.main.n < |c.jobs| {
      CollectKeepsTally(c, s);
    } else {
      assert MainNext(c, s).collected == s.collected && MainNext(c, s).tally == s.tally;
    }
  }

  lemma {:induction false} CollectKeepsTally(c: Config, s: State)
    requires TallyInv(c, s) && MainEnabled(c, s) && s.main.Collecting? && s.main.n < |c.jobs|
    ensures TallyInv(c, MainNext(c, s))
  {
    CountAccounts(s.tally, s.outQ[0]);
    TotalAppend(s.collected, s.outQ[0], IsGood());
    TotalAppend(s.collected, s.outQ[0], IsBroken());
  }

  lemma {:induction false} WorkerKeepsWorkers(c: Config, s: State, w: nat)
    requires MainInv(c, s) && WorkersInv(c, s) && WorkerEnabled(c, s, w)
    ensures MainInv(c, WorkerNext(c, s, w)) && WorkersInv(c, WorkerNext(c, s, w))
  {
  }

  /** When a worker takes a break job, every job has been dispatched and none is still queued. */
  lemma {:induction false} PillMeansNoWork(c: Config, s: State)
    requires QueueInv(c, s) && s.inQ != [] && s.inQ[0] == Pill
    ensures Total(s.inQ, IsWork()) == 0 && Dispatched(c, s) == |c.jobs|
  {
    TotalHead(s.inQ, IsPill());
    forall i | 0 <= i < |s.inQ|
      ensures IsWork()(s.inQ[i]) == 0
    {
      assert s.inQ[i].Pill?;
    }
    TotalZero(s.inQ, IsWork());
  }

  lemma {:induction false} WorkerKeepsQueue(c: Config, s: State, w: nat)
    requires QueueInv(c, s) && WorkerEnabled(c, s, w)
    ensures QueueInv(c, WorkerNext(c, s, w))
  {
    if s.workers[w].Waiting? {
      if s.inQ[0] == Pill {
        TakePillKeepsQueue(c, s, w);
      } else {
        TakeJobKeepsQueue(c, s, w);
      }
    } else {
      TotalUpdate(s.workers, w, WorkerNext(c, s, w).workers[w], IsExited());
    }
  }

  lemma {:induction false} TakePillKeepsQueue(c: Config, s: State, w: nat)
    requires QueueInv(c, s) && WorkerEnabled(c, s, w) && s.workers[w].Waiting? && s.inQ[0] == Pill
    ensures QueueInv(c, WorkerNext(c, s, w))
  {
    TotalUpdate(s.workers, w, Exited, IsExited());
    TotalHead(s.inQ, IsPill());
    TotalHead(s.inQ, IsWork());
    PillMeansNoWork(c, s);
  }

  lemma {:induction false} TakeJobKeepsQueue(c: Config, s: State, w: nat)
    requires QueueInv(c, s) && WorkerEnabled(c, s, w) && s.workers[w].Waiting? && s.inQ[0].Work?
    ensures QueueInv(c, WorkerNext(c, s, w))
  {
    TotalUpdate(s.workers, w, Took(s.inQ[0].id), IsExited());
    TotalHead(s.inQ, IsPill());
    TotalHead(s.inQ, IsWork());
  }

  lemma {:induction false} WorkerKeepsPlaces(c: Config, s: State, w: nat)
    requires PlacesInv(c, s) && WorkerEnabled(c, s, w)
    ensures PlacesInv(c, WorkerNext(c, s, w))
  {
    var t := WorkerNext(c, s, w);
    forall id: nat
      ensures Places(t, id) == One(id < Dispatched(c, t))
    {
      assert Places(s, id) == One(id < Dispatched(c, s));
      WorkerMovesJob(c, s, w, id);
    }
    WorkerKeepsCount(c, s, w);
  }

  lemma {:induction false} WorkerKeepsCount(c: Config, s: State, w: nat)
    requires WorkerEnabled(c, s, w)
    ensures InPool(WorkerNext(c, s, w)) == InPool(s)
  {
    TotalUpdate(s.workers, w, WorkerNext(c, s, w).workers[w], IsBusy());
    if s.workers[w].Waiting? {
      TotalHead(s.inQ, IsWork());
    }
  }

  lemma {:induction false} WorkerMovesJob(c: Config, s: State, w: nat, id: nat)
    requires WorkerEnabled(c, s, w)
    ensures Places(WorkerNext(c, s, w), id) == Places(s, id)
  {
    var t := WorkerNext(c, s, w);
    TotalUpdate(s.workers, w, t.workers[w], HeldJob(id));
    match s.workers[w]
    case Waiting =>
      TotalHead(s.inQ, QueuedJob(id));
    case Took(_) =>
    case Running(_) =>
    case Reporting(r) =>
      TotalAppend(s.outQ, r, ReportOf(id));
  }

  lemma {:induction false} WorkerKeepsReports(c: Config, s: State, w: nat)
    requires ReportsInv(c, s) && WorkerEnabled(c, s, w)
    ensures ReportsInv(c, WorkerNext(c, s, w))
  {
  }

  lemma {:induction false} WorkerKeepsTally(c: Config, s: State, w: nat)
    requires MainInv(c, s) && TallyInv(c, s) && WorkerEnabled(c, s, w)
    ensures TallyInv(c, WorkerNext(c, s, w))
  {
  }

  lemma {:induction false} StepKeepsInv(c: Config, s: State, e: Event)
    requires Inv(c, s) && Enabled(c, s, e)
    ensures Inv(c, Next(c, s, e))
  {
    match e
    case MainStep =>
      MainKeepsWorkers(c, s);
      MainKeepsQueue(c, s);
      MainKeepsPlaces(c, s);
      MainKeepsReports(c, s);
      MainKeepsTally(c, s);
    case WorkerStep(w) =>
      WorkerKeepsWorkers(c, s, w);
      WorkerKeepsQueue(c, s, w);
      WorkerKeepsPlaces(c, s, w);
      WorkerKeepsReports(c, s, w);
      WorkerKeepsTally(c, s, w);
    case Interrupt =>
      InterruptKeepsInv(c, s);
  }

  lemma {:induction false} RunKeepsInv(c: Config, s: State, run: seq<Event>)
    requires Inv(c, s) && Possible(c, s, run)
    ensures Inv(c, After(c, s, run))
    decreases |run|
  {
    if run == [] {
    } else {
      StepKeepsInv(c, s, run[0]);
      RunKeepsInv(c, Next(c, s, run[0]), run[1..]);
    }
  }

  /** The invariant holds in every reachable state. */
  lemma {:induction false} ReachableInv(c: Config, run: seq<Event>)
    requires Possible(c, Init(c), run)
    ensures Inv(c, After(c, Init(c), run))
  {
    InitKeepsInv(c);
    RunKeepsInv(c, Init(c), run);
  }

  // ----- What it means -----

  /**
   * In every reachable state each dispatched job is in exactly one place, and each break job put
   * is either still queued or was taken by a worker that has exited.
   */
  lemma {:induction false} EachJobInOnePlace(c: Config, run: seq<Event>, id: nat)
    requires Possible(c, Init(c), run)
    ensures var s := After(c, Init(c), run);
            && Places(s, id) == One(id < Dispatched(c, s))
            && Total(s.inQ, IsPill()) + Total(s.workers, IsExited()) == PillsPut(c, s)
  {
    ReachableInv(c, run);
  }

  /** No worker takes a break job while a real job is queued or still to be queued. */
  lemma {:induction false} PillsComeLast(c: Config, run: seq<Event>, w: nat)
    requires Possible(c, Init(c), run)
    requires var s := After(c, Init(c), run);
             WorkerEnabled(c, s, w) && s.workers[w].Waiting? && WorkerNext(c, s, w).workers[w].Exited?
    ensures var s := After(c, Init(c), run);
            && Dispatched(c, s) == |c.jobs|
            && forall i :: 0 <= i < |s.inQ| ==> s.inQ[i].Pill?
  {
    ReachableInv(c, run);
    var s := After(c, Init(c), run);
    PillMeansNoWork(c, s);
    TotalZero(s.inQ, IsWork());
    forall i | 0 <= i < |s.inQ|
      ensures s.inQ[i].Pill?
    {
      assert IsWork()(s.inQ[i]) == 0;
    }
  }

  // ----- Progress -----

  /** An event other than the interrupt is possible. */
  ghost predicate CanMove(c: Config, s: State) {
    MainEnabled(c, s) || exists w :: WorkerEnabled(c, s, w)
  }

  lemma {:induction false} BusyWorkerCanMove(c: Config, s: State, w: nat)
    requires ReportsInv(c, s) && w < |s.workers|
    requires IsBusy()(s.workers[w]) == 1
    ensures CanMove(c, s)
  {
    assert GoodWorker(c, s.threadExit, s.workers[w]);
    assert WorkerEnabled(c, s, w);
  }

  lemma {:induction false} SomeoneBusyCanMove(c: Config, s: State)
    requires ReportsInv(c, s) && Total(s.workers, IsBusy()) > 0
    ensures CanMove(c, s)
  {
    TotalZero(s.workers, IsBusy());
    var w :| 0 <= w < |s.workers| && IsBusy()(s.workers[w]) != 0;
    BusyWorkerCanMove(c, s, w);
  }

  lemma {:induction false} QueueNotEmpty(q: seq<Item>, f: Item -> nat)
    requires Total(q, f) > 0
    ensures q != []
  {
  }

  /** With a worker in the pool no reachable state is stuck before the main thread has returned. */
  lemma {:induction false} NoDeadlock(c: Config, s: State)
    requires Inv(c, s) && !s.main.Returned? && (c.processors > 0 || c.jobs == [])
    ensures CanMove(c, s)
  {
    if Total(s.workers, IsBusy()) > 0 {
      SomeoneBusyCanMove(c, s);
    } else if !MainEnabled(c, s) {
      TotalZero(s.workers, IsBusy());
      if s.main.Collecting? {
        QueueNotEmpty(s.inQ, IsWork());
        TotalZero(s.workers, IsExited());
        assert IsExited()(s.workers[0]) == 0 && IsBusy()(s.workers[0]) == 0;
        assert s.workers[0] == Waiting;
        assert WorkerEnabled(c, s, 0);
      } else {
        var n := s.main.n;
        NotAllExited(s.workers, n);
        QueueNotEmpty(s.inQ, IsPill());
        assert IsBusy()(s.workers[n]) == 0;
        assert s.workers[n] == Waiting;
        assert WorkerEnabled(c, s, n);
      }
    }
  }

  lemma {:induction false} NotAllExited(workers: seq<Worker>, n: nat)
    requires n < |workers| && workers[n] != Exited
    ensures Total(workers, IsExited()) < |workers|
  {
    forall i | 0 <= i < |workers|
      ensures IsExited()(workers[i]) <= 1
    {
    }
    TotalAtMostLength(workers, IsExited());
    assert IsExited()(workers[n]) == 0;
  }

  // ----- Termination -----

  /** What is left for the main thread, counting what each queued item will still cost. */
  function MainLeft(c: Config, m: Main): int {
    var j, p := |c.jobs|, c.processors;
    match m
    case Starting(n) => (p - n) + 6 * j + 3 * p + 5
    case Dispatching(n) => 5 * (j - n) + j + 3 * p + 4
    case Pilling(n) => 2 * (p - n) + j + p + 3
    case Collecting(n) => (j - n) + p + 2
    case Joining(n) => (p - n) + 1
    case Returned(_) => 0
  }

  function ItemCost(): Item -> nat { (x: Item) => if x.Pill? then 1 else 4 }
  function WorkerCost(): Worker -> nat {
    (x: Worker) => match x
                   case Took(_) => 3
                   case Running(_) => 2
                   case Reporting(_) => 1
                   case _ => 0
  }

  function Measure(c: Config, s: State): int {
    MainLeft(c, s.main) + Total(s.inQ, ItemCost()) + Total(s.workers, WorkerCost()) + One(!s.threadExit)
  }

  /** What a step of the main thread adds to the queue. */
  function Added(c: Config, s: State): nat {
    if s.main.Dispatching? && s.main.n < |c.jobs| then 4
    else if s.main.Pilling? && s.main.n < |s.workers| then 1
    else 0
  }

  lemma {:induction false} MainAdds(c: Config, s: State)
    requires WorkersInv(c, s) && MainEnabled(c, s)
    ensures var t := MainNext(c, s);
            Total(t.inQ, ItemCost()) + Total(t.workers, WorkerCost())
            == Total(s.inQ, ItemCost()) + Total(s.workers, WorkerCost()) + Added(c, s)
  {
    if s.main.Starting? && s.main.n < |s.workers| {
      TotalUpdate(s.workers, s.main.n, Waiting, WorkerCost());
    } else if s.main.Dispatching? && s.main.n < |c.jobs| {
      TotalAppend(s.inQ, Work(s.main.n), ItemCost());
    } else if s.main.Pilling? && s.main.n < |s.workers| {
      TotalAppend(s.inQ, Pill, ItemCost());
    }
  }

  lemma {:induction false} MainLeftDrops(c: Config, s: State)
    requires MainInv(c, s) && MainEnabled(c, s)
    ensures 0 <= MainLeft(c, MainNext(c, s).main)
    ensures MainLeft(c, MainNext(c, s).main) + Added(c, s) < MainLeft(c, s.main)
  {
  }

  lemma {:induction false} MainLowersMeasure(c: Config, s: State)
    requires MainInv(c, s) && WorkersInv(c, s) && MainEnabled(c, s)
    ensures 0 <= Measure(c, MainNext(c, s)) < Measure(c, s)
  {
    MainAdds(c, s);
    MainLeftDrops(c, s);
  }

  lemma {:induction false} WorkerLowersMeasure(c: Config, s: State, w: nat)
    requires MainInv(c, s) && WorkerEnabled(c, s, w)
    ensures 0 <= Measure(c, WorkerNext(c, s, w)) < Measure(c, s)
  {
    var t := WorkerNext(c, s, w);
    TotalUpdate(s.workers, w, t.workers[w], WorkerCost());
    if s.workers[w].Waiting? {
      TotalHead(s.inQ, ItemCost());
    }
  }

  /** Every step of every thread, the interrupt included, lowers the measure. */
  lemma {:induction false} StepLowersMeasure(c: Config, s: State, e: Event)
    requires MainInv(c, s) && WorkersInv(c, s) && Enabled(c, s, e)
    ensures 0 <= Measure(c, Next(c, s, e)) < Measure(c, s)
  {
    match e
    case MainStep => MainLowersMeasure(c, s);
    case WorkerStep(w) => WorkerLowersMeasure(c, s, w);
    case Interrupt =>
  }

  lemma {:induction false} RunIsBounded(c: Config, s: State, run: seq<Event>)
    requires Inv(c, s) && Possible(c, s, run)
    ensures |run| <= Measure(c, s)
    decreases |run|
  {
    if run == [] {
    } else {
      StepLowersMeasure(c, s, run[0]);
      StepKeepsInv(c, s, run[0]);
      RunIsBounded(c, Next(c, s, run[0]), run[1..]);
    }
  }

  /** Whatever the interleaving, at most Measure(c, Init(c)) events happen. */
  lemma {:induction false} EveryRunIsFinite(c: Config, run: seq<Event>)
    requires Possible(c, Init(c), run)
    ensures |run| <= 6 * |c.jobs| + 4 * c.processors + 6
  {
    InitKeepsInv(c);
    RunIsBounded(c, Init(c), run);
    InitMeasure(c);
  }

  lemma {:induction false} InitMeasure(c: Config)
    ensures Measure(c, Init(c)) == 6 * |c.jobs| + 4 * c.processors + 6
  {
    TotalZero(Init(c).workers, WorkerCost());
  }

  /**
   * A run that cannot go on has returned, exactly when there is a worker or nothing to do: without
   * workers the main thread waits for a report for ever.
   */
  lemma {:induction false} MaximalRunReturns(c: Config, run: seq<Event>)
    requires Possible(c, Init(c), run) && !CanMove(c, After(c, Init(c), run))
    ensures After(c, Init(c), run).main.Returned? <==> c.processors > 0 || c.jobs == []
  {
    ReachableInv(c, run);
    var s := After(c, Init(c), run);
    if c.processors > 0 || c.jobs == [] {
      if !s.main.Returned? {
        NoDeadlock(c, s);
      }
    }
  }

  /** From every state that satisfies the invariant, interrupted or not, the end can be reached. */
  lemma {:induction false} EndStaysReachable(c: Config, s: State) returns (more: seq<Event>)
    requires Inv(c, s) && (c.processors > 0 || c.jobs == [])
    ensures Possible(c, s, more) && After(c, s, more).main.Returned?
    decreases Measure(c, s)
  {
    more := [];
    if s.main.Returned? {
    } else {
      NoDeadlock(c, s);
      var e := SomeStep(c, s);
      StepKeepsInv(c, s, e);
      StepLowersMeasure(c, s, e);
      var rest := EndStaysReachable(c, Next(c, s, e));
      more := [e] + rest;
      assert more[1..] == rest;
    }
  }

  lemma {:induction false} SomeStep(c: Config, s: State) returns (e: Event)
    requires CanMove(c, s)
    ensures Enabled(c, s, e)
  {
    if MainEnabled(c, s) {
      e := MainStep;
    } else {
      var w :| WorkerEnabled(c, s, w);
      e := WorkerStep(w);
    }
  }

  /** One job and no worker: after four steps the main thread waits for a report that never comes. */
  lemma {:induction false} NoWorkerIsStuck(job: JobSpec)
    ensures var c, run := Config([job], 0), [MainStep, MainStep, MainStep, MainStep];
            && Possible(c, Init(c), run) && !CanMove(c, After(c, Init(c), run))
            && !After(c, Init(c), run).main.Returned?
  {
    var c := Config([job], 0);
    var s0 := Init(c);
    var s1 := MainNext(c, s0);
    var s2 := MainNext(c, s1);
    var s3 := MainNext(c, s2);
    var s4 := MainNext(c, s3);
    assert s4.main == Collecting(0) && s4.outQ == [];
    var steps := [MainStep, MainStep, MainStep, MainStep];
    assert steps[1..] == [MainStep, MainStep, MainStep];
    assert [MainStep, MainStep, MainStep][1..] == [MainStep, MainStep];
    assert [MainStep, MainStep][1..] == [MainStep] && [MainStep][1..] == [];
    assert Possible(c, s3, [MainStep]) && After(c, s3, [MainStep]) == s4;
    assert Possible(c, s2, [MainStep, MainStep]) && After(c, s2, [MainStep, MainStep]) == s4;
    assert Possible(c, s1, [MainStep, MainStep, MainStep]) && After(c, s1, [MainStep, MainStep, MainStep]) == s4;
  }

  // ----- When the main thread has returned -----

  lemma {:induction false} ReturnedIsDrained(c: Config, s: State)
    requires Inv(c, s) && s.main.Returned?
    ensures s.inQ == [] && s.outQ == []
    ensures forall w :: 0 <= w < |s.workers| ==> s.workers[w] == Exited
    ensures Total(s.workers, IsExited()) == c.processors
  {
    forall i | 0 <= i < |s.workers|
      ensures IsExited()(s.workers[i]) == 1
    {
      assert s.workers[i] == Exited;
    }
    TotalAtMostLength(s.workers, IsExited());
    NoPillsQueued(s.inQ);
    TotalZero(s.inQ, IsWork());
  }

  /** The status is 0 exactly when every collected report is unbroken and skipped or successful. */
  lemma {:induction false} StatusFromReports(c: Config, s: State)
    requires Inv(c, s) && s.main.Returned?
    ensures s.main.status == 0 <==>
            forall i :: 0 <= i < |s.collected| ==>
              !s.collected[i].isBreak && (s.collected[i].isSkip || s.collected[i].returncode == 0)
  {
    forall i | 0 <= i < |s.collected|
      ensures IsGood()(s.collected[i]) <= 1
      ensures IsGood()(s.collected[i]) == 1 <==>
              !s.collected[i].isBreak && (s.collected[i].isSkip || s.collected[i].returncode == 0)
    {
    }
    TotalAtMostLength(s.collected, IsGood());
  }

  /** Each job has come back exactly once. */
  lemma {:induction false} EachJobReportedOnce(c: Config, s: State, id: nat)
    requires Inv(c, s) && s.main.Returned? && id < |c.jobs|
    ensures Total(s.collected, ReportOf(id)) == 1
    ensures exists i :: 0 <= i < |s.collected| && s.collected[i].id == id
  {
    ReturnedIsDrained(c, s);
    forall w | 0 <= w < |s.workers|
      ensures HeldJob(id)(s.workers[w]) == 0
    {
      assert s.workers[w] == Exited;
    }
    TotalZero(s.workers, HeldJob(id));
    assert Places(s, id) == 1;
    TotalZero(s.collected, ReportOf(id));
    var i :| 0 <= i < |s.collected| && ReportOf(id)(s.collected[i]) != 0;
    assert s.collected[i].id == id;
  }

  /** When the main thread has returned, every worker has exited, nothing is queued, every job was
    * reported back once, and the counters and the status account for all of them.
    */
  lemma {:induction false} ReturnAccounts(c: Config, run: seq<Event>)
    requires Possible(c, Init(c), run) && After(c, Init(c), run).main.Returned?
    ensures var s := After(c, Init(c), run);
            && s.inQ == [] && s.outQ == []
            && (forall w :: 0 <= w < |s.workers| ==> s.workers[w] == Exited)
            && |s.collected| == |c.jobs|
            && (forall id :: 0 <= id < |c.jobs| ==> Total(s.collected, ReportOf(id)) == 1)
            && s.tally.passed + s.tally.failed + s.tally.valgrind + s.tally.crashed + s.tally.skipped
               + Total(s.collected, IsBroken()) == |c.jobs|
            && (s.main.status == 0 <==>
                forall i :: 0 <= i < |s.collected| ==>
                  !s.collected[i].isBreak && (s.collected[i].isSkip || s.collected[i].returncode == 0))
  {
    ReachableInv(c, run);
    var s := After(c, Init(c), run);
    ReturnedIsDrained(c, s);
    StatusFromReports(c, s);
    forall id | 0 <= id < |c.jobs|
      ensures Total(s.collected, ReportOf(id)) == 1
    {
      EachJobReportedOnce(c, s, id);
    }
  }

  /** Without an interrupt the status depends on the jobs alone, not on the interleaving. */
  lemma {:induction false} UninterruptedStatus(c: Config, run: seq<Event>)
    requires Possible(c, Init(c), run) && After(c, Init(c), run).main.Returned?
    requires !After(c, Init(c), run).threadExit
    ensures After(c, Init(c), run).main.status == 0 <==>
            forall id :: 0 <= id < |c.jobs| ==> c.jobs[id].skip || c.jobs[id].exitCode == 0
  {
    ReachableInv(c, run);
    var s := After(c, Init(c), run);
    StatusFromReports(c, s);
    forall i | 0 <= i < |s.collected|
      ensures GoodReport(c, false, s.collected[i])
    {
    }
    if s.main.status == 0 {
      forall id | 0 <= id < |c.jobs|
        ensures c.jobs[id].skip || c.jobs[id].exitCode == 0
      {
        EachJobReportedOnce(c, s, id);
        var i :| 0 <= i < |s.collected| && s.collected[i].id == id;
        assert GoodReport(c, false, s.collected[i]);
      }
    }
  }
}
