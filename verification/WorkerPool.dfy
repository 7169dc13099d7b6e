/** The test runner's worker pool: `worker_thread.run`, `sigint_hook` and the
    dispatch, collection and join loops of `run_tests`, as one transition system
    whose steps are the atomic actions of the main thread, of each worker and of
    the signal handler.
  */
module WorkerPool {
  import opened Basics
  import opened Sums

  datatype Test = Test(name: string, isSkip: bool, skipReason: string)

  /** Which `Job()` call made the job object: a dispatched test, or one of the
      break jobs sent after all tests. No code reads it; it tracks identity. */
  datatype Origin = Dispatched(index: nat) | Pill

  datatype Job = Job(origin: Origin, displayName: string, isSkip: bool, skipReason: string,
                     isBreak: bool, returncode: int)

  /** A worker's program point. */
  datatype Worker =
    | Waiting            // at input_queue.get()
    | Got(job: Job)      // before the test of is_break
    | Checked(job: Job)  // before the test of thread_exit
    | Running(job: Job)  // inside run_job_synchronously
    | Putting(job: Job)  // before output_queue.put(job)
    | Exited

  datatype Config = Config(tests: seq<Test>, processors: int)

  datatype State = State(
    inputQueue: seq<Job>, outputQueue: seq<Job>, workers: seq<Worker>, threadExit: bool,
    dispatched: nat, breaksSent: nat, collected: seq<Job>, joined: nat)

  datatype Action = Main | Work(worker: nat, returncode: int) | Sigint

  /** range(processors) is empty for a negative count. */
  function Workers(c: Config): nat { if c.processors < 0 then 0 else c.processors }

  function Jobs(c: Config): nat { |c.tests| }

  const BREAK_JOB := Job(Pill, "", false, "", true, 0)

  function NewJob(c: Config, i: nat): Job
    requires i < Jobs(c)
  {
    Job(Dispatched(i), c.tests[i].name, c.tests[i].isSkip, c.tests[i].skipReason, false, 0)
  }

  const INITIAL := State([], [], [], false, 0, 0, [], 0)

  // ---------------------------------------------------------------- transitions

  /** The next action of the main thread; None when it blocks or has finished. */
  function MainNext(c: Config, s: State): Option<State> {
    if |s.workers| < Workers(c) then Some(s.(workers := s.workers + [Waiting]))
    else if s.dispatched < Jobs(c) then
      Some(s.(inputQueue := s.inputQueue + [NewJob(c, s.dispatched)], dispatched := s.dispatched + 1))
    else if s.breaksSent < Workers(c) then
      Some(s.(inputQueue := s.inputQueue + [BREAK_JOB], breaksSent := s.breaksSent + 1))
    else if |s.collected| < Jobs(c) then
      if s.outputQueue == [] then None
      else Some(s.(outputQueue := s.outputQueue[1..], collected := s.collected + [s.outputQueue[0]]))
    else if s.joined < Workers(c) && s.workers[s.joined].Exited? then Some(s.(joined := s.joined + 1))
    else None
  }

  /** The next action of one worker; `rc` is whatever run_job_synchronously returns. */
  function WorkerNext(s: State, w: nat, rc: int): Option<State> {
    if w >= |s.workers| then None
    else match s.workers[w]
      case Waiting =>
        if s.inputQueue == [] then None
        else Some(s.(inputQueue := s.inputQueue[1..], workers := s.workers[w := Got(s.inputQueue[0])]))
      case Got(job) =>
        Some(s.(workers := s.workers[w := if job.isBreak then Exited else Checked(job)]))
      case Checked(job) =>
        Some(s.(workers := s.workers[w :=
          if s.threadExit then Putting(job.(isBreak := true))
          else if job.isSkip then Putting(job)
          else Running(job)]))
      case Running(job) =>
        Some(s.(workers := s.workers[w := Putting(job.(returncode := rc))]))
      case Putting(job) =>
        Some(s.(outputQueue := s.outputQueue + [job], workers := s.workers[w := Waiting]))
      case Exited => None
  }

  function Step(c: Config, s: State, a: Action): Option<State> {
    match a
    case Main => MainNext(c, s)
    case Work(w, rc) => WorkerNext(s, w, rc)
    case Sigint => Some(s.(threadExit := true))
  }

  /** The state after the given schedule, None if one of its actions was blocked. */
  function Run(c: Config, acts: seq<Action>): Option<State> {
    if acts == [] then Some(INITIAL)
    else match Run(c, acts[..|acts| - 1])
      case None => None
      case Some(s) => Step(c, s, acts[|acts| - 1])
  }

  /** run_tests has passed its last thread.join(). */
  predicate Done(c: Config, s: State) {
    |s.workers| == Workers(c) && s.dispatched == Jobs(c) && s.breaksSent == Workers(c) &&
    |s.collected| == Jobs(c) && s.joined == Workers(c)
  }

  /** Only the signal handler could still act, yet the runner has not finished. */
  ghost predicate Stuck(c: Config, s: State) {
    !Done(c, s) && MainNext(c, s).None? && forall w: nat, rc: int :: WorkerNext(s, w, rc).None?
  }

  // ---------------------------------------------------------------- counting

  function IsPill(j: Job): nat { if j.origin.Pill? then 1 else 0 }
  function IsTask(j: Job): nat { if j.origin.Dispatched? then 1 else 0 }
  function Is(i: nat, j: Job): nat { if j.origin == Dispatched(i) then 1 else 0 }
  function IsTaskNo(i: nat): Job -> nat { (j: Job) => Is(i, j) }

  predicate Holding(w: Worker) { !w.Waiting? && !w.Exited? }
  function HoldsPill(w: Worker): nat { if Holding(w) then IsPill(w.job) else 0 }
  function HoldsTask(w: Worker): nat { if Holding(w) then IsTask(w.job) else 0 }
  function Holds(i: nat, w: Worker): nat { if Holding(w) then Is(i, w.job) else 0 }
  function HoldsTaskNo(i: nat): Worker -> nat { (w: Worker) => Holds(i, w) }
  function HasExited(w: Worker): nat { if w.Exited? then 1 else 0 }

  /** In how many places test i is: input queue, workers' hands, output queue, collected. */
  function Places(s: State, i: nat): nat {
    Sum(IsTaskNo(i), s.inputQueue) + Sum(HoldsTaskNo(i), s.workers) +
    Sum(IsTaskNo(i), s.outputQueue) + Sum(IsTaskNo(i), s.collected)
  }

  function TasksInPlay(s: State): nat {
    Sum(IsTask, s.inputQueue) + Sum(HoldsTask, s.workers) + |s.outputQueue| + |s.collected|
  }

  /** Break jobs that have left the input queue. */
  function PillsTaken(s: State): nat { Sum(HoldsPill, s.workers) + Sum(HasExited, s.workers) }

  // ---------------------------------------------------------------- invariant

  predicate Phases(c: Config, s: State) {
    && |s.workers| <= Workers(c) && s.dispatched <= Jobs(c) && s.breaksSent <= Workers(c)
    && |s.collected| <= Jobs(c) && s.joined <= Workers(c)
    && (|s.workers| < Workers(c) ==> s.dispatched == 0 && s.breaksSent == 0)
    && (s.dispatched < Jobs(c) ==> s.breaksSent == 0 && s.joined == 0)
    && (s.dispatched < Jobs(c) || s.breaksSent < Workers(c) ==> s.collected == [])
    && (s.breaksSent < Workers(c) || |s.collected| < Jobs(c) ==> s.joined == 0)
    && (forall w | 0 <= w < s.joined && w < |s.workers| :: s.workers[w].Exited?)
  }

  /** The job is the one made for its test, apart from is_break and returncode. */
  predicate SameTest(c: Config, j: Job) {
    j.origin.Dispatched? && j.origin.index < Jobs(c) &&
    var t := c.tests[j.origin.index];
    j.displayName == t.name && j.isSkip == t.isSkip && j.skipReason == t.skipReason
  }

  /** As put on the input queue. */
  predicate Unhandled(c: Config, j: Job) {
    if j.origin.Pill? then j.isBreak else SameTest(c, j) && !j.isBreak
  }

  /** As put on the output queue: break-marked only after an interrupt. */
  predicate Handled(c: Config, threadExit: bool, j: Job) {
    SameTest(c, j) && (j.isBreak ==> threadExit)
  }

  predicate WorkerOk(c: Config, threadExit: bool, w: Worker) {
    match w
    case Got(j) => Unhandled(c, j)
    case Checked(j) => j.origin.Dispatched? && Unhandled(c, j)
    case Running(j) => j.origin.Dispatched? && Unhandled(c, j) && !j.isSkip
    case Putting(j) => Handled(c, threadExit, j)
    case _ => true
  }

  predicate Genuine(c: Config, s: State) {
    && (forall i | 0 <= i < |s.inputQueue| :: Unhandled(c, s.inputQueue[i]))
    && (forall w | 0 <= w < |s.workers| :: WorkerOk(c, s.threadExit, s.workers[w]))
    && (forall i | 0 <= i < |s.outputQueue| :: Handled(c, s.threadExit, s.outputQueue[i]))
    && (forall i | 0 <= i < |s.collected| :: Handled(c, s.threadExit, s.collected[i]))
  }

  /** Every break job queued stands behind every test queued. */
  predicate PillsLast(q: seq<Job>) {
    forall i, j | 0 <= i < j < |q| && q[i].origin.Pill? :: q[j].origin.Pill?
  }

  ghost predicate Conserved(s: State) {
    && (forall i: nat :: Places(s, i) == if i < s.dispatched then 1 else 0)
    && TasksInPlay(s) == s.dispatched
  }

  predicate PillsBalanced(c: Config, s: State) {
    && Sum(IsPill, s.inputQueue) + PillsTaken(s) == s.breaksSent
    && (PillsTaken(s) > 0 ==> Sum(IsTask, s.inputQueue) == 0 && s.dispatched == Jobs(c))
  }

  ghost predicate Inv(c: Config, s: State) {
    Phases(c, s) && Genuine(c, s) && PillsLast(s.inputQueue) && Conserved(s) && PillsBalanced(c, s)
  }

  // ---------------------------------------------------------------- preservation

  lemma QueuePush(q: seq<Job>, j: Job)
    ensures Sum(IsPill, q + [j]) == Sum(IsPill, q) + IsPill(j)
    ensures Sum(IsTask, q + [j]) == Sum(IsTask, q) + IsTask(j)
  {
    SumPush(IsPill, q, j);
    SumPush(IsTask, q, j);
  }

  lemma QueuePushNo(q: seq<Job>, j: Job)
    ensures forall i: nat :: Sum(IsTaskNo(i), q + [j]) == Sum(IsTaskNo(i), q) + Is(i, j)
  {
    forall i: nat ensures Sum(IsTaskNo(i), q + [j]) == Sum(IsTaskNo(i), q) + Is(i, j) {
      SumPush(IsTaskNo(i), q, j);
    }
  }

  lemma NoneQueued(f: Job -> nat, q: seq<Job>)
    requires Sum(f, q) == 0
    ensures forall k | 0 <= k < |q| :: f(q[k]) == 0
  {
  }

  lemma WorkerUpdate(ws: seq<Worker>, w: nat, x: Worker)
    requires w < |ws|
    ensures Sum(HoldsPill, ws[w := x]) + HoldsPill(ws[w]) == Sum(HoldsPill, ws) + HoldsPill(x)
    ensures Sum(HoldsTask, ws[w := x]) + HoldsTask(ws[w]) == Sum(HoldsTask, ws) + HoldsTask(x)
    ensures Sum(HasExited, ws[w := x]) + HasExited(ws[w]) == Sum(HasExited, ws) + HasExited(x)
  {
    SumUpdate(HoldsPill, ws, w, x);
    SumUpdate(HoldsTask, ws, w, x);
    SumUpdate(HasExited, ws, w, x);
  }

  lemma WorkerPush(ws: seq<Worker>)
    ensures Sum(HoldsPill, ws + [Waiting]) == Sum(HoldsPill, ws)
    ensures Sum(HoldsTask, ws + [Waiting]) == Sum(HoldsTask, ws)
    ensures Sum(HasExited, ws + [Waiting]) == Sum(HasExited, ws)
    ensures forall i: nat :: Sum(HoldsTaskNo(i), ws + [Waiting]) == Sum(HoldsTaskNo(i), ws)
  {
    SumPush(HoldsPill, ws, Waiting);
    SumPush(HoldsTask, ws, Waiting);
    SumPush(HasExited, ws, Waiting);
    forall i: nat ensures Sum(HoldsTaskNo(i), ws + [Waiting]) == Sum(HoldsTaskNo(i), ws) {
      SumPush(HoldsTaskNo(i), ws, Waiting);
    }
  }

  lemma PlacesKept(s: State, t: State)
    requires Conserved(s) && t.dispatched == s.dispatched && TasksInPlay(t) == TasksInPlay(s)
    requires forall i: nat :: Places(t, i) == Places(s, i)
    ensures Conserved(t)
  {
  }

  lemma StartConserves(s: State)
    requires Conserved(s)
    ensures Conserved(s.(workers := s.workers + [Waiting]))
  {
    WorkerPush(s.workers);
    PlacesKept(s, s.(workers := s.workers + [Waiting]));
  }

  lemma DispatchConserves(c: Config, s: State)
    requires Conserved(s) && s.dispatched < Jobs(c)
    ensures Conserved(s.(inputQueue := s.inputQueue + [NewJob(c, s.dispatched)], dispatched := s.dispatched + 1))
  {
    var job := NewJob(c, s.dispatched);
    var t := s.(inputQueue := s.inputQueue + [job], dispatched := s.dispatched + 1);
    QueuePush(s.inputQueue, job);
    forall i: nat ensures Places(t, i) == if i < t.dispatched then 1 else 0 {
      SumPush(IsTaskNo(i), s.inputQueue, job);
      assert Places(s, i) == if i < s.dispatched then 1 else 0;
    }
  }

  lemma BreakConserves(s: State)
    requires Conserved(s)
    ensures Conserved(s.(inputQueue := s.inputQueue + [BREAK_JOB], breaksSent := s.breaksSent + 1))
  {
    var t := s.(inputQueue := s.inputQueue + [BREAK_JOB], breaksSent := s.breaksSent + 1);
    QueuePush(s.inputQueue, BREAK_JOB);
    QueuePushNo(s.inputQueue, BREAK_JOB);
    PlacesKept(s, t);
  }

  lemma CollectConserves(s: State)
    requires Conserved(s) && s.outputQueue != []
    ensures Conserved(s.(outputQueue := s.outputQueue[1..], collected := s.collected + [s.outputQueue[0]]))
  {
    var t := s.(outputQueue := s.outputQueue[1..], collected := s.collected + [s.outputQueue[0]]);
    forall i: nat ensures Places(t, i) == Places(s, i) {
      SumPush(IsTaskNo(i), s.collected, s.outputQueue[0]);
    }
    PlacesKept(s, t);
  }

  lemma JoinConserves(s: State)
    requires Conserved(s)
    ensures Conserved(s.(joined := s.joined + 1))
  {
    PlacesKept(s, s.(joined := s.joined + 1));
  }

  lemma MainConserves(c: Config, s: State)
    requires Conserved(s) && MainNext(c, s).Some?
    ensures Conserved(MainNext(c, s).value)
  {
    if |s.workers| < Workers(c) {
      StartConserves(s);
    } else if s.dispatched < Jobs(c) {
      DispatchConserves(c, s);
    } else if s.breaksSent < Workers(c) {
      BreakConserves(s);
    } else if |s.collected| < Jobs(c) {
      CollectConserves(s);
    } else {
      JoinConserves(s);
    }
  }

  lemma MainKeepsPills(c: Config, s: State)
    requires Phases(c, s) && PillsLast(s.inputQueue) && PillsBalanced(c, s) && MainNext(c, s).Some?
    ensures PillsLast(MainNext(c, s).value.inputQueue) && PillsBalanced(c, MainNext(c, s).value)
  {
    if |s.workers| < Workers(c) {
      WorkerPush(s.workers);
    } else if s.dispatched < Jobs(c) {
      QueuePush(s.inputQueue, NewJob(c, s.dispatched));
      NoneQueued(IsPill, s.inputQueue);
    } else if s.breaksSent < Workers(c) {
      QueuePush(s.inputQueue, BREAK_JOB);
    }
  }

  lemma MainKeepsGenuine(c: Config, s: State)
    requires Phases(c, s) && Genuine(c, s) && MainNext(c, s).Some? && TasksInPlay(s) == s.dispatched
    ensures Phases(c, MainNext(c, s).value) && Genuine(c, MainNext(c, s).value)
  {
  }

  lemma MainKeepsInvariant(c: Config, s: State)
    requires Inv(c, s) && MainNext(c, s).Some?
    ensures Inv(c, MainNext(c, s).value)
  {
    MainConserves(c, s);
    MainKeepsPills(c, s);
    MainKeepsGenuine(c, s);
  }

  lemma WorkerKeepsPlaces(c: Config, s: State, w: nat, rc: int, i: nat)
    requires WorkerNext(s, w, rc).Some? && WorkerOk(c, s.threadExit, s.workers[w])
    ensures Places(WorkerNext(s, w, rc).value, i) == Places(s, i)
  {
    SumUpdate(HoldsTaskNo(i), s.workers, w, WorkerNext(s, w, rc).value.workers[w]);
    if s.workers[w].Putting? {
      SumPush(IsTaskNo(i), s.outputQueue, s.workers[w].job);
    }
  }

  lemma WorkerKeepsTasks(c: Config, s: State, w: nat, rc: int)
    requires WorkerNext(s, w, rc).Some? && WorkerOk(c, s.threadExit, s.workers[w])
    ensures TasksInPlay(WorkerNext(s, w, rc).value) == TasksInPlay(s)
  {
    SumUpdate(HoldsTask, s.workers, w, WorkerNext(s, w, rc).value.workers[w]);
  }

  lemma WorkerConserves(c: Config, s: State, w: nat, rc: int)
    requires Conserved(s) && WorkerNext(s, w, rc).Some? && WorkerOk(c, s.threadExit, s.workers[w])
    ensures Conserved(WorkerNext(s, w, rc).value)
  {
    var t := WorkerNext(s, w, rc).value;
    WorkerKeepsTasks(c, s, w, rc);
    forall i: nat ensures Places(t, i) == if i < t.dispatched then 1 else 0 {
      WorkerKeepsPlaces(c, s, w, rc, i);
    }
  }

  /** A pill can only be dequeued once no test is queued and dispatch is over. */
  lemma GetKeepsPills(c: Config, s: State, w: nat, rc: int)
    requires Phases(c, s) && Genuine(c, s) && PillsLast(s.inputQueue) && PillsBalanced(c, s)
    requires w < |s.workers| && s.workers[w].Waiting? && WorkerNext(s, w, rc).Some?
    ensures PillsBalanced(c, WorkerNext(s, w, rc).value)
  {
    var q := s.inputQueue;
    WorkerUpdate(s.workers, w, Got(q[0]));
    if q[0].origin.Pill? {
      AllPills(q);
    }
  }

  /** Between get() and the next get(), a worker neither gains nor loses a pill:
      it exits exactly when the job it holds is one. */
  lemma WorkKeepsPills(c: Config, s: State, w: nat, rc: int)
    requires Genuine(c, s) && PillsBalanced(c, s)
    requires w < |s.workers| && !s.workers[w].Waiting? && WorkerNext(s, w, rc).Some?
    ensures PillsBalanced(c, WorkerNext(s, w, rc).value)
  {
    assert WorkerOk(c, s.threadExit, s.workers[w]);
    WorkerUpdate(s.workers, w, WorkerNext(s, w, rc).value.workers[w]);
  }

  lemma WorkerKeepsPhases(c: Config, s: State, w: nat, rc: int)
    requires Phases(c, s) && WorkerNext(s, w, rc).Some?
    ensures Phases(c, WorkerNext(s, w, rc).value)
  {
  }

  lemma WorkerKeepsGenuine(c: Config, s: State, w: nat, rc: int)
    requires Genuine(c, s) && WorkerNext(s, w, rc).Some?
    ensures Genuine(c, WorkerNext(s, w, rc).value)
  {
    var t := WorkerNext(s, w, rc).value;
    assert WorkerOk(c, s.threadExit, s.workers[w]);
    assert WorkerOk(c, t.threadExit, t.workers[w]);
    assert forall v | 0 <= v < |t.workers| && v != w :: t.workers[v] == s.workers[v];
  }

  lemma WorkerKeepsInvariant(c: Config, s: State, w: nat, rc: int)
    requires Inv(c, s) && WorkerNext(s, w, rc).Some?
    ensures Inv(c, WorkerNext(s, w, rc).value)
  {
    assert WorkerOk(c, s.threadExit, s.workers[w]);
    WorkerConserves(c, s, w, rc);
    WorkerKeepsPhases(c, s, w, rc);
    if s.workers[w].Waiting? {
      GetKeepsPills(c, s, w, rc);
    } else {
      WorkKeepsPills(c, s, w, rc);
    }
    WorkerKeepsGenuine(c, s, w, rc);
  }

  lemma {:induction false} AllPills(q: seq<Job>)
    requires PillsLast(q) && (q == [] || q[0].origin.Pill?)
    ensures Sum(IsTask, q) == 0
  {
    if q != [] {
      AllPills(q[1..]);
    }
  }

  // ---------------------------------------------------------------- every run

  lemma StepKeepsInvariant(c: Config, s: State, a: Action)
    requires Inv(c, s) && Step(c, s, a).Some?
    ensures Inv(c, Step(c, s, a).value)
  {
    match a
    case Main => MainKeepsInvariant(c, s);
    case Work(w, rc) => WorkerKeepsInvariant(c, s, w, rc);
    case Sigint =>
      forall i: nat ensures Places(s.(threadExit := true), i) == Places(s, i) {}
  }

  lemma {:induction false} EveryRunKeepsInvariant(c: Config, acts: seq<Action>)
    requires Run(c, acts).Some?
    ensures Inv(c, Run(c, acts).value)
  {
    if acts == [] {
      forall i: nat ensures Places(INITIAL, i) == 0 {}
    } else {
      var before := acts[..|acts| - 1];
      EveryRunKeepsInvariant(c, before);
      StepKeepsInvariant(c, Run(c, before).value, acts[|acts| - 1]);
    }
  }

  /** Conservation: in every reachable state each dispatched test is in exactly one place. */
  lemma ExactlyOnePlace(c: Config, acts: seq<Action>, i: nat)
    requires Run(c, acts).Some?
    ensures Places(Run(c, acts).value, i) == if i < Run(c, acts).value.dispatched then 1 else 0
  {
    EveryRunKeepsInvariant(c, acts);
  }

  /** Only a break job stops a worker: never a test, interrupted or not. */
  lemma OnlyPillsStopWorkers(c: Config, acts: seq<Action>, w: nat, rc: int)
    requires Run(c, acts).Some?
    requires var s := Run(c, acts).value;
      w < |s.workers| && !s.workers[w].Exited? && WorkerNext(s, w, rc).Some?
    ensures var s := Run(c, acts).value;
      WorkerNext(s, w, rc).value.workers[w].Exited? <==> s.workers[w].Got? && s.workers[w].job.origin.Pill?
  {
    EveryRunKeepsInvariant(c, acts);
    assert WorkerOk(c, Run(c, acts).value.threadExit, Run(c, acts).value.workers[w]);
  }

  lemma {:induction false} LiveOrExited(ws: seq<Worker>)
    ensures Sum(Live, ws) + Sum(HasExited, ws) == |ws|
  {
    if ws != [] {
      LiveOrExited(ws[1..]);
    }
  }

  function Live(w: Worker): nat { if w.Exited? then 0 else 1 }

  /** After dispatch, the break jobs not yet acted upon are as many as the live
      workers, and in the queue they stand behind every test. */
  lemma PillsMatchLiveWorkers(c: Config, acts: seq<Action>)
    requires Run(c, acts).Some? && Run(c, acts).value.breaksSent == Workers(c)
    requires Run(c, acts).value.dispatched == Jobs(c)
    ensures var s := Run(c, acts).value;
      Sum(IsPill, s.inputQueue) + Sum(HoldsPill, s.workers) == Sum(Live, s.workers) && PillsLast(s.inputQueue)
  {
    EveryRunKeepsInvariant(c, acts);
    LiveOrExited(Run(c, acts).value.workers);
  }

  // ---------------------------------------------------------------- progress

  /** A worker that holds a job can always go on. */
  lemma HolderCanMove(s: State, w: nat)
    requires w < |s.workers| && Holding(s.workers[w])
    ensures WorkerNext(s, w, 0).Some?
  {
  }

  /** A worker stopped at input_queue.get() can go on when something is queued. */
  lemma {:induction false} FindLive(ws: seq<Worker>) returns (w: nat)
    requires Sum(HasExited, ws) < |ws|
    ensures w < |ws| && !ws[w].Exited?
  {
    if !ws[0].Exited? {
      w := 0;
    } else {
      var k := FindLive(ws[1..]);
      w := k + 1;
    }
  }

  lemma LiveCanMove(s: State, w: nat)
    requires w < |s.workers| && !s.workers[w].Exited? && s.inputQueue != []
    ensures WorkerNext(s, w, 0).Some?
  {
  }

  lemma {:induction false} NoneExitedYet(ws: seq<Worker>, w: nat)
    requires w < |ws| && !ws[w].Exited?
    ensures Sum(HasExited, ws) < |ws|
  {
    LiveOrExited(ws);
    SumAtLeast(Live, ws, w);
  }

  /** With at least one worker, or nothing to do, an unfinished runner can move
      without waiting for a signal. */
  lemma Progress(c: Config, s: State) returns (a: Action)
    requires Inv(c, s) && !Done(c, s)
    requires Workers(c) > 0 || Jobs(c) == 0
    ensures !a.Sigint? && Step(c, s, a).Some?
  {
    if MainNext(c, s).Some? {
      return Main;
    }
    if Sum(HoldsTask, s.workers) > 0 {
      var w := SumWitness(HoldsTask, s.workers);
      HolderCanMove(s, w);
      return Work(w, 0);
    }
    if Sum(HoldsPill, s.workers) > 0 {
      var w := SumWitness(HoldsPill, s.workers);
      HolderCanMove(s, w);
      return Work(w, 0);
    }
    // Main waits for a result or for a thread that has not exited.
    var w: nat;
    if |s.collected| < Jobs(c) {
      assert Sum(IsTask, s.inputQueue) > 0;
      assert Sum(HasExited, s.workers) == 0;
      w := FindLive(s.workers);
    } else {
      NoneExitedYet(s.workers, s.joined);
      w := FindLive(s.workers);
    }
    assert s.inputQueue != [];
    LiveCanMove(s, w);
    return Work(w, 0);
  }

  /** The main thread alone, with no worker: it dispatches everything and then waits forever. */
  lemma {:induction false} MainAlone(c: Config, k: nat)
    requires Workers(c) == 0 && k <= Jobs(c)
    ensures Run(c, seq(k, _ => Main)).Some?
    ensures var s := Run(c, seq(k, _ => Main)).value;
      s.dispatched == k && s.workers == [] && s.outputQueue == [] && s.collected == [] && s.breaksSent == 0
  {
    if k > 0 {
      MainAlone(c, k - 1);
      var acts := seq(k, _ => Main);
      assert acts[..k - 1] == seq(k - 1, _ => Main);
      assert acts[k - 1] == Main;
    }
  }

  /** Deadlock freedom, exactly: no schedule gets stuck if and only if there is a
      worker or there is no test. */
  lemma NeverStuckIff(c: Config)
    ensures (forall acts | Run(c, acts).Some? :: !Stuck(c, Run(c, acts).value)) <==>
            (c.processors > 0 || c.tests == [])
  {
    if Workers(c) > 0 || Jobs(c) == 0 {
      forall acts | Run(c, acts).Some? ensures !Stuck(c, Run(c, acts).value) {
        EveryRunKeepsInvariant(c, acts);
        if !Done(c, Run(c, acts).value) {
          var a := Progress(c, Run(c, acts).value);
        }
      }
    } else {
      var acts := seq(Jobs(c), _ => Main);
      MainAlone(c, Jobs(c));
      assert Stuck(c, Run(c, acts).value);
    }
  }

  // ---------------------------------------------------------------- termination

  function JobWeight(j: Job): nat { if j.origin.Pill? then 2 else 6 }

  function WorkerWeight(w: Worker): nat {
    match w
    case Got(j) => if j.origin.Pill? then 1 else 5
    case Checked(_) => 4
    case Running(_) => 3
    case Putting(_) => 2
    case _ => 0
  }

  /** The atomic actions still to be taken, counting the longest way for each job. */
  function Measure(c: Config, s: State): nat
    requires Phases(c, s)
  {
    (Workers(c) - |s.workers|) + 7 * (Jobs(c) - s.dispatched) + 3 * (Workers(c) - s.breaksSent) +
    InFlight(s) + (Workers(c) - s.joined)
  }

  lemma MainDecreases(c: Config, s: State)
    requires Phases(c, s) && MainNext(c, s).Some? && Phases(c, MainNext(c, s).value)
    ensures Measure(c, MainNext(c, s).value) < Measure(c, s)
  {
    if |s.workers| < Workers(c) {
      SumPush(WorkerWeight, s.workers, Waiting);
    } else if s.dispatched < Jobs(c) {
      SumPush(JobWeight, s.inputQueue, NewJob(c, s.dispatched));
    } else if s.breaksSent < Workers(c) {
      SumPush(JobWeight, s.inputQueue, BREAK_JOB);
    }
  }

  function InFlight(s: State): nat {
    Sum(JobWeight, s.inputQueue) + Sum(WorkerWeight, s.workers) + |s.outputQueue|
  }

  lemma WorkerDecreases(c: Config, s: State, w: nat, rc: int)
    requires WorkerNext(s, w, rc).Some? && WorkerOk(c, s.threadExit, s.workers[w])
    ensures InFlight(WorkerNext(s, w, rc).value) < InFlight(s)
  {
    SumUpdate(WorkerWeight, s.workers, w, WorkerNext(s, w, rc).value.workers[w]);
  }

  lemma StepSpends(c: Config, s: State, a: Action)
    requires Phases(c, s) && Genuine(c, s) && Step(c, s, a).Some? && Phases(c, Step(c, s, a).value)
    ensures Measure(c, Step(c, s, a).value) + Acts(a) <= Measure(c, s)
  {
    match a
    case Main => MainDecreases(c, s);
    case Work(w, rc) => WorkerDecreases(c, s, w, rc);
    case Sigint =>
  }

  function Acts(a: Action): nat { if a.Sigint? then 0 else 1 }

  lemma StepIsSafe(c: Config, s: State, a: Action)
    requires Inv(c, s) && Step(c, s, a).Some?
    ensures Inv(c, Step(c, s, a).value)
    ensures Measure(c, Step(c, s, a).value) + Acts(a) <= Measure(c, s)
  {
    StepKeepsInvariant(c, s, a);
    StepSpends(c, s, a);
  }

  lemma {:induction false} RunSpendsMeasure(c: Config, acts: seq<Action>)
    requires Run(c, acts).Some?
    ensures Phases(c, Run(c, acts).value)
    ensures Sum(Acts, acts) + Measure(c, Run(c, acts).value) <= 7 * Jobs(c) + 5 * Workers(c)
  {
    EveryRunKeepsInvariant(c, acts);
    if acts != [] {
      var before, a := acts[..|acts| - 1], acts[|acts| - 1];
      RunSpendsMeasure(c, before);
      EveryRunKeepsInvariant(c, before);
      StepSpends(c, Run(c, before).value, a);
      ActsLast(acts);
    }
  }

  lemma ActsLast(acts: seq<Action>)
    requires acts != []
    ensures Sum(Acts, acts) == Sum(Acts, acts[..|acts| - 1]) + Acts(acts[|acts| - 1])
  {
    SumPush(Acts, acts[..|acts| - 1], acts[|acts| - 1]);
    assert acts[..|acts| - 1] + [acts[|acts| - 1]] == acts;
  }

  /** Termination: however often SIGINT arrives, the threads of a run take at
      most 7 actions per test and 5 per worker between them. */
  lemma EveryRunIsBounded(c: Config, acts: seq<Action>)
    requires Run(c, acts).Some?
    ensures Sum(Acts, acts) <= 7 * Jobs(c) + 5 * Workers(c)
  {
    RunSpendsMeasure(c, acts);
  }

  lemma RunPush(c: Config, acts: seq<Action>, a: Action)
    requires Run(c, acts).Some?
    ensures Run(c, acts + [a]) == Step(c, Run(c, acts).value, a)
    ensures Sum(Acts, acts + [a]) == Sum(Acts, acts) + Acts(a)
  {
    assert (acts + [a])[..|acts + [a]| - 1] == acts;
    SumPush(Acts, acts, a);
  }

  /** The actions a run has left. */
  function Budget(c: Config, acts: seq<Action>): int { 7 * Jobs(c) + 5 * Workers(c) - Sum(Acts, acts) }

  lemma UnfinishedRunExtends(c: Config, acts: seq<Action>) returns (a: Action)
    requires Run(c, acts).Some? && (Workers(c) > 0 || Jobs(c) == 0) && !Done(c, Run(c, acts).value)
    ensures !a.Sigint? && Run(c, acts + [a]).Some?
    ensures 0 <= Budget(c, acts + [a]) < Budget(c, acts)
  {
    EveryRunKeepsInvariant(c, acts);
    a := Progress(c, Run(c, acts).value);
    RunPush(c, acts, a);
    EveryRunIsBounded(c, acts + [a]);
  }

  ghost predicate Finishes(c: Config, acts: seq<Action>) {
    Run(c, acts).Some? && Done(c, Run(c, acts).value)
  }

  lemma PrependAction(acts: seq<Action>, a: Action, more: seq<Action>)
    ensures acts + [a] + more == acts + ([a] + more)
    ensures Sigint !in more && !a.Sigint? ==> Sigint !in [a] + more
  {
  }

  /** Every run can be driven to its end from wherever it is. */
  lemma {:induction false} EveryRunCanFinish(c: Config, acts: seq<Action>) returns (rest: seq<Action>)
    requires Run(c, acts).Some? && (Workers(c) > 0 || Jobs(c) == 0)
    ensures Finishes(c, acts + rest) && Sigint !in rest
    decreases Budget(c, acts)
  {
    if Finishes(c, acts) {
      assert acts + [] == acts;
      rest := [];
    } else {
      var a := UnfinishedRunExtends(c, acts);
      var more := EveryRunCanFinish(c, acts + [a]);
      PrependAction(acts, a, more);
      rest := [a] + more;
    }
  }

  // ---------------------------------------------------------------- results

  function Passed(j: Job): nat { if !j.isBreak && !j.isSkip && j.returncode == 0 then 1 else 0 }
  function Failed(j: Job): nat { if !j.isBreak && !j.isSkip && j.returncode == 1 then 1 else 0 }
  function Valgrind(j: Job): nat { if !j.isBreak && !j.isSkip && j.returncode == 2 then 1 else 0 }
  function Crashed(j: Job): nat {
    if !j.isBreak && !j.isSkip && j.returncode != 0 && j.returncode != 1 && j.returncode != 2 then 1 else 0
  }
  function Skipped(j: Job): nat { if !j.isBreak && j.isSkip then 1 else 0 }
  function Interrupted(j: Job): nat { if j.isBreak then 1 else 0 }

  /** Not interrupted, and skipped or returned 0. */
  predicate Fine(j: Job) { !j.isBreak && (j.isSkip || j.returncode == 0) }

  lemma {:induction false} EveryResultCountedOnce(js: seq<Job>)
    ensures Sum(Passed, js) + Sum(Failed, js) + Sum(Valgrind, js) + Sum(Crashed, js) +
            Sum(Skipped, js) + Sum(Interrupted, js) == |js|
  {
    if js != [] {
      EveryResultCountedOnce(js[1..]);
    }
  }

  lemma {:induction false} AllFineIff(js: seq<Job>)
    ensures Sum(Passed, js) + Sum(Skipped, js) <= |js|
    ensures Sum(Passed, js) + Sum(Skipped, js) == |js| <==> forall k | 0 <= k < |js| :: Fine(js[k])
  {
    if js != [] {
      AllFineIff(js[1..]);
      if forall k | 0 <= k < |js[1..]| :: Fine(js[1..][k]) {
        assert Fine(js[0]) ==> forall k | 0 <= k < |js| :: Fine(js[k]) by {
          assert forall k | 1 <= k < |js| :: js[k] == js[1..][k - 1];
        }
      } else {
        var k :| 0 <= k < |js[1..]| && !Fine(js[1..][k]);
        assert !Fine(js[k + 1]);
      }
    }
  }

  /** A finished runner has emptied both queues, stopped every worker and
      collected each test exactly once. */
  lemma DoneCollectsEachTestOnce(c: Config, s: State)
    requires Inv(c, s) && Done(c, s)
    ensures s.inputQueue == [] && s.outputQueue == [] && Sum(HasExited, s.workers) == Workers(c)
    ensures |s.workers| == if c.processors < 0 then 0 else c.processors
    ensures forall i | 0 <= i < Jobs(c) :: CollectedOnce(s, i)
  {
    LiveOrExited(s.workers);
    if Sum(Live, s.workers) > 0 {
      var w := SumWitness(Live, s.workers);
      assert false;
    }
    forall i | 0 <= i < Jobs(c) ensures CollectedOnce(s, i) {
      SumMonotone(HoldsTaskNo(i), HoldsTask, s.workers);
      assert Places(s, i) == 1;
      var k := SumWitness(IsTaskNo(i), s.collected);
      forall m | 0 <= m < |s.collected| && s.collected[m].origin == Dispatched(i) ensures m == k {
        if m < k {
          SumPair(IsTaskNo(i), s.collected, m, k);
        } else if m > k {
          SumPair(IsTaskNo(i), s.collected, k, m);
        }
      }
    }
  }

  ghost predicate CollectedOnce(s: State, i: nat) {
    exists k :: 0 <= k < |s.collected| && s.collected[k].origin == Dispatched(i) &&
      forall m | 0 <= m < |s.collected| && s.collected[m].origin == Dispatched(i) :: m == k
  }

  lemma {:induction false} QuietRunStaysQuiet(c: Config, acts: seq<Action>)
    requires Run(c, acts).Some? && Sigint !in acts
    ensures !Run(c, acts).value.threadExit
  {
    if acts != [] {
      QuietRunStaysQuiet(c, acts[..|acts| - 1]);
    }
  }

  /** Without SIGINT no result is lost: each test is in one of the five counters. */
  lemma QuietRunLosesNothing(c: Config, acts: seq<Action>)
    requires Run(c, acts).Some? && Done(c, Run(c, acts).value) && Sigint !in acts
    ensures var js := Run(c, acts).value.collected;
      Sum(Interrupted, js) == 0 &&
      Sum(Passed, js) + Sum(Failed, js) + Sum(Valgrind, js) + Sum(Crashed, js) + Sum(Skipped, js) == Jobs(c)
  {
    QuietRunStaysQuiet(c, acts);
    EveryRunKeepsInvariant(c, acts);
    var js := Run(c, acts).value.collected;
    if Sum(Interrupted, js) > 0 {
      var k := SumWitness(Interrupted, js);
      assert false;
    }
    EveryResultCountedOnce(js);
  }
}
