/** What the schedule and SIGINT can and cannot change in the results of a run. */
module WorkerResults {
  import opened Basics
  import opened Sums
  import opened WorkerPool

  // ---------------------------------------------------------------- after SIGINT

  /** A result that was not interrupted: the test ran, or was skipped. */
  function Genuinely(j: Job): nat { if j.isBreak then 0 else 1 }

  /** A worker that will report such a result. */
  function Delivers(w: Worker): nat {
    match w
    case Running(_) => 1
    case Putting(j) => Genuinely(j)
    case _ => 0
  }

  /** Genuine results: collected, waiting to be, being put, or still being produced. */
  function Results(s: State): nat {
    Sum(Genuinely, s.collected) + Sum(Genuinely, s.outputQueue) + Sum(Delivers, s.workers)
  }

  lemma NoneStarts(s: State, w: nat, rc: int)
    requires s.threadExit && WorkerNext(s, w, rc).Some?
    ensures !WorkerNext(s, w, rc).value.workers[w].Running?
  {
  }

  lemma MainKeepsResults(c: Config, s: State)
    requires MainNext(c, s).Some?
    ensures Results(MainNext(c, s).value) == Results(s)
  {
    if |s.workers| < Workers(c) {
      SumPush(Delivers, s.workers, Waiting);
    } else if s.dispatched < Jobs(c) || s.breaksSent < Workers(c) {
    } else if |s.collected| < Jobs(c) {
      SumPush(Genuinely, s.collected, s.outputQueue[0]);
    }
  }

  /** After the signal a worker's action neither makes nor loses a genuine result. */
  lemma WorkerKeepsResults(c: Config, s: State, w: nat, rc: int)
    requires s.threadExit && WorkerNext(s, w, rc).Some? && WorkerOk(c, s.threadExit, s.workers[w])
    ensures Results(WorkerNext(s, w, rc).value) == Results(s)
  {
    SumUpdate(Delivers, s.workers, w, WorkerNext(s, w, rc).value.workers[w]);
    if s.workers[w].Putting? {
      SumPush(Genuinely, s.outputQueue, s.workers[w].job);
    }
  }

  lemma StepKeepsResults(c: Config, s: State, a: Action)
    requires Inv(c, s) && s.threadExit && Step(c, s, a).Some?
    ensures Step(c, s, a).value.threadExit && Results(Step(c, s, a).value) == Results(s)
  {
    match a
    case Main => MainKeepsResults(c, s);
    case Work(w, rc) =>
      assert WorkerOk(c, s.threadExit, s.workers[w]);
      WorkerKeepsResults(c, s, w, rc);
    case Sigint =>
  }

  /** From the signal on the number of genuine results is fixed: those collected,
      queued or being put, and one for each test then running. */
  lemma {:induction false} SigintFixesResults(c: Config, acts: seq<Action>, rest: seq<Action>)
    requires Run(c, acts + rest).Some?
    ensures Run(c, acts).Some?
    ensures Run(c, acts).value.threadExit ==>
              Run(c, acts + rest).value.threadExit &&
              Results(Run(c, acts + rest).value) == Results(Run(c, acts).value)
  {
    if rest == [] {
      assert acts + rest == acts;
    } else {
      var front, a := rest[..|rest| - 1], rest[|rest| - 1];
      assert (acts + rest)[..|acts + rest| - 1] == acts + front;
      SigintFixesResults(c, acts, front);
      EveryRunKeepsInvariant(c, acts + front);
      if Run(c, acts).value.threadExit {
        StepKeepsResults(c, Run(c, acts + front).value, a);
      }
    }
  }

  lemma {:induction false} NothingDelivered(ws: seq<Worker>)
    requires Sum(HasExited, ws) == |ws|
    ensures Sum(Delivers, ws) == 0
  {
    if ws != [] {
      LiveOrExited(ws[1..]);
      NothingDelivered(ws[1..]);
    }
  }

  /** At the end of an interrupted run exactly those results are collected unmarked;
      all others come back as breaks. */
  lemma SigintDecides(c: Config, acts: seq<Action>, rest: seq<Action>)
    requires Run(c, acts + rest).Some? && Done(c, Run(c, acts + rest).value)
    ensures Run(c, acts).Some?
    ensures Run(c, acts).value.threadExit ==>
              Sum(Genuinely, Run(c, acts + rest).value.collected) == Results(Run(c, acts).value)
  {
    SigintFixesResults(c, acts, rest);
    EveryRunKeepsInvariant(c, acts + rest);
    DoneCollectsEachTestOnce(c, Run(c, acts + rest).value);
    NothingDelivered(Run(c, acts + rest).value.workers);
  }

  // ---------------------------------------------------------------- what is reported

  /** The result of test i if running it returns `codes(i)`. */
  function ResultOf(c: Config, codes: nat -> int, i: nat): Job
    requires i < Jobs(c)
  {
    NewJob(c, i).(returncode := if c.tests[i].isSkip then 0 else codes(i))
  }

  /** What comes back for test i if it was not run because of a signal. */
  function BreakOf(c: Config, i: nat): Job
    requires i < Jobs(c)
  {
    NewJob(c, i).(isBreak := true)
  }

  /** The action runs its test, if any, to the return code that test has. */
  predicate Obeys(s: State, a: Action, codes: nat -> int) {
    a.Work? && a.worker < |s.workers| && s.workers[a.worker].Running? && s.workers[a.worker].job.origin.Dispatched? ==>
      a.returncode == codes(s.workers[a.worker].job.origin.index)
  }

  /** Every test returns its own code, whenever and wherever it is run. */
  predicate AllObey(c: Config, acts: seq<Action>, codes: nat -> int) {
    if acts == [] then true
    else
      var before := acts[..|acts| - 1];
      AllObey(c, before, codes) && (Run(c, before).Some? ==> Obeys(Run(c, before).value, acts[|acts| - 1], codes))
  }

  /** A test's own result, or the test marked as a break and otherwise untouched. */
  predicate Reported(c: Config, codes: nat -> int, j: Job) {
    j.origin.Dispatched? && j.origin.index < Jobs(c) &&
    (j == ResultOf(c, codes, j.origin.index) || j == BreakOf(c, j.origin.index))
  }

  predicate Unrun(c: Config, j: Job) {
    j.origin.Dispatched? ==> j.origin.index < Jobs(c) && j == NewJob(c, j.origin.index)
  }

  predicate WorkerReports(c: Config, codes: nat -> int, w: Worker) {
    match w
    case Got(j) => Unrun(c, j)
    case Checked(j) => Unrun(c, j)
    case Running(j) => Unrun(c, j)
    case Putting(j) => Reported(c, codes, j)
    case _ => true
  }

  predicate Reports(c: Config, codes: nat -> int, s: State) {
    && (forall i | 0 <= i < |s.inputQueue| :: Unrun(c, s.inputQueue[i]))
    && (forall w | 0 <= w < |s.workers| :: WorkerReports(c, codes, s.workers[w]))
    && (forall i | 0 <= i < |s.outputQueue| :: Reported(c, codes, s.outputQueue[i]))
    && (forall i | 0 <= i < |s.collected| :: Reported(c, codes, s.collected[i]))
  }

  lemma MainKeepsReports(c: Config, codes: nat -> int, s: State)
    requires Reports(c, codes, s) && MainNext(c, s).Some?
    ensures Reports(c, codes, MainNext(c, s).value)
  {
  }

  lemma OneWorkerReports(c: Config, codes: nat -> int, s: State, w: nat, rc: int)
    requires Reports(c, codes, s) && WorkerNext(s, w, rc).Some?
    requires WorkerOk(c, s.threadExit, s.workers[w]) && Obeys(s, Work(w, rc), codes)
    ensures WorkerReports(c, codes, WorkerNext(s, w, rc).value.workers[w])
  {
    assert WorkerReports(c, codes, s.workers[w]);
  }

  lemma WorkerKeepsReports(c: Config, codes: nat -> int, s: State, w: nat, rc: int)
    requires Reports(c, codes, s) && WorkerNext(s, w, rc).Some?
    requires WorkerOk(c, s.threadExit, s.workers[w]) && Obeys(s, Work(w, rc), codes)
    ensures Reports(c, codes, WorkerNext(s, w, rc).value)
  {
    OneWorkerReports(c, codes, s, w, rc);
    assert WorkerReports(c, codes, s.workers[w]);
    var t := WorkerNext(s, w, rc).value;
    assert forall v | 0 <= v < |t.workers| && v != w :: t.workers[v] == s.workers[v];
  }

  lemma StepKeepsReports(c: Config, codes: nat -> int, s: State, a: Action)
    requires Inv(c, s) && Reports(c, codes, s) && Step(c, s, a).Some? && Obeys(s, a, codes)
    ensures Reports(c, codes, Step(c, s, a).value)
  {
    match a
    case Main => MainKeepsReports(c, codes, s);
    case Work(w, rc) =>
      assert WorkerOk(c, s.threadExit, s.workers[w]);
      WorkerKeepsReports(c, codes, s, w, rc);
    case Sigint =>
  }

  /** In every run, with signals at any points, whatever is collected for a test is the
      test's own result, with its own return code, or the test marked as a break. */
  lemma {:induction false} EveryRunReports(c: Config, codes: nat -> int, acts: seq<Action>)
    requires Run(c, acts).Some? && AllObey(c, acts, codes)
    ensures Reports(c, codes, Run(c, acts).value)
  {
    if acts != [] {
      var before := acts[..|acts| - 1];
      EveryRunReports(c, codes, before);
      EveryRunKeepsInvariant(c, before);
      StepKeepsReports(c, codes, Run(c, before).value, acts[|acts| - 1]);
    }
  }

  lemma CollectedCovers(c: Config, s: State, i: nat) returns (k: nat)
    requires CollectedOnce(s, i)
    ensures k < |s.collected| && s.collected[k].origin == Dispatched(i)
  {
    k :| 0 <= k < |s.collected| && s.collected[k].origin == Dispatched(i);
  }

  /** The exit status of a finished state, read off the tests: 0 exactly if none was
      interrupted and each is skipped or returns 0. */
  lemma FinishedStatus(c: Config, codes: nat -> int, s: State)
    requires Inv(c, s) && Done(c, s) && Reports(c, codes, s)
    ensures (forall k | 0 <= k < Jobs(c) :: Fine(s.collected[k])) <==>
              && (forall k | 0 <= k < Jobs(c) :: !s.collected[k].isBreak)
              && (forall i | 0 <= i < Jobs(c) :: c.tests[i].isSkip || codes(i) == 0)
  {
    DoneCollectsEachTestOnce(c, s);
    if forall k | 0 <= k < Jobs(c) :: Fine(s.collected[k]) {
      forall i | 0 <= i < Jobs(c) ensures c.tests[i].isSkip || codes(i) == 0 {
        assert CollectedOnce(s, i);
        var k := CollectedCovers(c, s, i);
        assert Fine(s.collected[k]) && Reported(c, codes, s.collected[k]);
      }
    }
    if (forall k | 0 <= k < Jobs(c) :: !s.collected[k].isBreak) &&
       forall i | 0 <= i < Jobs(c) :: c.tests[i].isSkip || codes(i) == 0 {
      forall k | 0 <= k < Jobs(c) ensures Fine(s.collected[k]) {
        assert Reported(c, codes, s.collected[k]);
      }
    }
  }

  lemma InterruptedStatus(c: Config, codes: nat -> int, acts: seq<Action>)
    requires Run(c, acts).Some? && Done(c, Run(c, acts).value) && AllObey(c, acts, codes)
    ensures var js := Run(c, acts).value.collected;
            && (forall k | 0 <= k < |js| :: Reported(c, codes, js[k]))
            && ((forall k | 0 <= k < |js| :: Fine(js[k])) <==>
                 && (forall k | 0 <= k < |js| :: !js[k].isBreak)
                 && (forall i | 0 <= i < Jobs(c) :: c.tests[i].isSkip || codes(i) == 0))
  {
    EveryRunReports(c, codes, acts);
    EveryRunKeepsInvariant(c, acts);
    FinishedStatus(c, codes, Run(c, acts).value);
  }

  // ---------------------------------------------------------------- without SIGINT

  /** The results of a whole quiet run, in order of dispatch. */
  function AllResults(c: Config, codes: nat -> int): seq<Job> {
    seq(Jobs(c), (i: nat) requires i < Jobs(c) => ResultOf(c, codes, i))
  }

  ghost predicate NoRepeats<T>(xs: seq<T>) {
    forall i, j | 0 <= i < j < |xs| :: xs[i] != xs[j]
  }

  lemma {:induction false} CountOfNoRepeats<T>(xs: seq<T>, x: T)
    requires NoRepeats(xs)
    ensures multiset(xs)[x] == if x in xs then 1 else 0
  {
    if xs != [] {
      var front, last := xs[..|xs| - 1], xs[|xs| - 1];
      assert xs == front + [last];
      CountOfNoRepeats(front, x);
      assert last !in front;
    }
  }

  lemma SameMembers<T>(xs: seq<T>, ys: seq<T>)
    requires NoRepeats(xs) && NoRepeats(ys) && forall x :: x in xs <==> x in ys
    ensures multiset(xs) == multiset(ys)
  {
    forall x ensures multiset(xs)[x] == multiset(ys)[x] {
      CountOfNoRepeats(xs, x);
      CountOfNoRepeats(ys, x);
    }
  }

  lemma CollectedNoRepeats(c: Config, s: State)
    requires forall i | 0 <= i < Jobs(c) :: CollectedOnce(s, i)
    requires forall k | 0 <= k < |s.collected| :: s.collected[k].origin.Dispatched? && s.collected[k].origin.index < Jobs(c)
    ensures NoRepeats(s.collected)
  {
    forall k, m | 0 <= k < m < |s.collected| ensures s.collected[k] != s.collected[m] {
      assert CollectedOnce(s, s.collected[k].origin.index);
    }
  }

  lemma CollectedMembers(c: Config, codes: nat -> int, s: State, j: Job)
    requires forall i | 0 <= i < Jobs(c) :: CollectedOnce(s, i)
    requires forall k | 0 <= k < |s.collected| :: Reported(c, codes, s.collected[k]) && !s.collected[k].isBreak
    ensures j in s.collected <==> j in AllResults(c, codes)
  {
    var rs := AllResults(c, codes);
    if j in s.collected {
      var k :| 0 <= k < |s.collected| && s.collected[k] == j;
      assert rs[j.origin.index] == j;
    }
    if j in rs {
      var i :| 0 <= i < |rs| && rs[i] == j;
      assert CollectedOnce(s, i);
      var k := CollectedCovers(c, s, i);
      assert Reported(c, codes, s.collected[k]) && !s.collected[k].isBreak;
    }
  }

  lemma AllResultsNoRepeats(c: Config, codes: nat -> int)
    ensures NoRepeats(AllResults(c, codes))
  {
    var rs := AllResults(c, codes);
    forall i, j | 0 <= i < j < |rs| ensures rs[i] != rs[j] {
      assert rs[i].origin == Dispatched(i) && rs[j].origin == Dispatched(j);
    }
  }

  /** A finished run without SIGINT collects the same results whatever the schedule,
      one for each test: as multisets, those of running the tests one by one; so the
      exit status is decided by the tests alone. */
  lemma QuietResults(c: Config, codes: nat -> int, acts: seq<Action>)
    requires Run(c, acts).Some? && Done(c, Run(c, acts).value) && Sigint !in acts && AllObey(c, acts, codes)
    ensures multiset(Run(c, acts).value.collected) == multiset(AllResults(c, codes))
    ensures (forall k | 0 <= k < Jobs(c) :: Fine(Run(c, acts).value.collected[k])) <==>
            forall i | 0 <= i < Jobs(c) :: c.tests[i].isSkip || codes(i) == 0
  {
    var s := Run(c, acts).value;
    QuietRunStaysQuiet(c, acts);
    EveryRunReports(c, codes, acts);
    EveryRunKeepsInvariant(c, acts);
    DoneCollectsEachTestOnce(c, s);
    CollectedNoRepeats(c, s);
    AllResultsNoRepeats(c, codes);
    forall j ensures j in s.collected <==> j in AllResults(c, codes) {
      CollectedMembers(c, codes, s, j);
    }
    SameMembers(s.collected, AllResults(c, codes));
    FinishedStatus(c, codes, s);
  }

  // ---------------------------------------------------------------- first in, first out

  /** What the workers have put, in the order in which they put it. */
  function Puts(c: Config, acts: seq<Action>): seq<Job> {
    if acts == [] then []
    else
      var before, a := acts[..|acts| - 1], acts[|acts| - 1];
      Puts(c, before) +
      if Run(c, before).Some? && a.Work? && a.worker < |Run(c, before).value.workers| && Run(c, before).value.workers[a.worker].Putting?
      then [Run(c, before).value.workers[a.worker].job] else []
  }

  /** What the workers have taken, in the order in which they took it. */
  function Gets(c: Config, acts: seq<Action>): seq<Job> {
    if acts == [] then []
    else
      var before, a := acts[..|acts| - 1], acts[|acts| - 1];
      Gets(c, before) +
      if Run(c, before).Some? && a.Work? && a.worker < |Run(c, before).value.workers| &&
         Run(c, before).value.workers[a.worker].Waiting? && Run(c, acts).Some? && a.worker < |Run(c, acts).value.workers| &&
         Run(c, acts).value.workers[a.worker].Got?
      then [Run(c, acts).value.workers[a.worker].job] else []
  }

  /** The tests in their order, then the break jobs. */
  function Dispatches(c: Config, dispatched: nat, breaksSent: nat): seq<Job>
    requires dispatched <= Jobs(c)
  {
    seq(dispatched, (i: nat) requires i < Jobs(c) => NewJob(c, i)) + seq(breaksSent, _ => BREAK_JOB)
  }

  /** Results are collected in the order in which they were put. */
  lemma {:induction false} OutputInOrder(c: Config, acts: seq<Action>)
    requires Run(c, acts).Some?
    ensures Puts(c, acts) == Run(c, acts).value.collected + Run(c, acts).value.outputQueue
  {
    if acts != [] {
      var before := acts[..|acts| - 1];
      OutputInOrder(c, before);
      var s := Run(c, before).value;
      if s.outputQueue != [] {
        MoveHead(s.collected, s.outputQueue);
      }
    }
  }

  lemma MoveHead<T>(xs: seq<T>, ys: seq<T>)
    requires ys != []
    ensures xs + [ys[0]] + ys[1..] == xs + ys
  {
  }

  /** Jobs are taken in the order in which they were dispatched. */
  lemma {:induction false} InputInOrder(c: Config, acts: seq<Action>)
    requires Run(c, acts).Some?
    ensures Run(c, acts).value.dispatched <= Jobs(c)
    ensures Gets(c, acts) + Run(c, acts).value.inputQueue ==
            Dispatches(c, Run(c, acts).value.dispatched, Run(c, acts).value.breaksSent)
  {
    EveryRunKeepsInvariant(c, acts);
    if acts != [] {
      var before, a := acts[..|acts| - 1], acts[|acts| - 1];
      EveryRunKeepsInvariant(c, before);
      InputInOrder(c, before);
      InputStep(c, Run(c, before).value, a, Gets(c, before));
    }
  }

  lemma DispatchesNext(c: Config, d: nat, b: nat)
    requires d <= Jobs(c)
    ensures d < Jobs(c) && b == 0 ==> Dispatches(c, d + 1, b) == Dispatches(c, d, b) + [NewJob(c, d)]
    ensures Dispatches(c, d, b + 1) == Dispatches(c, d, b) + [BREAK_JOB]
  {
  }

  lemma TakeFromInput(s: State, w: nat, rc: int, gets: seq<Job>)
    requires WorkerNext(s, w, rc).Some?
    ensures var t := WorkerNext(s, w, rc).value;
            var taken := if s.workers[w].Waiting? && t.workers[w].Got? then [t.workers[w].job] else [];
            gets + taken + t.inputQueue == gets + s.inputQueue && t.dispatched == s.dispatched && t.breaksSent == s.breaksSent
  {
    if s.workers[w].Waiting? {
      MoveHead(gets, s.inputQueue);
    }
  }

  lemma PutOnInput(c: Config, s: State, gets: seq<Job>)
    requires Phases(c, s) && MainNext(c, s).Some? && Phases(c, MainNext(c, s).value)
    requires gets + s.inputQueue == Dispatches(c, s.dispatched, s.breaksSent)
    ensures var t := MainNext(c, s).value;
            gets + t.inputQueue == Dispatches(c, t.dispatched, t.breaksSent)
  {
    var t := MainNext(c, s).value;
    DispatchesNext(c, s.dispatched, s.breaksSent);
    if t.inputQueue != s.inputQueue {
      var job := t.inputQueue[|t.inputQueue| - 1];
      assert t.inputQueue == s.inputQueue + [job];
      assert gets + t.inputQueue == (gets + s.inputQueue) + [job];
    }
  }

  lemma InputStep(c: Config, s: State, a: Action, gets: seq<Job>)
    requires Inv(c, s) && Step(c, s, a).Some? && Inv(c, Step(c, s, a).value)
    requires gets + s.inputQueue == Dispatches(c, s.dispatched, s.breaksSent)
    ensures var t := Step(c, s, a).value;
            var taken := if a.Work? && s.workers[a.worker].Waiting? && t.workers[a.worker].Got? then [t.workers[a.worker].job] else [];
            gets + taken + t.inputQueue == Dispatches(c, t.dispatched, t.breaksSent)
  {
    assert gets + [] == gets;
    match a
    case Main => PutOnInput(c, s, gets);
    case Work(w, rc) => TakeFromInput(s, w, rc, gets);
    case Sigint =>
  }
}
