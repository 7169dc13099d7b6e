/** The runner as a program over shared queues and counters: each method is one
    atomic action of the source and is proved to be a step of WorkerPool. */
module TestRunner {
  import opened Basics
  import opened Sums
  import opened WorkerPool
  import opened WorkerResults

  /** The names collected into one of the summary lists: those of the jobs `kind` counts. */
  function Names(kind: Job -> nat, js: seq<Job>): seq<string> {
    if js == [] then []
    else Names(kind, js[..|js| - 1]) + if kind(js[|js| - 1]) > 0 then [js[|js| - 1].displayName] else []
  }

  function SkipLine(j: Job): string { j.displayName + " (" + j.skipReason + ")" }

  function SkipLines(js: seq<Job>): seq<string> {
    if js == [] then []
    else SkipLines(js[..|js| - 1]) + if Skipped(js[|js| - 1]) > 0 then [SkipLine(js[|js| - 1])] else []
  }

  lemma {:induction false} NamesLength(kind: Job -> nat, js: seq<Job>)
    requires forall j :: kind(j) <= 1
    ensures |Names(kind, js)| == Sum(kind, js)
  {
    if js != [] {
      NamesLength(kind, js[..|js| - 1]);
      SumPush(kind, js[..|js| - 1], js[|js| - 1]);
      assert js[..|js| - 1] + [js[|js| - 1]] == js;
    }
  }

  lemma {:induction false} SkipLinesLength(js: seq<Job>)
    ensures |SkipLines(js)| == Sum(Skipped, js)
  {
    if js != [] {
      SkipLinesLength(js[..|js| - 1]);
      SumPush(Skipped, js[..|js| - 1], js[|js| - 1]);
      assert js[..|js| - 1] + [js[|js| - 1]] == js;
    }
  }

  lemma CountersPush(js: seq<Job>, j: Job)
    ensures Sum(Passed, js + [j]) == Sum(Passed, js) + Passed(j)
    ensures Sum(Failed, js + [j]) == Sum(Failed, js) + Failed(j)
    ensures Sum(Valgrind, js + [j]) == Sum(Valgrind, js) + Valgrind(j)
    ensures Sum(Crashed, js + [j]) == Sum(Crashed, js) + Crashed(j)
    ensures Sum(Skipped, js + [j]) == Sum(Skipped, js) + Skipped(j)
  {
    SumPush(Passed, js, j);
    SumPush(Failed, js, j);
    SumPush(Valgrind, js, j);
    SumPush(Crashed, js, j);
    SumPush(Skipped, js, j);
  }

  lemma NamesPush(js: seq<Job>, j: Job)
    ensures Names(Failed, js + [j]) == Names(Failed, js) + if Ran(j) && j.returncode == 1 then [j.displayName] else []
    ensures Names(Valgrind, js + [j]) == Names(Valgrind, js) + if Ran(j) && j.returncode == 2 then [j.displayName] else []
    ensures Names(Crashed, js + [j]) == Names(Crashed, js) + if Ran(j) && OtherCode(j) then [j.displayName] else []
    ensures SkipLines(js + [j]) == SkipLines(js) + if !j.isBreak && j.isSkip then [SkipLine(j)] else []
  {
    assert (js + [j])[..|js + [j]| - 1] == js;
  }

  /** The test was neither interrupted nor skipped. */
  predicate Ran(job: Job) { !job.isBreak && !job.isSkip }

  predicate OtherCode(job: Job) { job.returncode != 0 && job.returncode != 1 && job.returncode != 2 }

  /** The counters and name lists of the collection loop of `run_tests`. */
  class Summary {
    var collected: seq<Job>  // every job taken from the output queue; the source keeps only the counters
    var passedTests: nat
    var failedTests: nat
    var valgrindErrors: nat
    var crashedTests: nat
    var skippedTests: nat
    var failedTestnames: seq<string>
    var valgrindTestnames: seq<string>
    var crashedTestnames: seq<string>
    var skippedTestnames: seq<string>

    ghost predicate Counted()
      reads this
    {
      && passedTests == Sum(Passed, collected)
      && failedTests == Sum(Failed, collected)
      && valgrindErrors == Sum(Valgrind, collected)
      && crashedTests == Sum(Crashed, collected)
      && skippedTests == Sum(Skipped, collected)
    }

    ghost predicate Named()
      reads this
    {
      && failedTestnames == Names(Failed, collected)
      && valgrindTestnames == Names(Valgrind, collected)
      && crashedTestnames == Names(Crashed, collected)
      && skippedTestnames == SkipLines(collected)
    }

    /** Counters and name lists describe exactly the jobs collected. */
    ghost predicate Valid()
      reads this
    {
      Counted() && Named()
    }

    constructor ()
      ensures Valid() && collected == []
    {
      collected := [];
      passedTests, failedTests, valgrindErrors, crashedTests, skippedTests := 0, 0, 0, 0, 0;
      failedTestnames, valgrindTestnames, crashedTestnames, skippedTestnames := [], [], [], [];
    }

    /** The body of the collection loop, after the `get`: one counter for each job that
        was not interrupted, by its return code unless it was skipped. */
    method Tally(job: Job)
      modifies this
      ensures collected == old(collected)
      ensures skippedTests == old(skippedTests) + if !job.isBreak && job.isSkip then 1 else 0
      ensures passedTests == old(passedTests) + if Ran(job) && job.returncode == 0 then 1 else 0
      ensures failedTests == old(failedTests) + if Ran(job) && job.returncode == 1 then 1 else 0
      ensures valgrindErrors == old(valgrindErrors) + if Ran(job) && job.returncode == 2 then 1 else 0
      ensures crashedTests == old(crashedTests) + if Ran(job) && OtherCode(job) then 1 else 0
      ensures skippedTestnames == old(skippedTestnames) +
                if !job.isBreak && job.isSkip then [job.displayName + " (" + job.skipReason + ")"] else []
      ensures failedTestnames == old(failedTestnames) + if Ran(job) && job.returncode == 1 then [job.displayName] else []
      ensures valgrindTestnames == old(valgrindTestnames) + if Ran(job) && job.returncode == 2 then [job.displayName] else []
      ensures crashedTestnames == old(crashedTestnames) + if Ran(job) && OtherCode(job) then [job.displayName] else []
    {
      if job.isBreak {
        return;
      }
      if job.isSkip {
        skippedTests := skippedTests + 1;
        skippedTestnames := skippedTestnames + [job.displayName + " (" + job.skipReason + ")"];
      } else if job.returncode == 0 {
        passedTests := passedTests + 1;
      } else if job.returncode == 1 {
        failedTests := failedTests + 1;
        failedTestnames := failedTestnames + [job.displayName];
      } else if job.returncode == 2 {
        valgrindErrors := valgrindErrors + 1;
        valgrindTestnames := valgrindTestnames + [job.displayName];
      } else {
        crashedTests := crashedTests + 1;
        crashedTestnames := crashedTestnames + [job.displayName];
      }
    }

    /** One turn of the collection loop. */
    method Collect(job: Job)
      requires Valid()
      modifies this
      ensures Valid() && collected == old(collected) + [job]
    {
      CountersPush(collected, job);
      NamesPush(collected, job);
      Tally(job);
      collected := collected + [job];
    }

    /** Every job is in exactly one counter, or was interrupted; each name list
        is as long as its counter; nothing is amiss exactly when passed and
        skipped account for all. */
    lemma Adds()
      requires Valid()
      ensures passedTests + failedTests + valgrindErrors + crashedTests + skippedTests +
              Sum(Interrupted, collected) == |collected|
      ensures |failedTestnames| == failedTests && |valgrindTestnames| == valgrindErrors
      ensures |crashedTestnames| == crashedTests && |skippedTestnames| == skippedTests
      ensures passedTests + skippedTests == |collected| <==>
              forall k | 0 <= k < |collected| :: Fine(collected[k])
    {
      EveryResultCountedOnce(collected);
      AllFineIff(collected);
      NamesLength(Failed, collected);
      NamesLength(Valgrind, collected);
      NamesLength(Crashed, collected);
      SkipLinesLength(collected);
    }
  }

  /** The shared queues, the worker threads and the main thread of `run_tests`. */
  class Runner {
    const config: Config
    const summary: Summary
    var inputQueue: seq<Job>
    var outputQueue: seq<Job>
    var threads: seq<Worker>
    var threadExit: bool
    var jobs: nat
    var totalTests: nat
    var breaksSent: nat
    var joined: nat

    function Abstract(): State
      reads this, summary
    {
      State(inputQueue, outputQueue, threads, threadExit, jobs, breaksSent, summary.collected, joined)
    }

    constructor (config: Config)
      ensures this.config == config && fresh(summary)
      ensures Abstract() == INITIAL && summary.Valid() && totalTests == jobs
    {
      this.config := config;
      summary := new Summary();
      inputQueue, outputQueue, threads, threadExit := [], [], [], false;
      jobs, totalTests, breaksSent, joined := 0, 0, 0, 0;
    }

    method SigintHook()
      modifies this`threadExit
      ensures Abstract() == Step(config, old(Abstract()), Sigint).value
    {
      threadExit := true;
    }

    /** One action of `worker_thread.run` in thread `w`. */
    method WorkerAction(w: nat, returncode: int)
      requires WorkerNext(Abstract(), w, returncode).Some?
      modifies this`inputQueue, this`outputQueue, this`threads
      ensures Abstract() == WorkerNext(old(Abstract()), w, returncode).value
    {
      match threads[w] {
        case Waiting =>
          var job := inputQueue[0];
          inputQueue := inputQueue[1..];
          threads := threads[w := Got(job)];
        case Got(job) =>
          if job.isBreak {
            threads := threads[w := Exited];
          } else {
            threads := threads[w := Checked(job)];
          }
        case Checked(job) =>
          if threadExit {
            threads := threads[w := Putting(job.(isBreak := true))];
          } else if job.isSkip {
            threads := threads[w := Putting(job)];
          } else {
            threads := threads[w := Running(job)];
          }
        case Running(job) =>
          threads := threads[w := Putting(job.(returncode := returncode))];
        case Putting(job) =>
          outputQueue := outputQueue + [job];
          threads := threads[w := Waiting];
      }
    }

    /** The next action of the main thread. */
    method MainAction()
      requires MainNext(config, Abstract()).Some? && summary.Valid() && totalTests == jobs
      modifies this, summary
      ensures Abstract() == MainNext(config, old(Abstract())).value && summary.Valid() && totalTests == jobs
    {
      if |threads| < Workers(config) {
        threads := threads + [Waiting];
      } else if jobs < |config.tests| {
        inputQueue := inputQueue + [NewJob(config, jobs)];
        jobs := jobs + 1;
        totalTests := totalTests + 1;
      } else if breaksSent < Workers(config) {
        inputQueue := inputQueue + [BREAK_JOB];
        breaksSent := breaksSent + 1;
      } else if |summary.collected| < |config.tests| {
        var job := outputQueue[0];
        outputQueue := outputQueue[1..];
        summary.Collect(job);
      } else {
        joined := joined + 1;
      }
    }

    /** Any enabled action. */
    method Act(a: Action)
      requires Step(config, Abstract(), a).Some? && summary.Valid() && totalTests == jobs
      modifies this, summary
      ensures Abstract() == Step(config, old(Abstract()), a).value && summary.Valid() && totalTests == jobs
    {
      match a
      case Main => MainAction();
      case Work(w, rc) => WorkerAction(w, rc);
      case Sigint => SigintHook();
    }

    /** Some action of the main thread or of a worker: whichever the scheduler likes. A
        test that is run returns its own code. */
    method Schedule(codes: nat -> int) returns (a: Action)
      requires Inv(config, Abstract()) && !Done(config, Abstract())
      requires Workers(config) > 0 || Jobs(config) == 0
      ensures !a.Sigint? && Step(config, Abstract(), a).Some? && Obeys(Abstract(), a, codes)
    {
      ghost var able := Progress(config, Abstract());
      a :| !a.Sigint? && Step(config, Abstract(), a).Some?;
      if a.Work? && a.worker < |threads| && threads[a.worker].Running? && threads[a.worker].job.origin.Dispatched? {
        a := Work(a.worker, codes(threads[a.worker].job.origin.index));
      }
    }

    /** A turn of the scheduler: perhaps a signal, and an action of some thread. */
    method Turn(signal: bool, codes: nat -> int)
      requires Inv(config, Abstract()) && !Done(config, Abstract()) && summary.Valid() && totalTests == jobs
      requires Workers(config) > 0 || Jobs(config) == 0
      requires Reports(config, codes, Abstract())
      modifies this, summary
      ensures Inv(config, Abstract()) && summary.Valid() && totalTests == jobs
      ensures Reports(config, codes, Abstract())
      ensures Measure(config, Abstract()) < old(Measure(config, Abstract()))
    {
      if signal {
        Interrupt(codes);
      }
      var a := Schedule(codes);
      StepIsSafe(config, Abstract(), a);
      StepKeepsReports(config, codes, Abstract(), a);
      Act(a);
    }

    method Interrupt(codes: nat -> int)
      requires Inv(config, Abstract()) && !Done(config, Abstract()) && summary.Valid() && totalTests == jobs
      requires Reports(config, codes, Abstract())
      modifies this`threadExit
      ensures Inv(config, Abstract()) && !Done(config, Abstract()) && summary.Valid() && totalTests == jobs
      ensures Reports(config, codes, Abstract()) && Measure(config, Abstract()) == old(Measure(config, Abstract()))
    {
      StepIsSafe(config, Abstract(), Sigint);
      StepKeepsReports(config, codes, Abstract(), Sigint);
      SigintHook();
    }

    /** The end of `run_tests`: the exit status. */
    method ExitStatus() returns (status: int)
      requires Inv(config, Abstract()) && Done(config, Abstract()) && summary.Valid() && totalTests == jobs
      ensures inputQueue == [] && outputQueue == [] && |summary.collected| == totalTests == Jobs(config)
      ensures forall i | 0 <= i < Jobs(config) :: CollectedOnce(Abstract(), i)
      ensures status == if (forall k | 0 <= k < |summary.collected| :: Fine(summary.collected[k])) then 0 else 1
    {
      DoneCollectsEachTestOnce(config, Abstract());
      summary.Adds();
      if summary.passedTests + summary.skippedTests == totalTests {
        status := 0;
      } else {
        status := 1;
      }
    }

    /** `run_tests` under an arbitrary scheduler, with signals at arbitrary times, when
        running test i returns `codes(i)`: each test comes back once, with its own
        result or marked as a break, and the status is 0 exactly if none is marked and
        every test is skipped or returns 0. */
    method RunTests(codes: nat -> int, signals: nat -> bool) returns (status: int)
      requires Abstract() == INITIAL && summary.Valid() && totalTests == jobs
      requires Workers(config) > 0 || Jobs(config) == 0
      modifies this, summary
      ensures Done(config, Abstract()) && inputQueue == [] && outputQueue == []
      ensures forall i | 0 <= i < Jobs(config) :: CollectedOnce(Abstract(), i)
      ensures summary.Valid() && |summary.collected| == totalTests == Jobs(config)
      ensures forall k | 0 <= k < |summary.collected| :: Reported(config, codes, summary.collected[k])
      ensures status == 0 || status == 1
      ensures status == 0 <==>
                && (forall k | 0 <= k < |summary.collected| :: !summary.collected[k].isBreak)
                && (forall i | 0 <= i < Jobs(config) :: config.tests[i].isSkip || codes(i) == 0)
    {
      assert Run(config, []) == Some(INITIAL);
      EveryRunKeepsInvariant(config, []);
      var clock := 0;
      while !Done(config, Abstract())
        invariant Inv(config, Abstract()) && summary.Valid() && totalTests == jobs
        invariant Reports(config, codes, Abstract())
        decreases Measure(config, Abstract())
      {
        Turn(signals(clock), codes);
        clock := clock + 1;
      }
      status := ExitStatus();
      FinishedStatus(config, codes, Abstract());
    }
  }
}
