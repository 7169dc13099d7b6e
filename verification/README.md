# Verified models of the repository's own algorithms

Most of this repository wires ns-3 classes together. The algorithms that live entirely in
its own files are modelled here in Dafny, and their main properties are proved for all
inputs, all runs and all schedules.

| file | models |
|---|---|
| `WorkerPool.dfy`, `WorkerResults.dfy`, `TestRunner.dfy` | the worker threads, queues, break jobs, SIGINT flag and tallies of `test.py`: a transition system, what its schedules and signals can change in the results, and a program proved to take only its steps |
| `TypeGraph.dfy`, `RepeatedPaths.dfy`, `PathGatherer.dfy` | the recursive search for configuration paths in `utils/print-introspected-doxygen.cc`, over an arbitrary finite type graph, and when it repeats itself |
| `PyText.dfy`, `LineEndings.dfy`, `StyleFixer.dfy`, `GuardCreation.dfy`, `StyleChecker.dfy` | the trailing-whitespace and tab fixers of `utils/check-style-clang-format.py`, from single lines to whole trees of files |
| `Welford.dfy` | the online mean and second moment of `utils/bench-scheduler.cc`, over the reals |
| `Fairness.dfy` | the byte counters and Jain's fairness index of `examples/tcp/dctcp-example.cc`, with 64-bit wrap-around |
| `StreamWriter.dfy` | the resumable sending application of `examples/tcp/tcp-large-transfer.cc` |
| `Timeline.dfy`, `Scale.dfy` | the searches, windows and axis ticks of `utils/grid.py` |
| `ContextPath.dfy`, `Tracers.dfy` | the context parser and the paired tracers of `examples/tcp/tcp-variants-comparison.cc` |
| `LongRewrite.dfy` | the substitution of `build-support/pybindings-LP64-to-ILP32.py` |
| `Sums.dfy`, `Basics.dfy` | finite sums, optional values and products of reals, used by the others |

`dafny verify dfyconfig.toml` checks the whole project.

## What the proofs turned up

Where the code does less than its text or comments suggest, the model follows the code, and
the exact condition under which it does what is expected is proved beside an input, or a
family of inputs, for which it does not.

* The test runner can wait forever: with no worker (a negative process limit) and at least
  one test, dispatch succeeds and collection never does. It is free of deadlock in every
  schedule if and only if there is a worker or there is no test (`WorkerPool.NeverStuckIff`).
* `Uniquefy` takes its container by value (`utils/print-introspected-doxygen.cc:425`), so its
  documentation ("modified in place") does not hold and `Gather` keeps repeated entries. Where
  names tell the types and attributes apart, an entry is repeated if and only if a simple walk
  from the root ends at a type that is aggregated twice, in whichever direction, with another
  one off the walk, or both aggregated with it and its parent (`RepeatedPaths.RepetitionFreeIff`).
  `GetTypicalAggregations` registers the pair Node, Icmpv4L4Protocol twice; that repeats an entry
  for every root from which a simple walk reaches one of the two without passing the other
  (`RepeatedPaths.RepeatedAggregation`).
* Expanding a tab can turn an ordinary comment into a clang-format guard
  (`GuardCreation.FixCanCreateGuard`): exactly if its text is that of a guard with tabs for inner
  blanks, each in the column before a tab stop (`GuardCreation.NewGuardIff`). Fixing and checking
  again is clean all the same.
* When n times the sum of squares of a group's n counters reaches 2^64 the fairness index is
  computed from wrapped numbers: ten flows of which one received 3037000500 bytes print an index
  above a billion (`Fairness.WrappedIndex`). What is printed is still Jain's index if and only if the
  wrapped denominator is not 0 and numerator and denominator lost multiples of 2^64 in their own
  ratio (`Fairness.PrintsJainIff`). Counters below 2^32 / n never get that far, and the default window
  of one second stays below. A group that received nothing prints NaN.
* `get_ranges` returns nothing when both ends of its window fall between ranges, even if ranges
  lie inside the window; with one end uncovered it also returns what lies beyond that end; and where
  ranges touch at an end it may drop one that meets the window. `Timeline.RangesExactIff` says exactly
  when it is right on ordered ranges. `get_events` returns one event too many unless the window ends
  on an event or after the last one, and of several events at one instant a window of that instant
  gets exactly one (`Timeline.EventsExactIff`, `Timeline.InstantWindow`).
* Under Python 3 `/` is true division, so the guard `delta > 0` before the minor ticks no
  longer protects `range` from a zero step: `ScaleRenderer.draw` raises `ValueError` exactly
  on axes that span at most 10 (`Scale.ScaleRenderer.Draw`).
* A send callback that arrives after the transfer is complete closes the socket once more
  (`StreamWriter.Writer.WriteUntilBufferFull`).

One observation is outside the model: Python 3's `list.sort` takes no comparison function as its
argument, so `utils/grid.py:170` and `utils/grid.py:245` cannot sort. The order of ranges and events is
therefore a premise of the results about windows.

## Model

| member | source | states |
|---|---|---|
| `WorkerPool.StepKeepsInvariant` | test.py:988-1056 | every atomic action of the main thread, of a worker or of the signal handler keeps the invariant: conservation of tests, break jobs behind tests, break jobs balanced against workers, unaltered test data |
| `WorkerPool.EveryRunKeepsInvariant` | test.py:1428-1860 | the invariant holds after every schedule of any length, with SIGINT at any points |
| `WorkerPool.ExactlyOnePlace` | test.py:1482-1483 | in every reachable state a test that was dispatched is in exactly one place (input queue, one worker's hands, output queue, collected), one not yet dispatched in none |
| `WorkerPool.OnlyPillsStopWorkers` | test.py:995-1005 | a worker exits exactly when the job it holds is one of the break jobs made after dispatch; a test that an interrupt re-marked as a break never stops one |
| `WorkerPool.PillsMatchLiveWorkers` | test.py:1698-1701 | once all is dispatched, break jobs queued or in hand are as many as the workers alive, and all stand behind the tests |
| `WorkerPool.Progress` | test.py:988-1056 | given a worker or no test: in a reachable unfinished state some thread, not only the signal handler, can act |
| `WorkerPool.NeverStuckIff` | test.py:1417-1422 | no schedule gets stuck if and only if there is at least one worker or no test |
| `WorkerPool.StepIsSafe` | test.py:988-1056 | every action keeps the invariant and, signals aside, decreases a natural-number measure |
| `WorkerPool.EveryRunIsBounded` | test.py:1720-1860 | main and workers together take at most 7 actions per test and 5 per worker in any run, however often SIGINT arrives |
| `WorkerPool.EveryRunCanFinish` | test.py:1859-1860 | given a worker or no test: from every reachable state some continuation without signals reaches the end, all threads joined |
| `WorkerPool.DoneCollectsEachTestOnce` | test.py:1720-1721 | at the end both queues are empty, all workers have exited and each test was collected exactly once |
| `WorkerPool.EveryResultCountedOnce` | test.py:1722-1754 | passed, failed, valgrind, crashed, skipped and interrupted results add up to the results collected |
| `WorkerPool.AllFineIff` | test.py:1943-1946 | passed plus skipped equals the total exactly when every result is uninterrupted and skipped or 0 |
| `WorkerPool.QuietRunLosesNothing` | test.py:571-576 | in a finished run without SIGINT no result is interrupted, and the five counters add up to the number of tests |
| `WorkerResults.NoneStarts` | test.py:1002-1005 | after the signal no worker begins to run a test |
| `WorkerResults.SigintFixesResults` | test.py:1002-1056 | from the signal on, whatever the schedule, the number of genuine results (collected, queued, being put, or of a test then running) stays what it was |
| `WorkerResults.SigintDecides` | test.py:1002-1056 | at the end of an interrupted run exactly that many results are collected unmarked, all others as breaks |
| `WorkerResults.EveryRunReports` | test.py:1002-1056 | in every run, with signals at any points, whatever is collected or on its way for a test is the test's own result with its own return code, or the otherwise untouched test marked as a break |
| `WorkerResults.InterruptedStatus` | test.py:1002-1946 | at the end of any run all results are fine exactly if none is marked and every test is skipped or returns 0 |
| `WorkerResults.InputInOrder` | test.py:990 | jobs are taken in the order in which they were dispatched, tests in their order and then the break jobs |
| `WorkerResults.OutputInOrder` | test.py:1720-1721 | results are collected in the order in which the workers put them |
| `WorkerResults.QuietResults` | test.py:988-1754 | if each test has one return code, every finished run without SIGINT collects the same multiset of results, that of running the tests one by one, and all is fine exactly if every test is skipped or returns 0 |
| `TestRunner.Summary.Tally` | test.py:1722-1754 | exactly one counter grows, by the return code, for a job neither interrupted nor skipped, and its list by the job's name; skipped jobs are counted and listed with their reason; an interrupted job changes nothing |
| `TestRunner.Summary.Collect` | test.py:1720-1754 | the loop body appends the job to what was collected and keeps every counter equal to the number of such jobs and every list equal to their names in order |
| `TestRunner.Summary.Adds` | test.py:1713-1754 | counters and interrupted jobs sum to the number collected, each name list has the length of its counter, and passed plus skipped is the total exactly when all is fine |
| `TestRunner.Runner.SigintHook` | test.py:573-576 | the handler is the signal step of the transition system |
| `TestRunner.Runner.WorkerAction` | test.py:988-1056 | one action of a worker thread on the shared queues is the worker's step of the transition system |
| `TestRunner.Runner.MainAction` | test.py:1428-1860 | one action of the main thread (start, dispatch, break job, collect, join) is the main step, keeps the tallies right and counts every test put |
| `TestRunner.Runner.Turn` | test.py:988-1056 | whatever thread the scheduler picks, and with or without a signal, the invariant and the truth of all reported results are kept and the measure decreases |
| `TestRunner.Runner.ExitStatus` | test.py:1943-1946 | at the end all tests are collected once, `total_tests` equals their number, and the status is 0 exactly when all were uninterrupted and skipped or returned 0 |
| `TestRunner.Runner.RunTests` | test.py:1428-1946 | under an arbitrary scheduler and arbitrary signals the whole run terminates with empty queues, each test collected once with its own result or marked, and status 0 exactly if none is marked and every test is skipped or returns 0 |
| `TypeGraph.Graph.EdgesExact` | utils/print-introspected-doxygen.cc:456-531 | the three loops enumerate exactly the declared edges: non-Object pointer attributes, containers, registered descendants, aggregations in either direction |
| `TypeGraph.Graph.AvoidMore` | utils/print-introspected-doxygen.cc:451-454 | the number of registered types that are not ancestors decreases with each descent |
| `TypeGraph.Graph.WalksExact` | utils/print-introspected-doxygen.cc:448-532 | the search enumerates a labelled edge walk if and only if no type repeats on it and none is an ancestor |
| `TypeGraph.Graph.WalksDistinct` | utils/print-introspected-doxygen.cc:448-532 | each such walk is enumerated once |
| `TypeGraph.Graph.RecordsAreWalks` | utils/print-introspected-doxygen.cc:455-531 | the output is one record for each walk, in depth-first order |
| `TypeGraph.Graph.RecordsExact` | utils/print-introspected-doxygen.cc:455-531 | a pair is recorded if and only if it is the end and the rendered labels of a type-simple walk |
| `TypeGraph.Graph.WalksInOrder` | utils/print-introspected-doxygen.cc:448-532 | the walks come depth first: each before its continuations, by earlier edges before later ones |
| `TypeGraph.Graph.EdgesGrow` | utils/print-introspected-doxygen.cc:456-531 | the edges come in the order of attributes, registered types and aggregations |
| `TypeGraph.Graph.WalkStep` | utils/print-introspected-doxygen.cc:477-529 | edge k of a walk leads from its type k to its type k + 1 and gives its path element k |
| `TypeGraph.RenderSpells` | utils/print-introspected-doxygen.cc:360-370 | a printed path is its elements from first to last, a slash before each, and nothing else |
| `TypeGraph.Graph.RecordSpells` | utils/print-introspected-doxygen.cc:372-377 | the path recorded for a walk from the root spells the elements of its edges in order |
| `TypeGraph.Graph.AllBegin` | utils/print-introspected-doxygen.cc:448-532 | every path recorded by a search begins with the path at which it was begun |
| `RepeatedPaths.ParallelEdgesRepeat` | utils/print-introspected-doxygen.cc:439-445 | wherever two equal edges fork off a type-simple walk from the root, the output repeats a record |
| `RepeatedPaths.RepeatedAggregation` | utils/print-introspected-doxygen.cc:566-568 | if a type-simple walk ends at a type linked twice to one off the walk (aggregated twice in any direction, or aggregated and its parent), the output repeats a record, whatever the names |
| `RepeatedPaths.RenderInjective` | utils/print-introspected-doxygen.cc:360-370 | printed paths of well-formed elements are equal only if the elements are |
| `RepeatedPaths.DistinctIffNoFork` | utils/print-introspected-doxygen.cc:439-532 | if elements tell targets apart, the output of a root is free of repetitions exactly if no two equal edges fork off a simple walk |
| `RepeatedPaths.RepetitionFreeIff` | utils/print-introspected-doxygen.cc:439-532 | in a well-named registry the output of a root is free of repetitions exactly if no simple walk ends at a type linked twice to one off the walk |
| `RepeatedPaths.OutputDistinctIff` | utils/print-introspected-doxygen.cc:587-591 | the output over several roots is free of repetitions exactly if that of each root is and no two roots share a record |
| `PathGatherer.StaticInformation.RecordAggregationInfo` | utils/print-introspected-doxygen.cc:328-348 | two known names append their pair; otherwise the first unknown one is noted and the pairs are unchanged |
| `PathGatherer.StaticInformation.GetCurrentPath` | utils/print-introspected-doxygen.cc:360-370 | the loop spells the current path, element by element in order |
| `PathGatherer.StaticInformation.RecordOutput` | utils/print-introspected-doxygen.cc:372-377 | appends the type with the rendered path |
| `PathGatherer.StaticInformation.HasAlreadyBeenProcessed` | utils/print-introspected-doxygen.cc:379-391 | true exactly for the types on the ancestor stack |
| `PathGatherer.StaticInformation.FollowAttribute` | utils/print-introspected-doxygen.cc:456-497 | one turn of the attribute loop follows exactly that attribute's edges, if any, and restores both stacks |
| `PathGatherer.StaticInformation.GatherAttributes` | utils/print-introspected-doxygen.cc:456-497 | the attribute loop appends the records of exactly the attribute edges |
| `PathGatherer.StaticInformation.GatherChildren` | utils/print-introspected-doxygen.cc:498-510 | the loop over registered types appends the records of exactly the descendants |
| `PathGatherer.StaticInformation.GatherAggregates` | utils/print-introspected-doxygen.cc:511-531 | the loop over aggregations appends the records of exactly the aggregates, in both directions |
| `PathGatherer.StaticInformation.DoGather` | utils/print-introspected-doxygen.cc:447-532 | terminates on every finite graph, restores both stacks, and appends exactly the records of the simple walks that avoid the ancestors, all beginning with the current path |
| `PathGatherer.StaticInformation.Gather` | utils/print-introspected-doxygen.cc:439-445 | from empty stacks it appends exactly the records of the root: a record exactly if some type-simple walk has it, as many as walks, none removed |
| `PathGatherer.StaticInformation.GatherRoots` | utils/print-introspected-doxygen.cc:587-591 | over a list of roots the output is the records of the roots one after the other, exactly those of simple walks from one of them |
| `PathGatherer.StaticInformation.Get` | utils/print-introspected-doxygen.cc:393-406 | returns exactly the paths recorded for the type, in order of recording |
| `PathGatherer.PathsToInOrder` | utils/print-introspected-doxygen.cc:393-406 | the paths of a type are those of its records, in their order |
| `PyText.ExpandHasNoTab` | utils/check-style-clang-format.py:632 | an expanded text has no tab |
| `PyText.ExpandKeepsColumn` | utils/check-style-clang-format.py:632 | an expanded text ends in the column in which the text ended |
| `PyText.ExpandKeepsPlaces` | utils/check-style-clang-format.py:632 | expansion works piece by piece, and what stands anywhere in a line stays in its column |
| `PyText.ExpandKeepsText` | utils/check-style-clang-format.py:632 | expansion changes nothing but blanks and tabs |
| `PyText.ExpandKeepsStripped` | utils/check-style-clang-format.py:613-632 | expansion leaves the stripped text of a line alone if that has no tab |
| `PyText.WriteThenRead` | utils/check-style-clang-format.py:607-637 | lines written and read again are the same lines |
| `PyText.JoinSplit` | utils/check-style-clang-format.py:607-637 | splitting a text into lines loses nothing |
| `LineEndings.ReadAnyEndings` | utils/check-style-clang-format.py:607-608 | reading gives the lines of a file, each ended by a newline whatever mixture of line ends it has, and its last line as it is |
| `StyleFixer.GuardSurvives` | utils/check-style-clang-format.py:613-618 | a guard line stays the same guard when its tabs are expanded |
| `StyleFixer.DisabledStaysDisabled` | utils/check-style-clang-format.py:610-622 | wherever the fixing pass was disabled, a pass over its output is disabled: enabled in the second pass implies enabled in the first |
| `StyleFixer.TabFixLeavesNoTabs` | utils/check-style-clang-format.py:610-632 | the tab check finds nothing in fixed lines |
| `StyleFixer.TabFixIdempotent` | utils/check-style-clang-format.py:610-637 | fixing twice is fixing once |
| `StyleFixer.TabFixKeepsLayout` | utils/check-style-clang-format.py:610-632 | every line ends in the column in which it ended and keeps its text but for blanks and tabs; checked lines are expanded in place, others untouched |
| `StyleFixer.WsFixLeavesNoWs` | utils/check-style-clang-format.py:523-533 | the whitespace check finds nothing in fixed lines |
| `StyleFixer.WsFixKeepsText` | utils/check-style-clang-format.py:524 | a fixed line is the line without exactly the white space at its end, and a newline |
| `StyleFixer.TabFixKeepsClean` | utils/check-style-clang-format.py:334-342 | the tab fix introduces no trailing whitespace |
| `StyleFixer.TabFixThenCheck` | utils/check-style-clang-format.py:595-639 | for every file contents: after the fix the check reports no tabs, the line count is the same, and a second fix changes nothing |
| `StyleFixer.TabFixKeepsFileLayout` | utils/check-style-clang-format.py:595-639 | the same line by line for what is read back from the fixed file |
| `StyleFixer.WsFixThenCheck` | utils/check-style-clang-format.py:507-540 | for every file contents: after the fix the check reports no trailing whitespace, the line count is the same, and a second fix changes nothing |
| `StyleFixer.BothFixesThenBothChecks` | utils/check-style-clang-format.py:334-342 | after both fixes in the order of `check_style` both checks accept and the line count is the same |
| `GuardCreation.StripExpanded` | utils/check-style-clang-format.py:613-632 | the stripped text of an expanded line is the expansion of its stripped text from the column it begins in |
| `GuardCreation.ExpandsToGuardIff` | utils/check-style-clang-format.py:613-632 | a line expands to an on or off guard exactly if its text is that guard with tabs for some blanks, each in the column before a tab stop |
| `GuardCreation.NewGuardIff` | utils/check-style-clang-format.py:613-632 | the fix makes a guard of a line that is none exactly if its text has a tab and is a guard with tabs for blanks in such columns |
| `GuardCreation.FixCanCreateGuard` | utils/check-style-clang-format.py:613-632 | an instance: a tab for the second blank of the off guard |
| `StyleChecker.DisabledStep` | utils/check-style-clang-format.py:615-618 | the flag after a line: set by an off guard, cleared by an on guard, otherwise kept |
| `StyleChecker.Tree.CheckWhitespaceLines` | utils/check-style-clang-format.py:517-533 | the loop with its early exit answers whether any line has trailing whitespace, and fixes all of them when asked |
| `StyleChecker.Tree.CheckTrailingWhitespaceFile` | utils/check-style-clang-format.py:507-540 | the answer is whether the file had trailing whitespace, the same with and without `fix`; the file is replaced by its fixed contents if fixing and otherwise untouched |
| `StyleChecker.Tree.CheckTabsLine` | utils/check-style-clang-format.py:610-632 | one turn of the loop: the guard state, the finding and the fixed line, which has no tab left if the line is checked, ends in the same column and has the same text but for blanks and tabs |
| `StyleChecker.Tree.CheckTabsLines` | utils/check-style-clang-format.py:604-632 | the loop with its early exit answers whether any checked line has a tab, and fixes all of them when asked |
| `StyleChecker.Tree.CheckTabsFile` | utils/check-style-clang-format.py:595-639 | the answer is whether the file had tabs, the same with and without `fix`; only a fix writes |
| `StyleChecker.Tree.CheckTrailingWhitespace` | utils/check-style-clang-format.py:457-504 | over any list of files, repetitions included: all fixed, or none touched; successful if fixing or if none was found |
| `StyleChecker.Tree.CheckTabs` | utils/check-style-clang-format.py:546-592 | the same for tabs |
| `StyleChecker.Tree.CheckFormatting` | utils/check-style-clang-format.py:355-406 | with clang-format an arbitrary judge and rewriter of contents: rejected files are rewritten one after the other, or none touched; successful if fixing or if all were accepted |
| `StyleChecker.Tree.CheckStyle` | utils/check-style-clang-format.py:320-349 | the three steps in order; the status is 0 exactly when fixing or when every enabled check accepts the tree; a check run writes nothing |
| `StyleChecker.Tree.FixThenCheck` | utils/check-style-clang-format.py:320-349 | a fix run followed by a check run: the second changes nothing and succeeds exactly if clang-format, where enabled, accepts the result |
| `StyleChecker.FixedTreeIsClean` | utils/check-style-clang-format.py:334-342 | however the lists of files overlap and whatever clang-format does, the tree a fix run leaves is clean for the whitespace and tab checks |
| `StyleChecker.StyleFixIdempotent` | utils/check-style-clang-format.py:328-342 | fixing a fixed tree changes nothing, provided clang-format, where enabled, accepts it |
| `Welford.AccumulateTracks` | utils/bench-scheduler.cc:358-362 | one accumulation keeps average = total / count and second moment = squares about the average, whatever the seed |
| `Welford.TracksIsTwoPass` | utils/bench-scheduler.cc:342-372 | the values kept are the two-pass mean and sum of squared deviations; that is never negative, and 0 only for equal samples |
| `Welford.DeviationsFromMean` | utils/bench-scheduler.cc:342-344 | the sum of squared deviations from the mean is the plain sum of squares less the mean's share |
| `Welford.FieldsDetermine` | utils/bench-scheduler.cc:364-369 | the six fields accumulated are all there is to a result |
| `Welford.BenchSuite.Log` | utils/bench-scheduler.cc:331-372 | with two results or more all six columns end with their two-pass mean and sum of squared deviations, with fewer nothing is printed |
| `Fairness.CauchySchwarz` | examples/tcp/dctcp-example.cc:191-197 | sum^2 <= n * sumSquares for any counters, equal exactly when all counters are |
| `Fairness.SquaresAtMost` | examples/tcp/dctcp-example.cc:191-197 | sumSquares <= sum^2, equal exactly when at most one counter is not zero |
| `Fairness.JainBounds` | examples/tcp/dctcp-example.cc:197 | Jain's index of counters not all zero lies in [1/n, 1], is 1 exactly for equal counters and 1/n exactly for a single active one |
| `Fairness.NothingWrapsIff` | examples/tcp/dctcp-example.cc:188-197 | no 64-bit expression wraps (running sums, squares, sum * sum, n * sumSquares) if and only if n * sumSquares fits |
| `Fairness.SafeBoundIff` | examples/tcp/dctcp-example.cc:188-211 | a bound b on n counters keeps all arithmetic exact if and only if n * b < 2^32 |
| `Fairness.DefaultWindowIsSafe` | examples/tcp/dctcp-example.cc:285-343 | the largest safe counter is 214748364 for twenty flows and 429496729 for ten; the 125000000 bytes of 1 Gbps over one second are within both |
| `Fairness.PrintsJainIff` | examples/tcp/dctcp-example.cc:197-225 | the printed value is Jain's index, or NaN for a group that received nothing, exactly if the wrapped denominator is not 0 and numerator and denominator lost multiples of 2^64 in their own ratio |
| `Fairness.PrintedIsJain` | examples/tcp/dctcp-example.cc:197-225 | in particular if nothing wraps |
| `Fairness.EqualSharesPrintOne` | examples/tcp/dctcp-example.cc:197 | equal shares print 1, however large, unless the denominator wraps to 0 |
| `Fairness.WrappedIndex` | examples/tcp/dctcp-example.cc:197 | without the bound it need not be: some ten counters print more than a billion |
| `Fairness.IndexFromWrapped` | examples/tcp/dctcp-example.cc:189-197 | dividing the wrapped sums gives sum^2 over n * sumSquares, each modulo 2^64 |
| `Fairness.AverageIsShare` | examples/tcp/dctcp-example.cc:196 | the average is a multiple of 8 whose n-fold is at most eight times the bytes received and short of that by less than 8 n |
| `Fairness.AverageOfEquals` | examples/tcp/dctcp-example.cc:196 | equal flows of x bytes report 8 x bits |
| `Fairness.AddUp` | examples/tcp/dctcp-example.cc:191-195 | the loop leaves the total and the sum of squares modulo 2^64 |
| `Fairness.Summarize` | examples/tcp/dctcp-example.cc:191-197 | one group's average and fairness, from the true sums modulo 2^64; the average is the share of the bytes in bits unless it wraps |
| `Fairness.Aggregate` | examples/tcp/dctcp-example.cc:229-249 | the aggregate over two groups is eight times their total, modulo 2^64 |
| `Fairness.Counters.TraceS1R1Sink` | examples/tcp/dctcp-example.cc:125-129 | adds the packet's size to the flow's counter modulo 2^64 and changes no other |
| `Fairness.Counters.TraceS2R2Sink` | examples/tcp/dctcp-example.cc:131-135 | the same for the second group |
| `Fairness.Counters.TraceS3R1Sink` | examples/tcp/dctcp-example.cc:137-141 | the same for the third group |
| `Fairness.Counters.InitializeCounters` | examples/tcp/dctcp-example.cc:143-158 | all forty counters become zero |
| `Fairness.Counters.PrintFairness` | examples/tcp/dctcp-example.cc:184-251 | the three group reports and the two aggregates, as functions of the counters |
| `Fairness.Counters.Handle` | examples/tcp/dctcp-example.cc:125-158 | every callback keeps each counter equal to the bytes its flow received since the last initialisation, modulo 2^64 |
| `Fairness.Counters.Simulate` | examples/tcp/dctcp-example.cc:559-578 | after any sequence of receptions and initialisations the report is about the bytes received since the last initialisation |
| `Fairness.ReportedFairness` | examples/tcp/dctcp-example.cc:184-225 | in any run in which no flow received more than the bound, the printed index is Jain's index of the bytes really received, and the average is their share in bits |
| `Fairness.ReportedAggregate` | examples/tcp/dctcp-example.cc:229-250 | in such a run an aggregate is eight times the bytes of its two groups |
| `StreamWriter.SliceContinues` | examples/tcp/tcp-large-transfer.cc:53-58 | any slice that starts at `currentTxBytes % writeSize` continues the stream where it stands |
| `StreamWriter.AmpleAfter` | examples/tcp/tcp-large-transfer.cc:224-238 | k answers that offer a whole buffer and take all they are given move the count by at least k buffer ends, or to the end |
| `StreamWriter.AmpleAfterAll` | examples/tcp/tcp-large-transfer.cc:224-238 | the same over any number of callbacks |
| `StreamWriter.Writer.constructor` | examples/tcp/tcp-large-transfer.cc:105-110 | the loop fills the buffer with 97 + i % 26 |
| `StreamWriter.Writer.SendNext` | examples/tcp/tcp-large-transfer.cc:226-237 | one turn of the loop hands over exactly the least of the rest of the buffer, the rest of the transfer and the space offered; whatever part is accepted extends the stream and the count alike |
| `StreamWriter.Writer.WriteUntilBufferFull` | examples/tcp/tcp-large-transfer.cc:221-243 | a callback ends with the accepted bytes equal to the stream up to the count that the answers determine, closes the socket if and only if the transfer is complete, otherwise returned for want of space or after a failed send; it makes progress if the first send does, a buffer for each ample answer, and takes at most one send more than bytes if none is empty |
| `StreamWriter.Writer.StartFlow` | examples/tcp/tcp-large-transfer.cc:209-219 | sets the callback and starts the stream under the same guarantees |
| `StreamWriter.Simulate` | examples/tcp/tcp-large-transfer.cc:209-243 | over any callbacks with any partial or failed sends the accepted bytes are 97 + i % 26 for as many as the answers determine, complete exactly when the socket was closed; enough productive callbacks, or ample answers, complete it |
| `Timeline.FindRangeCorrect` | utils/grid.py:100-117 | on ordered ranges, which may touch, the search finds a range that covers the key, -1 exactly when there is none; on any list what it finds covers the key |
| `Timeline.FindAmongShared` | utils/grid.py:108-113 | of ranges that all cover the key the middle one is found |
| `Timeline.TimelineDataRange.Search` | utils/grid.py:100-117 | the loop computes the search |
| `Timeline.TimelineDataRange.GetRanges` | utils/grid.py:131-147 | on any list the slice described by the bounds; on ordered ranges that do not touch at the window's ends the window, the window with all before or after it, or nothing |
| `Timeline.TimelineDataRange.GetRangesBounds` | utils/grid.py:148-164 | the same bounds, in order and within the list, and slicing by them gives what `get_ranges` returns |
| `Timeline.TimelineDataRange.GetBounds` | utils/grid.py:171-181 | the hull of ordered ranges, attained at both ends |
| `Timeline.RangesExactIff` | utils/grid.py:139-147 | on ordered ranges `get_ranges` is the linear filter exactly if at each covered end the outermost range there was found, nothing lies beyond an uncovered end, and, with none covered, no range starts in the window |
| `Timeline.UnsharedEnds` | utils/grid.py:100-117 | at a point that no two ranges share the range found is the outermost one |
| `Timeline.NothingDropped` | utils/grid.py:139-147 | with at least one end covered and no ranges touching at the ends, every range that meets the window is returned |
| `Timeline.RangeInsideWindowIsLost` | utils/grid.py:141-142 | a window reaching beyond a range on both sides returns nothing |
| `Timeline.TouchingRangesAreLost` | utils/grid.py:146-147 | a window that is the middle one of three touching ranges gets only that one, though all three meet it |
| `Timeline.FindEventCorrect` | utils/grid.py:195-212 | on sorted events the search returns a match if there is one and otherwise the insertion point; it counts the events before the key unless several lie at it |
| `Timeline.FindAmongSimultaneous` | utils/grid.py:203-206 | of events that all lie at the key the middle one is found |
| `Timeline.TimelineEvent.Search` | utils/grid.py:195-212 | the loop computes the search |
| `Timeline.TimelineEvent.GetEvents` | utils/grid.py:220-229 | on sorted events with at most one at each end of the window: the events of the closed window, and the next one unless an event lies on its end |
| `Timeline.TimelineEvent.GetEventsBounds` | utils/grid.py:230-239 | bounds by which slicing gives what `get_events` returns; on sorted events with at most one at each end the window and perhaps the next event |
| `Timeline.TimelineEvent.GetBounds` | utils/grid.py:246-256 | the times of the first and the last event, between which all lie |
| `Timeline.EventsExactIff` | utils/grid.py:220-229 | on any sorted list `get_events` is the linear filter exactly if the search hit the first of the events at the start and the last of those at the end, or none is there and none comes later |
| `Timeline.ReturnedEventsExactIff` | utils/grid.py:220-229 | with at most one event at each end, exactly if one lies on the window's end or none comes later |
| `Timeline.InstantWindow` | utils/grid.py:220-229 | a window of one instant gets exactly one of the events there, so it is right exactly if there is a single one, or none and none later |
| `Scale.ClosestIsScale` | utils/grid.py:897-900 | the loop's result is a power of ten whose tenfold reaches the extent, exceeded by the extent unless it is 1 |
| `Scale.FindClosest` | utils/grid.py:898-900 | the loop computes that power |
| `Scale.ScaleRenderer.Layout` | utils/grid.py:887-911 | layout chooses that power, except a tenth on an axis of extent 1 |
| `Scale.TicksAt` | utils/grid.py:931-942 | the ticks at an integral distance are exactly its multiples above lo and up to hi, consecutive, no more than fit; a distance below 1 is refused |
| `Scale.ScaleRenderer.Draw` | utils/grid.py:925-966 | drawing fails exactly on axes spanning at most 10; otherwise at most ten major ticks, exactly the multiples of delta in (lo, hi], at most a hundred minor ones, exactly the multiples of a tenth, the major among them |
| `Scale.ScaleRenderer.GetPosition` | utils/grid.py:867-874 | a value is drawn in proportion to its distance from lo; values in (lo, hi] within the width, hi at its edge |
| `ContextPath.DecimalReads` | examples/tcp/tcp-variants-comparison.cc:243-245 | a printed number is non-empty, all digits, and has its value |
| `ContextPath.DecimalDigits` | examples/tcp/tcp-variants-comparison.cc:243-245 | digit k from the end is that of the tens to the power k, and the first is no zero unless the number is 0 |
| `ContextPath.StoulDecimal` | examples/tcp/tcp-variants-comparison.cc:84 | parsing a printed number returns it, or throws beyond 64 bits |
| `ContextPath.StoulReads` | examples/tcp/tcp-variants-comparison.cc:84 | white space, a sign, a number and anything that does not go on with a digit read as the number, modulo 2^64 if negated, and throw beyond 64 bits |
| `ContextPath.StoulRefuses` | examples/tcp/tcp-variants-comparison.cc:84 | what has neither digit nor sign after white space throws |
| `ContextPath.RoundTrip` | examples/tcp/tcp-variants-comparison.cc:80-85 | parsing the context of a node returns its number for every 32-bit number and every rest of the path, modulo 2^32 for larger ones |
| `ContextPath.SecondField` | examples/tcp/tcp-variants-comparison.cc:80-85 | in any context the number is read between the first slash after position 0 and the next one, or the end |
| `ContextPath.NoSecondField` | examples/tcp/tcp-variants-comparison.cc:80-85 | without such a slash the search starts over at the beginning |
| `Tracers.SamplesShape` | examples/tcp/tcp-variants-comparison.cc:95-140 | a started stream has one 0.0 line, its first, and ends in the current value at the time of the last change of either kind |
| `Tracers.SamplesOrdered` | examples/tcp/tcp-variants-comparison.cc:95-140 | if changes come in order of time so do the lines |
| `Tracers.StreamsPaired` | examples/tcp/tcp-variants-comparison.cc:108-139 | from the moment both streams have started their lines carry pairwise the same times |
| `Tracers.StartedStreamsAgree` | examples/tcp/tcp-variants-comparison.cc:95-140 | once both of a node's streams have started, both end at the time of its last change, each with its current value |
| `Tracers.Traces.SetUpNode` | examples/tcp/tcp-variants-comparison.cc:557-558 | both first flags of the node are set, no other node's |
| `Tracers.Traces.TraceCwnd` | examples/tcp/tcp-variants-comparison.cc:238-246 | opens an empty stream for the node |
| `Tracers.Traces.TraceSsThresh` | examples/tcp/tcp-variants-comparison.cc:254-262 | the same for the threshold |
| `Tracers.Traces.CwndTracer` | examples/tcp/tcp-variants-comparison.cc:94-112 | the whole new state: the initial line once, the new value in the node's own stream, the threshold repeated in its stream if started, no other node touched |
| `Tracers.Traces.SsThreshTracer` | examples/tcp/tcp-variants-comparison.cc:121-140 | the same with the two kinds exchanged |
| `Tracers.CallIsSafe` | examples/tcp/tcp-variants-comparison.cc:108-112 | in a legal run a call never meets a stream that is not open |
| `Tracers.Traces.Handle` | examples/tcp/tcp-variants-comparison.cc:94-140 | every legal event keeps each node's streams, flags and values equal to what its own changes alone determine |
| `Tracers.Traces.Replay` | examples/tcp/tcp-variants-comparison.cc:549-569 | over any legal run no call fails and every node ends in that state, whatever the interleaving with other nodes |
| `Tracers.OnlyOwnCallsCount` | examples/tcp/tcp-variants-comparison.cc:94-140 | calls for other nodes leave a node's history, and so its streams and values, unchanged |
| `LongRewrite.SamePrefix` | build-support/pybindings-LP64-to-ILP32.py:10 | a text without the letter u begins the rewritten text if and only if it begins the original |
| `LongRewrite.RewriteLeavesNoBare` | build-support/pybindings-LP64-to-ILP32.py:10 | after the rewrite no position has `unsigned long` without ` long` behind it |
| `LongRewrite.RewriteFirstMatch` | build-support/pybindings-LP64-to-ILP32.py:10 | up to the first bare occurrence nothing changes, the occurrence gets a second ` long`, and the rewrite goes on behind it |
| `LongRewrite.RewriteCounts` | build-support/pybindings-LP64-to-ILP32.py:10 | the text grows by 5 characters per bare occurrence, and no occurrence of `unsigned long` is lost or made |
| `LongRewrite.RewriteFixesIff` | build-support/pybindings-LP64-to-ILP32.py:10 | a text is left alone if and only if it has no bare occurrence |
| `LongRewrite.RewriteIdempotent` | build-support/pybindings-LP64-to-ILP32.py:10 | rewriting twice is rewriting once |

## Left out

* Worker pool: launching processes, environment set-up, reports, options. A job's outcome is an
  arbitrary return code and running a job always ends. Each queue operation, flag test and field
  update is one atomic action. A job object is a value that carries which `Job()` call made it; the
  fields only needed to build the command line are dropped.
- TestRunner.Runner.RunTests: asks for at least one worker or no test, because otherwise the original never returns (`WorkerPool.NeverStuckIff`).
- TestRunner.Runner.Schedule: which enabled thread acts is an arbitrary choice; fairness among threads is not needed for termination and not modelled.
* Path gatherer: the markup printer and the real TypeId database, which is any finite table of types
  with any descendant relation; the attributes of all types are assumed to mention registered types.
  `GetNoTypeIds` and `Print` only return or print a field.
* Style checker: clang-format itself, which is any judge and rewriter of contents, the choice of files, process pools (files are visited one after
  the other) and encodings; characters are Unicode scalar values and `str.isspace` is its set of
  white space characters. The list of offending files is not sorted, being only printed.
* Welford: floating-point rounding, the final square roots, and how the results are obtained.
* Fairness: rounding of the final division, the division of averages by the window, `PrintThroughput`,
  and indexing vectors that were reserved but never sized; counters are arrays of 10, 20 and 10.
* Stream writer: TCP itself. The socket answers from a finite script for each callback, which can
  refuse, fail, or accept any part; a socket that accepted nothing forever would keep the original
  in its loop. A send that calls the writer back before it returns is not modelled.
* Grid: drawing, zooming, and the timelines' names and colours. Times are reals. `Timeline.get_bounds`,
  `get_range` and their like only combine what is here.
- Scale.ScaleRenderer.Draw: floating-point rounding is not modelled, and only the positions of the ticks are, not their labels.
* Tracers: the RTT, RTO, next-sequence and in-flight tracers, which only append to one stream; file
  names and number formatting. A stream is the sequence of its lines.
- Tracers.Traces.Replay: asks for runs in which each node is set up once before its two streams are
  opened once each, as `main` schedules it, and in which a tracer is called only after it was connected.
* `WriteUntilBufferFull` in `examples/socket/socket-bound-tcp-static-routing.cc` closes the socket
  unconditionally and is another program.
* The remaining examples call ns-3 classes that are not part of this model.
