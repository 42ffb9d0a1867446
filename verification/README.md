# Verified model of the ns-3 scenario tools

This Dafny project models nine pieces of the repository that hold an algorithm of their own and
proves what they are for. `dafny verify dfyconfig.toml` checks everything. One file, one module:

| file | what it models |
|---|---|
| `ConfigPaths.dfy` | `StaticInformation`: the recursive search with an ancestor stack and a path stack that records every acyclic configuration path of the TypeId graph |
| `ConfigRepeats.dfy` | when that search records a path twice |
| `TestRunner.dfy` | `test.py`: worker threads, an input and an output queue, stop markers and the interrupt flag as a transition system over all interleavings, and the loop that collects results |
| `LoadOrder.dfy` | `sort_to_dependencies`: library load order by rounds, with lists mutated in place and Python's stack limit |
| `StyleFixers.dfy` | the trailing-whitespace and tab fixers with their clang-format guards, on whole text files |
| `Timeline.dfy` | binary search over timeline ranges, and the legend layout that wraps rows |
| `SchedulerBench.dfy` | the scheduler benchmark's event population, and Welford's running mean and second moment |
| `Fairness.dfy` | per-flow byte counters and Jain's index in 64-bit arithmetic |
| `LargeTransfer.dfy` | the writer that a socket's callbacks resume until 2000000 bytes are accepted |
| `Sequences.dfy` | what several modules say about positions in sequences |
| `Wrappers.dfy` | the result type that three of the modules share |
| `MatlabTable.dfy` | the generator of nested MATLAB `switch` code, and an interpreter for the lines it emits |

Classes and loops stand where the original has objects and loops. Each such method is proved equal to
a recursive function of the old state, and the results below are proved about those functions. The
search of `ConfigPaths` is compared with a definition of simple paths that knows no search; the rounds
of `LoadOrder` with the length of dependency chains; the generated MATLAB lines with the table itself.

Assumptions about code outside these files:

- The TypeId database is a finite list of types with attributes and a set of proper ancestors each;
  every type that an attribute names is registered.
- A subprocess ends with an arbitrary return code, and an arbitrary set of jobs leaves XML files that
  cannot be read. The interrupt may arrive between any two steps.
- The simulator removes an earliest pending event, stops after the callback that asked for it, and is
  ready for a new run after being destroyed. Delays are an arbitrary stream of non-negative values.
- A socket may report any space and take any part of an offer, or refuse it; its answers are an
  arbitrary finite list, so statements about all lists also cover calls that never end.
- Doubles are reals. Text files have had their line ends translated to `\n`, as Python's text mode does.

Where the code differs from what its comments or surroundings suggest, the code is modelled:

- `Uniquefy` is documented as working in place, but takes its container by value. `Gather` therefore
  removes nothing, and equal entries stay. `GatheredDistinctIff` says exactly when there are any, and
  `AggregatedTwiceRepeats` that there are when an aggregation is recorded twice, as lines 565 and 567 of
  the program do for Node and Icmpv4L4Protocol, and a root leads to one of the two types.
- With a negative `--jobs` value the test runner starts no thread and waits for ever if there is a job;
  `FinishesIffThreads` and `ThreadsPositive` give the exact condition.
- A job can be listed twice in `failed_jobs`, once for its return code and once for its XML file.
  `ListedTwiceIff` says when: it is a test suite that ran and returned neither 0, 1 nor 2, whatever its
  XML file says, or returned 1 or 2 with an XML result other than PASS and SKIP.
- `sort` orders ranges by their starts alone, and that is not enough for the binary search
  (`SearchCanMiss`). `SearchRightIff` gives the exact condition on such a list. (The sort itself hands
  its comparison function over as Python 2 took it.)
- `get_ranges` returns nothing when neither end point lies in a range, even if ranges lie in between,
  and it can leave out a range that shares an end point with its neighbour (`TouchingCanMiss`).
  `SortedRangesMeaning` says exactly when its answer is right on a list sorted by start,
  `GetRangesMeaning` on one whose ends grow too, and `TouchingMissesNeighbour` which of the ranges that
  only touch are left out. The conditions speak of the ranges and of the indices that halving the list
  visits.
- An XML result that is needed and cannot be read ends the main thread of the test runner with an
  exception. `RaisesIffFatal` says when, and that the workers still finish all jobs.
- The average of a flow group is divided in whole bytes before it is turned into bits (`AverageClose`).
- Equal counters of n flows are safe from 64-bit wrap-around exactly while n times a counter stays below
  2^32, so up to 429496729 bytes in the groups of ten and 214748364 in the group of twenty (`SafeLimits`).
- After the last byte was accepted, every further write callback closes the socket again
  (`ClosedIffComplete`).

## Model

| member | source | states |
|---|---|---|
| ConfigPaths.EdgeMeaning | utils/print-introspected-doxygen.cc:456-530 | an edge leaves a type exactly for a pointer attribute whose pointee is not Object, a container attribute, a registered child, or an aggregation in which the type is either end |
| ConfigPaths.EdgesInOrder | utils/print-introspected-doxygen.cc:456-530 | there is one edge for each attribute, child or aggregation that gives one; attributes come first, then children in registration order, then aggregations as they were recorded |
| ConfigPaths.VisitIsExact | utils/print-introspected-doxygen.cc:447-531 | a walk is enumerated below a type if and only if it is a walk of the graph that repeats no type and avoids every ancestor |
| ConfigPaths.SimplePathsListedOnce | utils/print-introspected-doxygen.cc:447-531 | from a root exactly the walks without a repeated type are listed, strictly increasing in preorder, hence none twice |
| ConfigPaths.GatheredAreEntries | utils/print-introspected-doxygen.cc:370-375 | what the recursion appends is one entry per enumerated walk, in the same order, below any path prefix and ancestor set |
| ConfigPaths.EntryNamesEndAndPath | utils/print-introspected-doxygen.cc:360-375 | an entry holds the type that its walk reaches and the names along the walk, each after a slash |
| ConfigPaths.RootIsGatheredExactly | utils/print-introspected-doxygen.cc:439-444 | gathering a root records each of its simple paths exactly once, in preorder |
| ConfigPaths.GetListsSimplePaths | utils/print-introspected-doxygen.cc:393-406 | after any list of roots is gathered, Get lists a path for a type if and only if some simple path from one of the roots spells it and ends there |
| ConfigPaths.StaticInformation.GatherRoots | utils/print-introspected-doxygen.cc:586-590 | the loop over the root namespace objects appends the entries of each root in turn |
| ConfigPaths.RootsInOrder | utils/print-introspected-doxygen.cc:586-590 | the entries of the roots follow each other without gaps, in the order of the roots |
| ConfigPaths.PathsOfPositions | utils/print-introspected-doxygen.cc:393-406 | the listed paths are those of all entries for the type, each entry once and in recording order |
| ConfigRepeats.EqualEdgesRepeatEntries | utils/print-introspected-doxygen.cc:447-531 | two equal edges behind any simple path, to a type not on it, leave two equal entries for that type |
| ConfigRepeats.EntriesDistinctIff | utils/print-introspected-doxygen.cc:423-444 | on a graph whose edges are told by their names, the entries of a root are free of duplicates if and only if no simple path ends at a type with two equal edges to a new type |
| ConfigRepeats.ProperNamesTellEdges | utils/print-introspected-doxygen.cc:456-530 | unique names without slashes or a leading dollar give such a graph, for any attributes, children and aggregations |
| ConfigRepeats.EqualEdgesMeaning | utils/print-introspected-doxygen.cc:495-530 | a type has two equal edges to another exactly when the other is its child and aggregated with it, or aggregated twice, in either order |
| ConfigRepeats.GatheredDistinctIff | utils/print-introspected-doxygen.cc:423-531 | in terms of the registry: duplicates are recorded if and only if some simple path from the root reaches a type that a new type follows twice in that sense |
| ConfigRepeats.AggregatedTwiceRepeats | utils/print-introspected-doxygen.cc:565-567 | an aggregation recorded twice, in whichever orders, leaves duplicates for every root with a simple path to one end that avoids the other |
| ConfigRepeats.AggregatedTwiceAtRoot | utils/print-introspected-doxygen.cc:565-567 | in particular for a root that is one of the two ends |
| ConfigRepeats.AggregatedTwiceListsTwice | utils/print-introspected-doxygen.cc:393-406 | for such a root the paths listed for the other type hold the path to it, by way of that simple path, at two positions |
| ConfigRepeats.RootsDistinctIff | utils/print-introspected-doxygen.cc:586-590 | the output of all roots is free of duplicates if and only if each root's is and no two roots have simple paths that spell alike and end at the same type |
| ConfigPaths.StaticInformation.HasAlreadyBeenProcessed | utils/print-introspected-doxygen.cc:379-391 | true exactly for the types on the ancestor stack |
| ConfigPaths.StaticInformation.RecordAggregationInfo | utils/print-introspected-doxygen.cc:328-348 | records the pair of types, or the first of the two names that is unknown |
| ConfigPaths.StaticInformation.DoGather | utils/print-introspected-doxygen.cc:447-531 | terminates on every graph, restores both stacks, keeps the ancestor stack free of duplicates, and appends exactly the specified entries |
| ConfigPaths.StaticInformation.Gather | utils/print-introspected-doxygen.cc:439-444 | from empty stacks appends exactly the entries of the root and leaves the stacks empty |
| ConfigPaths.StaticInformation.Get | utils/print-introspected-doxygen.cc:393-406 | returns the paths of all entries recorded for one type, as often as they are there and in recording order |
| TestRunner.StepInv | test.py:987-1055 | every enabled step of the main thread, a worker or the signal handler keeps the invariant: FIFO input, each job in one place, jobs in their proper form, stop markers consumed once |
| TestRunner.JobsConserved | test.py:1488-1526 | in every reachable state each dispatched job is in exactly one of input queue, worker, output queue and collected list, and was started at most once |
| TestRunner.RunsAreBounded | test.py:987-1055 | every run has at most five steps per job, three per thread and one for the interrupt |
| TestRunner.FinishesIffThreads | test.py:1440-1918 | no run gets stuck before the program has ended, with all results collected and all workers joined or with an exception and all workers returned, if and only if there is a thread or no job |
| TestRunner.RaisesIffFatal | test.py:1740-1904 | a program that has ended did so with an exception if and only if some job that ran left an XML file that is needed and unreadable; then the input queue is empty and every job was finished, started at most once and lies in exactly one place |
| TestRunner.RaisedIffCollectRaises | test.py:1766-1904 | the collecting loop raises in exactly the runs that end with an exception |
| TestRunner.ThreadsPositive | test.py:1455-1467 | the number of threads is positive exactly when the limit is not negative, never above the processors, equal to a limit within them, and equal to the processors without a limit or with a larger one |
| TestRunner.CompletedRun | test.py:1740-1768 | at completion both queues are empty, every worker has returned on its own stop marker, and every job was collected exactly once |
| TestRunner.ReturncodesAreReal | test.py:1023-1055 | the return code of a collected job that ran is one with which its own subprocess ended during the run |
| TestRunner.ReportsAppendOnly | test.py:1766-1770 | results are collected in the order in which the workers reported them, and none is lost or changed |
| TestRunner.InterruptStopsWork | test.py:996-1004 | a job not decided on when the interrupt arrives is never started and is reported as interrupted |
| TestRunner.SuccessMeansAllPassed | test.py:2011-2014 | the six outcomes add up to the number of jobs, and the exit status is 0 exactly when every job was skipped or was started once with return code 0; without an interrupt no job counts as interrupted |
| TestRunner.TallyMeaning | test.py:1776-1806 | the outcomes count the jobs that were skipped, and those that ran and returned 0, 1, 2 or anything else |
| TestRunner.FailedJobsInOrder | test.py:1766-1904 | failed_jobs lists the jobs in the order in which their results arrived, the entries of each job next to each other |
| TestRunner.FailedJobsMembers | test.py:1766-1904 | a job is in failed_jobs exactly when it was neither interrupted nor skipped and its return code is not 0 or it is a suite whose XML is neither PASS nor SKIP |
| TestRunner.FailedJobsCount | test.py:1781-1904 | each of pairwise different collected jobs is in failed_jobs once for a return code other than 0 and once for an XML file that does not take it off again |
| TestRunner.ListedTwiceIff | test.py:1781-1904 | never more than twice, and twice exactly for a suite that ran and returned neither 0, 1 nor 2, or 1 or 2 with an XML result other than PASS and SKIP |
| TestRunner.CollectedDifferent | test.py:1766-1770 | the jobs that a completed run collects are pairwise different |
| TestRunner.Summary.Collect | test.py:1767-1904 | each pop removes the entry just pushed; the counter for the return code of a job that ran, or the one for skipped jobs, grows and no other; raises exactly when a suite that returned 0, 1 or 2 left no readable XML result |
| TestRunner.CollectAll | test.py:1767-2014 | ends with an exception exactly when an XML result that is needed cannot be read, and then has summarised the jobs up to that one; otherwise leaves the numbers of jobs by return code, the specified failed jobs, and status 0 exactly when every job was skipped or returned 0 |
| LoadOrder.LoadedByChains | bindings/python/ns__init__.py:394-416 | a library is loaded within n rounds if and only if all its dependency chains stay among known libraries and have at most n members |
| LoadOrder.LayerIsLongestChain | bindings/python/ns__init__.py:407-416 | the round in which a library is loaded is the length of its longest dependency chain |
| LoadOrder.AllLoadedIffAcyclicClosed | bindings/python/ns__init__.py:407-416 | everything is loaded within as many rounds as libraries exactly for acyclic, closed dependencies, and never otherwise |
| LoadOrder.FramesSuffice | bindings/python/ns__init__.py:407-416 | with more stack frames than libraries sorting succeeds if and only if the dependencies are acyclic and closed |
| LoadOrder.ReadyPositions | bindings/python/ns__init__.py:394-405 | the libraries that can be loaded are those at increasing positions of the pending list, and no other position has one |
| LoadOrder.GoodOrderUnique | bindings/python/ns__init__.py:407-421 | the dependencies and the order of the keys leave one good order |
| LoadOrder.Sorter.ModulesThatCanBeLoaded | bindings/python/ns__init__.py:394-405 | the pending libraries whose dependencies are all loaded, in pending order, given by their positions |
| LoadOrder.Sorter.DependencyOrder | bindings/python/ns__init__.py:407-416 | returns exactly when the stack frames suffice for all rounds, otherwise fails with the recursion error |
| LoadOrder.FinishedIsLayered | bindings/python/ns__init__.py:407-416 | in a finished order no layer is empty and layer s holds exactly the libraries whose longest chain has s + 1 members |
| LoadOrder.SortToDependencies | bindings/python/ns__init__.py:407-421 | the result is a permutation of the libraries in which dependencies come first, cut into its layers, each in the order of the keys; there is one exactly when all chains fit the stack |
| StyleFixers.ReadGivesLines | utils/check-style-clang-format.py:632-633 | reading a file gives well-formed lines whose concatenation is the file |
| StyleFixers.ReadWrite | utils/check-style-clang-format.py:667-670 | well-formed lines, written and read again, are the same lines |
| StyleFixers.ExpandKeepsGlyphs | utils/check-style-clang-format.py:655 | tab expansion moves no visible character to another column and keeps the width of the line |
| StyleFixers.ExpandKeepsCore | utils/check-style-clang-format.py:635-655 | tab expansion does not change the stripped form of a line whose stripped form has no tab, such as a guard |
| StyleFixers.SecondPassEnabledLess | utils/check-style-clang-format.py:638-646 | for any two guard comments without tabs and double blanks, a second pass over the fixed lines is enabled after a line only if the first pass was |
| StyleFixers.TabFixIsFixpoint | utils/check-style-clang-format.py:635-670 | for such guards the fixed lines pass the tab check |
| StyleFixers.GuardsAreValid | utils/check-style-clang-format.py:57-58 | the tool's two guard comments are such guards |
| StyleFixers.StripExpanded | utils/check-style-clang-format.py:635-655 | expanding a line and stripping it is expanding its stripped text from the column at which that starts |
| StyleFixers.ExpandsToGuardIff | utils/check-style-clang-format.py:635-655 | a line expands to a guard if and only if its stripped text is a guard, some of whose blanks may be tabs that stand one column before a tab stop |
| StyleFixers.ExpansionCanMakeGuard | utils/check-style-clang-format.py:635-655 | such a line that is no guard itself |
| StyleFixers.WhitespaceFixKeepsLines | utils/check-style-clang-format.py:582-604 | trimmed lines are still well-formed lines |
| StyleFixers.TabFixKeepsTrimmed | utils/check-style-clang-format.py:648-655 | tab expansion brings back no trailing white space and keeps the final newline |
| StyleFixers.FixedFilePasses | utils/check-style-clang-format.py:601-607 | a fixed file, read again, passes the check that fixed it and has as many lines |
| StyleFixers.BothFixesPassBoth | utils/check-style-clang-format.py:325-349 | the whitespace fix and then the tab fix leave a file that passes both checks, with as many lines |
| StyleFixers.SkippedIffProtected | utils/check-style-clang-format.py:57-58 | a line is skipped exactly when it is neither comment and the last comment before it is "// clang-format off" |
| StyleFixers.TabFixMeaning | utils/check-style-clang-format.py:610-672 | a file complies exactly when every line with a tab is so protected; the fix keeps protected lines and lines without tabs, and elsewhere leaves no tab and every visible character in its column |
| StyleFixers.TabBetweenComments | utils/check-style-clang-format.py:635-655 | a tab between the comment that switches off and the one that switches on is left alone, behind both it is reported |
| StyleFixers.WhitespaceFixMeaning | utils/check-style-clang-format.py:582-604 | a file complies exactly when every line ends in a newline with nothing white before it; the fix replaces each line by its text and a newline |
| StyleFixers.TabReportsMeaning | utils/check-style-clang-format.py:648-664 | the reports name, in order, each unprotected line with a tab, the place of its first tab, and its text |
| StyleFixers.WhitespaceReportsMeaning | utils/check-style-clang-format.py:582-598 | the reports name, in order, each line with white space at its end or no newline, the place behind its text, and the text with its tabs expanded |
| StyleFixers.CheckTabsFile | utils/check-style-clang-format.py:610-672 | reports compliance, the fixed text only when asked to fix, and position and text of all offending lines only when verbose, each in terms of protected lines and characters |
| StyleFixers.CheckTrailingWhitespaceFile | utils/check-style-clang-format.py:558-607 | the same for trailing white space |
| Timeline.SearchIffContained | utils/grid.py:99-116 | on ranges with growing starts and ends the search succeeds if and only if some range contains the key |
| Timeline.SearchCanMiss | utils/grid.py:99-116 | growing starts alone are not enough |
| Timeline.SearchIffProbed | utils/grid.py:99-116 | with growing starts the search succeeds if and only if the key lies in a range at an index that halving visits on its way to the number of started ranges |
| Timeline.LastStartedIsFound | utils/grid.py:99-116 | a key in the range that started last is always found |
| Timeline.SearchRightIff | utils/grid.py:99-116 | with growing starts the search is right about every key if and only if no unvisited range runs on, while no further range starts, after all visited ones ended |
| Timeline.SearchIsFirstProbed | utils/grid.py:99-116 | with growing starts the search returns the first visited range that holds the key |
| Timeline.ReturnedIff | utils/grid.py:130-163 | with growing starts, what is returned runs from the first visited range that holds the start, or the first range, to the first visited one that holds the end, or the last range; it is empty without either |
| Timeline.AnswerIffBoundsExact | utils/grid.py:130-163 | on every list, the answer is the list of overlapping ranges if and only if the bounds enclose exactly their positions |
| Timeline.SortedBoundsMeaning | utils/grid.py:147-163 | on a list sorted by start the bounds are exact if and only if, of the ranges that start by the query's end, those outside the two first visited ranges and no others have ended before it starts |
| Timeline.SortedRangesMeaning | utils/grid.py:130-146 | the answer is the list of overlapping ranges under exactly that condition |
| Timeline.LeftOutIff | utils/grid.py:130-163 | when starts and ends grow and an end point is covered, an overlapping range is left out if and only if it holds the start and halving visits neither it nor an earlier one that does, or it holds the end and halving visits an earlier one that does |
| Timeline.BoundsMeaning | utils/grid.py:147-163 | for proper ranges with growing starts and ends the bounds are exact if and only if the end points lie as stated and no range is so skipped |
| Timeline.GetRangesMeaning | utils/grid.py:130-146 | the answer is the list of overlapping ranges under exactly the same condition |
| Timeline.TouchingMissesNeighbour | utils/grid.py:130-163 | of lasting ranges that at most touch, one that overlaps is left out if and only if it shares an end point of the query with its neighbour and halving the list, by index arithmetic alone, does not visit it for the start, or visits the neighbour before it for the end |
| Timeline.TouchingCanMiss | utils/grid.py:130-146 | of two ranges that share a point, a query that ends there returns only the first |
| Timeline.TimelineDataRange.AddRange | utils/grid.py:117-123 | appends; proper ranges added in the order of time at most touch |
| Timeline.SeparateRangesMeaning | utils/grid.py:130-146 | for separate ranges the answer is the overlapping ranges exactly under a condition on the two end points, and a superset as soon as one is covered |
| Timeline.TimelineDataRange.FindKey | utils/grid.py:99-116 | the loop returns the result of the specified search |
| Timeline.BoxesDisjoint | utils/grid.py:555-588 | no two item boxes overlap, for any number and sizes of legends |
| Timeline.BoxesInside | utils/grid.py:522-547 | every box lies below the margin and within the computed height, and within the width exactly when its item fits on a row by itself |
| Timeline.NextBox | utils/grid.py:533-542 | a box continues the row exactly when it still fits, otherwise it starts a row below the tallest item so far |
| Timeline.MarksWellPlaced | utils/grid.py:555-588 | the drawn squares and texts, and no others, follow the rules: a square of the size of the padding, a gap, the text level with it; a mark continues the row exactly when its text and a gap still fit behind the previous text, otherwise it starts a row below by the tallest text so far and a gap |
| Timeline.MarksDisjoint | utils/grid.py:555-588 | squares and texts of different legends never overlap |
| Timeline.MarkWithin | utils/grid.py:575-585 | square and text lie in the legend's box with a gap between them and one behind the text |
| Timeline.LayoutHeightMeaning | utils/grid.py:522-547 | the computed height ends a gap and the tallest text below the top of the last drawn row |
| Timeline.TopLegendRenderer.Layout | utils/grid.py:522-547 | sets width and height and nothing else; the height is that of the marks that are drawn |
| Timeline.TopLegendRenderer.Draw | utils/grid.py:555-588 | draws the squares and texts that the rules place for the width of the last layout |
| SchedulerBench.Bench.RunEvents | utils/bench-scheduler.cc:133-155 | with a non-empty population exactly the total number of events is counted, in time order, with the full population before each callback and one event less at the end, for any delays; every event uses its own delay of the stream and none is lost |
| SchedulerBench.EventsFollowStream | utils/bench-scheduler.cc:133-176 | the events of a run, dispatched or left over, are those scheduled; the first ones take place when their delays have passed since the start, each further one when the next delay has passed since the event that scheduled it |
| SchedulerBench.Bench.Cb | utils/bench-scheduler.cc:163-176 | stops without rescheduling once the total is reached, otherwise schedules one event and counts |
| SchedulerBench.RunSuite | utils/bench-scheduler.cc:285-305 | the priming run and all measured runs count the same number of events |
| SchedulerBench.AccumulateIsExact | utils/bench-scheduler.cc:346-362 | each update keeps the exact mean and the exact sum of squared deviations from it |
| SchedulerBench.MeanMinimizes | utils/bench-scheduler.cc:346-362 | the mean is the point of least squared deviation |
| SchedulerBench.DeviationNonNegative | utils/bench-scheduler.cc:373-381 | the second moment is never negative, and zero exactly for equal samples |
| SchedulerBench.Log | utils/bench-scheduler.cc:331-388 | for two or more runs the averages and second moments of all six fields are exact, and every square root is taken of a non-negative number |
| Fairness.UpperBound | examples/tcp/dctcp-example.cc:191-197 | the squared sum is at most n times the sum of squares, with equality exactly for equal counters |
| Fairness.LowerBound | examples/tcp/dctcp-example.cc:191-197 | the sum of squares is at most the squared sum, with equality exactly for at most one active flow |
| Fairness.ExactIff | examples/tcp/dctcp-example.cc:191-197 | no 64-bit value wraps if and only if n times the exact sum of squares fits into 64 bits |
| Fairness.SafeCountersExact | examples/tcp/dctcp-example.cc:185-228 | nothing wraps for n flows of at most a limit with n times the limit below 2^32 |
| Fairness.SafeIsTight | examples/tcp/dctcp-example.cc:185-228 | for equal counters something wraps as soon as n times the counter reaches 2^32 |
| Fairness.ExactIndex | examples/tcp/dctcp-example.cc:191-197 | without wrap-around the index is the squared sum divided by n times the sum of squares |
| Fairness.JainBounds | examples/tcp/dctcp-example.cc:185-228 | without wrap-around and with some traffic the index lies between 1/n and 1, is 1 exactly for equal counters and 1/n exactly for a single active flow |
| Fairness.NoTrafficIsNaN | examples/tcp/dctcp-example.cc:197 | without traffic the index is not a number |
| Fairness.Counters.TraceSink | examples/tcp/dctcp-example.cc:125-141 | only the named flow's counter grows, and the group total by the packet size |
| Fairness.Counters.InitializeCounters | examples/tcp/dctcp-example.cc:143-158 | all forty counters become zero |
| Fairness.AverageClose | examples/tcp/dctcp-example.cc:184-230 | without wrap-around the reported average is less than eight bits per flow too low, and exact if and only if the bytes divide evenly among the flows |
| Fairness.Counters.PrintFairness | examples/tcp/dctcp-example.cc:184-255 | the averages and indices of the three groups and the two aggregates, in 64-bit arithmetic |
| LargeTransfer.StreamGrows | examples/tcp/tcp-large-transfer.cc:227-239 | a piece of the buffer from the computed offset continues the stream |
| LargeTransfer.StreamIsAlphabet | examples/tcp/tcp-large-transfer.cc:104-110 | the stream repeats the alphabet |
| LargeTransfer.ProductiveCloses | examples/tcp/tcp-large-transfer.cc:221-243 | a socket that takes at least a byte per turn gets all bytes and is closed within as many turns as bytes are left |
| LargeTransfer.ResumeContinues | examples/tcp/tcp-large-transfer.cc:221-243 | a call that was blocked or refused and a later call accept together what one uninterrupted call would have accepted |
| LargeTransfer.ClosedIffComplete | examples/tcp/tcp-large-transfer.cc:239-243 | over any series of callbacks the socket was closed if and only if all bytes were accepted, and each later callback closes it again |
| LargeTransfer.Sender.constructor | examples/tcp/tcp-large-transfer.cc:104-110 | the buffer repeats the alphabet |
| LargeTransfer.Sender.WriteOnce | examples/tcp/tcp-large-transfer.cc:226-237 | reads stay inside the buffer, the total is not exceeded, and the accepted bytes stay a prefix of the stream |
| LargeTransfer.Sender.WriteUntilBufferFull | examples/tcp/tcp-large-transfer.cc:221-243 | after any answers the accepted bytes are the prefix of the stream of the counted length; closes exactly when complete |
| LargeTransfer.Sender.RunCallbacks | examples/tcp/tcp-large-transfer.cc:209-243 | the same over any series of callbacks; the socket was closed exactly when 2000000 bytes were accepted |
| MatlabTable.IntTextValue | get_theory_vector.py:170-175 | a printed case label has the value of its key |
| MatlabTable.FixedTextClose | get_theory_vector.py:75-76 | a number printed with six decimals is within half a unit of the sixth decimal |
| MatlabTable.NoFallThrough | get_theory_vector.py:173-181 | when a case body ends the rest of its switch is skipped |
| MatlabTable.CasesSearched | get_theory_vector.py:173-181 | the inner switch assigns the vector of the MCS, or raises the error |
| MatlabTable.EmittedCodeIsTable | get_theory_vector.py:157-187 | for every table, SINR and MCS the emitted function returns the table's vector up to rounding when the pair is present, and raises an error otherwise |
| MatlabTable.RoundIsNearest | get_theory_vector.py:167 | rounding gives the nearest integer, and of two the one away from zero |
| MatlabTable.EmittedCodeForNearest | get_theory_vector.py:157-187 | the same theorem for the integer nearest to the SINR |
| MatlabTable.CasesInOrder | get_theory_vector.py:170-174 | the cases of the outer switch and of each inner one come in increasing order of their numbers, one for each key |
| MatlabTable.WriteMatlabFile | get_theory_vector.py:157-187 | the appended lines are exactly the specified code |

## Left out

- The ns-3 simulator, scheduler, socket and TypeId implementations: only the behaviour listed above is assumed.
- TestRunner.StepInv: Job objects are values that move between queues and workers, so aliasing between a worker and the main thread is not captured; queue operations are atomic, as Python's queue makes them.
- TestRunner.CollectAll: copying the XML results into the report is left out; an XML file is its result, or unreadable.
- LoadOrder.SortToDependencies: reading linked libraries out of the files and choosing library versions is left out; the dependency map is arbitrary.
- StyleFixers.CheckTabsFile: the wording of messages and the choice of files are left out; a report is a line, a column and the text shown.
- The include-prefix and formatting checks: they depend on other files and an external tool.
- SchedulerBench.Log: the square roots themselves, and runs so short that a time of zero gives an infinite rate, are not modelled; samples are reals.
- Fairness.Counters.PrintFairness: division by the time window, output formatting and the rounding of 64-bit values to doubles are left out; that the vectors are reserved but never resized is not modelled, the groups are arrays of 10, 20 and 10.
- LargeTransfer.Sender.WriteUntilBufferFull: a socket that calls the writer back from inside a send is not modelled.
- MatlabTable.WriteMatlabFile: indentation, comment and message texts are dropped; a line is its kind and its numbers in text form, and tables hold finite numbers only.
- Timeline.TopLegendRenderer.Draw: colours, line widths and the letters themselves; a legend is the extent of its text.
- Writing XML, HTML and text reports, environment setup, argument parsing and subprocess handling in test.py.
- The scenario scripts and the plotting scripts: they configure library objects or call data-frame libraries.
