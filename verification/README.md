# Models of the ns-3 build, test and example tools

This project models the self-contained algorithms that this ns-3 tree carries outside the simulator
core, and proves what they promise on all inputs, all runs or all reachable states. Every `.dfy` file
belongs to it; `dafny verify dfyconfig.toml` checks the whole.

| component | files |
|---|---|
| dependency graphs: FIFO sort, level sort, cycle enumeration | `TopSort`, `Levels`, `Cycles`, `CycleReport` |
| the thread pool of the test runner, as a state machine over all interleavings | `Pool`, `PoolOutcome` |
| the mini shell: token parser and its grammar, executor, comparison with POSIX | `ShellSyntax`, `ShellParser`, `ShellGrammar`, `ShellRun`, `ShellAndOr`, `ShellLine` |
| configuration paths over the graph of registered types, chains of types, and repeated records | `ConfigPaths`, `ConfigRecords`, `ConfigChains` |
| unified diffs: writing, parsing, and when one undoes the other | `PatchText`, `PatchSet`, `PatchRoundTrip` |
| permutations, binary numerals, Gray code | `Permutations`, `BinaryNumerals`, `GrayCode` |
| time windows by binary search | `Timeline` |
| the sender that copes with partial writes | `Sender` |
| Jain's fairness index in 64-bit arithmetic | `Fairness` |
| what several models share | `Sequences`, `Totals`, `Powers`, `Options`, `Strings` |

Code that changes things step by step is modelled by methods and classes, each proved against a
specification; the promises are then proved about the specification. Dictionaries are iterated in an
arbitrary order: `topsort` and `topsort_levels_core` collect the keys with count zero in whatever order
they come, and `find_cycles` gets its keys as a sequence that may list them in any order.

Some properties one might expect are false of the code. The code is modelled as it is; each time a lemma
gives an input on which the property fails, and another states exactly when it holds:

- The shell's `&&` and `||` are right-nested, unlike section 2.9.3 of the POSIX.1-2017 Shell Command
  Language. `ShellLine.CdAfterOr` shows the two apart at `a || cd d && b`.
  `ShellAndOr.AgreesIff` proves that they agree on all exit codes exactly when the line is complete (see the
  next item) and uses only one of the two operators once the `cd` commands in front of its first command, or in front of the
  end of its first pipe group, are left out together with the `&&` behind them. In the POSIX reading a
  `cd` is a command with exit status 0 that keeps its own `&&`.
- `run` does not return a code for every pipeline that `parse` accepts: `ShellLine.LoneCdFails` shows it at
  `cd d`. `ShellRun.CodeIffComplete` proves that it does for all exit codes exactly when every `cd` names a
  directory and none ends the line.
- Writing patches and parsing them again does not always give them back:
  `PatchRoundTrip.RemovedDashesAreLost` shows it for the removed line `-- x` and
  `PatchRoundTrip.AddedPlusesRename` for the added line `++ x`. `PatchRoundTrip.RoundTrip`
  proves that it does exactly when no text has a newline, no removed line starts with `-- ` and no added
  line starts with `++ `.
- `get_ranges` and `get_events` are not always the linear filter: `EarlierRangeIsKept`,
  `InnerRangeIsLost`, `TouchingRangeIsLost`, `LaterEventIsKept` and `SimultaneousEventIsLost` in `Timeline`
  compute what they return instead. `WindowMeaning`
  and `ExactEvents` give the exact conditions.
- Without a worker thread the test runner waits forever unless there are no jobs: `Pool.NoWorkerIsStuck`
  gives a run, and `Pool.MaximalRunReturns` states the equivalence.
- The comment at `bindings/python/topsort.py:109-110` says that everything left has a child.
  `TopSort.ChildlessLeftover` shows a leftover node without one, and `TopSort.LeftoverHaveChildrenIff`
  proves that every leftover node has a child exactly when no node on or behind a cycle is childless. What
  always holds is that every leftover node keeps as many in-edges from leftover nodes as its count says, and
  at least one (`TopSort.LeftoverIsFromCycle`).
- `Uniquefy` in `utils/print-introspected-doxygen.cc` works on a copy, so the output, into which all root
  objects are gathered one after the other, may repeat a record. `ConfigRecords.TwiceAggregated` shows it, on
  every registry, for an aggregation that is recorded twice, as lines 539 and 541 do for `ns3::Node` and
  `ns3::Icmpv4L4Protocol`, and `ConfigRecords.GatheredTwice` for a type that is gathered twice.
  `ConfigRecords.OutputDistinctIff` proves that, when the names can be read back from the paths, the records of
  the whole output are pairwise distinct exactly when no root has a repetition-free walk along a doubled edge
  and no walks from two places in the list of roots share end and labels. That a distinct output has such
  roots holds whatever the names are (`ConfigRecords.DistinctOutputHasRootsApart`).

## Model

| member | source | states |
|---|---|---|
| `Cycles.IsRotated` | bindings/python/rad_util.py:735-775 | true exactly for rotations, repeated items included; an error exactly for two empty lists |
| `Cycles.RotationElementary` | bindings/python/topsort.py:372-375 | every rotation of an elementary cycle is an elementary cycle, so keeping one of each rotation class loses nothing |
| `Cycles.RecordCycle` | bindings/python/topsort.py:370-378 | the yielded cycles stay elementary and pairwise unrotated, and afterwards hold a rotation of the new one; nothing is added if they did before |
| `Cycles.CloseCycle` | bindings/python/topsort.py:367-378 | the part of the path from the repeated node on is an elementary cycle and is found afterwards |
| `Cycles.IndexOf` | bindings/python/topsort.py:369 | the first position of the item |
| `Cycles.ExtendPath` | bindings/python/topsort.py:362-385 | pushes exactly the simple one-node extensions, finds every cycle that one more edge closes, and marks only children off the path as visited |
| `Cycles.StepLowersWeight` | bindings/python/topsort.py:352-385 | replacing a popped path by its extensions lowers the sum of (maxOutDegree + 1)^(n - length) over the stack, so the loop ends on every graph |
| `Cycles.StepKeepsStackInv` | bindings/python/topsort.py:352-385 | every stacked path is simple and starts at the start node, and every simple path from there is either processed or an extension of a stacked one |
| `Cycles.ExploreFrom` | bindings/python/topsort.py:351-385 | the stack loop ends having processed every simple path from the start node; whatever it marks as visited is reachable from there |
| `Cycles.ReachableCycleIsFound` | bindings/python/topsort.py:346-349 | an elementary cycle that an explored start can reach has been found in some rotation, which is why visited starts may be skipped |
| `Cycles.FindCycles` | bindings/python/topsort.py:343-385 | for every finite graph: only elementary cycles, no two of them rotations of each other, and every elementary cycle in some rotation |
| `TopSort.BuildDictionaries` | bindings/python/topsort.py:77-90 | the counts are the in-edges with repetition, the child lists are the out-edges in order, self-loops and repeated pairs included |
| `TopSort.ZeroKeys` | bindings/python/topsort.py:93 | exactly the keys with count zero, each once, in some order |
| `TopSort.KnockDown` | bindings/python/topsort.py:100-103 | each count falls by the number of occurrences in the list; the items whose count reaches zero are queued, each once, in the order in which their last parent is counted off; no absent key is touched |
| `TopSort.TakeOut` | bindings/python/topsort.py:98-106 | the parent leaves both dictionaries and its children are counted down |
| `TopSort.SortStep` | bindings/python/topsort.py:97-106 | one round keeps the invariant of the sort: what is queued, in what order, at what depth, and what the counts are |
| `TopSort.InEdgesDrop` | bindings/python/topsort.py:100-101 | taking out one more parent lowers each remaining in-degree by its occurrences in that parent's child list |
| `TopSort.WorkOff` | bindings/python/topsort.py:97-106 | working off an item keeps parents before children and depths in rising order |
| `TopSort.FromCycleHasNoDepth` | bindings/python/topsort.py:108-111 | a node on or behind a cycle is the end of walks of every length |
| `TopSort.NotFromCycleIsGrounded` | bindings/python/topsort.py:97-106 | a node that no cycle reaches ends no walk with as many edges as there are nodes, so it has a depth |
| `TopSort.StuckIsFromCycle` | bindings/python/topsort.py:108-111 | in a set whose members all have a parent in the set, every member is on or behind a cycle |
| `TopSort.LeftoverIsFromCycle` | bindings/python/topsort.py:108-111 | once no count is zero, the remaining keys are exactly the nodes on or behind a cycle, with their remaining in-edges as counts; none remain exactly for acyclic graphs |
| `TopSort.LeftoverHaveChildrenIff` | bindings/python/topsort.py:108-111 | every leftover node has a child exactly when no node on or behind a cycle is childless |
| `TopSort.ChildlessLeftover` | bindings/python/topsort.py:109-110 | for the pairs (a,b), (b,a), (b,c) the sort fails and c is left over without a child |
| `TopSort.AcyclicIffNoneFromCycle` | bindings/python/topsort.py:108-112 | a graph is acyclic exactly when no node is on or behind a cycle |
| `TopSort.DepthsSorted` | bindings/python/topsort.py:95-103 | of two items in the answer the earlier one has at most the depth of the later |
| `TopSort.Sort` | bindings/python/topsort.py:77-112 | returns exactly for acyclic graphs; the answer lists each node that no cycle reaches once, parents first, in non-decreasing depth; the error carries exactly the nodes on or behind a cycle with their remaining counts and child lists |
| `Levels.Decrement` | bindings/python/topsort.py:222-223 | each count falls by the number of occurrences in the child list, and no key comes or goes |
| `Levels.RemoveParent` | bindings/python/topsort.py:219-224 | counts and child lists are those of the graph without one more node |
| `Levels.RemoveLevel` | bindings/python/topsort.py:217-224 | counts and child lists are those of the graph without the level |
| `Levels.ZeroIsDepth` | bindings/python/topsort.py:205 | once all nodes of depth below k are out, count zero means depth k, and the other way round |
| `Levels.NextLevel` | bindings/python/topsort.py:204-224 | the next level holds exactly the nodes of its depth and makes the dictionaries smaller, or the generator ends as it should |
| `Levels.SortLevelsCore` | bindings/python/topsort.py:203-232 | level k is exactly the set of nodes whose longest incoming walk has k edges, and no level is empty; the generator stops exactly for acyclic graphs and otherwise raises with exactly the nodes on or behind a cycle |
| `Levels.SortLevels` | bindings/python/topsort.py:157-172 | the same from a list of pairs |
| `Levels.FlattenIsBelow` | bindings/python/topsort.py:203-224 | the first k levels together list each node of depth below k once |
| `Levels.AnswerCutsIntoLevels` | bindings/python/topsort.py:93-106 | the two sorts agree: the FIFO answer cut at the level sizes gives the level sets |
| `CycleReport.LeftoverKeepsCycles` | bindings/python/topsort.py:104-111 | the child lists in the error have exactly the elementary cycles of the input |
| `CycleReport.ElementaryInside` | bindings/python/topsort.py:367-369 | between two visits of a walk to a node lies an elementary cycle |
| `CycleReport.SomeCycle` | bindings/python/topsort.py:226-229 | a graph with leftover nodes has an elementary cycle |
| `CycleReport.ReportCycles` | bindings/python/topsort.py:235-385 | applied to the child lists of the error, the enumerator yields at least one cycle, only cycles of the input, and each of them once up to rotation |
| `Pool.StepKeepsInv` | test.py:984-1052 | every step of main thread, worker or interrupt keeps the invariant of the pool |
| `Pool.ReachableInv` | test.py:984-1052 | the invariant holds after every possible sequence of steps |
| `Pool.EachJobInOnePlace` | test.py:1487-1489 | in every reachable state a dispatched job is in exactly one of input queue, a worker's hands, output queue and collected; each break job queued is still queued or has ended one worker |
| `Pool.PillMeansNoWork` | test.py:1701-1704 | with a break job at the head of the queue, all jobs are dispatched and none is queued |
| `Pool.PillsComeLast` | test.py:985-992 | no worker takes a break job while a real job is queued or still to be queued |
| `Pool.NoDeadlock` | test.py:1723-1726 | with a worker, or without jobs, no state that satisfies the invariant is stuck before the main thread has returned |
| `Pool.StepLowersMeasure` | test.py:984-1052 | a global measure decreases on every step, the interrupt included |
| `Pool.EveryRunIsFinite` | test.py:1428-1431 | every run has at most 6 steps per job, 4 per worker and 6 more |
| `Pool.MaximalRunReturns` | test.py:1862-1863 | a run that cannot go on has returned from the main thread exactly when there is a worker or there are no jobs |
| `Pool.NoWorkerIsStuck` | test.py:1701-1724 | with one job and no worker, the main thread is stuck after four steps and has not returned |
| `Pool.EndStaysReachable` | test.py:1701-1726 | with a worker, or without jobs, there is a way from every state that satisfies the invariant, interrupted or not, to the return of the main thread |
| `Pool.CountAccounts` | test.py:1724-1757 | each report adds one to exactly one counter or is a break, and passed plus skipped grows exactly for good ones |
| `PoolOutcome.CountersCountReports` | test.py:1724-1757 | in every run, each of the five counters is the number of unbroken collected reports with return code 0, 1, 2, any other, and the skip flag |
| `Pool.EachJobReportedOnce` | test.py:1723-1724 | when the main thread has returned, each job has come back exactly once |
| `Pool.StatusFromReports` | test.py:1946-1949 | the status is 0 exactly when every report is unbroken and skipped or has return code 0 |
| `Pool.ReturnAccounts` | test.py:1716-1757 | at the end both queues are empty, every worker has exited, passed + failed + valgrind + crashed + skipped + interrupted is the number of jobs, and the status is 0 exactly when every report is good |
| `Pool.UninterruptedStatus` | test.py:1946-1949 | without an interrupt the status depends on the jobs alone, whatever the interleaving |
| `PoolOutcome.PendingIsNotStarted` | test.py:985-1001 | a job that is still to be dispatched, queued, or held by a worker that has not looked at the interrupt is running nowhere and has no report |
| `PoolOutcome.InterruptStopsPending` | test.py:998-1001 | a job that is pending when the interrupt is set is never run afterwards, and where it is reported it is a break |
| `PoolOutcome.InterruptedStatus` | test.py:1946-1949 | such a job has come back as a break when the main thread returns, and the status is 1 |
| `PoolOutcome.RunningComesBack` | test.py:1016-1052 | a job that a worker has started comes back unbroken with its own return code, interrupt or not |
| `PoolOutcome.SkippedIsNeverRun` | test.py:1007-1011 | a job that is to be skipped is never running |
| `ShellSyntax.AssignmentSplits` | waf-tools/shellcmd.py:24 | a name of word characters, an equals sign and a value without blanks match and split into name and value |
| `ShellSyntax.SplitIsWellFormed` | waf-tools/shellcmd.py:24 | whatever matches splits into such a name and such a value |
| `ShellSyntax.SplitIff` | waf-tools/shellcmd.py:24 | a token splits into name and value exactly when it is the name, an equals sign and the value, perhaps with a newline behind; nothing else is an assignment |
| `ShellSyntax.WordCharCodes` | waf-tools/shellcmd.py:24 | the word characters by their codes |
| `ShellSyntax.SpaceCodes` | waf-tools/shellcmd.py:24 | the blanks by their codes |
| `ShellSyntax.WellFormedAt` | waf-tools/shellcmd.py:164-187 | in a well-formed pipeline nodes and operators alternate, it ends in a node, standard output is a pipe exactly before a pipe, and cd is followed by `&&` or the end |
| `ShellParser.Pipeline.constructor` | waf-tools/shellcmd.py:97-99 | no command and an empty pipeline |
| `ShellParser.Pipeline.CommitCommand` | waf-tools/shellcmd.py:101-104 | appends the current command and clears it; fails exactly when there is none |
| `ShellParser.Pipeline.CommitAndAppend` | waf-tools/shellcmd.py:166-169 | appends the current command and the operator, and begins a new command |
| `ShellParser.Pipeline.ConsumeInCommand` | waf-tools/shellcmd.py:154-199 | one token inside a command does what the step function says, and fails exactly where it does |
| `ShellParser.Pipeline.Consume` | waf-tools/shellcmd.py:136-199 | one token does what the step function says, and fails exactly where it does |
| `ShellParser.Pipeline.Parse` | waf-tools/shellcmd.py:121-201 | the token loop gives the pipeline of the specification, and fails exactly where that does |
| `ShellParser.AcceptedIsWellFormed` | waf-tools/shellcmd.py:121-201 | every accepted token list gives a well-formed pipeline |
| `ShellParser.SpellRoundTrip` | waf-tools/shellcmd.py:121-201 | parsing the spelling of a well-formed pipeline gives it back: names, arguments, redirections, assignments, operators |
| `ShellParser.WellFormedIffParsed` | waf-tools/shellcmd.py:121-201 | the well-formed pipelines are exactly those that some token list parses to |
| `ShellGrammar.ParsesIffSpells` | waf-tools/shellcmd.py:121-201 | the parser gives a pipeline for a token list exactly when the list spells a line of the grammar with that meaning: assignments, name, words, at most one redirection per stream in any order, operators, cd with at most one directory before an and, a dangling redirection mark at the end |
| `ShellGrammar.RejectsIffNoLine` | waf-tools/shellcmd.py:143-200 | a token list is rejected exactly when it spells no such line |
| `ShellRun.WellFormedIsRunnable` | waf-tools/shellcmd.py:222-233 | whatever the parser returns has the shape the executor needs |
| `ShellRun.ExecPipedCommands` | waf-tools/shellcmd.py:203-212 | the value of a group is the last command's code when any command fails, and 0 otherwise, which is the last command's code too |
| `ShellRun.OpenOutFile` | waf-tools/shellcmd.py:46-50 | the two null names give the shared handle and open nothing; any other name opens one file |
| `ShellRun.OpenInput` | waf-tools/shellcmd.py:242-250 | an input file is opened and remembered exactly when the command names one and reads no pipe |
| `ShellRun.OpenFiles` | waf-tools/shellcmd.py:242-274 | opens exactly the files the command asks for, gives each to the stream that named it, and remembers each of them once for closing |
| `ShellRun.OpensInOrder` | waf-tools/shellcmd.py:242-274 | input, output and errors are opened in this order, without the input behind a pipe |
| `ShellRun.CloseFiles` | waf-tools/shellcmd.py:301-304 | closes exactly the remembered handles that are real files, in order |
| `ShellRun.Start` | waf-tools/shellcmd.py:242-291 | the process gets the position, directory, input and both outputs that its place and the processes before it ask for, and the books stay balanced |
| `ShellRun.StartedOwnsFiles` | waf-tools/shellcmd.py:242-289 | each stream of a process is redirected exactly when its command says so, to the file it names or to the shared handle for the null names |
| `ShellRun.StartedReadsBefore` | waf-tools/shellcmd.py:242-243 | behind a pipe a process reads from the process started before it, which writes to a pipe |
| `ShellRun.EndGroup` | waf-tools/shellcmd.py:313-319 | the group's value, with every file opened so far closed exactly once |
| `ShellRun.RunChdir` | waf-tools/shellcmd.py:225-231 | a cd changes the directory and goes on, or fails at the end of the line or without a directory |
| `ShellRun.RunGroup` | waf-tools/shellcmd.py:293-346 | at the end of a group the operator decides whether the rest of the line runs at all |
| `ShellRun.RunCommand` | waf-tools/shellcmd.py:233-346 | a command is started, and its group goes on or ends as the next operator says |
| `ShellRun.Run` | waf-tools/shellcmd.py:214-346 | for all exit codes: the value of the right-nested evaluator, exactly the commands it starts, each with its directory, input, outputs and own files; unless the run fails, every opened file is closed exactly once and the shared null handle never |
| `ShellRun.CompleteReturnsCode` | waf-tools/shellcmd.py:222-233 | when every cd has a directory and none ends the line, no assertion and no pop fails and a code is returned |
| `ShellRun.IncompleteFails` | waf-tools/shellcmd.py:225-228 | otherwise the run fails at the cd for all exit codes that let every operator pass |
| `ShellRun.CodeIffComplete` | waf-tools/shellcmd.py:293-305 | a code for all exit codes exactly for complete pipelines |
| `ShellRun.RunsUpTo` | waf-tools/shellcmd.py:312-346 | the groups run in turn up to the first whose code is 0 before an or, or not 0 before an and; its code is returned and nothing else is started |
| `ShellAndOr.EvalIsRightNested` | waf-tools/shellcmd.py:225-346 | although the executor forgets a cd and its operator, it computes the right-nested value of the whole and-or list, in which a cd has status 0 |
| `ShellAndOr.SameOpAgrees` | waf-tools/shellcmd.py:312-346 | on a list with one operator, right-nested and left-associative evaluation agree |
| `ShellAndOr.MixedOpsDiffer` | waf-tools/shellcmd.py:312-346 | for every list that begins with a command and mixes both operators, cds included, there are exit codes on which they differ |
| `ShellAndOr.SkippedCds` | waf-tools/shellcmd.py:225-231 | leaving out the cds in front of the first command with their `&&` changes neither reading |
| `ShellAndOr.AgreesIffOneOperator` | waf-tools/shellcmd.py:214-346 | `run` agrees with section 2.9.3 of POSIX on all exit codes exactly when the line has one operator once those leading cds are left out |
| `ShellAndOr.AgreesIff` | waf-tools/shellcmd.py:214-346 | on every pipeline, complete or not: agreement with POSIX on all exit codes exactly when it is complete and has one operator behind its leading cds |
| `ShellLine.AcceptedReturnsCode` | waf-tools/shellcmd.py:121-346 | every accepted token list can be run, and returns a code for all exit codes exactly when every cd names a directory and none ends the line |
| `ShellLine.AcceptedAgreesIff` | waf-tools/shellcmd.py:121-346 | the same for every accepted token list |
| `ShellLine.RunLine` | waf-tools/shellcmd.py:121-346 | parsing and running a token list: fails to parse exactly where the specification does, and otherwise gives the right-nested value and, for lines with one operator, the POSIX value |
| `ShellLine.TwoCommands` | waf-tools/shellcmd.py:312-346 | of two commands with an operator between them the second runs exactly after a code of 0 before an and, or another code before an or, negative ones included |
| `ShellLine.DirectoriesAddUp` | waf-tools/shellcmd.py:228 | relative directories of two cds add up, and an absolute one starts afresh |
| `ShellLine.StaysInDirectory` | waf-tools/shellcmd.py:282-285 | without a cd the process gets no directory |
| `ShellLine.BareCdFails` | waf-tools/shellcmd.py:225-226 | a cd alone fails at the missing operator |
| `ShellLine.LoneCdFails` | waf-tools/shellcmd.py:225-227 | `cd d` is accepted and its run fails |
| `ShellLine.CdWithoutDirectoryFails` | waf-tools/shellcmd.py:228 | `cd && a` is accepted and its run fails for want of a directory |
| `ShellLine.CdAfterOr` | waf-tools/shellcmd.py:320-323 | a line with an or between `a` and `cd d` and an and before `b`, where a exits with 0 and b with 1: the executor returns 0, POSIX gives 1 |
| `ShellLine.LeadingCdIsHarmless` | waf-tools/shellcmd.py:225-231 | a line that starts with `cd d && a` and goes on with an or uses both operators, and the readings agree on all exit codes |
| `ConfigPaths.SimpleWalkStep` | utils/print-introspected-doxygen.cc:426-430 | a walk is repetition-free exactly when its first edge is and the rest avoids the start |
| `ConfigPaths.WalksAreSimpleWalks` | utils/print-introspected-doxygen.cc:423-505 | the recursion takes exactly the repetition-free walks from the root, each once |
| `ConfigPaths.GatheredIsRootAndEdges` | utils/print-introspected-doxygen.cc:430-504 | the record of the root followed by those of attributes, descendants and aggregations are the records of all walks |
| `ConfigPaths.TypeGraphIsClosed` | utils/print-introspected-doxygen.cc:431-504 | for every registry, all aggregations and every type there is a finite graph that holds the type and every type an edge leads to |
| `ConfigPaths.GatheredFromNothing` | utils/print-introspected-doxygen.cc:423-505 | from empty stacks, one record per repetition-free walk, telling where it ends and what its path is |
| `ConfigPaths.StaticInformation.RecordAggregationInfo` | utils/print-introspected-doxygen.cc:296-316 | an aggregation is recorded exactly when both names are registered, with types of those names; otherwise the first missing name is noted |
| `ConfigPaths.StaticInformation.GetCurrentPath` | utils/print-introspected-doxygen.cc:331-340 | each path element after a slash |
| `ConfigPaths.StaticInformation.RecordOutput` | utils/print-introspected-doxygen.cc:344-348 | one record with the type and the current path |
| `ConfigPaths.StaticInformation.HasAlreadyBeenProcessed` | utils/print-introspected-doxygen.cc:352-363 | whether the type is on the stack |
| `ConfigPaths.StaticInformation.Descend` | utils/print-introspected-doxygen.cc:451-455 | following an edge records all walks beyond it and restores both stacks |
| `ConfigPaths.StaticInformation.FollowAttributes` | utils/print-introspected-doxygen.cc:431-470 | records the walks through pointers, except to plain objects, and containers |
| `ConfigPaths.StaticInformation.FollowChildren` | utils/print-introspected-doxygen.cc:471-483 | records the walks through registered descendants |
| `ConfigPaths.StaticInformation.FollowAggregates` | utils/print-introspected-doxygen.cc:484-504 | records the walks through aggregations to their other end |
| `ConfigPaths.StaticInformation.DoGather` | utils/print-introspected-doxygen.cc:423-505 | terminates on every closed finite graph, restores both stacks and appends the records of all repetition-free walks that avoid the types on the stack |
| `ConfigPaths.StaticInformation.Gather` | utils/print-introspected-doxygen.cc:414-419 | from empty stacks, whatever is registered and aggregated: exactly one record per repetition-free walk, with its end and its path |
| `ConfigPaths.StaticInformation.GatherRoots` | utils/print-introspected-doxygen.cc:560-564 | the records of each root in turn are appended to the same output, and the stacks stay empty |
| `ConfigRecords.PathIsReadable` | utils/print-introspected-doxygen.cc:331-340 | a path string determines its elements when no name has a slash and none is the container mark alone |
| `ConfigRecords.DoubledEdgeRepeats` | utils/print-introspected-doxygen.cc:414-419 | a doubled edge that a repetition-free walk can take repeats a record |
| `ConfigRecords.RecordsDistinctIff` | utils/print-introspected-doxygen.cc:414-419 | with readable names, the records of one root are pairwise distinct exactly when no repetition-free walk can take a doubled edge |
| `ConfigRecords.OutputDistinctIff` | utils/print-introspected-doxygen.cc:560-564 | with readable names, the records of all roots together are pairwise distinct exactly when no root has such a walk and no walks from two places in the list share end and labels |
| `ConfigRecords.DistinctOutputHasRootsApart` | utils/print-introspected-doxygen.cc:560-564 | an output without a repeated record has such roots, whatever the names are |
| `ConfigRecords.GatheredTwice` | utils/print-introspected-doxygen.cc:560-564 | a type that is gathered twice repeats a record on every registry |
| `ConfigRecords.TwiceAggregated` | utils/print-introspected-doxygen.cc:484-504 | on every registry, an aggregation of two types that is recorded twice repeats the record of its other end |
| `ConfigRecords.TwiceAggregatedOutput` | utils/print-introspected-doxygen.cc:533-564 | so the output repeats a record when one of the roots has such an aggregation |
| `ConfigChains.EdgesAreNeighbours` | utils/print-introspected-doxygen.cc:431-504 | the edges that are followed from a type are exactly those to its pointees other than plain objects, its container items, its registered descendants and the other ends of its aggregations, under their names |
| `ConfigChains.RecordsAreChains` | utils/print-introspected-doxygen.cc:423-505 | a record is gathered exactly when it is the end and the path of a chain of such neighbours from the root in which no type occurs twice |
| `ConfigChains.PointerIsRecorded` | utils/print-introspected-doxygen.cc:434-457 | a pointer attribute is recorded under its name, unless it points to plain objects or back to the type |
| `ConfigChains.ContainerIsRecorded` | utils/print-introspected-doxygen.cc:459-469 | a container attribute is recorded under its name and an index |
| `ConfigChains.DescendantIsRecorded` | utils/print-introspected-doxygen.cc:471-483 | a registered descendant is recorded under its name |
| `ConfigChains.AggregateIsRecorded` | utils/print-introspected-doxygen.cc:484-504 | the other end of an aggregation is recorded under its name |
| `ConfigChains.OneEdgeIsNeighbour` | utils/print-introspected-doxygen.cc:431-504 | the record of a one-edge walk comes from a neighbour |
| `PatchText.DecimalValue` | utils/check-style.py:303-304 | reading a printed number gives the number |
| `PatchText.LengthsOfTexts` | utils/check-style.py:203-214 | the two lengths of a chunk are those of the old and of the new text that its lines spell |
| `PatchText.LengthsCount` | utils/check-style.py:265-296 | they are the numbers of lines that are removed or context, and added or context |
| `PatchText.HeaderReadsBack` | utils/check-style.py:373 | all four numbers are read back from a chunk header, whatever text follows it |
| `PatchText.HeaderOfWritten` | utils/check-style.py:303-304 | a written chunk header tells both positions and the lengths of the old and the new text |
| `PatchText.ClassifyWritten` | utils/check-style.py:221-226 | a written line reads as itself, except that a removed line starting with `-- ` and an added one starting with `++ ` read as file headers |
| `PatchText.ClassifyHeader` | utils/check-style.py:373 | a written chunk header reads as a chunk with its positions |
| `PatchText.ClassifyFiles` | utils/check-style.py:371-372 | the written file headers read as such |
| `PatchText.ClassifyIff` | utils/check-style.py:371-376 | every line is taken for exactly what its shape says: file headers, chunk headers, removed, added and context lines, and nothing for the rest |
| `PatchSet.WriteLine` | utils/check-style.py:215-228 | appends the mark, the text and a newline |
| `PatchSet.CountLines` | utils/check-style.py:265-296 | the numbers of lines in the source and in the destination |
| `PatchSet.WriteChunk` | utils/check-style.py:297-306 | appends the header and every line in order |
| `PatchSet.WritePatch` | utils/check-style.py:359-368 | appends both file headers and every chunk in order |
| `PatchSet.Write` | utils/check-style.py:359-368 | the file of a list of patches |
| `PatchSet.LinesOfFile` | utils/check-style.py:379 | iterating over a file of newline-terminated lines gives the lines |
| `PatchSet.ParseLine` | utils/check-style.py:380-413 | the first expression that matches decides; no match, no patch or no chunk is an error |
| `PatchSet.ParsedIffInOrder` | utils/check-style.py:379-413 | parsing fails exactly when a line matches nothing, a destination or chunk header has no patch before it, or a chunk line has no chunk before it |
| `PatchSet.LateLineGoesToOldChunk` | utils/check-style.py:381-400 | a chunk line behind a new file header still goes to the chunk before it |
| `PatchSet.ParsePatchset` | utils/check-style.py:370-414 | the loop over the lines gives what the step function gives, error included |
| `PatchRoundTrip.LinesOfWritten` | utils/check-style.py:359-379 | a file written from newline-free patches splits into the lines that were written |
| `PatchRoundTrip.StepsCount` | utils/check-style.py:395-412 | a parse keeps exactly as many chunk lines as it takes for lines |
| `PatchRoundTrip.MistakenLinesAreLost` | utils/check-style.py:371-376 | parsing what was written keeps one chunk line per line that is not mistaken, all of them exactly when none is |
| `PatchRoundTrip.ParsedIsClean` | utils/check-style.py:371-376 | parsed texts never contain a newline |
| `PatchRoundTrip.RoundTrip` | utils/check-style.py:370-414 | for every patch list: parsing what was written gives it back exactly when no text has a newline and no line is mistaken |
| `PatchRoundTrip.RemovedDashesAreLost` | utils/check-style.py:371-394 | a removed line `-- x` comes back as the file header of a second patch named x |
| `PatchRoundTrip.AddedPlusesRename` | utils/check-style.py:371-389 | an added line `++ x` is lost and renames the destination to x |
| `PatchRoundTrip.WriteThenParse` | utils/check-style.py:359-414 | the same for the two methods |
| `Permutations.PermsAreRearrangements` | bindings/python/rad_util.py:310-326 | a list occurs in the result exactly when it rearranges the input |
| `Permutations.PermsCount` | bindings/python/rad_util.py:310-326 | the result has n! lists, repeated items or not |
| `Permutations.PermsDistinct` | bindings/python/rad_util.py:310-326 | distinct items give distinct lists |
| `Permutations.InsertEverywhere` | bindings/python/rad_util.py:319-322 | the item inserted at every position in turn |
| `Permutations.ListPermutations` | bindings/python/rad_util.py:310-326 | all three for the recursive function with its loops, empty and one-item lists included |
| `BinaryNumerals.Cut` | bindings/python/rad_util.py:98-102 | what is cut off holds a one exactly when the value does not fit, and otherwise the value stays |
| `BinaryNumerals.Int2BinMeaning` | bindings/python/rad_util.py:91-105 | for n >= 1, int2bin(i, n) succeeds exactly for 0 <= i < 2^n, and then gives n binary digits that bin2int reads as i |
| `BinaryNumerals.Bin2IntThenInt2Bin` | bindings/python/rad_util.py:130 | printing the value of a numeral with as many digits gives the numeral back |
| `BinaryNumerals.Int2BinNoDigits` | bindings/python/rad_util.py:98-105 | for n = 0 nothing is cut off and every natural number is printed in full |
| `BinaryNumerals.RippleAdds` | bindings/python/rad_util.py:651-659 | rippling through the digits adds one, and only all ones run over |
| `BinaryNumerals.Increment` | bindings/python/rad_util.py:649-659 | the toggle loop does that in place, and raises the last toggle exactly on all ones |
| `BinaryNumerals.BinaryRange` | bindings/python/rad_util.py:639-660 | exactly 2^n rows, row k being int2bin(k, n), for n >= 1; no rows for n = 0 |
| `GrayCode.DecodeEncode` | bindings/python/rad_util.py:612-615 | the code has a left inverse, so no two numbers share a code |
| `GrayCode.EncodeDecode` | bindings/python/rad_util.py:612-615 | it is a right inverse, too, so every number is a code |
| `GrayCode.GrayFits` | bindings/python/rad_util.py:612-615 | n-digit numbers have n-digit codes, and the other way round |
| `GrayCode.RowExists` | bindings/python/rad_util.py:612-615 | int2bin(gray_encode(k), n) succeeds exactly for k < 2^n |
| `GrayCode.EveryStringOnce` | bindings/python/rad_util.py:612-615 | every string of n binary digits is the row of exactly one k |
| `GrayCode.Neighbours` | bindings/python/rad_util.py:612-615 | neighbouring rows differ in exactly one position |
| `GrayCode.LastAndFirst` | bindings/python/rad_util.py:612-615 | so do the last row and the first |
| `Timeline.TimelineDataRange.AddRange` | utils/grid.py:123-129 | appended at the end; the list stays ordered when the range neither starts nor ends before the last one |
| `Timeline.SearchFinds` | utils/grid.py:111-122 | when starts and ends never fall, the probes find a range that contains the key if there is one |
| `Timeline.TimelineDataRange.Search` | utils/grid.py:105-122 | on every list the result of the probes, which contains the key unless it is -1; on ordered lists -1 means that no range does |
| `Timeline.WindowMeaning` | utils/grid.py:136-152 | when neither end lies in two ranges, the window is the linear overlap filter exactly when both ends hit a range, or the only missing end lies beyond all ranges on its side, or no range lies inside; it contains the filter as a stretch whenever an end hits |
| `Timeline.EarlierRangeIsKept` | utils/grid.py:147-148 | a window that starts between two ranges also holds the range before it |
| `Timeline.InnerRangeIsLost` | utils/grid.py:145-146 | a window around a range does not hold it |
| `Timeline.TouchingRangeIsLost` | utils/grid.py:115-116 | where two ranges touch, the search finds the second and the first is lost |
| `Timeline.TimelineDataRange.GetRanges` | utils/grid.py:136-152 | on every list the stretch between the two searches, with that meaning |
| `Timeline.TimelineDataRange.GetRangesBounds` | utils/grid.py:153-169 | bounds within the list whose slice has the same meaning |
| `Timeline.TimelineEvent.AddEvent` | utils/grid.py:219-225 | appended at the end; the list stays sorted when the event is not before the last one |
| `Timeline.TimelineEvent.Search` | utils/grid.py:201-218 | on every list where the probes end; on sorted events an event at the key or, when there is none, the first event after it |
| `Timeline.EventWindowMeaning` | utils/grid.py:226-235 | with one event at most at each end, the slice is the linear filter plus the first event after the end, unless an event is exactly at the end |
| `Timeline.ExactEvents` | utils/grid.py:226-235 | it is the linear filter exactly when an event is at the end or none comes after it |
| `Timeline.LaterEventIsKept` | utils/grid.py:233-235 | a window that ends between two events also holds the event after it |
| `Timeline.SimultaneousEventIsLost` | utils/grid.py:211-212 | where two events are simultaneous, the search finds the second and the first is lost |
| `Timeline.TimelineEvent.GetEvents` | utils/grid.py:226-235 | on every list the stretch between the two searches, with both meanings |
| `Timeline.TimelineEvent.GetEventsBounds` | utils/grid.py:236-245 | bounds whose slice, cut at the end of the list, is the same |
| `Sender.Application.constructor` | examples/tcp/tcp-large-transfer.cc:82-86 | the buffer holds the alphabet, over and over |
| `Sender.Application.WriteOnce` | examples/tcp/tcp-large-transfer.cc:202-213 | a write stays within the buffer and continues the alphabet, whatever part of it is accepted |
| `Sender.Application.WriteUntilBufferFull` | examples/tcp/tcp-large-transfer.cc:198-219 | the accepted bytes stay a prefix of the endless alphabet of at most 2000000 bytes, and Close is called exactly when they are complete |
| `Sender.LettersInOrder` | examples/tcp/tcp-large-transfer.cc:84 | the letters run from a to z, over and over |
| `Sender.OfferIsLargest` | examples/tcp/tcp-large-transfer.cc:202-206 | each write is the largest that fits the free space, the bytes left and the rest of the buffer |
| `Sender.OneReply` | examples/tcp/tcp-large-transfer.cc:202-213 | a reply that accepts moves the count on by as much as the answer, the free space, the bytes left and the rest of the buffer allow |
| `Sender.RoundEndsAt` | examples/tcp/tcp-large-transfer.cc:200-212 | a callback ends at the first reply without room or with a refusal |
| `Sender.Continues` | examples/tcp/tcp-large-transfer.cc:50-53 | since the buffer is a whole number of alphabets long, any part of it from the right offset continues the stream |
| `Sender.RoundsStayWithin` | examples/tcp/tcp-large-transfer.cc:48-49 | over any series of callbacks the count never falls and never exceeds the total |
| `Sender.WillingProgress` | examples/tcp/tcp-large-transfer.cc:200-214 | each reply that takes something moves the count on, so enough of them complete the transfer |
| `Sender.Transfer` | examples/tcp/tcp-large-transfer.cc:185-219 | over every series of callbacks and answers: byte k of the stream is 97 + k mod 26, the total is never exceeded, every Close finds the stream complete, and there is one per callback that ends complete |
| `Fairness.CauchySchwarz` | examples/tcp/dctcp-example.cc:185-191 | sum^2 <= n * sumSquares, with equality exactly when all counters are equal |
| `Fairness.SquaresBelow` | examples/tcp/dctcp-example.cc:185-191 | sumSquares <= sum^2, with equality exactly when at most one counter is positive |
| `Fairness.JainBounds` | examples/tcp/dctcp-example.cc:178-191 | the index lies in [1/n, 1]; it is 1 exactly for equal counters and 1/n exactly when one flow has it all |
| `Fairness.ExactIff` | examples/tcp/dctcp-example.cc:191 | neither product wraps exactly when n * sumSquares is below 2^64 |
| `Fairness.NoWrap` | examples/tcp/dctcp-example.cc:199-206 | for up to 20 counters of at most 2^27 nothing wraps |
| `Fairness.Counters.InitializeCounters` | examples/tcp/dctcp-example.cc:143-158 | all counters are zero and the counting starts afresh |
| `Fairness.Counters.TraceSink` | examples/tcp/dctcp-example.cc:125-141 | every counter stays the number of bytes its flow received since then, modulo 2^64 |
| `Fairness.Accumulate` | examples/tcp/dctcp-example.cc:185-189 | the wrapping sums are the exact sums modulo 2^64 |
| `Fairness.GroupFairness` | examples/tcp/dctcp-example.cc:185-191 | numerator and denominator are the exact ones exactly when n * sumSquares is below 2^64; the bits per flow modulo 2^64, rounded down to whole bytes first |
| `Fairness.AverageIsExact` | examples/tcp/dctcp-example.cc:190 | for counters of at most 2^27 the average is less than one byte per flow below the true one, and never above |
| `Fairness.Counters.PrintFairness` | examples/tcp/dctcp-example.cc:178-243 | this for each of the three groups, and both aggregates modulo 2^64 |
| `Fairness.PrintedIsJain` | examples/tcp/dctcp-example.cc:178-222 | when no flow received more than 2^27 bytes, the printed fraction is Jain's index of the bytes received |

## Left out

- topsort.py generators: `topsort_levels_core` and `find_cycles` are modelled as if run to their end; a consumer that changes a yielded list, or the dictionaries, between two items is not.
- topsort.py and rad_util.py are written for Python 2; the model follows Python 2, where `raise StopIteration` ends a generator.
- test.py subprocess handling, reports, option and configuration reading: a job's process is an exit code that is fixed in advance, and always ends; exceptions inside a worker are not modelled. Setting the interrupt flag again changes nothing, so it is one event.
- shellcmd.py verbose output, `get_abbreviated_command` and `shlex.split`; the model starts from the token list. Opening a file, changing a directory and starting a process always succeed.
- ShellRun.Run: when the run fails at a `cd` only that the files closed so far are the first ones opened is stated, because the code leaves the others open.
- print-introspected-doxygen.cc printing and markup; `TypeId::IsChildOf` is an arbitrary relation.
- ConfigRecords.OutputDistinctIff: only for names without a slash and edges whose text determines their target, because a slash in a name can make two different paths look the same; the same holds for ConfigRecords.RecordsDistinctIff.
- check-style.py uncrustify, patch and git calls and `remove_trailing_whitespace_changes`. Patch, chunk and line objects are values and the current chunk is a position, so sharing of line objects between chunks is not captured; files use the newline character alone as line end.
- rad_util.py floats and formatting, and `random_vec`.
- BinaryNumerals.Bin2Int: does not model the blanks, signs and prefixes that Python's `int` also accepts, because no caller passes them; strings of binary digits only.
- GrayCode.GrayEncode: natural numbers only; Python's infinite two's complement for negative ones is not modelled.
- grid.py drawing, mouse handling and colours; `sort` is Python's own. Of a window on an unsorted list, with a range inside an earlier one, with an end in two ranges or at two events, or with a start after the end, only that the result is what the probes of the search give.
- Sender.Transfer: a socket that accepts 0 bytes forever although it has room keeps the loop from ending; the model covers every finite series of answers.
- tcp-large-transfer.cc network setup, and all other example programs: calls into ns-3 libraries that are not part of this model.
- dctcp-example.cc throughput printing, the division by the measurement window and the rounding of the printed doubles. The source only reserves its vectors; the model gives them their sizes. With no bytes received the index is 0/0 and nothing is said about it.
- bench-packets.cc, bench-simulator.cc and the waf tools other than shellcmd.py.
