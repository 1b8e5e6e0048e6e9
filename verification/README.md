# A verified model of the DAG runner

This Dafny project models the parts of the DAG runner whose correctness depends on whole runs, on
interleavings or on crashes, and proves what they promise. `dafny verify dfyconfig.toml` checks it.

| file | what it models |
|---|---|
| `digraph.dfy` | the dependency multigraph: walks, cycles, and why acyclicity gives progress |
| `node.dfy`, `graph.dfy` | steps and their continue decision; linking, cycle detection, preparing a retry |
| `engine.dfy` | a run as a state machine: one scanner, a worker for each started step, signal senders |
| `safety.dfy`, `runs.dfy` | the invariant; dependency order, retried runs, cancellation |
| `interleaving.dfy` | the concurrency cap and cancellation at any granularity |
| `decisions.dfy` | which dependencies let their dependents start, told from configuration, exit codes and logs |
| `results.dfy` | what becomes of a step, told from what happened to it |
| `verdict.dfy`, `outcome.dfy`, `execution.dfy` | what the final status and a step's success mean, with exceptional runs |
| `progress.dfy`, `liveness.dfy` | the termination measure, the launch bound, deadlock freedom, termination |
| `scope.dfy` | which output variables a step sees |
| `command.dfy`, `quoting.dfy`, `arguments.dfy` | the command tokenizer, what quoting means to it, and the argument codec |
| `lines.dfy`, `writer.dfy`, `history.dfy` | the status file reader and writer, lookup, compaction |
| `filecache.dfy` | the cache in front of the status files |
| `cron.dfy`, `pages.dfy` | the minute-tick loop; the paged listing |
| `collections.dfy`, `bytestrings.dfy`, `wrappers.dfy` | small helpers |

## How a run is modelled

`Engine.Next` is a function of a state and an action, and an action says who moves and what the
environment answers. The scanner moves by single reads and writes of shared state, so `runningCount`
is not a snapshot and the cancel flag can be set between any two of its reads. A worker moves by
single status changes. A run is any infinite sequence of actions; `Engine.At` is the state after the
first `t` of them. Statements about runs hold for every acyclic graph (which `Setup` guarantees),
every sequence and every `t`.

Assumptions:

- Each of these is one step: reading a dependency's status together with its continue decision;
  handling one execution result, up to the wait before a retry, which is a position of its own;
  marking a step that is still Running as a success; testing and setting the status of one node in
  `Signal`.
- `done` is not nil, no step repeats, nothing panics, and no node is Running before the first scan.
- The retry limit of a step is fixed; the source evaluates it when the step is set up.
- Setup, commands, teardown, preconditions and log searches are answers of the environment.
- Step names need not be unique: the lookup by name may return any node that bears the name.

The cap and the bound on starts after a cancellation (`interleaving.dfy`) need this only
for the scanner's own steps: there workers and signals may do anything but mark a step Running.

For the files: a status codec is a pair of functions such that decoding undoes encoding, no encoding
holds a line break (section 7 of RFC 8259) or is empty, and no proper prefix of an encoding parses;
where a statement needs it, no beginning of an encoding parses together with another one after it.
Timestamps in generated names all have the same length, and the file that holds a request is named
after it.
Appending reaches the disk byte by byte in order; removing and renaming are atomic. Glob prefixes hold
no metacharacters. A version of a file is its size, its modification second and its content.
Instants in the cron loop are whole seconds, and the registry does not change between ticks.

## What turned out differently from what one might expect

- A step may start after a dependency that failed and does not allow it: if the dependency had
  succeeded and its teardown failed before the start (`DependentMayFollowFailedTeardown`). That is
  the only way (`DependenciesAllowLaunch`, `NoFailingTeardownNoException`).
- A finished step can become unfinished: if a signal cancels it while its worker waits to retry it,
  the worker resets it to not started all the same (`CanceledStepMayBeReset`). That is the only way
  (`UnfinishedOnlyByRetry`, `FinishedForever`).
- A cancelled run may be reported as a success although its step was never executed
  (`CanceledRunMaySucceedUnexecuted`), and so may a run that is not cancelled, if no executor can be
  set up for a step whose failures are marked as successes (`UnbuiltStepMaySucceedUnexecuted`). A
  successful step went unexecuted exactly in these two ways (`SuccessMeansExecuted`).
- Crash safety of a compaction depends on the names of the files. Among names that the program
  generates it holds without exception (`CompactionOfGeneratedIsCrashSafe`). Only a foreign name that
  sorts between a file and its temporary name, and holds another status of the same request, can
  break it (`CompactionIsCrashSafe`, `ShadowedIsNotSafe`, `ForeignNameCanShadow`).
- A record written after a torn one is glued to it and lost (`WriteIsReadIfBoundary`). A record without its newline counts, unless its length is a multiple of the
  reader's buffer of 4096 bytes (`LastCompleteRecord`).
- Overlapping `LoadLatest` calls can serve superseded data, because the entry is read twice
  (`OverlappingCallsCanServeSupersededData`, and `ServedDataIsCurrent` for exactly when); calls that
  do not overlap cannot.
- A `LoadLatest` call panics if the entry is evicted or invalidated between its two reads, even if
  calls do not overlap (`EvictionCanPanic`, `SequentialCallPanicsIfDeleted`).
- A schedule with no later fire time is invoked at every tick, because the zero time is not after now
  (`ExhaustedScheduleIsInvokedAtEveryTick`).
- The page count of an empty list is 1, except that it is 0 for a limit of 1. A limit of 0, which the
  program accepts, makes the count panic (`PagesPartitionTheList`).

## Model

| member | source | states |
|---|---|---|
| ExecutionGraphs.ExecutionGraph.constructor | internal/digraph/scheduler/graph.go:54-58 | every node gets its own new identifier and its data is kept; no edges |
| ExecutionGraphs.ExecutionGraph.AddEdge | internal/digraph/scheduler/graph.go:236-239 | exactly one more edge from u to v in both maps, which stay mutually consistent |
| ExecutionGraphs.ExecutionGraph.FindStep | internal/digraph/scheduler/graph.go:241-248 | some node of that name, or nothing exactly if no node bears it |
| ExecutionGraphs.ExecutionGraph.Setup | internal/digraph/scheduler/graph.go:182-198 | a missing name is reported only if a step depends on it and nothing bears it; a cycle only if there is one; otherwise all dependencies are linked and the graph is acyclic |
| ExecutionGraphs.ExecutionGraph.HasCycle | internal/digraph/scheduler/graph.go:200-234 | true exactly if the dependency multigraph has a closed walk, self-loops and repeated edges included |
| ExecutionGraphs.LeftoverHasCycle | internal/digraph/scheduler/graph.go:227-231 | a degree left positive when nothing is ready means there is a closed walk |
| ExecutionGraphs.KahnEnds | internal/digraph/scheduler/graph.go:211-233 | when the queue is empty, some degree is positive exactly if the graph is cyclic |
| ExecutionGraphs.ExecutionGraph.SetupRetry | internal/digraph/scheduler/graph.go:148-180 | terminates without a visited set; clears exactly the failed and cancelled steps and all their descendants, and leaves the others as they were |
| ExecutionGraphs.WalkEndBound | internal/digraph/scheduler/graph.go:161-178 | the frontier of round k ends walks of k edges, so the number of rounds is bounded by the number of steps |
| ExecutionGraphs.NewExecutionGraph | internal/digraph/scheduler/graph.go:26-43 | hands out a graph of the steps, none started, with all names linked and no cycle, unless some step depends on a name that nothing bears, which is then named, or the steps link to a cyclic graph |
| ExecutionGraphs.CreateRetryExecutionGraph | internal/digraph/scheduler/graph.go:47-66 | the composition: refused only for a missing name or a cycle; otherwise cleared are exactly the affected steps, and no failed or cancelled step is left |
| Digraph.AcyclicSetHasSource | internal/digraph/scheduler/graph.go:193-195 | what rejecting cycles buys: every nonempty set of steps has one that depends on none of them |
| Digraph.SelfFeedingSetHasCycle | internal/digraph/scheduler/graph.go:193-195 | steps that each depend on one of themselves contain a closed walk |
| Nodes.DecisionIsFinal | internal/digraph/scheduler/node.go:79-136 | asking twice gives the same answer except in one case: the log could not be read the first time and matches the second; a yes is never taken back |
| Nodes.AnswerAsConfigured | internal/digraph/scheduler/node.go:79-136 | the first answer is what the configuration says of status, exit code and log; it is remembered unless the status alone settles it or the log could not be read, and later answers repeat it |
| Safety.NextKeepsInv | internal/digraph/scheduler/scheduler.go:112-260 | every action keeps the invariant tying statuses, workers and the scanner's knowledge; settled steps, finished and not waiting for a retry, stay settled and passed dependencies stay passed |
| Safety.UnfinishedOnlyByRetry | internal/digraph/scheduler/scheduler.go:195-201 | an action takes a finished step back exactly if the step was cancelled while its worker waited to retry it and this is that worker's move |
| Safety.WorkEvolves | internal/digraph/scheduler/scheduler.go:133-253 | a worker's step keeps its status and position in agreement, never unsettles a settled step, and does nothing to a step at rest |
| Safety.SignalEvolves | internal/digraph/scheduler/node.go:313-331 | a signal touches only its node, and that only if it is running |
| Safety.InspectionEffect | internal/digraph/scheduler/scheduler.go:454-488 | the readiness check lets a dependency pass exactly if it settles in favour of continuing, waits exactly while it is unfinished, and cancels only below a failed or cancelled one |
| Runs.FinishedForever | internal/digraph/scheduler/scheduler.go:112-260 | a finished step whose worker is not waiting to retry it never becomes startable or running again in the same run |
| Executions.CanceledStepMayBeReset | internal/digraph/scheduler/scheduler.go:195-201 | a concrete run in which a step cancelled during its retry wait is taken back to not started |
| Runs.LaunchIsSafe | internal/digraph/scheduler/scheduler.go:118-132 | whenever a step starts, it is at rest and not started, and each dependency has finished; the dependency lets it pass exactly unless its teardown failed after it had succeeded and nothing says to go on regardless |
| Runs.TornDownByEvent | internal/digraph/scheduler/scheduler.go:245-248 | the steps so remembered are exactly those of which an earlier action was a failing teardown while they were successful |
| Runs.DependenciesAllowLaunch | internal/digraph/scheduler/scheduler.go:452-490 | the two together: at a start a dependency allows it exactly if no such teardown happened or its own settings go on regardless |
| Runs.NoFailingTeardownNoException | internal/digraph/scheduler/scheduler.go:452-490 | without failing teardowns every dependency of every started step succeeded or is settled in favour of continuing |
| Decisions.LooksAreAsConfigured | internal/digraph/scheduler/scheduler.go:452-490 | every look at a dependency lets the step pass, wait, or be barred, and with which status, exactly as the dependency's configuration says of its status, its last exit code and what its log held when that was decided |
| Decisions.StartsAreAsConfigured | internal/digraph/scheduler/scheduler.go:118-132 | at every start each dependency succeeded, or failed or was skipped and its configuration excuses that, or was a success whose teardown failed |
| Decisions.NothingFollowsAFailure | internal/digraph/scheduler/scheduler.go:461-467 | if a step without such settings fails other than by its teardown, no step that depends on it ever starts |
| Runs.StartsFollowDependencies | internal/digraph/scheduler/scheduler.go:452-490 | every start of a dependency, retries included, precedes every start of its dependents |
| Runs.HeldBackForAReason | internal/digraph/scheduler/scheduler.go:454-488 | a step never started is finished exactly if a look at one of its dependencies has barred it |
| Runs.OldResultsStay | internal/digraph/scheduler/scheduler.go:119-121 | steps finished at the outset keep their state and have no worker at any time |
| Runs.BeginRetry | internal/digraph/scheduler/graph.go:47-66 | from the nodes of a run without running steps to a valid acyclic configuration and an initial state that is exactly what preparing those nodes leaves |
| Runs.RetryTouchesOnlyAffected | internal/digraph/scheduler/graph.go:47-66 | a retried run starts only steps that had not started or were affected; every other step keeps its old state throughout |
| Interleavings.CapIsRespected | internal/digraph/scheduler/scheduler.go:125-127 | under a positive cap no interleaving ever has more Running steps than the cap, whatever workers and signals do short of marking a step Running, repeating steps and any split of their work included |
| Interleavings.TurnKeepsCap | internal/digraph/scheduler/scheduler.go:554-562 | the count taken one read at a time never falls below the number still running among the nodes counted |
| Interleavings.FreeSlotIsUsed | internal/digraph/scheduler/scheduler.go:122-132 | if fewer steps than the cap run when a ready step has passed the check for cancellation, the step is started after the count, whatever happens meanwhile |
| Interleavings.RunsInterleave | internal/digraph/scheduler/scheduler.go:112-260 | the runs of the engine are such interleavings: only the scanner marks steps Running |
| Runs.CanceledForever | internal/digraph/scheduler/scheduler.go:548-552 | the cancel flag is never reset |
| Runs.FlagsByEvent | internal/digraph/scheduler/scheduler.go:548-552 | the cancel flag and the deadline are set exactly by the events that set them |
| Interleavings.AtMostOneStartAfterCancel | internal/digraph/scheduler/scheduler.go:122-132 | in any such interleaving, after the flag is set it stays set and at most one step starts, and only if the scanner was already past its check |
| Interleavings.CanceledScanLeaves | internal/digraph/scheduler/scheduler.go:112-124 | in any such interleaving, a cancelled scanner is out of both loops within a bounded number of its own moves |
| Interleavings.LooksAtNothingMore | internal/digraph/scheduler/scheduler.go:112-124 | a scanner that finds the flag set does not look at another step |
| Interleavings.SignalCancels | internal/digraph/scheduler/node.go:328-330 | a signal turns a running step, whatever its worker is at, into a cancelled one |
| Interleavings.StoppedForGood | internal/digraph/scheduler/scheduler.go:379-411 | after a cancellation, with no start under way, a step that does not run never runs again |
| Progress.WorkLowersWeight | internal/digraph/scheduler/scheduler.go:175-253 | each step of a live worker lowers the measure, retries included |
| Progress.NextAddsNoWork | internal/digraph/scheduler/scheduler.go:112-260 | no action raises the measure or the launch budget of any step |
| Progress.LaunchesAreBounded | internal/digraph/scheduler/scheduler.go:191-207 | for each step, launches made plus launches still allowed never exceed one plus its retries if it had not started, and zero if it had finished |
| Progress.TotalLaunchesAreBounded | internal/digraph/scheduler/scheduler.go:191-207 | all launches together never exceed the sum of these |
| Progress.ClearedStepHasAllItsStarts | internal/digraph/scheduler/data.go:331-336 | a step cleared for a retried run has its start and all its retries again |
| Liveness.GoalExists | internal/digraph/scheduler/scheduler.go:452-490 | with no worker at work and nothing cancelled, either all is finished or some unstarted step has only finished dependencies |
| Liveness.ScanApproaches | internal/digraph/scheduler/scheduler.go:112-132 | then each scanner move leaves less to do or brings it nearer to that step: no deadlock |
| Liveness.ScannerGetsDone | internal/digraph/scheduler/scheduler.go:112-260 | left alone, the scanner starts, bars or concludes something |
| Liveness.FairRunEnds | internal/digraph/scheduler/scheduler.go:112-262 | every fair run that is never cancelled ends with every step finished |
| Liveness.EveryFairRunEnds | internal/digraph/scheduler/scheduler.go:112-262 | every fair run ends, cancelled or not |
| Verdicts.FinalVerdict | internal/digraph/scheduler/scheduler.go:264-295 | at the end of an undisturbed run from a graph without failures: the last error is set exactly if a step failed, cancelled steps have a failed ancestor, the status is success exactly if all steps succeeded or were skipped, and exactly the matching handler runs, then the exit handler |
| Verdicts.NextKeepsExplained | internal/digraph/scheduler/scheduler.go:300-305 | no undisturbed action lets the last error and the failed steps disagree or cancels a step without a failed ancestor |
| Verdicts.PreparedIsClean | internal/digraph/scheduler/graph.go:165-170 | a graph prepared for a retry holds no failed or cancelled step |
| Outcomes.EveryRunHasItsOutcome | internal/digraph/scheduler/scheduler.go:414-429 | every run begun without failures, cancelled and timed out ones included, is over with a status that is success exactly if all steps succeeded or were skipped, else cancelled if it was cancelled, else a failure; the matching handler and the exit handler follow |
| Outcomes.NextKeepsAccounted | internal/digraph/scheduler/scheduler.go:176-213 | no action sets the last error without spoiling a step for good, and none fails or cancels a step of an uncancelled run without setting it |
| Results.AttemptEnds | internal/digraph/scheduler/scheduler.go:152-249 | in a run that is not cancelled, an attempt that is over is skipped, failed, cancelled by the deadline, to be retried while retries are left, or a success, exactly as its preconditions, setup, execution and teardown turned out |
| Results.SucceedsExactly | internal/digraph/scheduler/scheduler.go:240-248 | without markSuccess such a step is a success exactly if its execution succeeded and its teardown did not fail |
| Results.OnlyForgivenFailuresSucceed | internal/digraph/scheduler/scheduler.go:203-209 | in any run a step whose last execution failed is a success only if failures are marked as successes and failure is allowed, the exit code is listed, or a pattern was found in the log |
| Results.FailedExecution | internal/digraph/scheduler/scheduler.go:178-213 | a failed execution that nobody has cancelled is retried exactly while retries are left; otherwise the step failed, or was cancelled after the deadline, and the last error is set, unless the failure is forgiven |
| Results.FailedExecutionOfCanceled | internal/digraph/scheduler/scheduler.go:182-193 | after a cancellation it changes no status and is not retried; the last error is set if no signal had reached the step |
| Results.CanceledStepStays | internal/digraph/scheduler/scheduler.go:181-185 | a cancelled step stays cancelled through execution and end, except for failing preconditions, setup or teardown and the reset after a retry wait |
| Executions.SuccessMeansExecuted | internal/digraph/scheduler/scheduler.go:178-243 | a step that became successful was started, and in its last attempt its command ran exactly unless the worker, when about to run it, found the cancel flag set or could not set up an executor |
| Executions.CanceledRunMaySucceedUnexecuted | internal/digraph/scheduler/scheduler.go:240-243 | a concrete cancelled run reported as success whose only step was never executed |
| Executions.UnbuiltStepMaySucceedUnexecuted | internal/digraph/scheduler/node.go:142-146 | the same without any cancellation: no executor could be set up and failures are marked as successes |
| Executions.DependentMayFollowFailedTeardown | internal/digraph/scheduler/scheduler.go:245-248 | a concrete run in which a step starts after a dependency whose teardown failed |
| Scope.SetupContext | internal/digraph/scheduler/scheduler.go:322-346 | the variables seen are exactly those defined by the step and its ancestors, each with the value of a definition at the least dependency distance |
| Scope.UpstreamByWalk | internal/digraph/scheduler/scheduler.go:325-335 | the distances in question are lengths of chains of dependencies that end at the step |
| Scope.LoadOutputVariables | internal/digraph/context_step.go:43-52 | the union of both, the variables already loaded winning |
| Scope.HeadIsNearest | internal/digraph/scheduler/scheduler.go:329-335 | a node popped for the first time is popped at its least distance, although nodes are marked when popped, not when queued |
| Command.ParsePipedCommand | internal/cmdutil/cmd.go:147-205 | computes the pipeline of the token list characterised below |
| Quoting.TokensAreTheSpans | internal/cmdutil/cmd.go:151-185 | for every string the tokens are, in order, its breaking pipes and the longest stretches without a break, where a break is a pipe or white space after an even number of backslashes, with an even number of live double quotes and of live backticks before it |
| Quoting.ModeByCounting | internal/cmdutil/cmd.go:148-180 | the three flags of the tokenizer say exactly whether those numbers are odd |
| Command.SplitCommand | internal/cmdutil/cmd.go:102-129 | an error exactly if there is no command; otherwise command and arguments are the flattened pipeline |
| Command.TokensAreTheSpelling | internal/cmdutil/cmd.go:151-185 | a list is the token list of a string exactly if the string spells it: its words and pipes verbatim, white space between, only the last word possibly left open |
| Command.SplitsAtEveryPipe | internal/cmdutil/cmd.go:187-202 | a pipe separates the commands on its left from those on its right, whatever these are |
| Command.OneCommand | internal/cmdutil/cmd.go:187-202 | tokens without a pipe are one command, or none if there are none; with the line above this determines the splitting |
| Command.FlattenNext | internal/cmdutil/cmd.go:109-116 | the flat list has exactly one pipe before each command but the first |
| Command.FlattenThenSplit | internal/cmdutil/cmd.go:109-116 | splitting the flat list at its pipes recovers the pipeline |
| Command.PipelineSurvivesJoining | internal/cmdutil/cmd.go:102-129 | for every string, joining the flat list with spaces and parsing again yields the same list and pipeline, whatever was left open |
| Arguments.SplitUndoesJoin | internal/cmdutil/cmd.go:16-28 | splitting undoes joining exactly for a command without a space and a nonempty list of arguments without the delimiter |
| Arguments.JoinUndoesSplit | internal/cmdutil/cmd.go:16-28 | joining undoes splitting exactly for strings with a space |
| Arguments.NoStraddling | internal/cmdutil/cmd.go:11-12 | the delimiter has no border, so none of its occurrences straddles the end of an argument |
| Lines.ReadLineFrom | internal/persistence/jsondb/jsondb.go:472-489 | the text up to the next newline without its carriage return, for any line length; end of file exactly if the rest is empty or ends where a full buffer ends |
| Lines.ParseStatusFile | internal/persistence/jsondb/jsondb.go:403-433 | terminates, visits the lines in order by offset and returns the last record that parses |
| Lines.RestDroppedByLength | internal/persistence/jsondb/jsondb.go:478-487 | without carriage returns, an unterminated rest is lost exactly if its length is a multiple of the buffer |
| Lines.ReturnedLineAfterBoundary | internal/persistence/jsondb/jsondb.go:478-487 | a record ended by a carriage return and a newline is read like one ended by a newline |
| Lines.WritesAreRead | internal/persistence/jsondb/writer.go:57-83 | after complete writes to a file that ended cleanly, the last status is what is read |
| Lines.LastCompleteRecord | internal/persistence/jsondb/jsondb.go:403-433 | after complete writes and a torn one, the last complete record is read; the torn one counts only if at most its newline is missing and its length does not hit the buffer |
| Lines.WriteToAnyFile | internal/persistence/jsondb/writer.go:57-83 | what a write to a file in any condition amounts to; after a torn rest the record is glued to it |
| Lines.WriteIsReadIfBoundary | internal/persistence/jsondb/writer.go:57-83 | a write to a file that at most ends with a torn record is read exactly if the file ended cleanly or said the same before: the write after a torn one is lost |
| Lines.TornWriteLosesTheNext | internal/persistence/jsondb/writer.go:57-83 | a concrete file, in an encoding that meets all assumptions, of which a write leaves nothing readable |
| Writers.Writer.Open | internal/persistence/jsondb/writer.go:34-54 | refused once closed; if the file system fails, nothing changes; otherwise a fresh buffer, file untouched |
| Writers.Writer.Write | internal/persistence/jsondb/writer.go:57-83 | succeeds exactly on an open, unbroken writer without fault and then adds one record; each error case changes what it says and nothing else |
| Writers.Writer.Close | internal/persistence/jsondb/writer.go:86-113 | closed for good, file untouched; an error exactly at the first closing of an opened writer whose last write failed or whose file cannot be synced or closed |
| Writers.SessionIsRead | internal/persistence/jsondb/writer.go:34-113 | whatever was called on a writer, the reader returns the last status written, else what it returned before, or the one status whose write failed after its text was complete |
| History.FindByRequestID | internal/persistence/jsondb/jsondb.go:186-212 | the greatest name of the pattern whose file says something of the request, with what it says, or nothing exactly if no such file exists |
| History.MatchesAreGlobbed | internal/persistence/jsondb/jsondb.go:389-391 | a name matches exactly if it is the prefix, anything, and the extension |
| History.GlobDescending | internal/persistence/jsondb/jsondb.go:191-196 | exactly the matching names, in descending order |
| History.TempIsSeen | internal/persistence/jsondb/jsondb.go:389-391 | the temporary name of a compaction matches the pattern and sorts after its target |
| History.CompactionIsCrashSafe | internal/persistence/jsondb/jsondb.go:245-280 | at every moment of a compaction, torn temporary writes included, every lookup by request id returns the status it returned before, unless the request is shadowed |
| History.NothingGeneratedBetween | internal/persistence/jsondb/jsondb.go:341-349 | no name the program generates for a request, temporary ones included, sorts between another one and its temporary name |
| History.CompactionOfGeneratedIsCrashSafe | internal/persistence/jsondb/jsondb.go:245-280 | among files that the program has named, crash safety holds without exception |
| History.ShadowedIsNotSafe | internal/persistence/jsondb/jsondb.go:245-280 | if the request is shadowed, the complete temporary file changes the answer |
| History.ForeignNameCanShadow | internal/persistence/jsondb/jsondb.go:389-391 | a concrete directory, with a name that the program does not generate, in which a request is shadowed |
| History.Store.Compact | internal/persistence/jsondb/jsondb.go:245-280 | leaves the file with its last status alone, after what a stale temporary file held; whichever file operation fails, every directory on the way and the last one are moments of the compaction |
| History.Store.Update | internal/persistence/jsondb/jsondb.go:96-117 | appends the record, or as much of it as the file system lets through, to exactly the file the lookup finds; not found exactly if the lookup finds none |
| History.UpdateIsFound | internal/persistence/jsondb/jsondb.go:96-117 | after an update of a file that ended cleanly, the lookup returns the new status from the same file |
| History.UpdateIsLocal | internal/persistence/jsondb/jsondb.go:96-117 | such an update changes no answer about another request |
| FileCache.Cache.LoadLatest | internal/persistence/filecache/filecache.go:93-113 | which of entry and loader is served, and what is then cached, in every case including errors; other files' entries stay |
| FileCache.UninterruptedCallIsLoadLatest | internal/persistence/filecache/filecache.go:93-113 | the moves of a call that nothing interrupts add up to exactly that |
| FileCache.UnchangedFileIsNotLoaded | internal/persistence/filecache/filecache.go:133-142 | a call serves the entry without loading while the file is as it was when the entry's size and time were taken |
| FileCache.Cache.Store | internal/persistence/filecache/filecache.go:82-86 | the entry carries the size and time seen before loading |
| FileCache.Cache.Invalidate | internal/persistence/filecache/filecache.go:88-91 | exactly that entry is gone |
| FileCache.ServedDataIsCurrent | internal/persistence/filecache/filecache.go:110-112 | under any interleaving, a call that found the entry fresh panics exactly if the last change of the entry since its first read was a deletion, and serves data older than the file was when inspected exactly if that change was the store of such data |
| FileCache.LoadedDataIsCurrent | internal/persistence/filecache/filecache.go:101-108 | a call that found the entry stale serves data at least as recent as the file was when inspected, even if a write falls between |
| FileCache.SequentialCallsAreCoherent | internal/persistence/filecache/filecache.go:93-113 | calls that do not overlap never serve superseded data, wherever writes, invalidations and evictions fall |
| FileCache.SequentialCallPanicsIfDeleted | internal/persistence/filecache/filecache.go:110-111 | such a call panics exactly if the entry was invalidated or evicted between its two reads |
| FileCache.EvictionCanPanic | internal/persistence/filecache/filecache.go:60-76 | a concrete panic without overlapping calls and without any write |
| FileCache.OverlappingCallsCanServeSupersededData | internal/persistence/filecache/filecache.go:110-112 | a concrete interleaving of three calls and a write that serves superseded data |
| Cron.NextJobs | internal/scheduler/manager.go:76-107 | the list of the jobs counted below |
| Cron.JobCount | internal/scheduler/manager.go:82-104 | exactly one job for each position of each start, stop and restart list of each DAG that is not suspended, with the next time of the schedule there, and no other |
| Cron.EntriesAreInOrder | internal/scheduler/manager.go:91-103 | the jobs come by DAG, then by list, then by position |
| Cron.RunTick | internal/scheduler/scheduler.go:161-192 | sorting stably and stopping at the first job still to come invokes exactly the jobs that are due, in order of their times and, among equal times, of their entries |
| Cron.StoppingIsFiltering | internal/scheduler/scheduler.go:168-175 | in the sorted list, breaking at the first job still to come equals filtering by next time not after now |
| Cron.RunTicks | internal/scheduler/scheduler.go:137-159 | what any number of ticks invoke, the first in the minute of the start |
| Cron.TickInvokes | internal/scheduler/scheduler.go:162-174 | at one tick a schedule of the registry is invoked exactly if its DAG is not suspended and it fires then or has no fire time left |
| Cron.ExactlyOnce | internal/scheduler/scheduler.go:137-196 | for every place in the registry: each fire time on a whole minute from the first tick to the last of the schedule there is invoked exactly once, no other time is, and nothing of a suspended DAG |
| Cron.ExhaustedScheduleIsInvokedAtEveryTick | internal/scheduler/scheduler.go:172-175 | a schedule of the registry is invoked for the zero time exactly once at each tick at which it has no later fire time |
| Pages.ListPagination | internal/persistence/local/dag_store.go:161-222 | one walk yields, of the filtered list, the stretch from (page - 1) * limit to page * limit, the size of the whole, and the number of unreadable entries |
| Pages.SelectedOfSum | internal/persistence/local/dag_store.go:168-211 | the filtered list of one directory part after another is one filtered list after the other |
| Pages.OneEntry | internal/persistence/local/dag_store.go:173-206 | an entry is in it exactly if it is a readable YAML file that the filters given let through; with the line above this determines the list |
| Pages.PagesPartitionTheList | internal/client/client.go:282-284 | under a positive limit the pages up to the page count are the whole list in order, none lost or repeated, and exactly those pages show something; under any other no page shows anything, and the count panics exactly for a limit of zero |

## Left out

- Repeat policies: a repeating step can return while still Running after a cancellation, so the statements about the end of a run do not hold for it; the concurrency cap and the bound on starts after a cancellation do.
- Node and SafeData as mutable objects: a node's data is a value in the graph's map and in the engine's state, because every update of it is a step that interleaves with others; locks and aliasing are not captured.
- Dry mode, in which no step is set up, executed or torn down and every started step whose preconditions hold succeeds.
- A nil `done` channel, panics and their recovery, log messages, timestamps and the done counter.
- Executors, process signals, log files, retry intervals and the escalation of signals: answers of the environment, or nothing.
- The results of the outcome handlers themselves, which can still set the last error after the status is decided, and the status of a run not started yet.
- Atomicity finer than the assumptions above: a signal between reading a status and writing the next one, with no wait between.
- Executions.SuccessMeansExecuted: says that the command was run, not that it succeeded, because a failed step may be configured to be marked as a success.
- Lines.ParseStatusFile: does not model errors of opening, seeking or reading the file, because they end the call before any record counts.
- History.Store.Compact: promises crash safety only for a directory without a stale temporary file; with one it says what the final file holds.
- History: listing recent statuses, today's status, renaming and removing old files.
- FileCache.Cache.Store: does not model the item counter and the expiry time, because a deletion may come at any time instead.
- FileCache.Cache.Invalidate: does not model the item counter, which does not track the number of entries.
- Command: invalid UTF-8 in the input, and escaping for a shell.
- Cron.RunTick: does not model time zones, the clock and timer, changes of the registry, the order of its traversal, or what an invoked job does.
- Pages.ListPagination: does not model errors of walking the directory, which end the listing; entries and filters are given as answers.
- The loop that reads the status of each listed DAG, which only adds an easy member.
- HTTP handlers, the web interface, configuration, YAML decoding, and parameter parsing by regular expressions.
