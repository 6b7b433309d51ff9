# ns-3 tools: a Dafny model of the test driver, the shell runner and the utilities

This project models the parts of the ns-3 tree that carry real state: the worker
pool of the test driver, the shell pipeline parser and executor of the build
system, the enumeration of attribute paths, the unified-diff reader, writer and
rewriter of the style checker, and a few event-driven or arithmetic programs.
`dafny verify dfyconfig.toml` checks everything.

| file | what it models |
|---|---|
| `WorkerPool.dfy`, `WorkerCodes.dfy`, `TestDriver.dfy` | `test.py`: dispatcher, worker threads, two FIFO queues, break jobs and the interrupt flag |
| `ShellParser.dfy`, `ShellGrammar.dfy`, `ShellPlan.dfy`, `ShellRun.dfy`, `ShellTheorems.dfy`, `ShellPosix.dfy`, `ShellStreams.dfy` | `waf-tools/shellcmd.py`: token machine, pipe groups, `&&`/`\|\|`, `cd`, file handles |
| `TypeGraph.dfy`, `TypeEdges.dfy`, `TypeGatherer.dfy`, `TypePaths.dfy` | `utils/print-introspected-doxygen.cc`: depth-first enumeration with an ancestor stack |
| `PatchText.dfy`, `PatchForms.dfy`, `PatchReading.dfy`, `PatchRoundTrip.dfy`, `PatchRewrite.dfy`, `PatchWhole.dfy`, `PatchObjects.dfy` | `utils/check-style.py`: patch sets as text, as values and as shared line objects |
| `LargeTransfer.dfy` | `examples/tcp/tcp-large-transfer.cc`: partial writes from a cyclic buffer |
| `Bench.dfy` | `utils/bench-simulator.cc`: the self-rescheduling benchmark |
| `Fairness.dfy` | `examples/tcp/dctcp-example.cc`: Jain's index in 64-bit arithmetic |
| `Sender.dfy` | `examples/stats/wifi-example-apps.cc`: the packet sender |
| `Timeline.dfy` | `utils/grid.py`: binary-search windows over ranges and events |
| `Wrappers.dfy` | shared definitions |

## How the model is built

The worker pool is a transition system: every step of the main thread, of a worker
and of the signal handler is an action, and a schedule is any sequence of actions
each of which was possible when taken. The class in `TestDriver.dfy` holds the
driver's own fields; each of its methods performs one action in place and proves
that the fields are the state that the schedule so far leads to, so every theorem
about schedules holds of the object. A job's `returncode` starts as Python's
`False`, which equals 0; the model keeps a separate flag that says whether the job
was executed, since otherwise an unexecuted job could not be told from a passed one.
`WorkerCodes.dfy` states counters and verdict by the codes that the executions in the
schedule returned.

The shell executor writes a log of opens, process starts, waits and closes, with
exit codes given by an arbitrary function of the process number. `Plan` cuts a node
list into pipe groups, `Eval` gives a value to the list of groups, and the method
`Run` is proved to return that value and to leave exactly that log. `Run` has the
loop and the branches of the original; the original's variable `state` says whether
the list of started commands is non-empty, and the model asks the list instead.
The POSIX reading in `ShellPosix.dfy` is defined on the node list itself, without
the plan; a `cd` in it is an element that succeeds. `ShellGrammar.dfy` reads a token
list without the parser's states, and `ShellStreams.dfy` says what a log means in
terms of the commands.

The enumeration works over an arbitrary type registry, which gives each type an
ordered list of labelled edges. A trail is a sequence of edge numbers; the
reference notion is a walk whose types are pairwise distinct.

Patch sets are read and written line by line. A line is one written string with
its final newline, which the last line of a file may lack. `PatchReading.dfy` defines
what reading gives from the end of the file backwards, without the reader's variables.

## Where the code does not do what it says

* `remove_trailing_whitespace_changes` matches a greedy group followed by blanks, so
  the second group is always one character: only one dropped blank is restored,
  although the name promises all trailing whitespace
  (`TrailingChangeUndoneExactlyWhen`). It is not idempotent in
  general (`SecondPassExactlyWhen`, `SecondPassOverAllExactlyWhen`), and it can turn
  a patch that reads back as itself into one that does not: an added "++" facing an
  old "++ " becomes a line that looks like a file header
  (`RewriteReadsBackExactlyWhen`, `DoublingExample`).
* `Uniquefy` is documented to work in place but takes a copy, so what `DoGather`
  appended stays as it is, also over several roots. The program's own list names
  the pair of ns3::Node and ns3::Icmpv4L4Protocol twice, and that pair is recorded
  twice (`RepeatedAggregate`); so is a type that is child and aggregate of another
  (`ChildAndAggregate`), and a type that two roots reach by the same name
  (`TwoRootsShare`). `NoDuplicatesExactlyWhen` says for one root at a time, and
  `GatheredOnceExactlyWhen` for every list of roots, when nothing is.
* `run` in `shellcmd.py` gives `&&` and `||` a right-nested meaning and lets a `cd`
  vanish. Its value differs from the left-associative rule of section 2.9.3 of the
  POSIX Shell Command Language as soon as both operators occur, apart from the
  `&&` behind a `cd` at the head of the line (`LineAgreesWithPosixExactlyWhen`). The
  line `a || cd d && b` is one that differs (`ChdirInTheMiddle`).
* `cd` without a directory is accepted by `parse` and makes `run` raise
  (`LoneChdir`, `ChdirWithoutDirectory`); so does a line that ends in `cd dir`
  (`RunsCleanExactlyWhen`).
* `get_ranges` returns nothing when both ends of the window miss, even if ranges lie
  strictly inside it (`InnerRangeLost`), and may return ranges beyond the window
  when one end misses (`OuterRangeReturned`); `RangesInWindow` says when.
* Two events with the same time make `get_events` drop events inside some window;
  only strictly increasing times are safe (`EventsCompleteExactlyWhen`).
* The 64-bit terms of the fairness index wrap without notice; they are the true
  ones exactly while the true denominator is below 2^64
  (`Fairness.ExactExactlyWhen`).
* `WriteUntilBufferFull` never returns when the socket keeps reporting space while
  accepting nothing (`EndsExactlyWhen`).
* With no worker thread and at least one job the test driver waits forever
  (`DeadlockFreeExactlyWhen`). A negative `--jobs` brings this about: it passes
  `test.py:1396-1400` and makes `range(processors)` empty.

## Model

| member | source | states |
|---|---|---|
| WorkerPool.StepInv | test.py:969-1037 | every action of main thread, worker or signal keeps the pool invariant: FIFO order of references, each job in at most one place, break jobs behind real ones, breaks left plus exited workers equals breaks put, tallies equal to the sizes of the outcome classes |
| WorkerPool.AlwaysInv | test.py:1407-1724 | the invariant holds after every legal schedule, whatever the interleaving |
| WorkerPool.Owned | test.py:971-985 | the job a worker holds has left the input queue, is in no other worker's hands and is not yet reported |
| WorkerPool.ExactlyOnePlace | test.py:969-1037 | at every moment each job is in exactly one of: not yet dispatched, input queue, a worker, output queue, collected |
| WorkerPool.DeliveredExactlyOnce | test.py:1690-1693 | when the driver returns, every dispatched job and nothing else was collected, exactly once; both queues are empty, all workers have exited, each job keeps its name and skip mark and is resolved |
| WorkerPool.BreaksComeLast | test.py:1668-1671 | a worker takes a break job only after all real jobs were dispatched and dequeued |
| WorkerPool.EachStepCounts | test.py:969-1037 | a natural-number measure falls with every action |
| WorkerPool.EveryScheduleEnds | test.py:1407-1830 | every schedule has at most 6 · jobs + 7 · processors + 5 actions |
| WorkerPool.NeverStuck | test.py:970-977 | with a worker, or without jobs, a state satisfying the invariant is final or has a possible action |
| WorkerPool.HangsWithoutWorkers | test.py:1407-1410 | without workers and with jobs there is a schedule into a state that can never finish |
| WorkerPool.DeadlockFreeExactlyWhen | test.py:1407-1830 | no schedule can hang if and only if there is a worker or no job |
| WorkerPool.CountsAddUp | test.py:1690-1724 | at the end each counter is the number of jobs with that outcome, and the five counters plus the interrupted jobs equal total_tests |
| WorkerPool.VerdictExact | test.py:1913-1916 | the driver returns 0 if and only if no job was interrupted and each was skipped or really executed with exit code 0 |
| WorkerPool.StaysUnexecuted | test.py:983-996 | once the flag is up, a job that was not yet checked stays unexecuted through every action |
| WorkerPool.InterruptStopsWork | test.py:571-576 | for every continuation after the flag is up, every job not yet checked comes back unexecuted and counts as interrupted |
| WorkerPool.FewExecutionsAfterInterrupt | test.py:983-1027 | after the flag is up, in every continuation, the executions that still end plus those still going equal those going at that moment, at most one per processor; none is left when the driver returns |
| WorkerPool.NoInterruptNoLoss | test.py:983-1037 | if the flag was never raised, no job is interrupted and exactly the jobs not to be skipped were executed |
| WorkerCodes.FlagMeansSignal | test.py:571-576 | the flag is up exactly when a signal came in the schedule |
| WorkerCodes.OutputIsFifo | test.py:1037 | collected jobs and those in the output queue are the reported ones, in the order of their reports |
| WorkerCodes.HeapRemembers | test.py:983-1027 | a job has run exactly when an execution of it ended in the schedule, its return code is what that execution returned, and it is marked exactly when its worker saw the flag |
| WorkerCodes.ExecutionKeepsCode | test.py:1011-1025 | the code that the execution of a job returned is the job's return code from then on, in every continuation |
| WorkerCodes.OneFate | test.py:1690-1724 | at the end a job was flagged, skipped or executed, never two of these, and is classified by the code it returned |
| WorkerCodes.CountsByCode | test.py:1690-1724 | passed, failed, valgrind and crashed are the numbers of jobs whose execution returned 0, 1, 2 and anything else; skipped those to be skipped that no worker flagged; with the flagged ones they are all |
| WorkerCodes.VerdictByCode | test.py:1913-1916 | the driver returns 0 if and only if no job was flagged and the execution of every job not to be skipped returned 0 |
| TestDriver.Driver.constructor | test.py:1407-1418 | the fields of a new driver are the initial state |
| TestDriver.Driver.DispatchJob | test.py:1429-1463 | dispatching a job in place is the Dispatch action |
| TestDriver.Driver.PutBreakJob | test.py:1668-1671 | putting a break job in place is the PutBreak action |
| TestDriver.Driver.NextPhase | test.py:1668-1690 | leaving a loop of the main thread is the matching action |
| TestDriver.Driver.CollectJob | test.py:1690-1724 | taking and classifying a reported job is the Collect action |
| TestDriver.Driver.JoinThread | test.py:1829-1830 | joining one exited thread is the Join action |
| TestDriver.Driver.WorkerGet | test.py:970-977 | taking a job, and returning on a break job, is the Get action |
| TestDriver.Driver.WorkerCheckFlag | test.py:983-996 | the branch on thread_exit and is_skip is the CheckFlag action |
| TestDriver.Driver.WorkerFinish | test.py:1005-1027 | storing the return code of an executed job is the Finish action, and the job then holds that code |
| TestDriver.Driver.WorkerReport | test.py:1037 | putting the job on the output queue is the Report action |
| TestDriver.Driver.SigintHook | test.py:573-576 | raising the flag is the Interrupt action |
| TestDriver.Driver.RunTests | test.py:1407-1916 | under any scheduler that picks a possible action the driver terminates with empty queues, each job collected exactly once in the order of reports; counters and status are those that the codes in the schedule give |
| ShellParser.StepKeeps | waf-tools/shellcmd.py:136-199 | each accepted token keeps the relation between state, pending command and committed nodes |
| ShellParser.ParsedIsWellFormed | waf-tools/shellcmd.py:121-201 | every successful parse gives a well-formed list: operands alternate with operators, stdout is a pipe exactly before a pipe, `cd` is followed by `&&` or the end |
| ShellParser.RoundTrip | waf-tools/shellcmd.py:121-201 | parsing the token rendering of a well-formed list gives back that list |
| ShellParser.ParserImage | waf-tools/shellcmd.py:121-201 | a list is well formed if and only if some token list parses to it |
| ShellGrammar.AssignmentsAre | waf-tools/shellcmd.py:139-141 | which tokens are assignments, and to what, in terms of their characters |
| ShellGrammar.PutMeans | waf-tools/shellcmd.py:141 | a later assignment to a name wins and leaves the others alone |
| ShellGrammar.PutKeepsOrder | waf-tools/shellcmd.py:141 | a new name is listed last, the others keep their places |
| ShellGrammar.ParserReadsGrammar | waf-tools/shellcmd.py:121-201 | for every token list the token machine returns what the grammar reads, and fails exactly when there is no reading: no command, an assignment before `cd`, two directories, or a stream redirected twice |
| ShellRun.Pipeline.ParseCommand | waf-tools/shellcmd.py:121-201 | the imperative token loop computes the parse of the same tokens, including which token lists fail an assertion |
| ShellRun.Pipeline.CommitWith | waf-tools/shellcmd.py:101-104 | the pending command and then the operator are appended and nothing stays pending |
| ShellRun.Pipeline.ExecPipedCommands | waf-tools/shellcmd.py:203-212 | every process is waited for once, in order, and the value is the last exit code, although the loop asks for any non-zero one |
| ShellRun.Pipeline.CloseFiles | waf-tools/shellcmd.py:301-304 | closes exactly the opened files, each once, and not the null device |
| ShellRun.Pipeline.OpenTarget | waf-tools/shellcmd.py:252-274 | opens a file only for a named target other than the null device and records it for closing |
| ShellRun.Pipeline.OpenStdin | waf-tools/shellcmd.py:242-250 | standard input is the previous command's pipe, else the named file, else inherited |
| ShellRun.Pipeline.StartCommand | waf-tools/shellcmd.py:242-291 | one command is started with the right input, outputs and directory, after its opens |
| ShellRun.Pipeline.AddCommand | waf-tools/shellcmd.py:242-291 | starting a command extends the open group by it and keeps files, processes and log in step |
| ShellRun.Pipeline.FinishGroup | waf-tools/shellcmd.py:312-319 | a group is waited for and its files closed; the value is the group's value |
| ShellRun.Pipeline.Run | waf-tools/shellcmd.py:214-346 | the loop returns the right-nested value of the list of pipe groups, for every exit-code function, or raises where that evaluation does, and leaves exactly the log of that evaluation |
| ShellPlan.ChainGoesOn | waf-tools/shellcmd.py:312-346 | behind a group whose last command exits with c, for every integer c: `&&` evaluates and logs the rest if and only if c is 0, `\|\|` if and only if it is not, and otherwise the value is c |
| ShellTheorems.PlanKeepsJobs | waf-tools/shellcmd.py:222-231 | cutting into groups keeps all commands in order, each with the directory folded from the earlier `cd` nodes |
| ShellTheorems.StartedCommandsArePrefix | waf-tools/shellcmd.py:216-346 | the processes started are a prefix of the commands of the line, each once, in order and in its folded directory |
| ShellTheorems.PlanPipesFit | waf-tools/shellcmd.py:164-169 | in every group of a well-formed list all commands but the last write to a pipe |
| ShellTheorems.RunPipesConnected | waf-tools/shellcmd.py:242-250 | whenever a command reads from a pipe, the command started just before it in the group was started with its output to a pipe |
| ShellTheorems.GroupFilesClosed | waf-tools/shellcmd.py:313-319 | the files a completed group opens are exactly those it closes, each once, before the next group |
| ShellTheorems.RunFilesClosed | waf-tools/shellcmd.py:293-305 | when `run` returns, every file opened was closed exactly once |
| ShellStreams.RunWired | waf-tools/shellcmd.py:242-274 | in every run each command has the streams it names: its input file opened for reading, its outputs opened for writing in the order input, output, errors, the null device shared; nothing else is opened |
| ShellStreams.RunGroupsWaited | waf-tools/shellcmd.py:203-206 | in a completed group all commands are started first, then each is waited for once in order, and only then files are closed |
| ShellStreams.StartedExactly | waf-tools/shellcmd.py:222-346 | how many commands of a line are started, read off its nodes and the exit codes |
| ShellStreams.JoinIsDescent | waf-tools/shellcmd.py:228 | an absolute directory replaces the current one, a relative one is appended to it component by component |
| ShellStreams.JoinAssociative | waf-tools/shellcmd.py:228 | two `cd`s in a row are one into the joined directory |
| ShellTheorems.RunsCleanExactlyWhen | waf-tools/shellcmd.py:225-231 | a parsed line returns a value for every exit-code function if and only if no `cd` lacks its directory and none ends the line |
| ShellTheorems.LoneChdir | waf-tools/shellcmd.py:225-226 | the token list `cd` parses and then makes `run` pop from an empty list |
| ShellTheorems.ChdirWithoutDirectory | waf-tools/shellcmd.py:225-228 | `cd && b` parses and then makes `run` join a path with None |
| ShellPosix.EvalIsRun | waf-tools/shellcmd.py:222-346 | the value of a line that cannot raise, read off its nodes: a `cd` passes on, and the first operator behind a command that stops ends the line |
| ShellPosix.LineAgreesWithPosixExactlyWhen | waf-tools/shellcmd.py:214-346 | a parsed line without a bad `cd` has the status of section 2.9.3 of the POSIX Shell Command Language, for all exit codes, if and only if all its `&&` and `\|\|` are the same, where only the `&&` behind a `cd` at the head of the line does not count |
| ShellPosix.ChdirInTheMiddle | waf-tools/shellcmd.py:225-231 | `a \|\| cd d && b` with a succeeding and b failing: `run` gives 0, POSIX 1 |
| TypeGraph.UnseenShrinks | utils/print-introspected-doxygen.cc:449-453 | pushing an unprocessed type strictly lowers the number of unprocessed types, the termination measure |
| TypeEdges.EdgesExactly | utils/print-introspected-doxygen.cc:429-502 | an edge leaves a type if and only if one of its attributes points to the target (which is not Object) or contains it under that name, or the target descends from the type or is aggregated with it, on either side, and names the edge |
| TypeEdges.EdgesInOrder | utils/print-introspected-doxygen.cc:429-502 | attributes before children before aggregates, each in list order, each origin giving one edge and none left out |
| TypeGraph.TrailsExact | utils/print-introspected-doxygen.cc:420-503 | from any ancestor set, a trail is enumerated if and only if it is a walk that repeats no type and meets no ancestor |
| TypeGraph.TrailsInOrder | utils/print-introspected-doxygen.cc:428-502 | the enumeration is strictly increasing in depth-first order |
| TypeGraph.EnumerationIsExact | utils/print-introspected-doxygen.cc:420-503 | from a root, exactly the walks without repeated types are enumerated, in depth-first order, each once |
| TypeGatherer.EndIsLastStop | utils/print-introspected-doxygen.cc:341-346 | the type recorded with a trail is the last type of its walk and the path has one name per edge |
| TypeGatherer.StaticInformation.GetCurrentPath | utils/print-introspected-doxygen.cc:328-338 | the loop yields a slash before each name of the current path |
| TypeGatherer.StaticInformation.RecordOutput | utils/print-introspected-doxygen.cc:341-346 | one entry with the current path is appended and nothing else changes |
| TypeGatherer.StaticInformation.HasAlreadyBeenProcessed | utils/print-introspected-doxygen.cc:349-361 | true if and only if the type is on the ancestor stack |
| TypeGatherer.StaticInformation.Get | utils/print-introspected-doxygen.cc:364-377 | exactly the paths recorded for the type, in order |
| TypeGatherer.StaticInformation.Follow | utils/print-introspected-doxygen.cc:449-453 | pushing, recursing and popping leaves both stacks as on entry and appends the entries of the trails through that edge |
| TypeGatherer.StaticInformation.TryEdge | utils/print-introspected-doxygen.cc:471-480 | an attribute, child or aggregate that gives no edge is passed over, one that gives an edge is followed |
| TypeGatherer.StaticInformation.GatherAttributes | utils/print-introspected-doxygen.cc:429-468 | all pointer attributes (other than to Object) and container attributes are followed, in order |
| TypeGatherer.StaticInformation.GatherChildren | utils/print-introspected-doxygen.cc:469-481 | all registered children are followed, in registration order |
| TypeGatherer.StaticInformation.GatherAggregates | utils/print-introspected-doxygen.cc:482-502 | all aggregates of the type are followed, from either side of the pair |
| TypeGatherer.StaticInformation.DoGather | utils/print-introspected-doxygen.cc:420-503 | terminates on every finite registry, restores both stacks, and appends one entry per trail of the enumeration with its type and slash-joined path |
| TypeGatherer.StaticInformation.Gather | utils/print-introspected-doxygen.cc:411-417 | from empty stacks, appends the entries of all walks without repeated types and leaves the stacks empty |
| TypeGatherer.StaticInformation.GatherRoots | utils/print-introspected-doxygen.cc:558-562 | the program's loop over the root objects appends the entries of all roots, one root after the other |
| TypePaths.PathIsReadable | utils/print-introspected-doxygen.cc:328-338 | different lists of well-formed path elements give different slash-joined paths |
| TypePaths.PathStringJoins | utils/print-introspected-doxygen.cc:328-338 | the text of a path is the texts of its parts, one after the other |
| TypePaths.PathsOfJoins | utils/print-introspected-doxygen.cc:364-377 | selecting the paths of a type works entry by entry and keeps their order |
| TypePaths.SameNameSameTarget | utils/print-introspected-doxygen.cc:449-496 | with unique and slash-free names, edges of one type with the same name are the same edge |
| TypePaths.NoDuplicatesExactlyWhen | utils/print-introspected-doxygen.cc:394-417 | in a well-named registry no (type, path) is recorded twice from any single root if and only if no type links twice, as child or aggregate, to the same other type |
| TypePaths.EndsDiffer | utils/print-introspected-doxygen.cc:420-503 | without an edge that two types share to a third, simple paths from different types with the same names end at different types |
| TypePaths.GatheredOnceExactlyWhen | utils/print-introspected-doxygen.cc:394-417 | in a well-named registry, over every list of roots gathered into one output, (type, path) entries are pairwise different just when the roots are, if and only if no type links twice to the same other type and no two types have an edge to a third in common |
| TypePaths.ChildAndAggregate | utils/print-introspected-doxygen.cc:469-502 | a two-type registry in which an entry is recorded twice |
| TypePaths.RepeatedAggregate | utils/print-introspected-doxygen.cc:537-539 | the aggregate pair that the program lists twice is recorded twice |
| TypePaths.TwoRootsShare | utils/print-introspected-doxygen.cc:558-562 | a registry in which no root alone, but two roots together record an entry twice |
| PatchText.ReadDecimal | utils/check-style.py:359 | a number written in decimal and followed by a non-digit is read back with the same rest |
| PatchText.ClassifyLine | utils/check-style.py:214-227 | a written line is read as itself, unless it is a deleted line starting with "-- " or an added one starting with "++ ", which is read as a file name |
| PatchText.HeaderSays | utils/check-style.py:295-304 | the four groups of a written chunk header are the two positions and the numbers of source and destination lines |
| PatchText.ClassifyHeader | utils/check-style.py:356-411 | a written chunk header is recognised as a header with its positions |
| PatchForms.MatchTailExactly | utils/check-style.py:357-362 | a pattern of a prefix and the rest of the line matches exactly the prefix followed by newline-free text, with or without a newline at the end |
| PatchForms.ClassifyText | utils/check-style.py:367-411 | for every newline-free text, with and without its newline: "--- " and "+++ " name files, other "-" and "+" and all " " are body lines with the rest as text, and anything else is a chunk header or unknown |
| PatchForms.HeaderMatches | utils/check-style.py:359 | four numbers in the shape of a chunk header give these numbers, whatever follows |
| PatchForms.HeaderOnlyIf | utils/check-style.py:359 | every chunk header has that shape |
| PatchForms.ClassifyHeaderText | utils/check-style.py:377-381 | a line of that shape is a header with the first and third number |
| PatchForms.ClassifyInner | utils/check-style.py:357-362 | a line with a newline inside is a chunk header or unknown |
| PatchForms.NewlineIgnored | utils/check-style.py:367-411 | a line is taken for the same with and without its newline |
| PatchForms.UnterminatedRoundTrip | utils/check-style.py:356-411 | a written set whose last line lost its newline reads back if and only if no line clashes |
| PatchReading.ReadExactly | utils/check-style.py:356-411 | for every list of lines: the reader fails at the first line that cannot be placed, and else returns the patches read from the end of the file |
| PatchReading.ReadError | utils/check-style.py:367-411 | which error: a name or header before any file, a body line before any header, or an unknown form, whichever comes first |
| PatchRoundTrip.ReadPatches | utils/check-style.py:356-411 | reading a written patch set without clashing lines appends it to what was read before |
| PatchRoundTrip.WrittenCounts | utils/check-style.py:214-227 | how many file and body lines the written form seems to have, in terms of the clashing lines |
| PatchRoundTrip.RoundTripExactlyWhen | utils/check-style.py:356-411 | reading the written form gives back the same patch set if and only if no deleted line starts with "-- " and no added line with "++ " |
| PatchRewrite.HeaderCountsSides | utils/check-style.py:283-294 | the header counts are the numbers of lines in src() and dst(), which depend on line kinds only |
| PatchRewrite.RewriteIsSmall | utils/check-style.py:413-429 | on every chunk and even on an early return, deleted-only lines keep their text and every other line keeps it or gains one blank or tab, once |
| PatchRewrite.StepDecides | utils/check-style.py:421-426 | the final text of dst[i] is its old text repaired against src[i] as the earlier steps left it, in any chunk |
| PatchRewrite.AlignedResult | utils/check-style.py:418-426 | in an aligned chunk each line is repaired against the original text of its partner |
| PatchRewrite.WhitespaceChangeUndone | utils/check-style.py:413-429 | in an aligned chunk a change that only dropped one trailing blank or tab disappears and every other change stays |
| PatchRewrite.TrailingChangeUndoneExactlyWhen | utils/check-style.py:413-429 | of the changes in an aligned chunk that only dropped trailing blanks, exactly those are undone that dropped a single one |
| PatchRewrite.SecondPassExactlyWhen | utils/check-style.py:413-429 | a second pass changes nothing, whatever the texts, if and only if no context line within reach follows more added than deleted lines |
| PatchRewrite.SecondPassChangesNothing | utils/check-style.py:413-429 | in particular in chunks where each dst[i] is the object src[i] or an added line |
| PatchRewrite.SecondPassCanChange | utils/check-style.py:413-429 | a three-line chunk that a second pass changes |
| PatchWhole.RewriteAt | utils/check-style.py:416-429 | chunk number c is rewritten if all chunks before it fit, else untouched |
| PatchWhole.RewriteIsFlat | utils/check-style.py:416-429 | the rewrite of a patch set is that of its chunks in order; the early return crosses patches |
| PatchWhole.SecondPassOverAllExactlyWhen | utils/check-style.py:413-429 | over all chunks, early return included: a second pass changes nothing, whatever the texts, if and only if every reached chunk is settled |
| PatchWhole.ChunkClashesExactlyWhen | utils/check-style.py:421-426 | rewriting a chunk without header-like lines makes one if and only if some step meets the added text "++" while the old side reads "++ " |
| PatchWhole.RewriteReadsBackExactlyWhen | utils/check-style.py:356-429 | a patch set that reads back as itself still does after the rewrite if and only if no reached chunk has such a step |
| PatchWhole.AlignedReadsBackExactlyWhen | utils/check-style.py:356-429 | with aligned chunks, the same from the input alone: no reached chunk has an added "++" at the place of an old "++ " |
| PatchWhole.DoublingExample | utils/check-style.py:421-426 | a two-line chunk in which the rewrite makes a header-like line |
| PatchObjects.ParseLines | utils/check-style.py:356-411 | the reading loop computes the patch set of the lines, or the error of the first line that cannot be placed |
| PatchObjects.PatchChunkLine.AppendToLine | utils/check-style.py:189-195 | the text grows by the given string |
| PatchObjects.PatchChunk.Src | utils/check-style.py:263-272 | the old-side line objects themselves, in order |
| PatchObjects.PatchChunk.Dst | utils/check-style.py:273-282 | the new-side line objects themselves, in order |
| PatchObjects.PatchChunk.RemoveTrailingWhitespaceChanges | utils/check-style.py:418-426 | the in-place loop over shared objects leaves the texts of the value-level rewrite, and completes exactly when the old side is not longer |
| PatchObjects.RemoveAll | utils/check-style.py:413-429 | chunks up to and including the first whose old side is longer are rewritten, later ones are untouched |
| PatchObjects.BuildChunk | utils/check-style.py:389-409 | one fresh object per line, none shared, with the line's kind and text |
| PatchObjects.BuildChunks | utils/check-style.py:389-409 | no two chunks share a line object, so the rewrite's requirements hold of what was read |
| PatchObjects.RewriteParsed | utils/check-style.py:413-429 | parsed chunks, built as objects and rewritten in place, show the rewrite of the values |
| LargeTransfer.SameLetter | examples/tcp/tcp-large-transfer.cc:50-53 | the letter at a buffer offset is the letter of the stream position, because 1040 is a multiple of 26 |
| LargeTransfer.Flow.constructor | examples/tcp/tcp-large-transfer.cc:82-86 | the buffer holds the repeating alphabet and nothing was sent |
| LargeTransfer.Flow.SendNext | examples/tcp/tcp-large-transfer.cc:202-213 | one turn adds what the socket accepted and keeps the stream pattern; it offers the largest piece that fits the reported room, the rest of the buffer and the bytes left, so a willing socket has accepted exactly that piece |
| LargeTransfer.OfferIsLargest | examples/tcp/tcp-large-transfer.cc:202-206 | the piece offered fits the room, the 1040-byte buffer and the 2000000 bytes, and no longer piece fits all three |
| LargeTransfer.Flow.WriteUntilBufferFull | examples/tcp/tcp-large-transfer.cc:198-219 | for every endless stream of partial, empty and refused sends that lets the loop end, the call returns with the accepted stream equal to the alphabet pattern and within the total; it closes once exactly when all bytes are accepted, and else stops because there was no room or the last send was refused |
| LargeTransfer.EndsExactlyWhen | examples/tcp/tcp-large-transfer.cc:200-214 | the loop ends if and only if it is not the case that, with bytes left, every turn from some turn on reports room and accepts exactly 0 bytes |
| LargeTransfer.ProgressEachTurn | examples/tcp/tcp-large-transfer.cc:200-214 | if each send accepts a byte or fails, n turns advance at least n bytes |
| LargeTransfer.LoopEnds | examples/tcp/tcp-large-transfer.cc:200-214 | then the loop ends within one turn more than the bytes left, so WriteUntilBufferFull may be called |
| LargeTransfer.LoopCanSpin | examples/tcp/tcp-large-transfer.cc:200-214 | a socket that keeps room and accepts nothing keeps the loop going for ever |
| Bench.Benchmark.Cb | utils/bench-simulator.cc:133-145 | below the total one event is scheduled after the delay and counted, from the total on nothing changes |
| Bench.Benchmark.RunBench | utils/bench-simulator.cc:97-131 | for every delay stream and serving order, population + total callbacks are executed (none for population 0), the queue ends empty with count equal to total, its length after each callback is as stated, and exactly the first delays of the stream are used, in order |
| Fairness.FairnessTerms | examples/tcp/dctcp-example.cc:185-191 | with wrap-around at every step the loop gives sum and sum of squares modulo 2^64, and the two terms of the quotient are the true ones if and only if n · sumSquares < 2^64 |
| Fairness.ExactExactlyWhen | examples/tcp/dctcp-example.cc:182-191 | wrapped numerator and denominator equal the true ones if and only if the true denominator is below 2^64 |
| Fairness.JainBound | examples/tcp/dctcp-example.cc:191 | sum² ≤ n · sumSquares, with equality if and only if all counters are equal |
| Fairness.JainLower | examples/tcp/dctcp-example.cc:191 | sumSquares ≤ sum², so the index is at least 1/n |
| Fairness.NothingWraps | examples/tcp/dctcp-example.cc:182-191 | counters at most B with n · B < 2^32 are one case of that: every intermediate is below 2^64 |
| Fairness.FairnessIndex | examples/tcp/dctcp-example.cc:178-222 | for all counters with a true denominator below 2^64 the index is defined exactly when some counter is positive, lies between 1/n and 1, and is 1 exactly when all counters are equal |
| Fairness.WrapLosesTheIndex | examples/tcp/dctcp-example.cc:185-191 | ten counters of 2^32 make the 64-bit sum of squares zero |
| Sender.StepKeeps | examples/stats/wifi-example-apps.cc:98-149 | start, stop and send keep: at most one live event, which is m_sendEvent, and packets since the last start equal m_count, at most m_numPkts |
| Sender.EveryRun | examples/stats/wifi-example-apps.cc:98-149 | the same after every sequence of possible events |
| Sender.EveryRunOfFresh | examples/stats/wifi-example-apps.cc:98-149 | from a new application on, every sequence of possible events leaves at most one live send and as many packets since the last start as m_count, at most m_numPkts |
| Sender.Uninterrupted | examples/stats/wifi-example-apps.cc:124-149 | while only send events occur, each sends one packet and one is pending exactly while packets remain |
| Sender.SendsExactlyNumPkts | examples/stats/wifi-example-apps.cc:98-149 | after a start, an uninterrupted sequence of sends never exceeds m_numPkts and has nothing pending exactly when m_numPkts were sent |
| Sender.StoppedIsSilent | examples/stats/wifi-example-apps.cc:117-122 | after a stop no send event can occur before the next start |
| Sender.Application.OnStart | examples/stats/wifi-example-apps.cc:98-115 | the fields change as the start step says and the invariant is kept |
| Sender.Application.OnStop | examples/stats/wifi-example-apps.cc:117-122 | the fields change as the stop step says and the invariant is kept |
| Sender.Application.OnFire | examples/stats/wifi-example-apps.cc:124-149 | the fields change as the send step says and the invariant is kept |
| Timeline.SearchRange | utils/grid.py:100-117 | on sorted disjoint ranges the loop returns the index of the range that holds the key, or -1 exactly when there is none |
| Timeline.SearchFinds | utils/grid.py:100-117 | the same of the bisection as a function |
| Timeline.GetRanges | utils/grid.py:131-164 | window and bounds describe the same slice; on sorted disjoint ranges it is the naive filter, and misses no overlapping range, exactly under the conditions of RangesInWindow |
| Timeline.BothEndsHit | utils/grid.py:138-147 | with both ends in a range the window is exactly the overlapping ranges |
| Timeline.OneEndHit | utils/grid.py:138-147 | with one end in a range no overlapping range is missing |
| Timeline.CompleteExactlyWhen | utils/grid.py:138-147 | no overlapping range is missing if and only if an end hits or no range lies strictly inside |
| Timeline.ExactExactlyWhen | utils/grid.py:138-147 | for each pattern of hits and misses, the exact condition under which the window is the naive filter |
| Timeline.RangesInWindow | utils/grid.py:131-147 | for get_ranges as a whole, with hits described on the ranges themselves: exactly when the window is the naive filter, and exactly when no overlapping range is missing |
| Timeline.InnerRangeLost | utils/grid.py:140-141 | a window whose ends miss loses the range inside it |
| Timeline.OuterRangeReturned | utils/grid.py:142-143 | a window whose start misses returns a range in front of it |
| Timeline.SearchEvent | utils/grid.py:195-212 | on strictly increasing times the loop returns the place of the first event at or after the key |
| Timeline.GetEvents | utils/grid.py:220-239 | on strictly increasing times the result is every event in the window, then the next later event unless an event falls on the window's end |
| Timeline.EventsInWindow | utils/grid.py:220-239 | the same of the slice as a function; it is exactly the events in the window if and only if an event falls on its end or none comes later |
| Timeline.EventsCompleteExactlyWhen | utils/grid.py:195-239 | on any list, sorted or not: no window loses an event if and only if the times are strictly increasing |
| Timeline.EqualTimesLoseEvents | utils/grid.py:195-229 | three events at one time of which only one is returned |

## Left out

- test.py: process execution, reports, colours, options and path discovery; a job execution is an arbitrary return code, and job executions are taken to return.
- test.py: a second signal while the flag is up changes nothing and is not a step.
- test.py: example and Python-example jobs go through the same queue operations as test suites and are not kept apart.
- shellcmd.py: `shlex.split`, verbose output (which reads a variable before it is assigned), abbreviated commands, merging of the environment, and opens or process starts that fail.
- print-introspected-doxygen.cc: the type registry itself (child-of is an arbitrary relation on registered types), printing, and the sorting done by `Uniquefy` on its copy.
- check-style.py: uncrustify, difflib, calling `patch`, temporary files, and splitting a file's text into lines; regular expressions are functions on strings.
- TestDriver.Driver.RunTests: asks for a worker or an empty job list, since otherwise the call does not return (`HangsWithoutWorkers`).
- Fairness.FairnessIndex: the quotient is a real number; floating-point rounding and the averages are not modelled, and beyond a true denominator of 2^64 only the wrapped quotient is stated.
- LargeTransfer.Flow.WriteUntilBufferFull: asks that the loop ends, since otherwise the call does not return; `EndsExactlyWhen` says when that is.
- ShellPosix.LineAgreesWithPosixExactlyWhen: compares exit statuses; directories, and a `cd` that fails, are not compared.
- PatchWhole.ChunkClashesExactlyWhen: the condition names the text that the step reads, which earlier steps of the same pass may have written; `AlignedReadsBackExactlyWhen` names input texts only.
- Sender.Application.constructor: at least one packet, as the attribute's checker demands; times and packet contents are not modelled.
- LargeTransfer.Socket.Send: the socket is an endless stream of answers (room seen twice and bytes accepted); TCP itself is not modelled.
- Bench.Simulator.Serve: serves any pending event, so the schedulers' order is not modelled.
- Timeline.SearchRange: the midpoint is exact integer division; sortedness is a condition of the theorems, since the sort calls are library behaviour.
- grid.py: loading of records (each is appended to the list of its name, which is added when missing), bounds, drawing and mouse handling.
- wutils.py: the fallback relpath (one expression on two lists of path components) and the environment helpers (dictionary updates).
- The remaining example programs, other build tools and module scaffolding.
