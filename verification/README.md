# RDKPerf, verified

RDKPerf times elements of a program and builds, per thread, a call tree of them. The tree grows either inside the
profiled process, where record objects open and close elements, or in a service that rebuilds it from messages. A timer
reports the process and deletes the trees that have gone quiet. This project models that machinery in Dafny and proves
what keeps the tree, the stack of pointers into it, the records outside it and the timer consistent with each other.

## How it is built

Values first: `NodeStats` (the figures of one node as a function of its calls), `Intervals` (what each report of a node
shows), `CallTree` (one tree as a map from name paths to calls), `Reporting` (the printed lines), `Words` (machine
arithmetic) and `MapSums`.

Objects over the heap, in the form of the program and proved to do what the values say: `PerfTrees` (nodes and trees),
`Processes` (the thread map and the clock), `PerfRecords` (record objects and the reports of the process), `Service` (the
message handlers and the receiving loop), `RemoteClient` (the records that send messages), `Wire` (the bytes of a message)
and `Timer` (the counters of the timer). Ghost fields give the value an object stands for; `Valid` ties them to the real
fields.

Whole runs: `InProcess` is the in-process form as a transition system over any interleaving of threads (each operation
runs under one lock, so it is one step), and `Records` the invariant between live records and stack entries. On top of it
stand `Lifetimes` (what is never lost, what is removed), `Nesting`, `NestedTime`, `ReportClock` and `Cutting`.
`Independence`, `ServiceReports` and `Remote` do the same for the service and compare the two forms. `TreeReports` reads
back all reports of one tree, and `TreeRuns` takes what holds of one tree to the runs of both forms. `TimerStop`
interleaves the timer thread with any number of threads that signal or stop it, and `TaskLoop` counts its rounds.

## Main results

- No live record ever points to a deleted node, in any run and any order of ends, as a transition system
  (`RecordsAreNeverStranded`) and for the objects (`PerfModule.ReportProcess`).
- All along a run, the service has the trees of the in-process form **if and only if** the run is properly nested and
  every record ends on the thread that started it (`RemoteFollowsExactlyWhenNestedAndOwn`); what names too long for a
  message do to the trees is exact (`CutTreesMerge`).
- The service is a product of one automaton per thread, so interleaving does not matter to the trees
  (`InterleavingDoesNotMatter`), and to the clocks exactly as far as it changes which tree came last
  (`InterleavingsDifferOnlyInMarks`).
- In a nested run with a clock that never runs back, no time field wraps and no node's children account for more time
  than the node, nor all of them for more than there has been (`ChildrenFitInTheirParent`).
- An out-of-order end leaves an entry that stays for ever and keeps its tree from ever being removed
  (`OutOfOrderEndIsForever`); the stack is empty exactly when there was none and no record is live.
- A message is filled and read byte by byte: every message arrives, names cut, except that of a threshold the service
  always reads zero (`DataArrives`).
- A report prints every node once, in path order, and can be read back into the tree (`ReportDeterminesTree`); all
  reports of a tree, read back, each show the calls of their interval and add up to its present totals, in every run of
  either form (`RunTellsItsTrees`, `MessagesTellTheirTrees`).
- The timer thread runs one loop body per round and waits once after it (`EveryRoundHasOneBody`). A stop that comes
  after the timer thread began is always heard, within one more loop body and nine more steps; one that
  comes before is lost (`OnlyLateStopsCount`, `StoppedTaskRunsOut`).

## Where the code is not what one would expect

The model does what the code does.

- The root is created with a count of one (src/rdk_perf_node.cpp:42); README.md:104 of the repository shows zero.
- A minimum above 1,000,000,000 us is never recorded (`ShortestIsCappedMinimum` says exactly when, and
  `LongCallIsNotTheMinimum` shows a node).
- A close that is not of the top records its call but pops nothing (src/rdk_perf_tree.cpp:123; `OutOfOrderEndOccurs`
  shows such a run).
- A tree can be removed with calls that no report has shown: those still open at its last report
  (`CallOpenAtReportIsLost`, and `LostCallOccurs` for a run; `RemovalRule` says how many).
- A record can be ended by another thread (rdkperf/rdk_perf.cpp:464). In process that works; the service leaves the tree
  of the starting thread as it is (`ForeignEndDiffers`, and `ForeignEndOccurs` for a run).
- A threshold is written through one member of the message union and read through another
  (src/rdk_perf_msgqueue.cpp:112-117, service/perfservice.cpp:102), so its value never arrives (`ThresholdIsLost`).
- In the steady state the timer reports every 601 ticks of ten seconds, not every ten minutes (README.md:98).
- The activity counters are compared in 64 bits, so 2^64 opens since a report look like none; the removal rule says so.
- `Task` never looks at what `Wait` returns and sets its flag on entry, so a stop that runs before it is lost
  (`EarlyStopIsLost`).

## Model

| member | source | states |
|---|---|---|
| NodeStats.LongestIsMaximum | src/rdk_perf_node.cpp:150-152 | the recorded maximum is an upper bound of all calls and is one of them, or zero without calls |
| NodeStats.ShortestIsCappedMinimum | src/rdk_perf_node.h:34 | the recorded minimum is the least call exactly when that is at most 1,000,000,000, and that preset value otherwise |
| NodeStats.LongCallIsNotTheMinimum | src/rdk_perf_node.h:34 | a node whose only call took 1,000,000,001 us shows a minimum of 1,000,000,000 |
| NodeStats.MeaningAfterCall | src/rdk_perf_node.cpp:141-174 | how one more call changes every figure, for figures defined from the whole list of calls |
| NodeStats.IntervalsPartitionTheCalls | src/rdk_perf_node.cpp:141-187 | for any mix of calls, full and delta-only reports: printed intervals and the current one add up to the totals, and their extremes are the lifetime extremes |
| Intervals.ReportsShowTheirIntervals | src/rdk_perf_node.cpp:141-187 | for any mix of calls and reports: count, times, maximum and minimum that each full report shows are those of exactly the calls since the full report before it, and the present ones those of the calls since the last; without calls the maximum is 0 and the minimum 1,000,000,000 |
| Intervals.ResetKeepsTotals | src/rdk_perf_node.cpp:176-187 | a report sets each interval figure back and leaves the totals and the last call as they are |
| Intervals.MaximumIsReset | src/rdk_perf_node.cpp:180 | after a call of 100, a report and a call of 5 the maximum of the interval is 5 |
| CallTree.RunIsWellFormed | src/rdk_perf_tree.cpp:73-136 | after any operations, balanced or not, the node paths are closed under prefixes and the top is one of them, so the stack runs from the root down child links |
| CallTree.NodesArePrefixesOfStacks | src/rdk_perf_tree.cpp:45-71 | the node paths of a tree are exactly the prefixes of all stacks it has ever had |
| CallTree.NodesHoldTheirCalls | src/rdk_perf_node.cpp:97-174 | each node holds exactly the calls recorded at its path, in order |
| CallTree.ReportedAtMostCalls | src/rdk_perf_node.cpp:176-187 | what reports have shown never exceeds what was recorded |
| Reporting.VisitIsSortedListing | src/rdk_perf_node.cpp:233-238 | the printing reaches exactly the nodes at and below a path, each once, in preorder with children in key order |
| Reporting.NameLtIsLower | src/rdk_perf_node.h:92 | the key order of children is that of C++ strings: a proper prefix first, else the lower character at the first difference |
| Reporting.VisitIsInKeyOrder | src/rdk_perf_node.cpp:233-238 | a node is printed before all below it, and of two siblings the one with the lower name first |
| Reporting.AComesBeforeB | src/rdk_perf_node.cpp:233-238 | children "a" and "b" are visited in this order |
| Reporting.RebuildChained | src/rdk_perf_node.cpp:189-245 | reading the (level, name, statistics) lines back gives each printed node at its own path |
| Reporting.ReportDeterminesTree | src/rdk_perf_node.cpp:189-245 | the lines of a full report determine every node of the tree and its statistics |
| Reporting.NodeReportDeterminesSubtree | src/rdk_perf_record.cpp:97-104 | the report of one node has a line for each node at and below it, the first for the node itself, and can be read back into them |
| TreeReports.ReportsPartitionTheCalls | src/rdk_perf_node.cpp:141-245 | for every node of a tree after any run, the interval figures read back from all its full reports, with the present ones, add up to the totals, and the extremes agree |
| TreeReports.TreeReportsShowTheirIntervals | src/rdk_perf_node.cpp:141-245 | for every node of a tree after any run, each full report has shown exactly the calls of the node since the report before it |
| TreeRuns.RunTreeIsItsOps | src/rdk_perf_record.cpp:39-107 | in every run of a program the tree of a thread is what the operations of the run since its creation make of a new tree |
| TreeRuns.ServiceTreeIsItsOps | service/perfservice.cpp:68-203 | after any messages the tree of a thread is what the operations of its messages make of a new tree |
| TreeRuns.RunTellsItsTrees | src/rdk_perf_node.cpp:97-245 | so in every run the nodes of a tree are the prefixes of the stacks it has had, each holds exactly the calls recorded at its path, its reports have each shown the calls of their interval, and together they add up to its totals |
| TreeRuns.MessagesTellTheirTrees | service/perfservice.cpp:218-252 | the same for every tree of the service, after any messages of any processes |
| PerfTrees.PerfNode.Root | src/rdk_perf_node.cpp:32-48 | the root starts with both counts at one, no tree and no children |
| PerfTrees.PerfNode.AddChild | src/rdk_perf_node.cpp:97-132 | the same name gives the same node; a new one is linked under its name and everything else stays |
| PerfTrees.PerfNode.IncrementData | src/rdk_perf_node.cpp:141-174 | updating field by field leaves the fields saying what the longer list of calls means |
| PerfTrees.PerfNode.ResetInterval | src/rdk_perf_node.cpp:176-187 | the fields then say that the current interval is empty and the totals unchanged |
| PerfTrees.PerfNode.CloseNode | src/rdk_perf_node.cpp:134-139 | a node with a tree leaves the stack only as its top; the root, which has none, never does |
| PerfTrees.PerfNode.ReportData | src/rdk_perf_node.cpp:189-245 | prints exactly the lines of its subtree; a full report starts a new interval in exactly these nodes, a delta-only one changes nothing |
| PerfTrees.PerfNode.Destroy | src/rdk_perf_node.cpp:84-95 | frees each node of its subtree exactly once and no other |
| PerfTrees.PerfTree.AddNode | src/rdk_perf_tree.cpp:45-100 | opens the element in the value of the tree; existing paths keep their node objects; shape, statistics, stack and counters stay consistent |
| PerfTrees.PerfTree.CloseActiveNode | src/rdk_perf_tree.cpp:117-136 | pops exactly when the node is the top; the stack stays a root path of the tree |
| PerfTrees.PerfTree.EndCall | src/rdk_perf_record.cpp:80-94 | records the call at its node and then closes it, in place, without moving any node |
| PerfTrees.PerfTree.IsInactive | src/rdk_perf_tree.cpp:102-115 | true exactly when the counters agree in 64 bits and the stack is only the root |
| PerfTrees.PerfTree.ReportData | src/rdk_perf_tree.cpp:138-150 | prints the full report of the tree, starts new intervals everywhere and marks the activity as reported |
| PerfTrees.PerfTree.ReportNode | src/rdk_perf_record.cpp:97-104 | a delta-only report of one node prints exactly its subtree and changes nothing |
| PerfTrees.PerfTree.Destroy | src/rdk_perf_tree.cpp:37-43 | frees every node of the tree exactly once and nothing else |
| Processes.PerfClock.Now | src/rdk_perf_clock.cpp:129-152 | a marker stores the time; an elapsed operation replaces the mark by the times that lead from it to the reading |
| Processes.SinceSpans | src/rdk_perf_clock.cpp:141-143 | an elapsed wall, user or system time added to the mark gives the reading, in 64 bits, and without wrapping when the reading is not before the mark |
| Processes.PerfProcess.NewTree | src/rdk_perf_process.cpp:130-148 | adds an empty tree for a thread without one, marks the clock in any case and leaves the other trees as they were |
| Processes.PerfProcess.EnterElement | src/rdk_perf_record.cpp:68-76 | finds or creates the thread's tree and opens the element, keeping every node of every tree in its place |
| Processes.PerfProcess.EndElement | src/rdk_perf_record.cpp:80-94 | ends a call in one tree; all other trees keep their state and nodes |
| Processes.PerfProcess.RemoveTree | src/rdk_perf_process.cpp:80-93 | deletes the tree of one thread with exactly its nodes, and says whether there was one |
| Processes.PerfProcess.Destroy | src/rdk_perf_process.cpp:44-53 | deletes every node of every tree, each exactly once |
| Processes.PerfProcess.CloseInactiveThreads | src/rdk_perf_process.cpp:54-78 | deletes exactly the inactive trees and their nodes, keeps all others as they are, and returns true exactly when one was deleted |
| Processes.PerfProcess.ReportData | src/rdk_perf_process.cpp:177-207 | reports every tree, prints the time since the clock was marked, and marks it anew; without trees it does nothing |
| Processes.PerfProcess.ReportProcess | rdkperf/rdk_perf.cpp:364-389 | removes inactive trees first, then reports all others |
| Wire.SendMessage | src/rdk_perf_msgqueue.cpp:94-152 | fills a zeroed message, its type and its union, field by field, and gives up one of an unknown type; the names lie there character by character, and the whole reads back as the message that arrives |
| Wire.DataArrives | src/rdk_perf_msgqueue.h:50-127 | the service, which goes by the type alone, reads for every message the kind, process, thread, elapsed time and name, cut to 127 characters, that were sent; of a threshold it reads zero |
| Wire.NamesAreHeld | src/rdk_perf_msgqueue.cpp:108-124 | character i of a name is at place i of its field for the first 127 characters, and the rest of the field is zero |
| Wire.EntryIsRead | src/rdk_perf_msgqueue.cpp:103-111 | the time, the signed threshold and the thread name of an entry are read as they were sent, the name cut |
| Wire.ThresholdIsLost | src/rdk_perf_msgqueue.cpp:112-117 | whatever value a threshold message is given, the place where it is read holds zero |
| Service.PerfService.HandleEntry | service/perfservice.cpp:68-94 | creates process and tree when missing and opens the element by name |
| Service.PerfService.HandleExit | service/perfservice.cpp:121-145 | records and closes the top if it has the name of the message, and changes nothing otherwise |
| Service.ExitIsAnsweredExactlyWhenItCounts | service/perfservice.cpp:121-145 | an exit is answered with success exactly when it changes the state |
| Service.PerfService.HandleThreshold | service/perfservice.cpp:96-119 | succeeds only with a tree and a positive value and changes nothing that is kept |
| Service.PerfService.HandleReportProcess | service/perfservice.cpp:167-186 | removes the inactive trees of the process, reports the rest and prints the time since the clock was marked |
| Service.PerfService.HandleCloseThread | service/perfservice.cpp:188-203 | drops the tree of the thread whatever is open in it |
| Service.PerfService.HandleCloseProcess | service/perfservice.cpp:205-216 | drops the process and deletes every node of all its trees exactly once; succeeds even for an unknown process |
| Service.PerfService.HandleMessage | service/perfservice.cpp:218-252 | in any state, any message does to the objects what it does to the value of the service, and returns the handler's answer |
| Service.PerfService.RunLoop | service/perfservice.cpp:253-288 | stops at the first exit or failed read or the seventh wait in a row without a message, and has handled exactly the messages before, in order |
| Service.SeventhSilenceEnds | service/perfservice.cpp:263-276 | the loop ends with an exit or failed read, or with the seventh wait in a row without a message |
| Service.EveryMessageIsHandled | service/perfservice.cpp:278-283 | each message received is handled in its turn, and nothing else is |
| Independence.TreeFollowsItsThread | service/perfservice.cpp:218-252 | the tree of a thread is what an automaton of its own makes of the messages that concern it |
| Independence.ProcessIsKnown | service/perfservice.cpp:39-66 | the service knows a process exactly when some thread's last entry is not followed by a close of the process |
| Independence.InterleavingDoesNotMatter | service/perfservice.cpp:218-252 | sequences with the same messages for each thread lead to the same processes with the same trees |
| Independence.UnrelatedMessagesCommute | service/perfservice.cpp:218-252 | two messages that concern no thread in common can be handled in either order |
| Independence.DifferentProcessesCommute | service/perfservice.cpp:218-252 | messages of different processes commute, interval clocks included |
| ServiceReports.CountersCountEntries | src/rdk_perf_tree.cpp:91-92 | the two counters of a tree differ by the entries since its last report, counted along the messages of its thread |
| ServiceReports.ServiceRemovalRule | service/perfservice.cpp:167-186 | after any messages, a process report removes a tree exactly when no entry came since its last report (modulo 2^64) and its stack is the root, and reports and keeps every other |
| ServiceReports.ClocksHoldLastMarks | src/rdk_perf_process.cpp:130-148 | the clock of each process is the reading of the last message that created or reported one of its trees |
| ServiceReports.ReportTimesSinceLastMark | src/rdk_perf_process.cpp:177-207 | a process report prints a time exactly when a tree is left, and added to that reading it gives the present one |
| ServiceReports.InterleavingsDifferOnlyInMarks | service/perfservice.cpp:218-252 | two interleavings lead to the very same state, clocks included, exactly when these readings agree for each process |
| Records.StartKeepsSound | src/rdk_perf_record.cpp:39-78 | a started record takes the new top entry of its tree, so records and entries stay matched one to one |
| Records.EndKeepsSound | src/rdk_perf_record.cpp:80-107 | an end in any order keeps records, entries, start times and call counts matched |
| Records.OnlyRootOnStack | src/rdk_perf_tree.cpp:102-136 | the stack is only the root exactly when no record is live and no entry was left behind |
| InProcess.NodesExist | src/rdk_perf_record.cpp:80-107 | under the invariant the node of every live record exists, in the tree it started in |
| InProcess.RemovalNeedsNoRecord | src/rdk_perf_process.cpp:54-78 | a tree with a live record is never inactive |
| InProcess.StepKeepsInv | src/rdk_perf_record.cpp:39-107 | every start, end, process report and thread report keeps the invariant of the whole program |
| InProcess.RunsKeepInv | rdkperf/rdk_perf.cpp:364-412 | every run, from any interleaving of threads, keeps it |
| Lifetimes.RecordsAreNeverStranded | src/rdk_perf_process.cpp:54-78 | in every run, no record ever finds its node deleted, and every live record's node is in the tree it started in |
| Lifetimes.StackIsEmptyExactlyWhenAllEndedInOrder | src/rdk_perf_tree.cpp:102-136 | a tree's top is its root exactly when its thread has no live record and no event of the run ended one of them out of order |
| Lifetimes.StuckWasClosedOutOfOrder | src/rdk_perf_tree.cpp:117-136 | an entry is left behind only by an event of the run that ended a record out of order |
| Lifetimes.ClosedOutOfOrderIsStuck | src/rdk_perf_tree.cpp:117-136 | after any such event the thread has a tree with an entry left behind, for the rest of the run |
| Lifetimes.OutOfOrderEndOccurs | src/rdk_perf_tree.cpp:117-136 | a run with an out-of-order end |
| Lifetimes.CallsAreConserved | src/rdk_perf_tree.cpp:64-66 | elements opened are calls recorded plus live records |
| Lifetimes.OutOfOrderEndIsForever | src/rdk_perf_tree.cpp:117-136 | after an out-of-order end the same tree stays, with that entry on its stack, and is never inactive again |
| Lifetimes.CountersCountOpens | src/rdk_perf_tree.cpp:64-66 | the two counters differ by the elements opened since the last report, counted along the run |
| Lifetimes.HeldIsLiveAtReport | src/rdk_perf_process.cpp:54-78 | the records that were live at the last report, counted along the run |
| Lifetimes.RemovalRule | src/rdk_perf_process.cpp:54-78 | a report removes a tree exactly when nothing was opened since its last report (modulo 2^64), no record is live and none was ever ended out of order; how many unreported calls go with it, all counted along the run |
| Lifetimes.FirstReportKeepsTree | src/rdk_perf_tree.cpp:102-115 | a tree survives its first report, unless 2^64 elements were opened in it |
| Lifetimes.CallOpenAtReportIsLost | src/rdk_perf_process.cpp:54-78 | after any run, the only open call of a thread that never closed out of order is lost if it ends between two reports with nothing else opened: its tree is deleted without the call ever being printed |
| Lifetimes.LostCallOccurs | src/rdk_perf_process.cpp:54-78 | a run of one start, report, end and report in which that happens |
| ReportClock.ClockHoldsLastMark | src/rdk_perf_process.cpp:130-148 | whenever the process exists its clock holds the reading of the last new tree or non-empty report |
| ReportClock.ReportTimesSinceLastMark | src/rdk_perf_process.cpp:177-207 | a report prints a time exactly when a tree is left, and added to that reading it gives the present one, for the wall clock and both CPU times |
| PerfRecords.StartKeepsLinked | src/rdk_perf_node.cpp:97-114 | a new record points to the node object at its path; the pointers of all others stay right |
| PerfRecords.ReportKeepsLinked | src/rdk_perf_process.cpp:54-78 | leaving out the inactive trees leaves no live record without its node object |
| PerfRecords.PerfModule.RecordIsLinked | src/rdk_perf_record.cpp:86-94 | the node a live record points to is in a tree of the map and points back to it |
| PerfRecords.PerfRecord.constructor | src/rdk_perf_record.cpp:39-78 | constructing a record is a start step of the transition system, and the record joins the live ones |
| PerfRecords.PerfModule.CloseRecord | src/rdk_perf_record.cpp:80-107 | destroying a record, through its node and the tree that the node points to, is an end step of the transition system; beyond its threshold it prints the report of the subtree after that step, which changes nothing |
| PerfRecords.PerfRecord.SetThreshold | src/rdk_perf_record.h:52 | a record's threshold is no part of what records and trees stand for |
| PerfRecords.PerfModule.ReportThread | rdkperf/rdk_perf.cpp:391-412 | prints the report of one thread, as a step of the transition system |
| PerfRecords.PerfModule.ReportProcess | rdkperf/rdk_perf.cpp:364-389 | is a report step; the trees it deletes hold no node of a live record; it prints the reports and the elapsed time of that step |
| Nesting.NestedStacks | src/rdk_perf_tree.cpp:45-136 | in a nested run the stack entries of a thread are its live records in starting order |
| Nesting.NestedExactlyWhenNothingIsStuck | src/rdk_perf_tree.cpp:117-136 | a run is nested, told from its starts and ends alone, exactly when no tree has an entry left behind |
| Nesting.NestedExactlyWhenNoneClosedOutOfOrder | src/rdk_perf_tree.cpp:117-136 | a run is nested exactly when none of its events ended a record out of order |
| NestedTime.NoChargeExceedsTime | src/rdk_perf_record.cpp:58-94 | no node is charged with more time than there has been |
| NestedTime.CoveredIsExact | src/rdk_perf_node.cpp:141-174 | so the 64-bit total and interval times of its nodes have not wrapped |
| NestedTime.ChildrenFitInTheirParent | src/rdk_perf_record.cpp:58-94 | at any moment of a nested run with a nondecreasing clock the time fields are exact sums, and for every node those of its children, time so far of open calls included, add up to no more than its own; for the root, to no more than all the time there has been |
| NestedTime.ClosedNodeCoversItsChildren | src/rdk_perf_record.cpp:80-94 | the total time field of a node with no open call is at least the sum of those of its children |
| Cutting.ShortNamesAreKept | src/rdk_perf_msgqueue.cpp:109 | names under 128 characters are not changed by a message |
| Cutting.CutTreesMerge | src/rdk_perf_msgqueue.cpp:103-128 | cutting names merges exactly the nodes whose cut paths agree, puts their calls together and changes nothing else |
| RemoteClient.RDKPerfRemote.constructor | rdkperf/rdk_perf.cpp:296-332 | constructing a remote record, with or without a threshold, sends the one entry message, with the name cut, that the state machine of the client sends for a start |
| RemoteClient.RDKPerfRemote.SetThreshold | rdkperf/rdk_perf.cpp:334-343 | sends a threshold message, which arrives with the value zero |
| RemoteClient.SentThresholdIsRefused | service/perfservice.cpp:96-119 | whatever state the service is in, it refuses every threshold that a client sends |
| RemoteClient.RDKPerfRemote.Destroy | rdkperf/rdk_perf.cpp:345-362 | destroying it sends the one exit message, with the elapsed time in 64 bits and the destroying thread |
| RemoteClient.PerfClient.ReportProcess | rdkperf/rdk_perf.cpp:364-369 | asks the service for a report once a record has found the queue, and sends nothing before |
| RemoteClient.PerfClient.ReportThread | rdkperf/rdk_perf.cpp:391-396 | the same for a thread, and the thread sent is the caller's |
| Remote.DeliveryDecidesTrees | service/perfservice.cpp:253-288 | the trees of a process depend only on its own messages, and only on the order of those that concern one and the same thread |
| Remote.OneOrderDelivers | service/perfservice.cpp:253-288 | handling the messages of a process in the order sent, among any others, is one such delivery |
| Remote.NothingIsSentBeforeAStart | rdkperf/rdk_perf.cpp:296-362 | a client sends nothing before its first record starts |
| Remote.ReportsAreSentOnceStarted | rdkperf/rdk_perf.cpp:364-396 | from then on it asks for every report once |
| Remote.ServiceTreesAreBalanced | service/perfservice.cpp:68-145 | after any messages each tree is well formed and elements opened are calls recorded plus stack entries above the root |
| Remote.RemoteFollowsExactlyWhenNestedAndOwn | rdkperf/rdk_perf.cpp:296-362 | for any run and any delivery of its messages, the service has the in-process trees, names cut, after every prefix of the run if and only if the run is nested and every record ends on the thread that started it |
| Remote.ForeignEndDiffers | rdkperf/rdk_perf.cpp:464-474 | an end by another thread makes trees that agreed differ |
| Remote.ForeignEndOccurs | rdkperf/rdk_perf.cpp:464-474 | a run in which that happens |
| Remote.TreesAtTheEndTell | service/perfservice.cpp:68-145 | at the end of a run that is nested and ended on its own threads the trees agree; and if they agree there, a run ended on its own threads is nested |
| Remote.RemoteIsExactForShortNames | service/perfservice.cpp:68-145 | the if and only if for the very trees of the in-process form, when names fit a message |
| Timer.TimerCallback.Loop | rdkperf/rdk_perf.cpp:118-141 | one tick changes the counters as specified, within bounds in which 32 bits do not wrap, and says whether it reports |
| Timer.RunIsSchedule | rdkperf/rdk_perf.cpp:118-141 | the counters after a run in closed form, depending only on how many ticks found the process |
| Timer.ReportsWhenDue | rdkperf/rdk_perf.cpp:124-134 | report k comes exactly on tick 1 + k + 5k(k-1)/2 for k up to 121, and every 601 ticks from then on |
| Timer.CountersAreBounded | rdkperf/rdk_perf.cpp:126-133 | the delay is a multiple of five up to 600 and the count at most one above it |
| Timer.DelayNeverShrinks | rdkperf/rdk_perf.cpp:129-131 | the delay never decreases in a run |
| TimerStop.WaitConsumesItsSignal | rdkperf/rdk_perf.cpp:77-109 | the mutex has one owner, and a wait returns the signal it found or a timeout and takes the signal away |
| TaskLoop.EveryRoundHasOneBody | rdkperf/rdk_perf.cpp:143-160 | in every run, tests passed, bodies started, waits entered and waits ended, counted along the events, differ in turn by the one in progress at most: each test passed starts one body, and each body is followed by one wait |
| TaskLoop.TaskAlone | rdkperf/rdk_perf.cpp:144-147 | left alone, `Task` starts a body with its third step |
| TaskLoop.WaitsEndForAReason | rdkperf/rdk_perf.cpp:85-109 | waits that have ended are no more than the signals set and the wakings by timeout or for no reason |
| TaskLoop.WaitReturnsWhatItFound | rdkperf/rdk_perf.cpp:92-103 | a wait returns a timeout if that is what woke it, and the signal that is set otherwise |
| TaskLoop.AtMostOneMoreLoop | rdkperf/rdk_perf.cpp:143-160 | after any run with a stop that came once `Task` had begun, no test is passed and at most one loop body starts in whatever follows |
| TimerStop.OnlyLateStopsCount | rdkperf/rdk_perf.cpp:111-160 | `Task` goes on exactly while no stop has come since it began; earlier stops are lost |
| TimerStop.EarlyStopIsLost | rdkperf/rdk_perf.cpp:143-146 | a run in which a stop comes before `Task` begins and `Task` goes on |
| TimerStop.TakenBackLeavesTaskBlocked | rdkperf/rdk_perf.cpp:77-83 | a run in which a signal of WAITING takes back the signal of a stop and leaves `Task` blocked |
| TimerStop.NoWaitIsLeftBlockedUnlessTakenBack | rdkperf/rdk_perf.cpp:77-116 | no wait is left blocked after a stop has notified, in all runs, if and only if nobody signals WAITING |
| TimerStop.StoppedTaskRunsOut | rdkperf/rdk_perf.cpp:143-160 | after such a stop `Task` makes at most nine more steps, whatever other threads do |
| TimerStop.TaskCanGoOn | rdkperf/rdk_perf.cpp:77-160 | until `Task` is done it can make a step, or the holder of the mutex can and nobody delays its release |

## Left out

- PerfRecords.PerfModule.ReportThread: asks for a process, because RDKPerf dereferences a null pointer when no record has created one; the transition system has no step there.
- Service.PerfService.HandleEntry: the name of the thread, printed in the heading of a report, and the threshold of the element are not kept; `Wire.EntryIsRead` says that they arrive.
- Service.PerfService.HandleThreshold: a threshold is stored in a node and never read, so the model keeps none.
- Independence.InterleavingDoesNotMatter: compares the processes and their trees; the clock that times a report holds the moment a message was handled, so it does depend on the order, as `ServiceReports.InterleavingsDifferOnlyInMarks` says exactly.
- Independence.UnrelatedMessagesCommute: compares the processes and their trees, for the same reason.
- Remote.RemoteFollowsExactlyWhenNestedAndOwn: messages are neither lost nor, for one thread, reordered; a thread report names the thread that asks for it, as a client sends its own id whatever it is given.
- Remote.TreesAtTheEndTell: trees that agree at the end do not show that all records ended on their own threads, for instance once a report has removed them; the theorem over all prefixes does.
- Wire.SendMessage: the layout is that of a 64-bit platform with the low byte first; process ids are not negative and names do not contain the zero character.
- TimerStop.Step: the handshake is a transition system on values, as methods of a class do not interleave; the body of the loop is `Timer.TimerCallback.Loop`, which always asks to go on.
- Closing a thread or a process from inside the profiled process, and unloading the library: they delete trees whatever is open, so records can be left without a node. In the service they are ordinary messages and are modelled.
- The lock itself: each locked operation is one step, which is what the one recursive lock provides.
- The timer's flag is read and written without a lock; the model takes each access as atomic and in program order.
- Operating system calls: clocks, thread ids and the answers of the queue are inputs; process and thread names are not kept.
- The text of the report, averages and percentages; a line is its level, its name and the counters of the node.
- The line with averages that a record prints before the delta-only report when its threshold is exceeded.
- The build that records CPU time per record: records are modelled as in the default build, with zero CPU time. Nodes keep all CPU columns.
- The queue's reference count and singleton, its creation and its priorities.
- The order in which the threads of a process are visited: nothing that is modelled depends on it. The order of children in a report is modelled.
- Names are sequences of characters compared by code; bytes and encodings are not distinguished, and names do not contain the zero character.
- The metrics macros, the empty variant of the library, logging, the build files and the test program.
