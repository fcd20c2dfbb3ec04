# A verified model of XKOMP

XKOMP is an OpenMP runtime that turns compiler calls into operations of the XKRT
runtime. This project models the parts where XKOMP itself decides what happens, and
proves what its users rely on.

| file | what it models |
|---|---|
| `X86Microtask`, `AArch64Microtask`, `PortableMicrotask` | the four ways of calling a region's microtask: two assembly trampolines run instruction by instruction on registers and memory, the C switch, and the libffi call |
| `Accesses`, `DependRules`, `AccessRules` | depend and access items, their translation into a task's access slots, and as independent references the `depend` rules of OpenMP 5.2 (section 15.9.5) and the antecedent rule of the access clause |
| `Scheduler`, `Traces`, `Determinacy`, `Liveness`, `PeerOrder` | all interleavings of submitted tasks; the memory they leave, progress, termination, and what a wait waits for |
| `Submission`, `ConstructRuns` | the `__kmpc_omp_task*` entry points, the calls compiled code makes for a sequence of constructs, and what every run of them does, in the terms of the two clauses |
| `Recording`, `Subprograms`, `Taskgraph`, `OtherUnroll` | what a task records when its body completes, record and replay of a taskgraph, the loops built on it, and a loop on a graph that holds another loop's recording |
| `ForkJoin`, `ForkJoinSafety`, `ForkJoinTheorems` | parallel regions, top-level and nested, as threads interleave, with the OMPT events they emit |
| `TeamCache`, `ForkCall` | thread-count resolution, the cache of teams; the num_threads clause and the arguments of regions that fork regions themselves |
| `OmptLifecycle` | discovery, activation and finalization of an OMPT tool |
| `FormatCache` | the lock-protected cache of task formats |
| `PassParser` | the `OMP_TASKGRAPH_OPT` tokenizer |
| `Layout` | rounding and the byte layout of a task's argument region |

The main results: every interleaving the antecedent rule allows ends in the memory of
program order; k encounters of a taskgraph are k runs of its body; a task construct is
ordered exactly as its clauses say, and a wait waits for exactly what it must;
both trampolines make the call the C code spells out; every run of nested parallel
regions keeps arguments, barriers, cache and trace right.

## What is assumed about XKRT

XKRT's code is not part of this model. Its contract is stated in the definitions and
nowhere else:

- An earlier task precedes a later one when their accesses intersect and at least one
  writes (`tests/directive/access/omp_access.cc:9-11`); handles intersect when their
  base addresses are equal (`tests/common.h:41-46`), segments when their bytes overlap,
  a handle and a segment never. Writers of the same non-sequential kind are peers and do
  not order each other; commutative peers never run at the same time (`Accesses.Conflict`,
  `Accesses.Exclusive`, `Scheduler.Enabled`).
- A wait ends after some complete run of the committed tasks (`Taskgraph.Drains`), the
  command graph has one node per recorded command, with the dependences of its task
  (`Recording.CommandGraph`), the optimization passes keep the meaning of a graph
  (`Taskgraph.Optimizes`), a replay has finished when the call returns.
- A team runs the region's routine once on each member, the team barrier opens once every
  member has arrived, and the dispatch returns once every member has left the routine. A
  member may run deferred tasks while it waits at the barrier, and these may fork nested
  regions (`ForkJoin.Enabled`).
- Nothing is assumed of an access slot that was resolved without having been constructed:
  results on runs are about programs in which that does not happen (`Submission.Submitted`).
- A microtask obeys the calling convention of its platform (`X86Microtask.Abides`,
  `AArch64Microtask.Abides`).

## Where the code does not do what one would expect

- The x86-64 trampoline loads `p[0]` to `p[3]` for every `argc`, since a conditional move
  reads its operand either way; it faults when one of them is not mapped although it is
  not an argument (`X86Microtask.InvokeMicrotask`). The AArch64 one reads exactly `argc`
  entries.
- `omp_all_memory` arrives with a null base address, so its item is skipped before the
  check that would refuse it, and a padded task loses those dependences, on earlier tasks and
  for later ones (`DependRules.LaterAllMemoryIsDropped`,
  `DependRules.EarlierAllMemoryIsDropped`). `DependRules.FaithfulExactly` says for which
  pairs of clauses that matters.
- `__kmpc_fork_call` resets the pushed thread count only when it returns, so a region
  forked first thing inside another one asks for the outer count
  (`ForkCall.NestedForkAsksAgain`). Nested regions ignore what they ask for, so no team
  changes (`ForkCall.StaleHasNoEffect`, `ForkCall.Caller.Run`).
- A null-base item of an exactly sized task, or of a taskwait with dependences, leaves its
  slot unconstructed, and that slot is still resolved; a padded task has an inert access
  there (`DependRules.ResolverSeesBuiltSlots`). Compiled code hands the runtime such a slot
  exactly for a construct that names omp_all_memory and is compiled for the exactly sized
  interface or is a taskwait (`Submission.Submit`, `Submission.OnlyAllMemoryIsNull`,
  `Submission.RawSlotIsResolved`).
- A taskgraph or taskgraph loop on a graph that holds another recording replays that one:
  two iterations with unroll 2 followed by three with unroll 3 report five and run four
  (`OtherUnroll.FiveIterationsAreFour`).
- `round_up_to_val` rounds down when the multiple above is not representable
  (`Layout.RoundUpMeaning`), and the size of the argument region may wrap
  (`Layout.HugeBlockIsCut`).
- The libffi backend refuses 1022 arguments although its vectors hold 1026 and the fork
  call accepts 1024 (`PortableMicrotask.FfiBuffer.Invoke`).
- A tool that finalizes itself inside its `initialize` uses up the once-flag before it is
  enabled; it is then never finalized (`OmptLifecycle.FinalizingDuringInitializeIsLost`),
  and that is the only way it can happen (`OmptLifecycle.LifeOfTool`).
- The callbacks on threads, tasks and synchronization do not look whether the tool is
  enabled and stay registered, so a worker that stops after finalization still reports to
  a tool whose library is closed (`OmptLifecycle.WorkerEndsAfterClose`).
  `OmptLifecycle.AfterExit` says exactly when nothing is reported any more.
- The initial thread's implicit task is ended by finalization on that thread only
  (`OmptLifecycle.InitialTaskStaysOpen`, `OmptLifecycle.LifeOfTool`).
- `__kmpc_omp_task_with_deps_v2` always returns "queued"; its documentation says the
  result tells whether the task was suspended.

## Model

| member | source | states |
|---|---|---|
| X86Microtask.SaveAndAlign | src/kmp/arch/z_Linux_asm.S:1441-1475 | after the pushes to come the stack pointer is 128-byte aligned and below the saved `%rbp`, `%rbx`, gtid and tid |
| X86Microtask.PushParms | src/kmp/arch/z_Linux_asm.S:1478-1500 | the loop ends; it faults exactly when a slot from 4 on is unmapped, else word i of the stack holds `p[i + 4]` and nothing outside the new stack words changed |
| X86Microtask.PassParms | src/kmp/arch/z_Linux_asm.S:1502-1551 | faults exactly when one of the first four slots is unmapped; each argument register holds its value despite being a source of later loads |
| X86Microtask.CallAndReturn | src/kmp/arch/z_Linux_asm.S:1553-1559 | for every callee that obeys the ABI, 1 is returned and the caller's `%rbx`, `%rbp`, stack pointer and return address come back |
| X86Microtask.Prepare | src/kmp/arch/z_Linux_asm.S:1441-1551 | everything up to the call: arguments in place, the frame saved, the exact stack position, and a fault exactly when a slot it loads is unmapped |
| X86Microtask.InvokeMicrotask | src/kmp/arch/z_Linux_asm.S:1441-1559 | for every argc, the microtask gets `&gtid, &tid, p[0..argc)` as section 3.2.3 of the System V AMD64 psABI places them, at the first 128-byte aligned address below the saved words and the stack arguments, the ids stored behind the pointers, nothing of the caller's memory or registers lost; faults exactly when a slot it loads is unmapped |
| AArch64Microtask.EnterFrame | src/kmp/arch/aarch64.S:125-141 | frame record and both ids are stored, the reserved area lies below them and keeps the stack pointer 16-byte aligned |
| AArch64Microtask.RegisterParms | src/kmp/arch/aarch64.S:144-165 | the first six entries are loaded into their registers, and no entry beyond argc is read |
| AArch64Microtask.StackParms | src/kmp/arch/aarch64.S:168-173 | the loop ends, stack word i holds `p[i + 6]`, nothing outside those words changed, a fault exactly when an entry is unmapped |
| AArch64Microtask.CallAndReturn | src/kmp/arch/aarch64.S:175-180 | 1 is returned; frame pointer, link register and stack pointer come back |
| AArch64Microtask.LoadedInOrder | src/kmp/arch/aarch64.S:144-173 | those arguments are the words at p, p + 8, ..., low half first |
| AArch64Microtask.InvokeMicrotask | src/kmp/arch/aarch64.S:125-180 | for every argc, the microtask gets `&gtid, &tid, p[0..argc)` as the AAPCS64 places them, at exactly 16 * (1 + argc / 2) bytes below the frame record, clear of the ids and of the caller's memory; faults exactly when an argument is unmapped |
| PortableMicrotask.InvokeGeneric | src/kmp/arch/generic.cc:18-70 | all 17 cases make the same call of the microtask, more than 16 arguments are fatal |
| PortableMicrotask.FfiBuffer.Invoke | src/kmp/arch/libffi.cc:25-112 | the value vectors make the call the plain form makes, for 17 to 1021 arguments; a failed preparation calls nothing, more arguments are fatal |
| Words.ArgumentsInOrder | src/kmp/arch/generic.cc:18-70 | the arguments all four ways pass are the two ids and then the words at p, p + 8, ..., in order, argc of them |
| Words.RegisterArithmetic | src/kmp/arch/z_Linux_asm.S:1441-1551 | the register operations are arithmetic modulo 2^64, the low 32 bits and the top bit |
| Accesses.PadAccesses | src/kmp/task.cc:140-145 | exactly the slots of the range become inert |
| Accesses.PaddingIsInert | src/kmp/task.cc:140-145 | a padded slot holds a mode V access to no storage, which conflicts with nothing |
| Accesses.FlagsOfAccess | src/kmp/task.cc:626-657 | an access item is skipped exactly when its base is null and refused exactly when it says nostorage; else the access reads exactly when the read flag is set, writes on write, concurrent write or storage, and is V exactly when noncoherent or storage |
| Accesses.FlagsOfDependence | src/kmp/task.cc:672-705 | the same table for the flags of a depend item |
| Accesses.AcsToAccesses | src/kmp/task.cc:616-660 | fills one slot per non-null item and no other; fatal exactly when a non-null item says nostorage; leaves the storage modifier's implied flags in the list |
| Accesses.DepsToAccesses | src/kmp/task.cc:662-708 | the same for depend items; fatal exactly when a non-null item has the all-memory flag |
| Accesses.FillSlots | src/kmp/task.cc:745-775 | the three lists fill disjoint slices that together are the item list; refused exactly when they do not fit or an item is unsupported; trailing slots keep their content |
| DependRules.PairFaithful | src/kmp/task.cc:679-705 | on two items the antecedent rule on the translated accesses is the table of the depend clause, and exclusion is mutexinoutset |
| DependRules.KindOfAccess | src/kmp/task.cc:674-705 | the access each of the five kinds of dependence becomes |
| DependRules.DependFaithful | src/kmp/task.cc:664-708 | any two clauses order their tasks through their accesses exactly as section 15.9.5 of OpenMP 5.2 orders the items that name storage |
| DependRules.ExclusionFaithful | src/kmp/task.cc:689-693 | and exclude each other exactly when both name the same storage in mutexinoutset |
| DependRules.LaterAllMemoryIsDropped | src/kmp/task.cc:672-702 | a pair the rules order and the translation does not, omp_all_memory in the later clause |
| DependRules.EarlierAllMemoryIsDropped | src/kmp/task.cc:672-702 | and one with it in the earlier clause |
| DependRules.FaithfulExactly | src/kmp/task.cc:664-708 | a pair of clauses is ordered faithfully if and only if neither names omp_all_memory, or their items that name storage order it anyway, or one clause is empty |
| DependRules.SplitDoesNotMatter | src/kmp/task.cc:766-770 | neither the order of items nor their split into aliasing and other lists changes what a task is ordered or excluded with |
| DependRules.PaddingIsInvisible | src/kmp/task.cc:518-568 | a padded task and an exactly sized one have the same predecessors, successors and exclusions |
| DependRules.ResolverSeesBuiltSlots | src/kmp/task.cc:749-775 | over all three lists, every resolved slot is constructed exactly when each null-base item sits in a padded slot |
| AccessRules.PairAccessFaithful | src/kmp/task.cc:626-657 | two access items conflict exactly when they name a common byte, one of them writes or requests storage, and they are not both concurrent writes; they never exclude each other |
| AccessRules.ModeOfAccess | src/kmp/task.cc:626-657 | over the mode of an item: the access reads exactly in read and readwrite mode, writes exactly in a writing mode or when storage is requested, is V exactly when noncoherent or storage is requested |
| AccessRules.ClausesFaithful | src/kmp/task.cc:763-770 | a task with both clauses is ordered after another exactly when the antecedent rule on bytes says so, or the depend rules on the items that name storage; the clauses do not see each other |
| AccessRules.ExclusionIsDepend | src/kmp/task.cc:763-770 | two such tasks exclude each other exactly when mutexinoutset does |
| Traces.Rearrange | src/kmp/task.cc:616-708 | two orders of the same events that agree on all pairs that do not commute leave the same memory |
| Scheduler.EveryRunKeeps | src/kmp/task.cc:577-606 | in every run tasks start once and after their predecessors, related steps happen in start order, memory is the trace's, and a thread is past an undeferred task only when it is done |
| Determinacy.UnorderedTasksCommute | src/kmp/task.cc:616-708 | tasks that write what their accesses write, and depend on what their accesses read only, and are not ordered by them commute, peers under the stated conditions |
| Determinacy.EveryScheduleIsProgramOrder | src/kmp/task.cc:616-708 | every complete run, under any interleaving the antecedent rule allows, ends in the memory of program order |
| PeerOrder.PeersMustCommute | src/kmp/task.cc:689-693 | for two mutexinoutset tasks this holds if and only if their bodies commute |
| Liveness.SomeTaskIsRunnable | src/kmp/task.cc:598-604 | while a committed task is unfinished, some task can start, step or finish |
| Liveness.EveryRunCompletes | src/kmp/task.cc:598-604 | no run is longer than the program's work, complete runs all have that length and finish each task once, any other can go on |
| Liveness.CompletesFrom | src/kmp/task.cc:598-604 | every run is the beginning of a complete one |
| Liveness.ReturnMeansCompleted | src/kmp/task.cc:777-784 | submitting an undeferred task returns only once it and all it transitively requires have completed |
| Liveness.WaitIsExact | src/kmp/task.cc:833-863 | when a submission has returned, an earlier task is done in every run if and only if some wait requires it; any other may still be pending |
| Liveness.OverlapIsExact | src/kmp/task.cc:598-604 | two tasks are running at the same time in some run if and only if the later one does not require the earlier one, they do not exclude each other, and no wait submitted before the later one requires the earlier one |
| Submission.Task.Stock | src/kmp/task.cc:544-568 | a stock task starts with four inert slots |
| Submission.Runtime.OmpTask | src/kmp/task.cc:570-607 | an executing task is run on and 1 returned; any other is committed with its inert slots, waited for if undeferred, and 0 returned |
| Submission.Runtime.OmpTaskWithDeps | src/kmp/task.cc:726-789 | refused exactly when the items do not fit or one is unsupported; else the task is committed with exactly its items' accesses, resolved if there are any, waited for if undeferred |
| Submission.Runtime.TaskwaitDeps | src/kmp/task.cc:833-863 | no items: nothing happens; else an empty task with exactly these accesses is resolved, committed and waited for |
| Submission.RawSlotExactly | src/kmp/task.cc:671-705 | a fresh task's filled slots hold a raw one if and only if they were not padded and an item has no address |
| Submission.OnlyAllMemoryIsNull | src/kmp/task.cc:672-702 | in valid clauses that is the case if and only if omp_all_memory is named |
| Submission.Submit | src/kmp/task.cc:544-606 | whichever ABI and split a construct is compiled with, its calls commit one task with exactly its items' accesses, its body and its wait, or nothing for an empty taskwait; they fail exactly when a stock task has more than four items, and hand the runtime a raw slot exactly when an item without address, in valid clauses omp_all_memory, sits in an unpadded task |
| Submission.EffectiveIs | src/kmp/task.cc:833-845 | what is submitted of a sequence of constructs is all of it, in order, but for taskwaits without items |
| Submission.SubmitAll | src/kmp/task.cc:726-863 | a sequence of constructs leaves the program it stands for, and hands over a raw slot if and only if one of them does; if none does, the premise of the results below holds |
| Submission.RawSlotIsResolved | src/kmp/task.cc:763-774 | an exactly sized task with omp_all_memory that hands over a raw slot |
| Submission.ClausesHonoured | src/kmp/task.cc:726-789 | in every run of constructs submitted without a raw slot, a started task finds everything its access and depend clauses order before it completed, and mutexinoutset tasks never overlap; omp_all_memory in a padded task counts for nothing |
| Submission.TaskwaitDependIsExact | src/kmp/task.cc:825-863 | for such constructs, in the terms of the two clauses: what is complete in every run when a construct returns is exactly what the waiting constructs so far transitively depend on |
| Submission.PaddedRunsAreTheSame | src/kmp/task.cc:132-145 | programs that differ in inert accesses only have the same runs, state by state |
| Submission.CompilationIsInvisible | src/kmp/task.cc:518-568 | the same constructs compiled for either ABI with any split, neither handing over a raw slot, have the same runs, state by state |
| ConstructRuns.ConstructsBehave | src/kmp/task.cc:616-708 | bodies that write what their clauses let them write, and depend on what their clauses let them read only (a byte only in read or readwrite mode), with peers that commute, meet the conditions on the translated accesses |
| ConstructRuns.ConstructsAreRecordable | src/kmp/task.cc:846-859 | and can be recorded, since the task of a taskwait has no body |
| ConstructRuns.SchedulesAreSequential | src/kmp/task.cc:616-789 | however such constructs, submitted without a raw slot, are scheduled, memory ends as if one thread had run their bodies in order |
| Recording.OneCommandPerTask | src/kmp/task.cc:174-230 | in every run an OpenMP task has recorded nothing before its body completed, and from then on one command with its own routine, kmp_task_t and body and the slots as they were at that moment; a taskwait's task never records anything |
| Recording.CompleteRunRecordsAll | src/xkomp/taskgraph.cc:69-74 | at record stop there is one command per submitted OpenMP task, carrying its body, and no other, in whatever order bodies completed |
| Recording.Recorder.BodyOmpTask | src/kmp/task.cc:206-229 | fills the slots if there is a scatter and appends one command to this task's record only |
| Recording.RecordPass | src/kmp/task.cc:163-231 | over any complete run the recorder ends with these records and the run's memory |
| Recording.GraphIsCommands | src/xkomp/taskgraph.cc:48-49 | the graph built from a complete recording is that of the submitted OpenMP tasks, in order, without the waits |
| Recording.CommandsProgramOrder | src/kmp/task.cc:846-859 | leaving out the taskwaits' tasks does not change what the program computes |
| Subprograms.PickBehaves | src/kmp/task.cc:616-708 | any selection of a well-behaved program's tasks is well behaved |
| Taskgraph.DrainIsProgramOrder | src/xkomp/taskgraph.cc:69-74 | whatever run a wait took, it left the memory of program order |
| Taskgraph.OptimizedIsProgramOrder | src/xkomp/taskgraph.cc:45-56 | the optimized commands of a recording mean what the recorded tasks meant |
| Taskgraph.Runtime.Begin | src/xkomp/taskgraph.cc:22-61 | the reset, if and nogroup flags, and graphs other than 0, are fatal and change nothing; the first encounter records, each later one leaves the memory of the recorded program |
| Taskgraph.Runtime.End | src/xkomp/taskgraph.cc:63-79 | the first encounter waits for what was submitted and keeps what that run's completing bodies recorded, one command per OpenMP task; later ones change nothing |
| Taskgraph.Runtime.PragmaTaskgraph | include/xkomp/xkomp++.h:11-21 | recording or replaying, one encounter has the effect of running the body if and only if the graph is new or what it holds has that effect |
| Taskgraph.Runtime.EncounterTimes | tests/xkomp/taskgraph/xkomp_taskgraph_host.cc:30-49 | k encounters of a new graph are k runs of the body, with the call sequence counted below |
| Taskgraph.CallCounts | src/xkomp/taskgraph.cc:33-57 | over k > 0 encounters recording starts and stops once, the body runs once, and the graph is replayed k - 1 times, built and optimized once if that is any |
| Taskgraph.BuiltBeforeReplay | src/xkomp/taskgraph.cc:45-56 | it is built, then optimized, before the first replay |
| Taskgraph.Overshoot | include/xkomp/xkomp++.h:72-74 | with the condition d < n the loop stops after k instances if and only if k * unroll is the first multiple not below n, so it overshoots by less than unroll |
| Taskgraph.Runtime.PragmaTaskgraphLoop | include/xkomp/xkomp++.h:84-113 | as many instances as the condition asks for, each running unroll iterations or what the graph already holds; returns the iterations issued |
| Taskgraph.Runtime.PragmaTaskgraphLoopN | include/xkomp/xkomp++.h:122-143 | n / unroll instances, then n % unroll plain iterations; returns n |
| Taskgraph.TripsAt | include/xkomp/xkomp++.h:97-110 | epilogue call i, from 0, gets (i, (i + 1) * unroll), and there are as many as instances |
| Taskgraph.InstancesFollowTrips | include/xkomp/xkomp++.h:97-110 | the memory after the loop is that of the instances, each followed by its epilogue call |
| Taskgraph.Runtime.LoopUnrolledByZero | include/xkomp/xkomp++.h:94-113 | with unroll 0 and the condition d < n the loop issues exactly n iterations in n instances of one, with epilogue calls (i, i + 1) |
| Taskgraph.Runtime.LoopNUnrolledByZero | include/xkomp/xkomp++.h:122-143 | so does the loop with an exact count, which then leaves no iterations over |
| Taskgraph.ExactTripCount | include/xkomp/xkomp++.h:115-121 | those are n iterations of the body when epilogues leave memory alone |
| Taskgraph.Runtime.LoopNThenWait | include/xkomp/xkomp++.h:122-143 | and so is the memory after the loop and a taskwait, whatever runs were taken: exactly n iterations' effect when the graph was new or holds this loop's recording |
| OtherUnroll.LoopTwiceLoopThrice | include/xkomp/xkomp++.h:84-143 | otherwise it is not: for every body, two iterations with unroll 2 and then three with unroll 3 report five and leave the memory of four |
| OtherUnroll.FiveIterationsAreFour | include/xkomp/xkomp++.h:84-143 | a counting body for which that shows |
| Taskgraph.FewerBehave | include/xkomp/xkomp++.h:115-121 | the left-over iterations are well behaved because the recorded ones are |
| ForkJoinSafety.EveryRunKeeps | src/xkomp/parallel.cc:76-152 | the shape of the stacks, live arguments, barriers, event counts, nesting and order hold in every reachable state |
| ForkJoinTheorems.EveryMemberCallsOnce | src/kmp/fork.cc:19-39 | each member calls its region's microtask at most once, once by the region's end, and nobody else does |
| ForkJoinTheorems.CallsGetTheirArguments | src/kmp/fork.cc:30-31 | each call is made with the caller's own ids and the region's own arguments, read from live memory |
| ForkJoinTheorems.RegionsAreOrdered | src/kmp/fork.cc:27-36 | no implicit task ends before every member's body has returned, parallel_begin precedes and parallel_end follows all implicit tasks of the region |
| ForkJoinTheorems.TraceIsWellNested | src/ompt/ompt.cc:320-380 | on every thread the events nest, and the open ones are exactly the regions, tasks and calls it is inside of |
| ForkJoinTheorems.EveryEndHasItsBegin | src/ompt/ompt.cc:320-380 | in plain terms: every end has, before it on its thread, a begin of the same region, task or call, and everything reported in between is balanced |
| ForkJoinTheorems.BeginsMatchEnds | src/ompt/ompt.cc:320-380 | once a region has ended, every begin of it has exactly one end on the same thread |
| ForkJoinSafety.CountMeans | src/ompt/ompt.cc:320-380 | what is counted there: none, or exactly one, means no such event, or exactly one position |
| ForkJoinTheorems.NestedRegionsAreIsolated | src/xkomp/parallel.cc:90-110 | nested regions never change the cache or a cached team's arguments, and every active region's arguments stay readable |
| ForkJoinTheorems.CacheFollowsRequests | src/xkomp/parallel.cc:112-139 | over any interleaving the cache holds exactly the distinct top-level counts in order of first use |
| ForkJoinTheorems.RegionsHaveTheirTeams | src/xkomp/parallel.cc:90-139 | in every run a region on a cached team has exactly that team's members, as many as the count the team was created for; a nested region has one |
| ForkJoinTheorems.NoDeadlock | src/xkomp/parallel.cc:141-151 | while a region is active some thread can move |
| TeamCache.ServeKeeps | src/xkomp/parallel.cc:112-139 | over any sequence of requests keys stay distinct, entries never move, and the teams are as many as the distinct counts |
| TeamCache.CapacityIsExact | src/xkomp/parallel.cc:124-128 | the capacity assertion holds throughout if and only if there are at most 8 distinct counts |
| TeamCache.PositionIsFixed | src/xkomp/parallel.cc:115-122 | a count finds the same team in every later region |
| TeamCache.CastIsInjective | src/xkomp/parallel.cc:117-129 | the cast to int keeps different counts apart |
| TeamCache.ResolveMeaning | src/xkomp/parallel.cc:86-88 | a team never exceeds OMP_THREAD_LIMIT; a count asked for within it is granted whatever OMP_NUM_THREADS says, which counts otherwise; the runtime chooses exactly when nobody asks or the limit is 0 |
| TeamCache.UnsignedLimit | src/xkomp/parallel.cc:87-88 | what the limit and the count are when read as unsigned |
| TeamCache.Teams.Acquire | src/xkomp/parallel.cc:83-139 | finds the resolved count's team or appends one; its members are the count asked for, else OMP_NUM_THREADS, capped by OMP_THREAD_LIMIT; fails exactly at capacity, leaving the cache alone |
| ForkCall.RequestIsExact | src/kmp/fork.cc:41-82 | a region is asked for the last count pushed since a region was entered last if and only if the thread has not just entered regions with a count still pushed, nor just left a region with one unused |
| ForkCall.NestedForkAsksAgain | src/kmp/fork.cc:77-81 | a nested fork that is asked for the outer count of 4 |
| ForkCall.StaleHasNoEffect | src/xkomp/parallel.cc:86-98 | only nested regions can be asked for a stale count, and they get one thread; a team differs exactly when a lost count would have resolved to another size outside every region |
| ForkCall.OwnSize | src/xkomp/parallel.cc:86-88 | an outermost construct's team is what its clause asks for, a negative or missing one counting as no request |
| ForkCall.NestedSizesAreOne | src/xkomp/parallel.cc:90-98 | every region inside another one gets one thread |
| ForkCall.Caller.PushNumThreads | src/kmp/fork.cc:45-52 | stores the count, negative ones as none |
| ForkCall.Caller.ForkCall | src/kmp/fork.cc:56-82 | the region gets the count pushed last and its arguments in order, then its own regions run, and only then is the count reset; more than 1024 arguments, here or inside, fail the assertion |
| ForkCall.Caller.Run | src/kmp/fork.cc:56-82 | over any nest of compiled constructs every region gets the team its own clause asks for |
| OmptLifecycle.BegunMeansAlternating | src/ompt/ompt.cc:119-162 | what `Valid` keeps means that between two begins of a thread lies an end, and that every end closes a begin |
| OmptLifecycle.Bridge.OnThreadStart | src/ompt/ompt.cc:119-147 | once registered, reports a begin once per thread life, none for a team's first thread, with an initial task outside teams, whether or not the tool is enabled |
| OmptLifecycle.Bridge.OnThreadStop | src/ompt/ompt.cc:149-162 | once registered, reports an end only for a thread that has begun, whether or not the tool is enabled |
| OmptLifecycle.Bridge.OnRuntime | src/ompt/ompt.cc:164-314 | creating and scheduling a task make one callback, listing its accesses one if there are any, completing it none, a synchronization region two, whether or not the tool is enabled |
| OmptLifecycle.Bridge.EmitConstruct | src/ompt/ompt.cc:320-335 | construct events are emitted exactly while the bridge is enabled |
| OmptLifecycle.Bridge.Discover | src/ompt/ompt.cc:599-652 | a tool is found exactly when discovery is on and one starts; the handle kept is the starting library's and every other opened one is closed |
| OmptLifecycle.Bridge.DoFinalize | src/ompt/ompt.cc:658-695 | runs once; balances the finalizing thread, disables, finalizes and closes the tool, nothing else being reported |
| OmptLifecycle.Bridge.BridgeInitialize | src/ompt/ompt.cc:703-749 | active exactly when a tool is found and does not decline; otherwise no library stays open |
| OmptLifecycle.Bridge.Run | src/ompt/ompt.cc:119-380 | over any steps a tool stays enabled until it is finalized, is then closed, and from then on hears nothing exactly when every step is silent |
| OmptLifecycle.LifeOfTool | src/ompt/ompt.cc:658-749 | for every environment, tool and run: an active tool is finalized at exit, and its library closed, if and only if it did not ask for that inside its initialize function; unless asked for earlier, exactly the exiting thread's initial task is ended then |
| OmptLifecycle.FinalizingDuringInitializeIsLost | src/ompt/ompt.cc:658-727 | a run in which it did, and is never finalized nor closed |
| OmptLifecycle.InitialTaskStaysOpen | src/ompt/ompt.cc:669-678 | a run in which another thread finalizes and the initial task is never ended |
| OmptLifecycle.AfterExit | src/ompt/ompt.cc:119-314 | after an active tool has been finalized at exit nothing is reported if and only if no later step starts a thread that had not begun, stops one that had, or is a task or synchronization event |
| OmptLifecycle.WorkerEndsAfterClose | src/ompt/ompt.cc:149-162 | a run in which a worker reports its end to a closed tool |
| FormatCache.EveryRunKeeps | src/kmp/task.cc:282-330 | for every interleaving: one lock holder, one format per key, the map and the answers agree |
| FormatCache.OneFormatPerKey | src/kmp/task.cc:282-330 | at most one format is created per key and every answer names the format made for its key, or the template |
| FormatCache.CacheIsAMap | src/kmp/task.cc:271-333 | two lookups get the same id if and only if their keys are equal |
| FormatCache.DistinctIrNeverShares | src/kmp/task.cc:259-266 | two IR-keyed lookups share a format if and only if their IR is the same, whatever their locations |
| FormatCache.WithoutIrLocationDecides | src/kmp/task.cc:268-272 | two lookups without IR share a format if and only if they come from the same location |
| FormatCache.IrMeetsLocation | src/kmp/task.cc:271-272 | a lookup with IR and one without share a format if and only if the address of the IR is the other's location |
| FormatCache.TemplateIsForTheKeyless | src/kmp/task.cc:267-269 | the template is the answer exactly for lookups with neither location nor IR |
| FormatCache.IrIsAddressAndSize | src/kmp/task.cc:264-272 | a lookup has IR exactly when its descriptor has an address and a size for it |
| FormatCache.IrFormatCarriesItsDescriptor | src/kmp/task.cc:299-324 | if IR addresses identify constructs, an IR-keyed lookup gets a format carrying its own descriptor, packed exactly when requested, unpacked exactly when not and there is a scatter |
| FormatCache.LocationFormatIsLabelled | src/kmp/task.cc:291-300 | under the same condition a lookup without IR gets a format labelled for its own location, without a source |
| PassParser.TokensAreMaximal | src/env.cc:78-79 | every token is a maximal separator-free piece of the value |
| PassParser.MaximalAreTokens | src/env.cc:78-79 | and every such piece is a token |
| PassParser.SeparatorsAre | src/env.cc:74-79 | the separators are comma, space, tab, newline and carriage return |
| PassParser.NamesAre | src/env.cc:50-54 | the seven pass names, and "none" for no pass |
| PassParser.Tokenizer.Next | src/env.cc:73-79 | yields the first token of what is left and leaves the others, writing NUL over at most separators |
| PassParser.ParseTaskgraphOpt | src/env.cc:58-105 | unset gives reduce-node, transitive-reduction and sequence, else the verdict on the tokens; prog-fuse never without jit |
| PassParser.VerdictMeaning | src/env.cc:79-104 | accepted if and only if all tokens are known and prog-fuse comes with jit, and then exactly the named passes; a refused token is the first unknown one |
| PassParser.OnlyTheSetMatters | src/env.cc:79-92 | order, repetition, "none" and separators make no difference to the passes or to which refusal it is |
| PassParser.RoundTrip | src/env.cc:47-53 | any listing of an admissible set between any separators parses back to it |
| Layout.MaskLow | src/kmp/task.cc:74 | masking with 2^k - 1 is the remainder |
| Layout.MaskHigh | src/kmp/task.cc:76 | masking with the complement is the multiple below |
| Layout.RoundUpMeaning | src/kmp/task.cc:71-81 | the result is the least multiple not below the size if and only if that is representable; above, it is the greatest representable multiple |
| Layout.SizeIsExact | src/kmp/task.cc:400-402 | the size needed is the header, the task with its shared pointers up to the next multiple of 8, and 8 * max(nArgs, 1); the size asked for is that if and only if it fits 64 bits |
| Layout.HugeBlockIsCut | src/kmp/task.cc:401-402 | a size for which it is not |
| Layout.TaskArgs.PartsAreDisjoint | src/kmp/task.cc:395-402 | private bytes, shared pointers and slots do not overlap each other or the header, and the slots end where the region ends |
| Layout.TaskArgs.SlotsAreThere | src/kmp/task.cc:400-402 | each of the nArgs slots the routine consumes, by the count and the address stored in the header, is a word of the region and in no other part; the region ends after slot max(nArgs, 1) |
| Layout.TaskArgs.constructor | src/kmp/task.cc:430-462 | the allocation stores what the runtime reads back, and the packed form's slot points to the task |
| Layout.TaskArgs.Write | src/kmp/task.cc:118-130 | any write to private bytes, shared pointers or slots keeps `task_from_ktask(ktask_from_task(t)) == t` and every other word the runtime reads |

## Left out

- XKRT itself: dependence resolution, work stealing, barriers, taskgroups, the graph passes. Its contract is listed above.
- X86Microtask.InvokeMicrotask: takes argc zero-extended in `%rcx`, as compiled callers leave it, although the ABI does not define the upper half; `call` pushing the return address is not shown, and the Intel MIC variant, the IA-32 half, unwind and pointer-authentication directives are not modelled.
- AArch64Microtask.InvokeMicrotask: callee-saved registers other than `x29` and `x30` are not in the register file, because the code does not touch them.
- PortableMicrotask.FfiBuffer.Invoke: libffi is the contract that each argument is read through its value vector; the vectors are thread-local in the source, an object here.
- Accesses.AcsToAccesses: an access item is a range of natural addresses; a range that wraps around the address space is not modelled.
- Submission.Task.Exact: the assertion against XKRT's maximal access count is not modelled, the constant is not part of this model.
- ForkCall.Caller.Run: the constructs one thread executes; workers of a team start inside a region and only ever fork nested ones. The capacity of the team cache is stated in TeamCache.
- Submission.Runtime.OmpTaskWithDeps: when it reports a failure the program ends, so nothing is stated about the state it leaves.
- Submission.Runtime.OmpTask: running an executing untied task on is one recorded call, not modelled further.
- Liveness.WaitIsExact: about one submitting thread; tasks submitted by tasks are not modelled.
- Determinacy.EveryScheduleIsProgramOrder: a body is a list of atomic memory transformers that write only what the items declare written and depend only on what they declare read. A depend item only orders, whatever its kind, so a body may read the storage it names under every kind.
- Recording.Recorder.BodyOmpTask: a routine and its kmp_task_t are the body they run; command flags, labels and the task state stored with a command are not modelled.
- Taskgraph.Runtime.PragmaTaskgraph: the body must submit the same tasks each time, tasks are tied, none is pending when the construct starts; a map resized while a reference to a graph is held, and wrap-around of the encounter count, are not modelled.
- Taskgraph.Runtime.PragmaTaskgraphLoop: epilogues transform memory and do not submit tasks, because how XKRT runs a graph beside tasks of the host is not known; the iteration count does not wrap; the caller supplies a bound that shows the condition fails eventually.
- ForkJoinSafety.EveryRunKeeps: one initial thread forks top-level regions; two initial threads racing on the cache are not modelled. Events are those the bridge emits, of which a tool sees the ones it registered.
- TeamCache.Teams.Acquire: `OMP_THREAD_LIMIT` is compared as unsigned as in the code, so a negative limit is a huge one; places and binding are not modelled.
- OmptLifecycle.Bridge.DoFinalize: the race between an emission that has passed its check and a finalization on another thread is not modelled; OMP_TOOL_LIBRARIES comes split.
- OmptLifecycle.Bridge.EmitConstruct: stands for the events XKOMP emits itself; the data words passed to tools are not modelled.
- OmptLifecycle.AfterExit: a callback into a closed library is one more event in the trace; what it then does is not modelled.
- FormatCache.OneFormatPerKey: the function table and label a format copies are not modelled, they do not depend on the lookup history.
- PassParser.ParseTaskgraphOpt: the pass names come from the parser's documentation, their bit positions are not part of this model; strtok is modelled by its description in the C standard.
- Layout.TaskArgs.constructor: the space of the device and detachable parts, and the point where the accesses end, are XKRT's.
- Worksharing loops, `single`, `master`, `barrier`, the GOMP layer, device offload, `omp_*` queries, logging and build files: forwards, stubs or delegation.
- Device ids, places and proc-bind parsing: easy lookups that would only add members.
