# EdgeOS kernel model

A Dafny model of the parts of the EdgeOS kernel whose state is hard to keep consistent, with
proofs about every run, every input or every reachable state.

- **Tasks and scheduling** (`TaskSystem`, `TaskInvariants`, `TaskCalls`, `TaskRuns`,
  `TaskDeaths`, `TaskFairness`, `TaskBoot`, `TaskGroups`, `SchedulerCheck`): the process table
  and the run queues as values, what every call keeps, and theorems over whole runs, from any well-formed
  state and from boot. `IntrusiveLists`, `KernelLinks` and `KernelTables` hold the tables with
  their intrusive links; each method there is proved to carry out the corresponding function
  of the model.
- **User mappings** (`UserMappings`): the slot table of intervals, removal with splitting, the
  top-down gap search, and brk, mmap and munmap on it.
- **Descriptors** (`DescriptorCounts`, `Descriptors`): per-process descriptor rows, shared
  objects and file references with their counts, and every call that copies or drops an entry.
- **File tree** (`FileTree`): parent indices in reusable slots, the path parser and printer.
- **Pipes and terminals** (`ByteRings`, `LineDiscipline`, `Terminals`): byte rings, pipes and
  the pseudo-terminal line discipline.
- **User stack** (`UserStack`): the initial stack of a program, as section 3.4.1 of the System
  V AMD64 ABI prescribes.
- **Disk requests** (`AhciScatter`): cutting a scatter list into AHCI commands (section 4.2.3.3
  of AHCI 1.3.1).
- **USB schedule** (`UsbDma`, `UhciSchedule`, with `Division`): the bump allocator and the
  queue-head chain of a UHCI controller (section 3.3 of the UHCI Design Guide 1.1).
- **Timers** (`Timers`) and the **Internet checksum** (`InternetChecksum`, section 1 of RFC
  1071). `Machine` holds the widths they share.

`dafny verify dfyconfig.toml` checks everything.

Source structures that are rewritten in place are classes here; a C pointer into a table is the
index of its entry, with -1 (`NULL`) for none. Table sizes are parameters. Each kernel call is
one atomic step. What the hardware or code outside the model decides is a parameter of the call
that needs it: whether the ELF loader accepts an image, whether pages are present and writable,
whether a copy to user memory succeeds, and the clock.

## Where the code differs from what one would expect

- The debug check of the scheduler prints its per-CPU complaints in healthy states, for example
  when init, alone after boot, yields (`SchedulerCheck.BootedComplains`); after which calls it does
  so is told by `YieldQuietIff`, `WakeQuietIff` and `ParkQuietIff`. Its per-task complaints never
  occur. The check is compiled out unless EDGE_SCHED_DEBUG is set (src/sys/scheduler.c:20-21).
- A task killed by a group signal together with its parent is left to init, which is not woken for
  it: a blocked init can end up with a dead child it does not know of (`TaskGroups.UnawareIff` says
  exactly when, `TaskGroups.InitUnaware` gives one).
- Each fork that makes a descriptor row takes up to three file references for standard descriptors
  and forgets them when it clears the row, and a failing open of /dev/tty forgets one; nothing ever
  gives them back (`Descriptors.ForkLeaks`). `Descriptors.FdTables.Serve` says exactly how many are
  lost, and that no other call loses any.
- A munmap that starts below the heap window, or runs past the end of the address range, succeeds and
  unmaps nothing (`UserMappings.UnmapClearsIff` says exactly when, `UserMappings.UnmapMisses` gives one).
- A path that does not fit its buffer is printed cut off, with success
  (`FileTree.FileSystem.PathRoundTrip`).
- A disk request of 2^32 bytes or more fails, because the remaining byte count is cut to 32
  bits; it has by then moved what the total exceeds a multiple of 2^32, nothing if it is one
  (`AhciScatter.Issue`, `AhciScatter.CommandLimit`, `AhciScatter.FourGigabytes`).
- A slave write can report zero bytes while there is room (`LineDiscipline.SlaveWriteStalls`), a
  full canonical input line cannot even be erased (`LineDiscipline.StuckIff`,
  `LineDiscipline.OneWriteJams`), and an end-of-file byte is delivered to the reader like any other
  (`LineDiscipline.EofCutsTheFold`).

Two calls rely on their callers, who do what they must:

- Freeing a zombie that some CPU still runs would leave that CPU with a freed current task
  (`TaskRuns.WaitKeepsInvIff` gives the exact condition). The kernel starts one CPU
  (src/sys/process.c:285), and `TaskBoot.BootedRuns` proves that no run from boot gets there.
- Appending a queue head twice would cut the USB schedule or make it endless
  (`UhciSchedule.AppendIff`). Both callers append a fresh head once.

## Model

| member | source | states |
|---|---|---|
| `TaskRuns.Run` | src/sys/process.c:319-567 | in every run of forks, spawns, exits, waits, dispatches on any CPUs, wake-ups, and kills and signals from anywhere, interrupts on an idle CPU included, in which no wait frees a task that is still current, the state stays well formed: child lists are exactly the tasks with that parent and have no duplicates, ppid is the pid of a live parent, parents have smaller pids, zombies have no children, pids are unique; and a task is on a queue iff it is runnable, on the queue of its assigned CPU only, and every running task is current there |
| `TaskBoot.BootedRuns` | src/sys/process.c:281-567 | from boot the proviso on waits is no restriction: in every run of the calls, nothing being asked of a wait but a running caller, the state is well formed, only the first CPU is used, and every wait frees only tasks that no CPU runs |
| `TaskBoot.OneStep` | src/sys/process.c:281-567 | one step of such a run: every call running tasks can make is enabled and no task ever reaches another CPU |
| `TaskBoot.BootedDeaths` | src/sys/process.c:436-523 | from boot, and from there on in any further calls, no wait reports a pid twice, a task is reported exactly once if it is gone at the end and never if it is still there, and a dead one with the exit code it has at that time |
| `TaskBoot.BootedFairness` | src/sys/scheduler.c:413-461 | from boot, a task with k tasks ahead of it runs or dies within k+1 dispatches |
| `TaskRuns.StepInv` | src/sys/process.c:319-567 | the same for one step, from any well-formed state, for a wait that does not free a current task; TaskRuns.WaitKeepsInvIff shows that proviso to be exact |
| `TaskDeaths.DeathReportedOnce` | src/sys/process.c:436-523 | in every run a task is reported by wait exactly once if it is gone at the end and never if it is still there; a dead one that is still there is a zombie on exactly one child list, that of a living task |
| `TaskDeaths.ReportedAtMostOnce` | src/sys/process.c:461-523 | in every run no pid is reported twice, also of tasks born on the way |
| `TaskDeaths.StatusIsTheCode` | src/sys/process.c:489-523 | in every run the status told with a dead pid is its exit code at that time, cut to eight bits and shifted: the code at the start, or that of the last kill that named the dead task |
| `TaskDeaths.DeathStatus` | src/sys/process.c:436-567 | a task dies only by exit, kill or signal, and the status later told is the code of that event, 128 plus the number for a signal, unless a kill names the dead task in between |
| `TaskDeaths.NeverAgain` | src/sys/process.c:461-523 | once reaped, a pid is never reported and never found again |
| `TaskDeaths.StepFind` | src/sys/process.c:436-523 | a known pid disappears from the table in exactly the step whose wait returned it, and only zombies are returned |
| `TaskDeaths.StepTasks` | src/sys/process.c:319-567 | how one step changes which slots hold which tasks: only a reported pid leaves, only pids not used before arrive, the dead stay dead |
| `TaskFairness.BoundedWaiting` | src/sys/scheduler.c:413-461 | in every run with more than k dispatches of a CPU, a task with k tasks ahead of it on that CPU runs or has been killed |
| `TaskFairness.StepAdvances` | src/sys/scheduler.c:310-461 | unless it kills the task, no step moves a waiting task back, and a dispatch of its CPU runs it or moves it up one place |
| `TaskFairness.IdleOnlyWhenEmpty` | src/sys/scheduler.c:200-207 | the idle task is chosen iff the queue is empty and the previous task no longer runs |
| `TaskCalls.RoundRobin` | src/sys/scheduler.c:413-461 | a dispatch, field by field: a running task goes to the end of the queue of the local CPU as runnable, the first task of that queue runs and is current, or none is, and nothing else changes |
| `TaskRuns.WaitAnswers` | src/sys/process.c:489-523 | for every form of pid, waitpid reaps iff a selected child is dead, and then the first such on the list with its status; it fails iff no child is selected; the next three rows say which children each form selects |
| `TaskRuns.WaitForPid` | src/sys/process.c:489-523 | with a positive pid everything depends on the task of that pid: unknown or not a child of the caller, the wait fails without effect; dead, it is freed and its pid and status told; else the caller is told so, or blocks and the first task of its queue runs |
| `TaskRuns.WaitForGroup` | src/sys/process.c:489-523 | with pid 0, which means the group of the caller, or a pid below -1, the wait fails iff no child is in that group, and otherwise frees the first dead child in it |
| `TaskRuns.WaitForAny` | src/sys/process.c:489-523 | with pid -1 it fails iff there is no child, and otherwise frees the first dead one |
| `TaskCalls.BlockSwitches` | src/sys/process.c:514-522 | blocking and yielding leaves the caller blocked, hands the CPU to the first task of the queue, or none, and changes nothing else |
| `TaskRuns.SetTakesEffect` | src/sys/process.c:902-949 | group and handler changes have exactly the effect asked for |
| `TaskRuns.WakeTakesEffect` | src/sys/scheduler.c:310-337 | a woken task is runnable and last on the queue of its CPU, and nothing else changes |
| `TaskRuns.SwitchTakesEffect` | src/sys/scheduler.c:269-272 | selecting a CPU that exists selects it, any other number the first one |
| `TaskRuns.ReapKeepsInvIff` | src/sys/process.c:504-511 | freeing a zombie keeps the state well formed iff the zombie is current on no CPU; the source frees it without that test |
| `TaskRuns.WaitKeepsInvIff` | src/sys/process.c:489-523 | a wait keeps the state well formed iff the child it would reap, if any, is current on no CPU |
| `SchedulerCheck.CheckIsQuiet` | src/sys/scheduler.c:78-118 | in a well-formed state the per-task complaints of the debug check cannot occur: flag and queue membership agree, at most one occurrence over all queues, on the assigned CPU, and every runnable or running task is queued or current |
| `SchedulerCheck.BootedComplains` | src/sys/scheduler.c:69-72 | the per-CPU check complains about the freshly booted system, in which init runs alone, and does so when init yields |
| `SchedulerCheck.YieldQuietIff` | src/sys/scheduler.c:413-461 | after a dispatch the check complains about the CPU iff exactly one task, queued or running, wanted to run there before |
| `SchedulerCheck.WakeQuietIff` | src/sys/scheduler.c:310-337 | after make_runnable, also of a child fork has just linked, it complains about the CPU iff the current task there has stopped or is the one made runnable |
| `SchedulerCheck.ParkQuietIff` | src/sys/scheduler.c:339-375 | after set_blocked or set_zombie, also of a child fork has just linked, it is quiet iff the CPU idles, or runs another task while a third one waits; so it complains whenever a task stops itself |
| `SchedulerCheck.ForkedIsSound` | src/sys/process.c:412-418 | the states in which fork blocks and then wakes its linked, still unused child are covered by the two rows above |
| `SchedulerCheck.OccurrencesOwner` | src/sys/scheduler.c:85-94 | the number of times the walk over all queues meets a task is one if it is queued and zero otherwise |
| `TaskInvariants.LinkInv` | src/sys/process.c:113-125 | moving a used task below a live task with a smaller pid keeps the state well formed and changes only links |
| `TaskInvariants.LinkAllInv` | src/sys/process.c:525-538 | adopting a whole child list empties it and puts the children, reversed, before the adopter's own; every other field is unchanged |
| `TaskInvariants.AdoptInv` | src/sys/process.c:525-547 | adoption by init of the children of a dying task |
| `TaskInvariants.AdoptWalkIdle` | src/sys/process.c:540-546 | the table walk for a pid that no task has, and that is not the ppid of init, moves and changes nothing |
| `TaskInvariants.AdoptWalkIdleIff` | src/sys/process.c:540-546 | that condition is exact: the walk counts nothing iff the pid is not the ppid of init |
| `TaskInvariants.WakeInv` | src/sys/scheduler.c:310-337 | waking a blocked task on its assigned CPU keeps the state well formed |
| `TaskInvariants.ParkInv` | src/sys/scheduler.c:339-375 | blocking a live task, or burying a childless one, keeps the state well formed |
| `TaskInvariants.NotifyInv` | src/sys/process.c:127-137 | notifying a parent keeps the state well formed, touches no other task and leaves the parent not blocked |
| `TaskCalls.BuryInv` | src/sys/process.c:446-458 | the dead task is a zombie with its exit code; its new parent is init if the old one ignores SIGCHLD and the old one otherwise; that parent is not left blocked and has SIGCHLD pending unless it ignores it; the children are init's; nothing else of any task, no current task and no pid counter changes |
| `TaskCalls.KillInv` | src/sys/process.c:549-567 | kill fails without effect iff the pid is unknown or 1, and otherwise the task dies as above |
| `TaskCalls.ExitInv` | src/sys/process.c:436-459 | exit of any task but init makes the caller die as above |
| `TaskCalls.ForkInv` | src/sys/process.c:319-419 | fork keeps the state well formed and returns -1 or the next pid |
| `TaskCalls.ForkMakes` | src/sys/process.c:319-419 | fork fails without effect iff no user slot is free or the caller is outside the user slots; otherwise exactly one task is added, in the first free slot: the next pid, group and handlers of the caller, no pending SIGINT or SIGTERM, first on the caller's child list and last on the queue of its CPU |
| `TaskCalls.SpawnMakes` | src/sys/process.c:582-739 | the same for spawn, which fails iff no slot is free or the loader refuses the image, and then leaves at most a clean slot and a spent pid |
| `TaskCalls.SpawnInv` | src/sys/process.c:582-739 | spawn keeps the state well formed, also when the loader refuses the image and the slot is taken back |
| `TaskCalls.ReapInv` | src/sys/process.c:504-511 | reaping a zombie that is current nowhere frees exactly its slot |
| `TaskCalls.YieldInv` | src/sys/scheduler.c:413-461 | one dispatch keeps the state well formed |
| `TaskCalls.SignalOneInv` | src/sys/process.c:973-999 | signalling one task keeps the state well formed |
| `TaskGroups.Sweep` | src/sys/process.c:1009-1019 | the walk of a group signal in closed form: which tasks it kills, in which the signal becomes pending, whom each death notifies, given that parents may die before or after their children in table order, and every field of every task afterwards |
| `TaskGroups.GroupSignalled` | src/sys/process.c:1009-1019 | signalling a group does that, and answers 0 iff the group number is positive and some live member takes the signal, that is the signal is known and would not kill init |
| `TaskGroups.OneSignalled` | src/sys/process.c:973-1007 | signalling one task answers 0 iff it lives, the signal is known and would not kill init; a default kills it with code 128 plus the number, a handler gets exactly that signal pending and the task woken, an ignored signal changes nothing |
| `TaskGroups.UnawareIff` | src/sys/process.c:1009-1019 | a task killed by a group signal has a blocked parent afterwards iff its parent was killed too, init was blocked, and nothing in the walk wakes init |
| `TaskGroups.InitUnaware` | src/sys/process.c:1009-1019 | it happens: a well-formed state in which killing a group leaves a dead task to a blocked init |
| `KernelTables.Kernel.RqRemove` | src/sys/scheduler.c:186-198 | unlinking from the doubly linked run queue takes exactly that task out of the sequence the links spell |
| `KernelTables.Kernel.RqPushTail` | src/sys/scheduler.c:170-184 | links the task behind the tail, unless it is queued already |
| `KernelTables.Kernel.RqPopHead` | src/sys/scheduler.c:155-168 | takes the first task of the sequence off, NULL iff it is empty |
| `KernelTables.Kernel.PickNext` | src/sys/scheduler.c:200-207 | drops stale entries up to the first runnable task and takes that off |
| `KernelTables.Kernel.MakeRunnable` | src/sys/scheduler.c:310-337 | the task is off any other queue, assigned, runnable and last on the queue of the CPU |
| `KernelTables.Kernel.Park` | src/sys/scheduler.c:339-375 | the task is off its queue and in the given state |
| `KernelTables.Kernel.SetUnused` | src/sys/scheduler.c:377-392 | the task is off every queue and unassigned |
| `KernelTables.Kernel.Preempt` | src/sys/scheduler.c:413-440 | the previous task, if it still runs, goes to the tail of its queue |
| `KernelTables.Kernel.Dispatch` | src/sys/scheduler.c:442-460 | the first runnable task becomes current and running |
| `KernelTables.Kernel.Schedule` | src/sys/scheduler.c:413-461 | a whole dispatch, as one function of the state |
| `KernelTables.Kernel.SetCpuId` | src/sys/scheduler.c:269-272 | selects the local CPU |
| `KernelTables.Kernel.ChildUnlink` | src/sys/process.c:101-111 | sibling pointers are rewritten so that exactly this child leaves the list |
| `KernelTables.Kernel.ChildLink` | src/sys/process.c:113-125 | the task leaves its old list and heads the new one |
| `KernelTables.Kernel.FindByPid` | src/sys/process.c:141-146 | the used task with that pid, or NULL |
| `KernelTables.Kernel.TaskAlloc` | src/sys/process.c:153-158 | the first unused user slot, or NULL |
| `KernelTables.Kernel.AdoptList` | src/sys/process.c:530-538 | the walk that reads the next sibling before it moves the child visits the whole list once |
| `KernelTables.Kernel.AdoptOrphans` | src/sys/process.c:525-547 | moves and counts the children of a pid |
| `KernelTables.Kernel.NotifyParent` | src/sys/process.c:127-137 | marks SIGCHLD unless ignored and wakes a blocked parent |
| `KernelTables.Kernel.Bury` | src/sys/process.c:446-458 | the shared tail of exit and kill |
| `KernelTables.Kernel.KillPid` | src/sys/process.c:549-567 | refines the kill function of the model, on the linked tables |
| `KernelTables.Kernel.ExitCurrent` | src/sys/process.c:436-459 | refines exit |
| `KernelTables.Kernel.Fork` | src/sys/process.c:319-419 | refines fork with the wake-up of the child |
| `KernelTables.Kernel.SpawnExec` | src/sys/process.c:582-739 | refines spawn, the failing loader included |
| `KernelTables.Kernel.Release` | src/sys/process.c:508-510 | unlink, unqueue and zero a slot |
| `KernelTables.Kernel.WaitPid` | src/sys/process.c:489-523 | the sibling walk reaps the first matching zombie, or fails, reports none, or blocks and yields; the links stay in agreement, and the state stays well formed iff the reaped task is current on no CPU |
| `KernelTables.Kernel.SearchChildren` | src/sys/process.c:495-513 | the first selected zombie on the sibling list, or NULL and whether any child is selected |
| `KernelTables.Kernel.WaitAny` | src/sys/process.c:461-487 | the loop without a pid is waitpid with -1, with the same condition |
| `KernelTables.Kernel.SignalOne` | src/sys/process.c:973-999 | default, ignored and caught signals |
| `KernelTables.Kernel.SendSignal` | src/sys/process.c:1001-1007 | signal by pid |
| `KernelTables.Kernel.SendSignalPgid` | src/sys/process.c:1009-1019 | signal to every live member of a group, in table order |
| `KernelTables.Kernel.Wake` | src/sys/process.c:994-997 | a wake-up on the assigned CPU |
| `KernelTables.Kernel.Configure` | src/sys/process.c:902-949 | process group and handler changes keep the state well formed |
| `KernelTables.Kernel.constructor` | src/sys/process.c:281-317 | the tables after boot are well formed |
| `KernelTables.Kernel.PerformAll` | src/sys/scheduler.c:57-122 | carrying out any run on the linked tables ends in the state of that run, with links, lists and flags in agreement |
| `KernelTables.RunFromBoot` | src/sys/process.c:281-567 | booting the linked tables and making any calls ends in the state of that run from boot |
| `UserMappings.RemovedMaps` | src/sys/syscall.c:6703-6738 | removing a range leaves exactly the old address-to-rights map minus the range, and minus the upper part of the one split mapping iff the table was full |
| `UserMappings.RemovedDisjoint` | src/sys/syscall.c:6703-6738 | the table stays disjoint and the range is free |
| `UserMappings.StartsBelowFalls` | src/sys/syscall.c:6673-6701 | moving the cursor to a blocking mapping lowers the number of mappings below it |
| `UserMappings.NothingAbove` | src/sys/syscall.c:6684-6699 | no window can lie above the start of a mapping that blocks the highest candidate |
| `UserMappings.AfterRecord` | src/sys/syscall.c:6659-6671 | recording a freed range maps exactly that range anew |
| `UserMappings.AddressSpace.FindFreeSlot` | src/sys/syscall.c:6629-6635 | the first free slot, or -1 |
| `UserMappings.AddressSpace.RecountMappings` | src/sys/syscall.c:6637-6644 | the cached count equals a recount |
| `UserMappings.AddressSpace.RefreshHint` | src/sys/syscall.c:6646-6657 | the cached hint is the lowest mapping start in the heap window, or its limit |
| `UserMappings.AddressSpace.Record` | src/sys/syscall.c:6659-6671 | fails iff the range is empty or the table full; otherwise the range is in the first free slot and both cached values are fresh |
| `UserMappings.AddressSpace.FindTopDownGap` | src/sys/syscall.c:6673-6701 | the highest page-aligned free window in [floor, top), 0 iff there is none, and never because of the iteration cap, for tables of any size |
| `UserMappings.AddressSpace.LowestBlocker` | src/sys/syscall.c:6688-6696 | the lowest mapping that meets the candidate window |
| `UserMappings.AddressSpace.CutSlot` | src/sys/syscall.c:6708-6731 | one turn of the removal loop |
| `UserMappings.AddressSpace.RemoveRange` | src/sys/syscall.c:6703-6738 | the loop, which may fill a slot it has yet to visit, computes the removal; it reports a change iff a mapping met the range, and then refreshes count and hint |
| `UserMappings.AddressSpace.Brk` | src/sys/syscall.c:6604-6627 | exactly when the break moves, and that it never meets a mapping; UserMappings.BreakMoves says where to |
| `UserMappings.AddressSpace.Mmap` | src/sys/syscall.c:6740-6842 | where a mapping goes (the highest window), what the table maps afterwards, what a failure leaves behind and the reasons for each failure; UserMappings.MapCovers says it of the bytes asked for |
| `UserMappings.AddressSpace.Place` | src/sys/syscall.c:6759-6773 | the place of a mapping that is not fixed |
| `UserMappings.AddressSpace.Install` | src/sys/syscall.c:6775-6842 | clearing, checking and recording the chosen range |
| `UserMappings.AddressSpace.Munmap` | src/sys/syscall.c:6844-6870 | exactly the range, in whole pages, is unmapped, or nothing; UserMappings.UnmapClearsIff says it of the bytes asked for |
| `UserMappings.AddressSpace.Serve` | src/sys/syscall.c:6604-6870 | in every run of the three calls each call does the above; mappings stay aligned, disjoint and counted, heap_base <= brk <= heap_limit, the hint once fresh stays fresh; without MAP_FIXED the mappings also stay inside [brk, heap_limit) |
| `UserMappings.AlignUpIs` | src/sys/syscall.c:1170-1172 | rounding up gives the whole pages that hold the length, less than a page more; only in the last page of the 64-bit range does it wrap to 0 |
| `UserMappings.MapRefused` | src/sys/syscall.c:6740-6758 | a mapping call answers EINVAL iff the length is zero or within a page of 2^64, the descriptor or offset is bad, or a fixed address is unaligned |
| `UserMappings.MapCovers` | src/sys/syscall.c:6740-6842 | a mapping in the heap window maps every one of the bytes asked for with the rights asked for, and less than a page more; one that is not fixed takes bytes that were free and takes nothing from any other mapping |
| `UserMappings.UnmapClearsIff` | src/sys/syscall.c:6844-6870 | a successful munmap leaves none of the bytes asked for mapped iff it starts in the heap window and does not run past the end of the address range, or none was mapped |
| `UserMappings.UnmapMisses` | src/sys/syscall.c:6844-6870 | it happens: unmapping two pages, the first just below the heap window, succeeds and leaves the second mapped |
| `UserMappings.BreakMoves` | src/sys/syscall.c:6604-6627 | the break goes to the first page boundary at or above the address iff that lies in the heap, meets no mapping on the way up and is writable; else it stays |
| `UserMappings.RecountIs` | src/sys/syscall.c:6637-6644 | the count kept is the number of mappings |
| `Descriptors.FdTables.Serve` | src/sys/syscall.c:1879-2117 | in every run of pipe, dup, dup2, dup3, open, /dev/tty included, close, fork, exec and exit by any processes, every call does what its contract says, each object count equals the number of entries over all processes that name that end, and each file reference count equals the number of entries that name it plus the times it was forgotten; only a successful fork, which forgets the lowest min(3, free) references, and a failing open of /dev/tty, which forgets the lowest one, ever forget, and nothing forgotten is remembered |
| `DescriptorCounts.UsedIffNamed` | src/sys/syscall.c:2041-2066 | an object slot is in use iff some entry of some process names it |
| `DescriptorCounts.NamedFileIsUsed` | src/sys/syscall.c:1890-1905 | the file reference an entry names is in use with a positive count |
| `DescriptorCounts.ForgottenIsUsed` | src/sys/syscall.c:1890-1905 | a forgotten file reference stays in use whatever entries there are |
| `Descriptors.TookCount` | src/sys/syscall.c:1987-2020 | how many references filling n standard descriptors takes: n, or all that are free if they are fewer |
| `Descriptors.ForkLeaks` | src/sys/syscall.c:2068-2117 | it happens: a process forks, both exit, no row is left, and three file references are in use for good |
| `DescriptorCounts.NamedIsUsed` | src/sys/syscall.c:2189-2194 | the object an entry names is in use |
| `DescriptorCounts.StoreBalanced` | src/sys/syscall.c:2068-2117 | copying an entry and raising its count keeps counts exact |
| `DescriptorCounts.FreshBalanced` | src/sys/syscall.c:1076-1088 | the first entry of a fresh object keeps counts exact |
| `DescriptorCounts.ClearBalanced` | src/sys/syscall.c:4067-4094 | clearing an entry and dropping its count, freeing the slot at zero, keeps counts exact |
| `Descriptors.FdTables.FileRefAlloc` | src/sys/syscall.c:1879-1888 | the first free file reference, 0 iff none |
| `Descriptors.FdTables.FdAlloc` | src/sys/syscall.c:2022-2033 | the lowest free descriptor from a minimum on |
| `Descriptors.FdTables.ObjSearch` | src/sys/syscall.c:2041-2050 | the first idle object of a table |
| `Descriptors.FdTables.EnsureStdio` | src/sys/syscall.c:1987-2020 | console entries for free standard descriptors, left free only when no file reference is; used ones are left alone |
| `Descriptors.FdTables.WithStdio` | src/sys/syscall.c:1857-1877 | the table of a process, created in a free row if need be |
| `Descriptors.FdTables.Close` | src/sys/syscall.c:4067-4094 | fails iff the descriptor is not in use; otherwise only that entry is cleared |
| `Descriptors.FdTables.Dup` | src/sys/syscall.c:6096-6120 | the lowest free descriptor becomes a copy |
| `Descriptors.FdTables.Dup2` | src/sys/syscall.c:6158-6190 | the new descriptor becomes a copy, after what it held is closed |
| `Descriptors.FdTables.Dup3` | src/sys/syscall.c:6192-6206 | the same with the close-on-exec mark |
| `Descriptors.FdTables.CloseOnExec` | src/sys/syscall.c:2595-2612 | exec closes marked descriptors above 2 and unmarks the others |
| `Descriptors.ExecCloses` | src/sys/syscall.c:2595-2612 | after exec no descriptor in use is marked, the marked ones above 2 are free, and every other one names what it named |
| `Descriptors.FdTables.Release` | src/sys/syscall.c:1907-1969 | after exit no row belongs to the process and no other row changed |
| `Descriptors.FdTables.CloneAfterFork` | src/sys/syscall.c:2068-2117 | the child row equals the parent row; fails iff the parent has none or no row is free; otherwise the three lowest free file references, or all if there are fewer, are taken for standard descriptors that are then cleared, and so forgotten, each once |
| `Descriptors.FdTables.OpenPlain` | src/sys/syscall.c:7929-7945 | an entry that names no counted object |
| `Descriptors.FdTables.OpenFresh` | src/sys/syscall.c:7947-7976 | a fresh object with one reference and its entry, or everything given back |
| `Descriptors.FdTables.OpenPts` | src/sys/syscall.c:3949-3984 | one more slave reference, iff the terminal is in use and unlocked |
| `Descriptors.FdTables.OpenTty` | src/sys/syscall.c:3881-3920 | an entry for the controlling terminal; without one, or with one no longer in use, it fails with no entry left and the lowest free file reference forgotten |
| `Descriptors.FdTables.Pipe` | src/sys/syscall.c:6208-6265 | the two lowest free descriptors name the two ends of the first idle pipe; every failure leaves the tables as they were |
| `FileTree.FileSystem.PathRoundTrip` | src/fs/fat32.c:36-59 | for every node of every tree the calls can build, resolving the printed path gives the node back iff the buffer holds the whole path and two more bytes, or the node is the root |
| `FileTree.ResolveFullPath` | src/fs/fat32.c:36-59 | the full path of a node resolves to it, from any directory |
| `FileTree.WalkOn` | src/fs/fat32.c:36-59 | behind any path, ".." leads to the parent of where the path leads, the root being its own, "." leads nowhere else, and any other component, cut to 63 characters, to the child of that name, or nowhere iff there is none |
| `FileTree.ResolveDots` | src/fs/fat32.c:36-59 | so from any directory the full path of a node and "/.." name its parent, and with "/." the node itself |
| `FileTree.ResolveTruncated` | src/fs/fat32.c:174-198 | a path cut off at a component resolves to an ancestor |
| `FileTree.DepthBounded` | src/fs/fat32.c:174-184 | no chain of parents is longer than the table, so the upward walk is never cut short |
| `FileTree.ResolveSplit` | src/fs/fat32.c:61-79 | a path names what its last component names in the directory of the rest |
| `FileTree.SplitJoined` | src/fs/fat32.c:61-79 | a directory, a slash, a component and any trailing slashes split into just those, the directory of a lone component being the one given and that of a leading slash the root; over-long components and directories are refused |
| `FileTree.SplitNothing` | src/fs/fat32.c:61-79 | a path of slashes only is refused |
| `FileTree.WalkStable` | src/fs/fat32.c:36-59 | adding a node changes no resolution that succeeded |
| `FileTree.CreatedIsResolved` | src/fs/fat32.c:22-34 | the path used to create a node resolves to it |
| `FileTree.TreeAdd` | src/fs/fat32.c:22-34 | a new node in any free slot, also one below its parent's index, keeps the tree well formed |
| `FileTree.TreeRemove` | src/fs/fat32.c:145-150 | freeing a file keeps the tree well formed |
| `FileTree.FileSystem.CreateNode` | src/fs/fat32.c:22-34 | fails iff the name is invalid or taken or the table full |
| `FileTree.FileSystem.constructor` | src/fs/fat32.c:81-97 | a fresh file system of more than seven slots holds the root and its seven directories, and nothing else |
| `FileTree.FileSystem.ResolvePath` | src/fs/fat32.c:36-59 | the loop with cut components computes the walk, which FileTree.WalkOn describes component by component |
| `FileTree.FileSystem.ResolveParent` | src/fs/fat32.c:61-79 | splits a path as specified, trailing slashes and limits included |
| `FileTree.FileSystem.Make` | src/fs/fat32.c:129-143 | succeeds iff the parent is a directory, the name valid and new and a slot free; then the path resolves to the fresh node and nothing else changed |
| `FileTree.FileSystem.Remove` | src/fs/fat32.c:145-150 | succeeds iff the path names a file; then only its slot is freed |
| `FileTree.FileSystem.WriteText` | src/fs/fat32.c:152-165 | the path names a file with that text, cut to the limit, and no other node changed; when it fails nothing changed |
| `FileTree.FileSystem.Serve` | src/fs/fat32.c:101-165 | in every run of mkdir, touch, write and rm, each from the directory its caller opened, each call does the above, the tree stays well formed although freed slots are reused, and at the end every node is named by its full path from anywhere |
| `FileTree.FileSystem.BuildPath` | src/fs/fat32.c:174-198 | prints the full path iff it fits, otherwise an ancestor's with a slash |
| `ByteRings.PipeConserves` | src/sys/syscall.c:4228-4255 | for every interleaving of reads and writes the bytes read followed by the ring contents are the bytes held at first followed by those accepted, and the ring is never over capacity |
| `ByteRings.PipeReads` | src/sys/syscall.c:4228-4255 | a read takes min(len, held) bytes off the front; from an empty pipe it answers end of file iff there is no writer, else EAGAIN or sleep |
| `ByteRings.PipeWrites` | src/sys/syscall.c:4460-4484 | a write fails iff there is no reader, adds all of its bytes or fills the ring, and answers EAGAIN or sleeps only when the ring is full |
| `ByteRings.Ring.Push` | src/sys/syscall.c:2196-2203 | appends one byte unless full; the write position stays the read position plus the count, around the end |
| `ByteRings.Ring.Take` | src/sys/syscall.c:4241-4250 | hands out exactly n bytes from the front through the bounce buffer |
| `ByteRings.Ring.LineLimit` | src/sys/syscall.c:2233-2254 | the length of the first line, delimiter included, within the request |
| `ByteRings.Ring.HasDelimiter` | src/sys/syscall.c:2217-2231 | whether some unread byte is a newline or the end-of-file byte |
| `ByteRings.Ring.PushAll` | src/sys/syscall.c:2210-2215 | appends as much as fits |
| `ByteRings.WrapIsMod` | src/sys/syscall.c:2196-2203 | wrapping once is the remainder by the ring size |
| `ByteRings.Pipe.Read` | src/sys/syscall.c:4228-4255 | what a pipe read answers and leaves |
| `ByteRings.Pipe.Write` | src/sys/syscall.c:4460-4484 | what a pipe write answers and leaves |
| `ByteRings.Pipe.Serve` | src/sys/syscall.c:4228-4255 | any sequence of calls on the ring itself, with conservation |
| `LineDiscipline.InputIsTheEditedFold` | src/sys/syscall.c:4332-4432 | in every run with fixed settings and no end-of-file byte, what the slave read followed by what it may read is the line-editing fold of every byte typed, wherever the reads cut |
| `LineDiscipline.WriteIsStored` | src/sys/syscall.c:4426-4428 | a master write of bytes that neither interrupt nor erase, newlines and end-of-file bytes included, appends as many as there is room for to the unread input |
| `LineDiscipline.WriteEdits` | src/sys/syscall.c:4384-4428 | an interrupt byte leaves the unread input alone, an erase byte takes off its last byte iff there is one and it is no newline, any other byte is appended |
| `LineDiscipline.WriteSplits` | src/sys/syscall.c:4358-4430 | a write that fits is the writes of its two halves |
| `LineDiscipline.LineIsRead` | src/sys/syscall.c:4118-4165 | on an empty canonical terminal a line with its newline or end-of-file byte, once written to the master, is exactly what the next long enough read of the slave answers, and nothing is left |
| `LineDiscipline.SlaveReads` | src/sys/syscall.c:4118-4165 | a slave read gets something iff there is a byte, in canonical mode a delimiter: up to len bytes, of one line only in canonical mode, taken off the front; else end of file, EAGAIN or sleep |
| `LineDiscipline.LinesNeverAltered` | src/sys/syscall.c:4401-4415 | in every run a line once ended by a newline is never changed by later typing |
| `LineDiscipline.CutIsInvisibleIff` | src/sys/syscall.c:4401-4415 | handing bytes to the reader is invisible to the editor iff they end with or stand before a newline, or nothing erases |
| `LineDiscipline.EofCutsTheFold` | src/sys/syscall.c:2217-2254 | with an end-of-file byte a read can cut an unfinished line, and then the fold differs |
| `LineDiscipline.OutputIsWhatWasAdded` | src/sys/syscall.c:4332-4432 | in every run, echo on or off, what the master read followed by what waits for it is what waited at first followed, in call order, by the expansions of what each slave write reported and the parts of the echoes of each master write that fitted |
| `LineDiscipline.OutputIsTheExpansion` | src/sys/syscall.c:4360-4383 | without echo that is the newline expansion of every byte the slave was told it wrote |
| `LineDiscipline.EchoIsRead` | src/sys/syscall.c:4384-4425 | what the master then reads of the echo of one byte: ^C and a newline for an interrupt, backspace, space, backspace for an erase that took a byte and nothing for one that did not, carriage return and newline for either where newlines are expanded, else the byte; nothing without echo |
| `LineDiscipline.ExpandKeeps` | src/sys/syscall.c:4376-4383 | without expansion the bytes of the slave are not changed |
| `LineDiscipline.MasterReads` | src/sys/syscall.c:4118-4165 | a master read takes min(len, held) bytes off the front, or answers end of file, EAGAIN or sleeps |
| `LineDiscipline.PtyWrites` | src/sys/syscall.c:4353-4359 | a write to a full ring answers EPIPE iff nobody holds the other end, else EAGAIN or sleeps; otherwise it takes bytes |
| `LineDiscipline.NothingAsked` | src/sys/syscall.c:4118-4432 | calls of length zero do nothing |
| `LineDiscipline.FittingIsLongest` | src/sys/syscall.c:4360-4375 | the reported prefix is the longest whose expansion fits |
| `LineDiscipline.SlaveWriteStalls` | src/sys/syscall.c:4366-4375 | with room left a slave write takes nothing iff one slot is left for a newline that needs two |
| `LineDiscipline.CollapseExpand` | src/sys/syscall.c:4376-4383 | the expansion loses nothing |
| `LineDiscipline.StuckIff` | src/sys/syscall.c:4353-4359 | the input ring is changed by no run of reads and writes iff it is canonical, full and without a delimiter |
| `LineDiscipline.JammedStays` | src/sys/syscall.c:4353-4359 | in that state no run hands the slave a byte or changes the ring |
| `LineDiscipline.OneWriteJams` | src/sys/syscall.c:4353-4359 | it happens: one master write of as many plain bytes as the ring holds jams a fresh canonical terminal |
| `LineDiscipline.CallFits` | src/sys/syscall.c:4353-4375 | no call overfills either ring |
| `Terminals.Pty.TypeByte` | src/sys/syscall.c:4384-4430 | one typed byte: interrupt, erase, echo or store |
| `Terminals.Pty.WriteMaster` | src/sys/syscall.c:4332-4432 | a master write is the fold and its echoes, and for each interrupt byte signals the foreground group, or the group of the caller if there is none |
| `LineDiscipline.InterruptsCounted` | src/sys/syscall.c:4384-4389 | the signals sent are as many as there are interrupt bytes, none when signals are off |
| `Terminals.Pty.ReadMaster` | src/sys/syscall.c:4118-4165 | what a master read answers and leaves |
| `Terminals.Pty.WriteSlave` | src/sys/syscall.c:4332-4432 | a slave write appends the expansion of exactly the prefix it reports |
| `Terminals.Pty.ReadSlave` | src/sys/syscall.c:4118-4165 | a slave read returns at most the first line |
| `Terminals.Pty.Serve` | src/sys/syscall.c:4118-4432 | any sequence of calls on the two rings is the run of the model |
| `UserStack.Stack.Build` | src/sys/user_exec.c:43-128 | fails iff the words do not fit below the aligned strings; otherwise, from a stack pointer divisible by 16, memory reads back as argc, the argv strings, NULL, the envp strings, NULL and the auxiliary vector, and nothing above the stack top changed; strings longer than the stack top address make the first one that does not fit go to an address that has wrapped around, which is told |
| `UserStack.ReadsUnique` | src/sys/user_exec.c:95-97 | at most one start-up state can be read from a memory and a stack pointer |
| `UserStack.AuxTells` | src/sys/user_exec.c:98-119 | behind the two string vectors a program finds, for each of the kinds 3, 4, 5, 6, 7, 9 and 11 to 14, the program header address, 56, their number, 4096, the base, the entry, and the user and group ids, and then the end |
| `UserStack.LittleEndian` | src/sys/user_exec.c:36-41 | words read with the least significant byte first |
| `UserStack.Stack.Push` | src/sys/user_exec.c:36-41 | fails iff fewer than 8 bytes are left; otherwise the word reads back and everything above is untouched |
| `UserStack.Stack.CopyStrings` | src/sys/user_exec.c:69-82 | each string with its terminator lies at its pointer, one below the other; or the wrapped address of the first that does not fit |
| `UserStack.Stack.PushAux` | src/sys/user_exec.c:98-119 | eleven pairs, in the order of the vector |
| `UserStack.Stack.Align` | src/sys/user_exec.c:88-94 | the padding that leaves the final stack pointer aligned |
| `UserStack.Gather` | src/sys/user_exec.c:58-67 | at most 32 strings, up to the first NULL |
| `UserStack.TakenIs` | src/sys/user_exec.c:58-67 | which strings these are: those before the first NULL, before the count given, and at most 32 |
| `UserStack.Assemble` | src/sys/user_exec.c:98-127 | words at the stack pointer and strings above them are what a program reads |
| `AhciScatter.Issue` | src/drivers/ahci/ahci.c:497-575 | succeeds iff every piece is whole sectors, the total matches and is below 2^32; then every byte of the list is moved, in order, to or from its place in [lba, lba+count), by commands that tile that range and obey all limits; a request of the right length that fails has moved exactly the first bytes, up to the last whole sector of the first piece that is not whole sectors or as many as the total exceeds a multiple of 2^32, whichever is less; any other request has moved nothing |
| `AhciScatter.UsableAt` | src/drivers/ahci/ahci.c:273-307 | the cursor never passes the usable bytes and has used them all when it is stuck |
| `AhciScatter.Submit` | src/drivers/ahci/ahci.c:447-495 | one command moves the next bytes of the list, as many as its sectors say |
| `AhciScatter.Cursor.FillPrdt` | src/drivers/ahci/ahci.c:262-314 | at most 16 well-formed entries whose bytes are the next ones of the list, the interrupt flag on the last only; it maps nothing only at the end or before a piece that is not whole sectors |
| `AhciScatter.Cursor.Entry` | src/drivers/ahci/ahci.c:285-306 | one entry, at most 4 MiB, whole sectors, address halves that join to the address |
| `AhciScatter.CommandLimit` | src/drivers/ahci/ahci.c:536-540 | all that remains, in whole sectors, of the low 32 bits, or 65535 sectors if that is less; zero iff those low bits are zero |
| `AhciScatter.FourGigabytes` | src/drivers/ahci/ahci.c:536-540 | it happens: a request of 2^32 bytes, in whole sectors and of the right length, fails with nothing moved |
| `AhciScatter.MovesSplit` | src/drivers/ahci/ahci.c:558-559 | advancing the LBA by the sectors of a command keeps disk and memory in step |
| `AhciScatter.FinishedWhole` | src/drivers/ahci/ahci.c:279-297 | a list can be used up only if every piece is whole sectors |
| `UhciSchedule.Schedule.Serve` | src/drivers/usb/uhci.c:326-345 | after any sequence of allocations and appends of heads handed out and not yet appended, the walk from every frame visits the root and then each appended head exactly once in append order, and ends |
| `UhciSchedule.AppendIff` | src/drivers/usb/uhci.c:326-345 | an append extends the chain by the head iff the head was not on it; appending the last head again makes the walk endless, appending an earlier one cuts the chain behind it |
| `UhciSchedule.LinkRoundTrip` | src/drivers/usb/uhci.c:118-120 | a link pointer is the address of the queue head plus 2; it leads back to the index it was made from, and is neither a terminator nor a transfer descriptor |
| `UhciSchedule.Schedule.Append` | src/drivers/usb/uhci.c:326-345 | the walk ends and links the head behind the last one |
| `UhciSchedule.Schedule.AllocHead` | src/drivers/usb/uhci.c:134-144 | a head not handed out before; the chain is not disturbed |
| `UhciSchedule.FreeList.Pop` | src/drivers/usb/uhci.c:134-156 | no index is handed out twice, and none only when all are |
| `UhciSchedule.Schedule.constructor` | src/drivers/usb/uhci.c:185-208 | the idle schedule: one terminated head, in every frame |
| `UhciSchedule.View.ChainIsOrder` | src/drivers/usb/uhci.c:326-345 | the chain is the start chain and the appends in order |
| `UhciSchedule.CreateSchedule` | src/drivers/usb/uhci.c:224-234 | succeeds iff the frame list, from the next page boundary on, and the two pools behind it fit; then exactly these three blocks were taken and the idle schedule stands on the second |
| `UsbDma.AlignUpIsLowest` | src/drivers/usb/usb_dma.c:15-18 | the mask expression gives the lowest multiple at or above a value |
| `UsbDma.BitTest` | src/drivers/usb/usb_dma.c:30-30 | the mask test recognises exactly the powers of two |
| `UsbDma.Pool.Alloc` | src/drivers/usb/usb_dma.c:26-39 | succeeds iff size and alignment are valid and the block fits; the block is aligned, to 16 if asked for no alignment, and above all others |
| `UsbDma.Pool.AllocAll` | src/drivers/usb/usb_dma.c:26-39 | any sequence of requests yields aligned, pairwise disjoint blocks inside the pool |
| `Timers.TimerFd.ReadAll` | src/sys/syscall.c:3210-3224 | reads at any non-decreasing times count floor((now-first)/interval)+1 deadlines in all, and leave the first deadline after now |
| `Timers.TimerFd.Expire` | src/sys/syscall.c:3210-3224 | a peek counts what a read at the same time would, and only a read moves the deadline |
| `Timers.FiredIsQuotient` | src/sys/syscall.c:3217-3219 | the division counts exactly the deadlines that have come |
| `Timers.FiredAdds` | src/sys/syscall.c:3210-3224 | counting in two steps is counting once |
| `Timers.FirstAfter` | src/sys/syscall.c:1345-1348 | after the deadlines that have come, the next is the first after now |
| `Timers.IntervalTimer.Poll` | src/sys/syscall.c:1339-1353 | the catch-up loop lands on the deadline the division gives |
| `InternetChecksum.FillEcho` | src/net/lwip_stack.c:531-552 | accepts exactly 8 to 1600 bytes, odd lengths included; only the checksum field changes and the checksum of the result is zero |
| `InternetChecksum.Checksum` | src/net/lwip_stack.c:249-256 | the loop with its 32-bit accumulator, for data of any length: up to 131074 bytes the accumulator does not overflow, and for any length the call can be given the result is the checksum iff it did not |
| `InternetChecksum.SumIs` | src/net/lwip_stack.c:249-253 | the sum takes the bytes in pairs, high byte first, and a lone last byte as a high one |
| `InternetChecksum.Fold` | src/net/lwip_stack.c:254-254 | folding ends and preserves the sum modulo 65535 and whether it is zero |
| `InternetChecksum.FoldedUnique` | src/net/lwip_stack.c:254-255 | those properties determine the result |
| `InternetChecksum.VerifiesIff` | src/net/lwip_stack.c:249-256 | a message verifies iff its words sum to a positive multiple of 65535 |
| `InternetChecksum.CorruptionDetected` | src/net/lwip_stack.c:249-256 | a changed word goes unnoticed only between all zeros and all ones |

## Left out

- Page tables, CR3 and MSR writes, context-switch assembly, interrupt entry and spinlocks: hardware effects; each call is one atomic step.
- sched_setaffinity, process_set_state, scheduler_task_set_running and process_kill_pgid: not part of the runs.
- need_resched, time slices, accounting and the printing of the debug check: no invariant depends on them.
- The idle task is no table entry: a CPU that idles has current task NULL.
- Exit of init halts the machine; the model leaves the state as it is.
- Pids are unbounded integers; the source counts in an int.
- TaskRuns.Run: from states that no run from boot reaches, with several CPUs in use, a wait that would free a current task is not part of a run, because it breaks the invariant (TaskRuns.WaitKeepsInvIff).
- No invariant says that a blocked task has no dead child: it is false of init, which adopts the dead children of a dying task without being woken.
- Descriptors.FdTables.Release: entries are dropped one by one, each cleared as it is dropped, where the source clears the whole row at the end.
- Descriptor flags other than close-on-exec, file positions, sockets, the framebuffer hold count, eventfd counters and epoll watch lists: no count depends on them, or they are simple.
- Device mappings (framebuffer mmap): not part of the mapping table.
- UserMappings.AddressSpace.FindTopDownGap: two give-up tests of the search that cannot succeed with a page-aligned floor are not written out.
- UserMappings.AddressSpace.Serve: the mmap hint is what a fresh look gives only from the first change of the table on; before that it is the constant set at task creation.
- A copy from or to user memory that faults in the middle of a ring read or write: user buffers are taken to be accessible.
- Liveness of blocking reads and writes: a call that would wait answers that it sleeps, without effect.
- Terminals.Pty.Serve: terminal settings are fixed during a run; changing them between runs is allowed.
- UserStack.Stack.Build: where a string would be copied to an address that has wrapped around, the model stops and tells the address; what the copy destroys there is not modelled.
- The transfer of control to user mode and the registers it sets.
- AhciScatter.Issue: the controller always has a free slot and completes every command; tags, completion masks, timeouts and the register handshakes are not modelled.
- UHCI transfers, port resets, transfer descriptor chains and token encoding.
- UhciSchedule.Schedule.Append: links that are not queue heads or lead outside the pool do not occur on a chain, so the tests for them are not modelled.
- Timer arithmetic does not wrap around 64-bit microseconds.
- The directory-listing, read and copy calls of the file tree, and the lexical path normaliser of the VFS layer.
- ICMP beyond the checksum field, the rest of the network stack, consoles, keyboard, procfs, getty, the shell and user programs.
