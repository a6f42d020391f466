# uC/OS-II query firmware: a verified model

This project models the parts of the DE2 query firmware where a small mistake would be hard to
see: the uC/OS-II kernel core, the FAT16/FAT32 reader, the SQL/WHERE compiler and its dialogue
with the hardware filter, the handoff between the two network tasks, and a few compact pieces of
board support (alarm clock, heap lock, numeral printer, time of day).  Each file models one
component; what the code promises is proved for every input, every run or every interleaving.

How the files hang together:

- `PrioBitmap`, `KernelSpec`, `KernelRuns`, `SchedSpec`, `TcbLists`, `EventBlocks`, `Kernel`: the
  kernel.  `KernelSpec` states each critical section over plain sets of priorities, `KernelRuns`
  runs them in every order, `SchedSpec` does the same for the nesting counters, `TcbLists` and
  `EventBlocks` cover the linked lists, masks and rings, and class `Kernel` holds the globals and
  the code, each method shown to be one abstract step.  `TaskSuspend`, `TaskResume`, `PostEvent`
  and `AbortEvent` follow the critical sections of OSTaskSuspend and OSTaskResume
  (os_task.c:941-991, 790-834), of OSSemPost, OSMboxPost and OSQPost (os_sem.c:453-484,
  os_mbox.c:455-489, os_q.c:571-608) and of the three pend-aborts.
- `FatLayout`, `FatReader`, `FatCard`, `FatNames`: the card reader, from the boot sector to the
  copied bytes; `FatExamples`: small cards that show its shortcomings.
- `SqlText`, `WhereCompiler`, `WhereRoundTrip`, `SqlRoundTrip`: from SQL text to packed
  instructions and back.
- `FeedLoop`: the feed and drain loop against any device with a finite output.
- `QueryHandoff`: the one-slot handoff between the receiving and the answering side.
- `TableFormat`: the table file, its Python writer and reader, and the firmware's loader.
- `AlarmClock`, `AlarmWalk`, `AlarmRuns`: the alarm list with callbacks that start and stop alarms,
  when a tick over it ends, and the 32-bit clock against an ideal one.
- `HeapLock`, `NumeralPrinter`, `TimeOfDay`: the compact pieces.
- `Machine`, `Options`: 32-bit words, bytes, and a missing value.

Assumptions about the outside: a card is a function from sector numbers to 512 bytes or to a
failed read; the hardware filter is an input and an output FIFO with arbitrary moves of its own;
callbacks, `atoi` and the kernel's callers are parameters; interrupts may come between any two
critical sections.

## Where the code falls short of its promise

Each of these is part of the model; where the promise holds under a condition, that condition is
proved to be the exact one.

- A task that is suspended while it waits in OSEventPendMulti, or after it was woken and before
  it ran, is never made ready again by OSTaskResume, because OS_STAT_MULTI is still set in its
  status; whatever was handed to it is lost
  (`HandoverReachesIffNeverSuspended`, `HandoverWakesIffNotSuspended`, `LosingRunExists`).
- More than 255 nested interrupts or scheduler locks saturate the 8-bit counters
  (`CountersExactIffWithin255`, `DeepNestingSwitchesEarly`).
- An alarm with the largest 32-bit delay fires on the next tick, unless the counter is about to
  wrap (`StartKeepsScheduleIffFits`); a callback that stops the alarm behind its own makes the tick
  run for ever, because a removed entry points to itself (`WalkEndsIff`, `TickHangs`).
- A task that calls for the heap with the scheduler locked, without owning it, is refused by
  OSSemPend (os_sem.c:306-309) and goes on as its owner; afterwards two tasks can have the heap
  (`LockIsSafeIffNeverRefused`, `CarefulIsSafe`, `CarelessIsRefused`, `TwoCanHold`).
- An empty file in the root directory, and any other whose start cluster is a multiple of 65536,
  is reported as missing (`RootFileFailsIff`, `MatchIsNotFound`), because only the low 16 bits of a
  FAT32 start cluster are used (`StartIsExactIffSmall`); a directory scan that comes back to a
  cluster never ends (`ScanEndsIffNoCircle`, `CircularCardIsScannedForEver`); reading a whole
  number of sectors looks at one sector more than it needs, and fails if that one cannot be read
  (`FailsNeedlesslyIff`, `ReadableFileIsRefused`); a table sector that cannot be read ends the file
  there, and what came before is reported as all of it (`TruncatedIff`, `FileIsCutShort`); the
  guessed alias of a name is the first numeric-tail name of the FAT rules only for bases of six
  characters or more and for characters a short name can have (`GuessIsShortNameIff`).
- A row limit of 256, the largest the firmware admits for row queries, reaches the hardware as 0
  (`LimitSurvivesIffBelow256`); an operator text outside the seven supported ones, such as `<>`,
  compiles as `=` (`OpCodeMeansIff`, `OtherOperatorsCompileAsEqual`).
- The firmware's loader refuses a table without rows that the Python reader accepts
  (`LoaderAgrees`); cells that are a single blank or NUL come back empty (`TableSurvivesIff`).
- Setting the time multiplies in 32 bits; once the product wraps, the result is wrong unless
  the number of wraps is a multiple of 15625 (`RoundTripExactIff`).

## Model

| member | source | states |
|---|---|---|
| `PrioBitmap.UnMapFindsLowestBit` | ProjetoFinal/DE2_NET/software/nios_bsp/UCOSII/src/os_core.c:38-55 | each of the 255 useful table entries is the lowest bit set in its index |
| `PrioBitmap.AgreeMeaning` | ProjetoFinal/DE2_NET/software/nios_bsp/UCOSII/src/os_core.c:909-912 | the consistency of a (group, table) pair says exactly: group bit y is set if and only if table byte y is non-zero |
| `PrioBitmap.InsertAddsOne` | ProjetoFinal/DE2_NET/software/nios_bsp/UCOSII/src/os_core.c:1029-1032 | the two or-statements keep the pair consistent and add exactly one priority to the set it stands for |
| `PrioBitmap.RemoveDropsOne` | ProjetoFinal/DE2_NET/software/nios_bsp/UCOSII/src/os_core.c:1144-1148 | clearing a bit, and the group bit when the byte became zero, keeps the pair consistent and removes exactly one priority |
| `PrioBitmap.GroupTellsEmpty` | ProjetoFinal/DE2_NET/software/nios_bsp/UCOSII/src/os_core.c:1213-1229 | a group byte of zero means the set is empty, and conversely |
| `PrioBitmap.ClearedTable` | ProjetoFinal/DE2_NET/software/nios_bsp/UCOSII/src/os_core.c:1335-1356 | cleared tables are consistent and stand for the empty set |
| `PrioBitmap.LookupFindsMin` | ProjetoFinal/DE2_NET/software/nios_bsp/UCOSII/src/os_core.c:1652-1677 | the two table lookups give the minimum of the set, that is the highest priority |
| `KernelSpec.StepKeepsInv` | ProjetoFinal/DE2_NET/software/nios_bsp/UCOSII/src/os_core.c:306-1196 | every critical section (post, abort, tick, both halves of the pends, delay, suspend, resume, create) keeps the invariant: waiters are in the listed wait lists and no others, woken or running tasks in none, an event with waiters has nothing available |
| `KernelSpec.InitialKeepsInv` | ProjetoFinal/DE2_NET/software/nios_bsp/UCOSII/src/os_core.c:554-592 | the state after initialisation satisfies that invariant |
| `KernelSpec.TakeAllNothing` | ProjetoFinal/DE2_NET/software/nios_bsp/UCOSII/src/os_core.c:385-456 | the scan takes nothing exactly when no listed event has anything, and then changes nothing |
| `KernelSpec.WholeWalk` | ProjetoFinal/DE2_NET/software/nios_bsp/UCOSII/src/os_core.c:896-917 | ticking the listed tasks one after the other equals ticking all of them but the idle task at once |
| `KernelSpec.ReturnLeavesAll` | ProjetoFinal/DE2_NET/software/nios_bsp/UCOSII/src/os_core.c:457-536 | after the second half of a pend the task is in no wait list and its pend fields are clear |
| `KernelRuns.RunKeepsInv` | ProjetoFinal/DE2_NET/software/nios_bsp/UCOSII/src/os_core.c:306-1196 | the invariant holds after every run of critical sections in any order |
| `KernelRuns.PendMultiHasOneOutcome` | ProjetoFinal/DE2_NET/software/nios_bsp/UCOSII/src/os_core.c:458-536 | over every run of everyone else between the two halves of a multi-pend, the call reports exactly what was handed to the task (even if the timeout fired first), an abort, or a timeout if nothing was; the event is one of those waited on, and afterwards the task is in no wait list |
| `KernelRuns.PendMultiBlocks` | ProjetoFinal/DE2_NET/software/nios_bsp/UCOSII/src/os_core.c:366-456 | the first half blocks the task in every listed wait list exactly when none of the events has anything |
| `KernelRuns.HandoverWakesIffNotSuspended` | ProjetoFinal/DE2_NET/software/nios_bsp/UCOSII/src/os_core.c:1018-1042 | a task that gets an event while multi-pending becomes ready if and only if it is not suspended at that moment; otherwise it never runs again in any continuation |
| `KernelRuns.SuspendLosesTheWoken` | ProjetoFinal/DE2_NET/software/nios_bsp/UCOSII/src/os_core.c:458-536 | a multi-pending task suspended after it was handed an event and before it ran never runs again |
| `KernelRuns.HandoverReachesIffNeverSuspended` | ProjetoFinal/DE2_NET/software/nios_bsp/UCOSII/src/os_core.c:458-536 | over every continuation in which it has not run yet, a multi-pending task that was handed something is able to resume if and only if it was not suspended at the handover and is not suspended afterwards |
| `KernelRuns.StrandedUntilHanded` | ProjetoFinal/DE2_NET/software/nios_bsp/UCOSII/src/os_core.c:460-468 | OSTaskResume cannot bring back a multi-pending task, because OS_STAT_MULTI stays in its status |
| `KernelRuns.LosingRunExists` | ProjetoFinal/DE2_NET/software/nios_bsp/UCOSII/src/os_core.c:1018-1042 | a five-step run from the initial state in which a posted semaphore unit is handed to a suspended multi-pending task |
| `KernelRuns.SuspendedPostIsLost` | ProjetoFinal/DE2_NET/software/nios_bsp/UCOSII/src/os_core.c:1018-1042 | in every continuation of that run the task stays out of the ready list |
| `KernelRuns.StepConserves` | ProjetoFinal/DE2_NET/software/nios_bsp/UCOSII/src/os_core.c:989-1043 | no critical section creates, drops or duplicates a message or semaphore unit: units before plus accepted equal units after plus returned, for every event and message |
| `KernelRuns.RunConserves` | ProjetoFinal/DE2_NET/software/nios_bsp/UCOSII/src/os_core.c:306-1196 | the same over every run; a unit handed to a task counts as present until the task returns it |
| `KernelRuns.WalkTicksOnce` | ProjetoFinal/DE2_NET/software/nios_bsp/UCOSII/src/os_core.c:896-917 | after a clock tick with anything between its turns, a task nothing else touched has lost exactly one tick of its delay, and is ready exactly if it was or the delay ran out and it is not suspended |
| `SchedSpec.CountersExactIffWithin255` | ProjetoFinal/DE2_NET/software/nios_bsp/UCOSII/src/os_core.c:617-761 | the nesting counters equal the outstanding interrupts and locks throughout a run if and only if there are never more than 255 of either |
| `SchedSpec.RunSwitchesWell` | ProjetoFinal/DE2_NET/software/nios_bsp/UCOSII/src/os_core.c:617-761 | in such a run the current task changes only when none is outstanding, and rescheduling then installs the highest-priority ready task |
| `SchedSpec.DeepNestingSwitchesEarly` | ProjetoFinal/DE2_NET/software/nios_bsp/UCOSII/src/os_core.c:617-679 | beyond 255 nested interrupts the counter reaches zero, and the task is switched, while interrupts are still outstanding |
| `TcbLists.ListsMeaning` | ProjetoFinal/DE2_NET/software/nios_bsp/UCOSII/src/os_core.c:1926-2024 | the list invariant says exactly: every block is on the free list, in flight, filled or on the active list, prev and next agree, the priority table and the active blocks name each other, masks match priorities, idle is the tail |
| `TcbLists.AllocMoves` | ProjetoFinal/DE2_NET/software/nios_bsp/UCOSII/src/os_core.c:1935-1939 | taking a block off the free list keeps the list invariant |
| `TcbLists.FillKeeps` | ProjetoFinal/DE2_NET/software/nios_bsp/UCOSII/src/os_core.c:1940-2007 | writing the block in flight changes no list and no task |
| `TcbLists.LinkAdds` | ProjetoFinal/DE2_NET/software/nios_bsp/UCOSII/src/os_core.c:2008-2019 | linking the filled block at the head keeps the list invariant and adds exactly one fresh task |
| `TcbLists.AllFree` | ProjetoFinal/DE2_NET/software/nios_bsp/UCOSII/src/os_core.c:1504-1531 | the initial tables have every block on the free list and no task |
| `TcbLists.UpdateTask` | ProjetoFinal/DE2_NET/software/nios_bsp/UCOSII/src/os_core.c:896-917 | rewriting the pend fields of one active block changes that task only and no list |
| `TcbLists.ActiveListIsTheTasks` | ProjetoFinal/DE2_NET/software/nios_bsp/UCOSII/src/os_core.c:896-917 | the active list holds each task exactly once, with the idle task at its tail |
| `EventBlocks.PopTakesFirst` | ProjetoFinal/DE2_NET/software/nios_bsp/UCOSII/src/os_core.c:415-430 | taking from the ring gives its first message and leaves the rest in order |
| `EventBlocks.AddEachIsAddWaiter` | ProjetoFinal/DE2_NET/software/nios_bsp/UCOSII/src/os_core.c:1095-1119 | enlisting in the events one by one, repeats included, joins exactly the listed wait lists |
| `EventBlocks.DropEachIsDropWaiter` | ProjetoFinal/DE2_NET/software/nios_bsp/UCOSII/src/os_core.c:1168-1196 | leaving them one by one leaves exactly the listed wait lists |
| `KernelCode.Kernel.EventTaskRemove` | ProjetoFinal/DE2_NET/software/nios_bsp/UCOSII/src/os_core.c:1138-1149 | removes the task from one wait list, and nothing else |
| `KernelCode.Kernel.EventTaskRemoveMulti` | ProjetoFinal/DE2_NET/software/nios_bsp/UCOSII/src/os_core.c:1168-1196 | removes the task from every listed wait list |
| `KernelCode.Kernel.EventTaskWait` | ProjetoFinal/DE2_NET/software/nios_bsp/UCOSII/src/os_core.c:1061-1076 | the current task joins one wait list and leaves the ready list |
| `KernelCode.Kernel.EventTaskWaitMulti` | ProjetoFinal/DE2_NET/software/nios_bsp/UCOSII/src/os_core.c:1095-1119 | the current task joins every listed wait list and leaves the ready list |
| `KernelCode.Kernel.HighestWaiter` | ProjetoFinal/DE2_NET/software/nios_bsp/UCOSII/src/os_core.c:1000-1003 | finds the highest-priority waiter |
| `KernelCode.Kernel.EventTaskRdy` | ProjetoFinal/DE2_NET/software/nios_bsp/UCOSII/src/os_core.c:989-1043 | hands the event and message to the highest-priority waiter exactly as the abstract step says |
| `KernelCode.Kernel.SchedNew` | ProjetoFinal/DE2_NET/software/nios_bsp/UCOSII/src/os_core.c:1652-1677 | computes the highest-priority ready task |
| `KernelCode.Kernel.Sched` | ProjetoFinal/DE2_NET/software/nios_bsp/UCOSII/src/os_core.c:1610-1633 | reschedules as the abstract scheduler does |
| `KernelCode.Kernel.IntEnter` | ProjetoFinal/DE2_NET/software/nios_bsp/UCOSII/src/os_core.c:617-630 | counts an interrupt up to 255, once multitasking runs |
| `KernelCode.Kernel.IntExit` | ProjetoFinal/DE2_NET/software/nios_bsp/UCOSII/src/os_core.c:651-679 | uncounts it and reschedules at zero, once multitasking runs |
| `KernelCode.Kernel.SchedLock` | ProjetoFinal/DE2_NET/software/nios_bsp/UCOSII/src/os_core.c:698-715 | counts a lock up to 255, from tasks only, once multitasking runs |
| `KernelCode.Kernel.SchedUnlock` | ProjetoFinal/DE2_NET/software/nios_bsp/UCOSII/src/os_core.c:735-761 | uncounts it and reschedules at zero, once multitasking runs |
| `KernelCode.Kernel.Start` | ProjetoFinal/DE2_NET/software/nios_bsp/UCOSII/src/os_core.c:785-794 | starts with the highest-priority ready task; a second call does nothing |
| `KernelCode.Kernel.TickBlock` | ProjetoFinal/DE2_NET/software/nios_bsp/UCOSII/src/os_core.c:897-914 | one task loses a tick and becomes ready exactly when its delay runs out and it is not suspended |
| `KernelCode.Kernel.TimeTick` | ProjetoFinal/DE2_NET/software/nios_bsp/UCOSII/src/os_core.c:851-919 | the tick reaches every task but the idle one exactly once, and its walk of the linked list ends |
| `KernelCode.Kernel.TickWalkInterrupted` | ProjetoFinal/DE2_NET/software/nios_bsp/UCOSII/src/os_core.c:896-917 | the same walk with posts, aborts and single steps of task creations between its turns, whatever creations stand between their critical sections when it begins: it ends, ticks every task listed at its start but the idle one exactly once, in order, and no task linked meanwhile; the whole is a legal run of these steps |
| `KernelCode.Kernel.PostEvent` | ProjetoFinal/DE2_NET/software/nios_bsp/UCOSII/src/os_core.c:966-1043 | a post of OSSemPost, OSMboxPost or OSQPost wakes the highest-priority waiter, or stores one unit if there is room |
| `KernelCode.Kernel.AbortEvent` | ProjetoFinal/DE2_NET/software/nios_bsp/UCOSII/src/os_core.c:966-1043 | a pend-abort of one waiter wakes the highest-priority waiter with abort status, or does nothing |
| `KernelCode.Kernel.TakeReady` | ProjetoFinal/DE2_NET/software/nios_bsp/UCOSII/src/os_core.c:385-456 | takes one unit from every listed event that has one, in order, or collects the flags to wait with |
| `KernelCode.Kernel.PendMultiStart` | ProjetoFinal/DE2_NET/software/nios_bsp/UCOSII/src/os_core.c:340-468 | the first half of a multi-pend: its refusals, what it takes, or the blocked state |
| `KernelCode.Kernel.PendMultiFinish` | ProjetoFinal/DE2_NET/software/nios_bsp/UCOSII/src/os_core.c:469-536 | the second half: event, message and error code belong to the single outcome |
| `KernelCode.Kernel.TcbAlloc` | ProjetoFinal/DE2_NET/software/nios_bsp/UCOSII/src/os_core.c:1935-1939 | the first critical section of task creation |
| `KernelCode.Kernel.TcbFill` | ProjetoFinal/DE2_NET/software/nios_bsp/UCOSII/src/os_core.c:1940-2007 | the stretch with interrupts enabled in between: only the block in flight is written |
| `KernelCode.Kernel.TcbLink` | ProjetoFinal/DE2_NET/software/nios_bsp/UCOSII/src/os_core.c:2008-2019 | the second critical section: one new ready task at the head of the list |
| `KernelCode.Kernel.TcbInit` | ProjetoFinal/DE2_NET/software/nios_bsp/UCOSII/src/os_core.c:1926-2024 | task creation as a whole, whatever other creations are in progress: one new ready task, or nothing when no block is free |
| `KernelCode.Kernel.constructor` | ProjetoFinal/DE2_NET/software/nios_bsp/UCOSII/src/os_core.c:554-592 | initialisation gives consistent empty tables |
| `KernelCode.Kernel.InitTcbList` | ProjetoFinal/DE2_NET/software/nios_bsp/UCOSII/src/os_core.c:1504-1531 | threads all blocks on the free list |
| `KernelCode.Kernel.WaitListInit` | ProjetoFinal/DE2_NET/software/nios_bsp/UCOSII/src/os_core.c:1213-1229 | clears one event's wait list |
| `KernelCode.Kernel.InitTaskIdle` | ProjetoFinal/DE2_NET/software/nios_bsp/UCOSII/src/os_core.c:1372-1422 | the idle task is the first task, at the tail of the list |
| `AlarmClock.Timer.AlarmStart` | ProjetoFinal/DE2_NET/software/nios_bsp/HAL/src/alt_alarm_start.c:64-112 | registers an alarm at the head of the list, or reports a missing clock or alarm |
| `AlarmClock.Timer.AlarmStop` | ProjetoFinal/DE2_NET/software/nios_bsp/HAL/src/alt_tick.c:66-73 | unlinks an alarm; harmless if it is not linked |
| `AlarmClock.Timer.Walk` | ProjetoFinal/DE2_NET/software/nios_bsp/HAL/src/alt_tick.c:98-141 | with callbacks that start and stop alarms: every alarm linked at the beginning gets exactly one turn, in order, unless a callback stops it first, and those started meanwhile get none; the list and the calls are those of WalkOf and CallsOf |
| `AlarmClock.Timer.AltTick` | ProjetoFinal/DE2_NET/software/nios_bsp/HAL/src/alt_tick.c:87-148 | a tick advances the counter and serves the list, whatever its callbacks start and stop |
| `AlarmWalk.WalkEndsIff` | ProjetoFinal/DE2_NET/software/nios_bsp/HAL/inc/sys/alt_llist.h:105-117 | followed pointer by pointer, the walk comes back to the list head if and only if no callback it makes stops the alarm behind its own, for all callbacks that start only alarms not on the list; it then leaves what WalkOf says |
| `AlarmWalk.TickHangs` | ProjetoFinal/DE2_NET/software/nios_bsp/HAL/src/alt_tick.c:98-141 | of any two alarms, the first due and stopping the second when called: the tick never ends |
| `AlarmWalk.GoesOn` | ProjetoFinal/DE2_NET/software/nios_bsp/HAL/src/alt_tick.c:98-141 | the ticks the other results speak of are among those that end |
| `AlarmRuns.NewAlarmTracksIffFits` | ProjetoFinal/DE2_NET/software/nios_bsp/HAL/src/alt_alarm_start.c:78-97 | the 32-bit time and roll-over flag stand for the absolute deadline if and only if the delay is below 2^32-1 or the counter is about to wrap |
| `AlarmRuns.ServeTracks` | ProjetoFinal/DE2_NET/software/nios_bsp/HAL/src/alt_tick.c:108-139 | one tick keeps that correspondence for one alarm and finds it expired exactly at its deadline |
| `AlarmRuns.WalkTracks` | ProjetoFinal/DE2_NET/software/nios_bsp/HAL/src/alt_tick.c:98-141 | a whole tick makes the callbacks of the ideal clock, in order, and keeps the correspondence, whatever the callbacks start and stop |
| `AlarmRuns.RunIsIdeal` | ProjetoFinal/DE2_NET/software/nios_bsp/HAL/src/alt_tick.c:87-148 | over unboundedly many ticks, starts and stops, from callbacks or not, across every wrap, the 32-bit clock makes exactly the callbacks of a clock with unbounded time |
| `AlarmRuns.ReachableIsIdeal` | ProjetoFinal/DE2_NET/software/nios_bsp/HAL/src/alt_tick.c:87-148 | the same from power-up on, with the correspondence holding at the end |
| `AlarmRuns.StartKeepsScheduleIffFits` | ProjetoFinal/DE2_NET/software/nios_bsp/HAL/src/alt_alarm_start.c:71-99 | a started alarm that nobody stops or starts again is called first nticks + 1 ticks later, then exactly k ticks after each call that returned k > 0, and never after returning 0, whatever other alarms and their callbacks do and with whatever delays they are started, if and only if its own delay fits |
| `AlarmRuns.LongestDelayFiresAtOnce` | ProjetoFinal/DE2_NET/software/nios_bsp/HAL/src/alt_alarm_start.c:80-97 | with the largest 32-bit delay the schedule fails already on the next tick |
| `HeapLock.StepMovesTheUnit` | ProjetoFinal/DE2_NET/software/nios_bsp/UCOSII/src/alt_malloc_lock.c:63-146 | every uninterrupted stretch of lock and unlock, but a refused pend, keeps the semaphore's single unit in the count or with one task, with matching bookkeeping |
| `HeapLock.LockIsSafeIffNeverRefused` | ProjetoFinal/DE2_NET/software/nios_bsp/UCOSII/src/alt_malloc_lock.c:63-146 | over every interleaving the lock is safe at every point (at most one task has the heap, locks is the nesting depth of the task lockid names, a holder never waits, the count is one exactly when nobody has it) if and only if no pend was refused for a locked scheduler |
| `HeapLock.RefusedIsUnsafe` | ProjetoFinal/DE2_NET/software/nios_bsp/UCOSII/src/alt_malloc_lock.c:99-107 | a refused pend leaves two holders, or a holder beside a free unit, at once |
| `HeapLock.CarefulIsSafe` | ProjetoFinal/DE2_NET/software/nios_bsp/UCOSII/src/alt_malloc_lock.c:63-146 | no pend is refused, and the lock is safe throughout, in every run in which nobody who does not own the heap calls for it with the scheduler locked |
| `HeapLock.CarelessIsRefused` | ProjetoFinal/DE2_NET/software/nios_bsp/UCOSII/src/alt_malloc_lock.c:81-107 | from every state reached so far, one such call runs into the refusal and breaks the lock |
| `HeapLock.LockCallMeans` | ProjetoFinal/DE2_NET/software/nios_bsp/UCOSII/src/alt_malloc_lock.c:63-146 | a lock call as a whole gets the free heap, nests for the holder and blocks for anyone else; its unlock leaves everything as it was before |
| `HeapLock.RefusedPairAddsAUnit` | ProjetoFinal/DE2_NET/software/nios_bsp/UCOSII/src/alt_malloc_lock.c:99-144 | a lock and its unlock with the scheduler locked leave one unit too many |
| `HeapLock.TwoCanHold` | ProjetoFinal/DE2_NET/software/nios_bsp/UCOSII/src/alt_malloc_lock.c:99-144 | for any two tasks a run from the start after which both have the heap |
| `HeapLock.CheckKnowsTheHolder` | ProjetoFinal/DE2_NET/software/nios_bsp/UCOSII/src/alt_malloc_lock.c:81-107 | until a pend is refused, a holder is always recognised and only counted, and anyone else always pends |
| `HeapLock.BlockedMeansHeld` | ProjetoFinal/DE2_NET/software/nios_bsp/UCOSII/src/alt_malloc_lock.c:99-146 | until a pend is refused, while a task is blocked some other task has the heap and can move on as soon as the scheduler lets it, and its post hands the heap over directly |
| `HeapLock.Heap.MallocLock` | ProjetoFinal/DE2_NET/software/nios_bsp/UCOSII/src/alt_malloc_lock.c:63-109 | the lock without interruptions is LockCall |
| `HeapLock.Heap.MallocUnlock` | ProjetoFinal/DE2_NET/software/nios_bsp/UCOSII/src/alt_malloc_lock.c:111-146 | the unlock without interruptions is UnlockCall |
| `FatLayout.ParseBpb` | ProjetoFinal/DE2_NET/software/nios/sd_driver.c:415-460 | a boot sector is accepted exactly with signature, 512-byte sectors, non-zero cluster size and table count |
| `FatLayout.RegionsFollow` | ProjetoFinal/DE2_NET/software/nios/sd_driver.c:446-459 | tables, root directory and data follow one another without overlap while 32-bit sector numbers reach |
| `FatLayout.ClustersDisjoint` | ProjetoFinal/DE2_NET/software/nios/sd_driver.c:463-466 | different clusters share no sector and stay behind the root directory |
| `FatLayout.NoStraddling` | ProjetoFinal/DE2_NET/software/nios/sd_driver.c:469-488 | a table entry never straddles two sectors, whatever the cluster number |
| `FatLayout.LookupIsIndexing` | ProjetoFinal/DE2_NET/software/nios/sd_driver.c:469-493 | the lookup split into sector and index is indexing in the flat little-endian table |
| `FatReader.ScanIsFirstMatch` | ProjetoFinal/DE2_NET/software/nios/sd_driver.c:587-666 | a directory scan is a first-match search over the flat list of 32-byte entries, stopping at the first end mark |
| `FatReader.StartIsExactIffSmall` | ProjetoFinal/DE2_NET/software/nios/sd_driver.c:643-647 | the start cluster used is the entry's full one if and only if that is below 65536 |
| `FatReader.ScanEndsIffNoCircle` | ProjetoFinal/DE2_NET/software/nios/sd_driver.c:600-663 | the scan of a directory chain ends if and only if it does not come back, without a hit or an end mark, to a cluster it has scanned already |
| `FatReader.AcyclicScanEnds` | ProjetoFinal/DE2_NET/software/nios/sd_driver.c:656-662 | on an acyclic chain every scan ends |
| `FatReader.CircleNeverEnds` | ProjetoFinal/DE2_NET/software/nios/sd_driver.c:656-662 | a circular directory chain without hit or end mark is scanned for ever |
| `FatExamples.CircularCardIsScannedForEver` | ProjetoFinal/DE2_NET/software/nios/sd_driver.c:656-662 | a card on which the scan of the root directory never ends, whatever is looked for |
| `FatReader.MoreClustersSameVerdict` | ProjetoFinal/DE2_NET/software/nios/sd_driver.c:604-663 | once a scan is decided, looking at more of the chain changes nothing |
| `FatReader.ReadIsChainPrefix` | ProjetoFinal/DE2_NET/software/nios/sd_driver.c:760-796 | with readable sectors, reading n bytes gives exactly the first n bytes of the concatenated clusters, or all of them |
| `FatReader.FailsNeedlesslyIff` | ProjetoFinal/DE2_NET/software/nios/sd_driver.c:773-791 | although every sector with a byte to deliver can be read, reading fails if and only if the length is a whole number of sectors, the chain goes on, and the next sector cannot be read |
| `FatExamples.ReadableFileIsRefused` | ProjetoFinal/DE2_NET/software/nios/sd_driver.c:773-791 | for every name a card on which a file of one readable sector is refused |
| `FatReader.TruncatedIff` | ProjetoFinal/DE2_NET/software/nios/sd_driver.c:469-493 | a read that succeeds delivers a beginning of what the same card would deliver without faults, and less than all of it if and only if the clusters met hold fewer than the bytes asked for and the table sector of the last one, which has a successor, cannot be read |
| `FatExamples.FileIsCutShort` | ProjetoFinal/DE2_NET/software/nios/sd_driver.c:768-796 | for every name a card on which the first 1024 bytes of a file of 2048 are delivered as a success |
| `FatCard.AcyclicCardHasNoCircle` | ProjetoFinal/DE2_NET/software/nios/sd_driver.c:672-758 | on a card without circular chains no call meets a circle |
| `FatCard.LocatedFileIsDelivered` | ProjetoFinal/DE2_NET/software/nios/sd_driver.c:712-796 | a file found in one of the two directories, with its start cluster below 65536, is delivered as the first min(size, buffer, chain) bytes of its own chain |
| `FatCard.SucceedsIffListed` | ProjetoFinal/DE2_NET/software/nios/sd_driver.c:712-758 | with readable sectors the call succeeds if and only if the first match in the flat list of the root directory has a start cluster, or the first match in that of the tables directory does |
| `FatCard.RootFileFailsIff` | ProjetoFinal/DE2_NET/software/nios/sd_driver.c:721-758 | without a tables directory, the call for the first match in the root directory fails if and only if the low 16 bits of its start cluster are zero, or a sector it looks at cannot be read |
| `FatExamples.MatchIsNotFound` | ProjetoFinal/DE2_NET/software/nios/sd_driver.c:721-758 | for every name a card on which an empty file, and one on which a file that starts in cluster 65536, is the first match and reported as not found |
| `FatCard.Card.FatNextCluster` | ProjetoFinal/DE2_NET/software/nios/sd_driver.c:469-493 | the next cluster; an unreadable table sector ends the chain |
| `FatCard.Card.ScanEntry` | ProjetoFinal/DE2_NET/software/nios/sd_driver.c:623-647 | one directory entry: end, hit, or passed over |
| `FatCard.Card.ScanDir` | ProjetoFinal/DE2_NET/software/nios/sd_driver.c:587-666 | the scan of a region or of a chain without a circle gives the verdict on its entries in order |
| `FatCard.Card.CopySector` | ProjetoFinal/DE2_NET/software/nios/sd_driver.c:782-792 | copies up to the limits, and is done only when a byte beyond them is due |
| `FatCard.Card.ReadChain` | ProjetoFinal/DE2_NET/software/nios/sd_driver.c:760-796 | the copy loop ends on every table content, delivers the specified bytes, touches nothing behind them, and fails exactly when one of the wanted sectors cannot be read |
| `FatCard.Card.SdReadFile` | ProjetoFinal/DE2_NET/software/nios/sd_driver.c:672-796 | the whole call: names, root directory, tables subdirectory, copy |
| `FatNames.To83` | ProjetoFinal/DE2_NET/software/nios/sd_driver.c:506-533 | the 8.3 name: base and extension at the last dot, in capitals, cut and filled with blanks |
| `FatNames.To83AliasGuess` | ProjetoFinal/DE2_NET/software/nios/sd_driver.c:539-570 | the guessed alias: six characters, ~1, three characters |
| `FatNames.GuessIsShortNameIff` | ProjetoFinal/DE2_NET/software/nios/sd_driver.c:535-570 | the guess is the first numeric-tail name of the FAT rules if and only if the base has at least six characters, a short name can have the first six and the first three of the extension, and no blank stands in front of other characters among these three |
| `FatNames.SameNameIff` | ProjetoFinal/DE2_NET/software/nios/sd_driver.c:506-533 | two names are looked for as the same entry exactly when the first eight characters of their bases and the first three of their extensions agree, without regard to case and trailing blanks |
| `SqlText.FindSqlKeyword` | ProjetoFinal/DE2_NET/software/nios/network_tasks.c:224-245 | finds the first place a keyword stands as a token of its own, in any case |
| `SqlText.FindIsFirst` | ProjetoFinal/DE2_NET/software/nios/network_tasks.c:224-245 | that place is the first one, and none is found only if there is none |
| `SqlText.TrimCopy` | ProjetoFinal/DE2_NET/software/nios/network_tasks.c:114-154 | trims white space in front, blanks and line ends behind, and cuts to the buffer |
| `SqlText.ExtractWhere` | ProjetoFinal/DE2_NET/software/nios/network_tasks.c:270-314 | cuts the WHERE clause out |
| `SqlText.ClauseIsShort` | ProjetoFinal/DE2_NET/software/nios/network_tasks.c:270-314 | a clause cut from at most 255 characters leaves the two zero bytes the compiler relies on |
| `WhereCompiler.FindColumnIsFirst` | ProjetoFinal/DE2_NET/software/nios/network_tasks.c:316-325 | the column found is the first whose name agrees in any case |
| `WhereCompiler.WordDecodes` | ProjetoFinal/DE2_NET/software/nios/network_tasks.c:410-411 | an instruction word decodes to its column, value and operator fields |
| `WhereCompiler.OpCodeMeansIff` | ProjetoFinal/DE2_NET/software/nios/network_tasks.c:398-404 | the operator code sent means what the text means if and only if the text is one of seven; every other text, such as <>, is sent as = |
| `WhereCompiler.LimitSurvivesIffBelow256` | ProjetoFinal/DE2_NET/software/nios/network_tasks.c:338-341 | a row limit survives its 8-bit field if and only if it is below 256; the largest row limit, 256, arrives as 0 |
| `WhereCompiler.OnePass` | ProjetoFinal/DE2_NET/software/nios/network_tasks.c:346-407 | each pass of the loop that sends something consumes at least one character and names a column of the schema |
| `WhereCompiler.SentIsSound` | ProjetoFinal/DE2_NET/software/nios/network_tasks.c:343-415 | for every clause compilation ends, sends at most four conditions, each with a column of the schema and an operator code at most 5 |
| `WhereCompiler.RunPass` | ProjetoFinal/DE2_NET/software/nios/network_tasks.c:346-407 | one pass of the loop |
| `WhereCompiler.CompileWhere` | ProjetoFinal/DE2_NET/software/nios/network_tasks.c:343-415 | the loop sends exactly the instructions of the specification, in order |
| `WhereRoundTrip.TermReads` | ProjetoFinal/DE2_NET/software/nios/network_tasks.c:356-386 | a printed condition parses to itself |
| `WhereRoundTrip.ClauseCompiles` | ProjetoFinal/DE2_NET/software/nios/network_tasks.c:343-415 | printed conditions compile to their instructions in order; accepted exactly if there are at most four |
| `WhereRoundTrip.OtherOperatorsCompileAsEqual` | ProjetoFinal/DE2_NET/software/nios/network_tasks.c:398-411 | a whole clause printed with <> or any other such operator is accepted and compiles like the one with = |
| `SqlRoundTrip.ClauseIsExtracted` | ProjetoFinal/DE2_NET/software/nios/network_tasks.c:270-314 | a clause embedded in SQL text is cut out exactly |
| `SqlRoundTrip.QueryRoundTrips` | ProjetoFinal/DE2_NET/software/nios/network_tasks.c:224-415 | conditions printed into SELECT .. FROM .. WHERE .. text come back from extraction, compilation and decoding as the same conditions, with the operator meant exactly for the seven supported texts |
| `FeedLoop.Device.ReadStatus` | ProjetoFinal/DE2_NET/software/nios/network_tasks.c:724-727 | the status bits of the two FIFOs, with the device moving in between |
| `FeedLoop.Device.WriteWord` | ProjetoFinal/DE2_NET/software/nios/network_tasks.c:742-746 | a word is written only to an input FIFO with room |
| `FeedLoop.Device.ReadWord` | ProjetoFinal/DE2_NET/software/nios/network_tasks.c:771-775 | a word is read only from an output FIFO that holds one |
| `FeedLoop.Drain` | ProjetoFinal/DE2_NET/software/nios/network_tasks.c:763-787 | reads until the FIFO is seen empty and captures the first words in order; ends for a device with finite output |
| `FeedLoop.Source.ReadWord` | ProjetoFinal/DE2_NET/software/nios/network_tasks.c:789-804 | the next four bytes of the memory source, or none |
| `FeedLoop.Feed` | ProjetoFinal/DE2_NET/software/nios/network_tasks.c:843-887 | the feeding loop ends, sends the source words in order, returns -1 only for a drained source, and 0 exactly when its polls since the last word went out found the input full HW_STALL_MAX_CYCLES + 1 times |
| `FeedLoop.FeedSourceToHardware` | ProjetoFinal/DE2_NET/software/nios/network_tasks.c:843-915 | for every device and timing: the words sent are the source's in order, the capture holds the first output words in order, a return of 1 after waiting means no output word was missed, and 0 is returned exactly when the loop polled HW_STALL_MAX_CYCLES + 1 times in vain for room, or HW_STALL_MAX_CYCLES times in vain for the end |
| `FeedLoop.FeedPromptDevice` | ProjetoFinal/DE2_NET/software/nios/network_tasks.c:843-915 | fed from enough memory to a device that always makes room and reports DONE within fewer than HW_STALL_MAX_CYCLES moves of the end of input, the call returns 1 and has sent exactly the words asked for |
| `FeedLoop.NothingAfterDone` | ProjetoFinal/DE2_NET/software/nios/network_tasks.c:902-915 | once the device is done and was drained, it never outputs another word |
| `FeedLoop.CaptureExceedsLimitIff` | ProjetoFinal/DE2_NET/software/nios/network_tasks.c:777-781 | the capture exceeds its byte limit if and only if the limit is no multiple of four |
| `FeedLoop.CaptureReadsBack` | ProjetoFinal/DE2_NET/software/nios/network_tasks.c:777-781 | the captured bytes read back as the device's words |
| `QueryHandoff.StepKeepsInv` | ProjetoFinal/DE2_NET/software/nios/network_tasks.c:1307-1364 | every single access of either task keeps the handoff invariant |
| `QueryHandoff.HandoffIsExact` | ProjetoFinal/DE2_NET/software/nios/network_tasks.c:1307-1364 | in every interleaving requests are answered in order, once each, with the words stored; at most one is outstanding and the semaphore counts at most 1 |
| `QueryHandoff.PendingIsStable` | ProjetoFinal/DE2_NET/software/nios/network_tasks.c:1313-1322 | while a request is processed no step changes it, and new clients are turned away |
| `QueryHandoff.OutstandingMoves` | ProjetoFinal/DE2_NET/software/nios/network_tasks.c:1350-1364 | an outstanding request can always be moved on |
| `TableFormat.DecodesStripped` | ProjetoFinal/table_format.py:18-26 | decoding an encoded cell gives its text without trailing blanks and NULs |
| `TableFormat.CellSurvivesIff` | ProjetoFinal/table_format.py:18-26 | a cell survives the file exactly if it is empty or one character other than blank and NUL |
| `TableFormat.WriteTable` | ProjetoFinal/table_format.py:29-66 | accepts exactly the writable tables and writes header, names and rows |
| `TableFormat.ReadTable` | ProjetoFinal/table_format.py:69-112 | accepts exactly well-formed files with enough rows and decodes them |
| `TableFormat.WrittenTableReads` | ProjetoFinal/table_format.py:29-112 | a written table reads back as its columns and a prefix of its rows, each cell without trailing blanks and NULs |
| `TableFormat.TableSurvivesIff` | ProjetoFinal/table_format.py:29-112 | it reads back unchanged exactly if no cell or name is a single blank or NUL |
| `TableFormat.LoadTable` | ProjetoFinal/DE2_NET/software/nios/network_tasks.c:627-722 | the firmware accepts exactly well-formed headers with at least one row |
| `TableFormat.LoaderAgrees` | ProjetoFinal/DE2_NET/software/nios/network_tasks.c:668-722 | the firmware accepts a written table exactly if it has a row, and then sees the same column count, min(rows, rows that fit) rows and the rows' words in order |
| `TableFormat.LoaderNamesOf` | ProjetoFinal/DE2_NET/software/nios/network_tasks.c:651-658 | the names the firmware sees are those of the written columns |
| `TableFormat.NamesAgreeIff` | ProjetoFinal/DE2_NET/software/nios/network_tasks.c:114-154 | such a name is the one the Python reader sees if and only if it is no white space other than a blank |
| `NumeralPrinter.EmitIsDigits` | ProjetoFinal/DE2_NET/software/nios_bsp/HAL/src/alt_log_printf.c:281-296 | printing quotients by falling place values gives the numeral |
| `NumeralPrinter.DigitsParseBack` | ProjetoFinal/DE2_NET/software/nios_bsp/HAL/src/alt_log_printf.c:281-296 | the numeral reads back as the number |
| `NumeralPrinter.NoExtraDigits` | ProjetoFinal/DE2_NET/software/nios_bsp/HAL/src/alt_log_printf.c:247-255 | a numeral other than 0 has no leading zero |
| `NumeralPrinter.PlaceValueFits` | ProjetoFinal/DE2_NET/software/nios_bsp/HAL/src/alt_log_printf.c:247-255 | the largest place value never exceeds the number |
| `NumeralPrinter.CountDigits` | ProjetoFinal/DE2_NET/software/nios_bsp/HAL/src/alt_log_printf.c:247-255 | digit count and place value are right, and the place value never overflows |
| `NumeralPrinter.PrintInteger` | ProjetoFinal/DE2_NET/software/nios_bsp/HAL/src/alt_log_printf.c:207-297 | the integer branch prints the specified field |
| `NumeralPrinter.PrintedParsesBack` | ProjetoFinal/DE2_NET/software/nios_bsp/HAL/src/alt_log_printf.c:207-297 | for every 32-bit value, signed (including -2^31) or unsigned, in bases 8, 10 and 16, any width and padding, the field reads back as the value |
| `NumeralPrinter.PrintedLength` | ProjetoFinal/DE2_NET/software/nios_bsp/HAL/src/alt_log_printf.c:257-279 | the field is max(width, digits and sign) long |
| `TimeOfDay.Clock.SetTimeOfDay` | ProjetoFinal/DE2_NET/software/nios_bsp/HAL/src/alt_settod.c:72-96 | stores the reset time in 32-bit arithmetic, or fails without a clock |
| `TimeOfDay.Clock.GetTimeOfDay` | ProjetoFinal/DE2_NET/software/nios_bsp/HAL/src/alt_gettod.c:75-124 | normalises the time with its two carry loops, or fails without a clock |
| `TimeOfDay.WrapHarmlessIff` | ProjetoFinal/DE2_NET/software/nios_bsp/HAL/src/alt_settod.c:83-84 | the wrapped product leaves the right remainder if and only if the number of lost 2^32s is a multiple of 15625 |
| `TimeOfDay.RoundTripExactIff` | ProjetoFinal/DE2_NET/software/nios_bsp/HAL/src/alt_gettod.c:90-112 | gettimeofday k ticks after settimeofday(t) returns exactly t plus k ticks, in normal form, if and only if that is so, for every time that is then after the epoch and representable |

## Left out

- The kernel's tables, lists and events are sequences held in fields that the methods reassign, and OS_TCB pointers are indices into OSTCBTbl; aliasing of table memory is not captured.
- OSTCBStat is a set of flags; its bit positions are not modelled.
- Task and event deletion, priority changes, mutexes, event flags, the broadcast forms of post and pend-abort, OSTaskCreate's reservation of a priority and its argument checks.
- The second halves of the single pends (OSSemPend, OSMboxPend, OSQPend) appear as steps of KernelSpec only; their code is not part of class Kernel.
- The branches for OS_LOWEST_PRIO above 63, names, hooks, stack checking, profiling and the statistics task.
- OSTimeDly appears as a step of KernelSpec only.
- KernelCode.Kernel.PendMultiStart: argument checks for null pointers are not modelled, and the event array is a sequence instead of a null-terminated array.
- KernelCode.Kernel.TickWalkInterrupted: between two turns come posts, pend-aborts and the steps of task creations; pends, delays and suspensions by tasks there are steps of KernelRuns only.
- KernelCode.Kernel.TcbFill: the statements that fill a block in are one step; no one else reads or writes the block meanwhile.
- AlarmClock.Timer.AltTick: called only where its walk ends (WalkEndsIff) and where callbacks start neither a linked alarm nor their own; the doubly linked list is a sequence, and stopping an entry that was never linked is taken to be harmless.
- AlarmWalk.WalkEndsIff: with a callback that stops an alarm and starts it again the walk may also go over the list once more; such ticks are covered by Goes alone.
- HeapLock.LockIsSafeIffNeverRefused: callers unlock only what they have locked and do not change their priority; calls before multitasking starts, which do nothing, and calls from interrupts are not modelled, and scheduler locks are counted without the bound of 255.
- FatCard.Card.SdReadFile: called only where no directory scan circles, since the code does not return otherwise (ScanEndsIffNoCircle); a name is a sequence of characters, of which the low eight bits are kept.
- FatNames.GuessIsShortNameIff: which number a name's tail gets on a volume, and whether it needs one, depends on the other files of the directory and is not modelled; NumericTail is the name with tail 1, and characters above 127 stay as they are in it, whatever the code page.
- FatLayout.RegionsFollow: a volume reaching beyond 32-bit sector numbers wraps, as in the code, but nothing is claimed about it.
- Card initialisation, SPI transfers and the total-sector fields of the boot sector.
- WhereCompiler.CompileWhere: the COUNT, SUM and column-list parts of the same function, and the text of its error messages.
- SqlRoundTrip.QueryRoundTrips: the text before WHERE holds none of the keywords WHERE, LIMIT, ORDER and GROUP as a token of its own; a LIMIT written there hides a later one from the code as well.
- WhereRoundTrip.ClauseCompiles: conditions are joined by AND in capitals with blanks only; other white space inside a clause is not printed.
- Request parsing, sockets, HTTP and the response body; the shared response buffer.
- FeedLoop.FeedSourceToHardware: the file-backed source is left out; the device outputs finitely many words, and none once it reports DONE.
- QueryHandoff.HandoffIsExact: the request is copied and read word by word in order; what processing does with it is not modelled.
- TableFormat.LoadTable: the bytes read from the card are given; the choice of file name is not modelled.
- TableFormat.WriteTable: the two ways a cell can be rejected, too long or not Latin-1, are one error.
- NumeralPrinter.PrintInteger: scanning the format string and the conversions other than integers.
- TimeOfDay.RoundTripExactIff: results at or before the epoch, where the code does not go below zero, and in the last second of the signed 32-bit range are excluded; the tick rate divides a million and the counter has not wrapped since power-up; the time zone is stored and returned unchanged.
- Interrupt latency, cycle counts and the delays between polls.
