# Verification of the embedlab4 kernel and of its formatted I/O

This project models and proves two parts of the repository.

**The uniprocessor priority kernel**: run queue, dispatcher, mutexes with ceiling priority 0,
periodic devices, timer interrupt, task creation and the sorting of task lists. Each system call and
each interrupt is one step. A call enters with interrupts enabled (kernel/S_Handler.S) and disables
them before it reads or writes kernel data; before that, `event_wait` only compares its argument, and
`task_create` checks and sorts the caller's list (kernel/syscall/proc.c:33-48). An interrupt that falls
into this part, and whatever other tasks do until the caller is back, neither sees nor changes the list,
provided the caller shares it with no other task; so they may be taken as steps before the call.

- `RunQueues.dfy`: the run queue as a class over its byte maps, refining a table of 64 slots.
- `Mutexes.dfy`: the mutex calls as functions on values, with the part of `mutex_lock` that runs
  after a sleep as a continuation.
- `MutexProtocol.dfy`: those calls under an arbitrary scheduler, over all runs.
- `Schedule.dfy`: the in-place exchange sort of `assign_schedule`.
- `KernelSpec.dfy`: one state for the whole kernel and one function per event.
- `KernelInvariant.dfy`, `KernelRuns.dfy`: what every step keeps, and what holds over all runs.
- `Clocks.dfy`, `KernelSignals.dfy`: the arithmetic of clock and match times, and what it means for the
  devices and their sleepers over all runs.
- `KernelProtocol.dfy`: the real scheduler is an instance of the arbitrary one, so the theorems about
  that one carry over.
- `KernelCalls.dfy`: what each system call returns and changes, said without the functions that compute it.
- `KernelFaults.dfy`: runs that end in the two events the invariant does not survive.
- `Kernel.dfy`: the arrays of the source and its linked queues as a class; every routine is proved
  to refine the function of the same event.

**The number printer and parsers of the task library**:

- `Machine.dfy`: machine words, also used by the kernel. `Numerals.dfy`: digits, numerals, wrapping.
- `Printer.dfy`: `_doprnt`, `printnum`, the sink of `vsprintf`.
- `Strtol.dfy`: `strtol`, `strtoul`. `Scanner.dfy`: `_doscan` and the source of `vsscanf`.
- `Directives.dfy`: from the characters of a conversion in a format to the characters it prints.
- `NumberRoundTrip.dfy`, `FormatRoundTrip.dfy`: printing and reading back.
- `IsoC.dfy`: where the readers part from the C standard.

A pointer into `system_tcb` is an index; entry 0 is never used by the source and plays the null
pointer. What cannot be seen from the C code comes in as an argument: the pending bit and the counter
reading of a timer interrupt, the memory behind a task list, variadic arguments as a sequence of
machine words. `installed`, `inside`, `arrived` and `entered` are records of an observer that no
routine reads.

Where the code and its comments or the standard disagree, the model follows the code:

- `highest_prio` returns 0 on an empty run queue, not IDLE_PRIO (kernel/sched/ctx_switch.c:41-42).
  That the dispatcher never sees an empty queue is a theorem (`KernelRuns.NobodyIsDropped`).
- The exchange sort looks one element past the list; `Schedule.NeighbourMustBeMaximal` says exactly
  when the list is unharmed.
- An unlock is accepted from a stale holder; `MutexProtocol.UnlockKeepsIffHarmless` and
  `KernelInvariant.StepKeepsIff` say exactly which calls do no damage, and
  `KernelFaults.RepeatedUnlockIsReachable` gives a run from power-on to one that does.
- `task_create` resets devices and run queue but not mutexes; `KernelInvariant.StepKeepsIff` says
  when that is harmless, and `KernelFaults.LockedAcrossCreateIsReachable` that it need not be.
- `%X` prints lower-case digits, and zero padding wins over left adjustment
  (tasks/libc/stdio/doprnt.c:51, :565-609).
- `strtol` does not step over `+`, skips `0x` even when no hexadecimal digit follows, and moves the
  end pointer even when there are no digits (section 7.20.1.4 of ISO/IEC 9899:1999 says otherwise);
  `IsoC.StrtolAgreesIff` says for which texts this makes no difference. It also wraps numbers outside
  the range of a long, which the standard clamps.
- `_doscan` skips no white space before a number, takes neither `+` nor `0x`, and counts a conversion
  without digits and a percent sign in the format as conversions (section 7.19.6.2 of ISO/IEC
  9899:1999): `IsoC.ConversionAgreesIff`, `IsoC.FailedConversionCounts`, `IsoC.PercentDiffers`.
- `mutex_lock` does not ask whether the mutex was handed out, `mutex_unlock` does
  (kernel/lock/mutex.c:62-104, :126): `KernelFaults.JustLocked`, `KernelFaults.HeldForGood`.

## Model

| member | source | states |
|---|---|---|
| `RunQueues.PrioUnmap` | kernel/sched/run_queue.c:38-57 | the table maps every byte to the number of its lowest set bit, and 0 to 0 |
| `RunQueues.AddRepresents` | kernel/sched/run_queue.c:82-91 | setting the two bits keeps both levels in step with the slots: bit set iff slot occupied, group bit set iff byte not zero |
| `RunQueues.RemoveRepresents` | kernel/sched/run_queue.c:101-114 | the same for removal, with the group bit cleared only when its byte becomes zero |
| `RunQueues.LookupIsHighest` | kernel/sched/run_queue.c:120-126 | two table lookups give what a linear scan over the 64 slots gives, and 0 on an empty queue |
| `RunQueues.RunQueue.Init` | kernel/sched/run_queue.c:62-72 | all slots empty, byte maps agreeing |
| `RunQueues.RunQueue.Add` | kernel/sched/run_queue.c:82-91 | the slot gets the task if it was free, otherwise the task is lost; byte maps agree again |
| `RunQueues.RunQueue.Remove` | kernel/sched/run_queue.c:101-114 | returns and empties the slot, touches no other, byte maps agree again |
| `RunQueues.RunQueue.HighestPrio` | kernel/sched/run_queue.c:120-126 | returns the number of the first occupied slot |
| `MutexProtocol.RunKeeps` | kernel/lock/mutex.c:62-158 | the protocol invariant holds after every run of create, lock, resume and harmless unlock calls in any order a scheduler may choose |
| `MutexProtocol.MutualExclusion` | kernel/lock/mutex.c:72-103 | at most one task is inside a mutex or has been handed it, also while the holder field names the old owner; the lock flag says whether there is one; nobody sleeps on a free mutex |
| `MutexProtocol.FirstComeFirstServed` | kernel/lock/mutex.c:79-92 | the arrivals at a mutex are those already in, then the granted task, then the queue: entry happens in order of arrival |
| `MutexProtocol.NoBarging` | kernel/lock/mutex.c:136-143 | from the hand-over until the granted task resumes the mutex stays locked and nobody enters, however long that takes |
| `MutexProtocol.CountAndCeiling` | kernel/lock/mutex.c:99-154 | holds_lock counts the mutexes a task is inside of; priority 0 is in force exactly while the count is positive, except for a holder between a hand-over and its resumption |
| `MutexProtocol.UnlockKeepsIffHarmless` | kernel/lock/mutex.c:106-158 | an unlock call keeps the protocol intact if and only if the task is inside, or the kernel rejects the call, or the mutex is free and the task holds nothing |
| `MutexProtocol.RepeatedUnlockBreaksExclusion` | kernel/lock/mutex.c:117-147 | concrete calls, legal up to a second unlock during a hand-over, that put two tasks inside one mutex |
| `MutexProtocol.StaleHolderBreaksCount` | kernel/lock/mutex.c:144-154 | concrete calls after which a second unlock of a free mutex takes another, locked one off the count and the ceiling of its holder |
| `MutexProtocol.OldOwnerIsTurnedDown` | kernel/lock/mutex.c:73-77 | right after an unlock its caller gets EDEADLOCK for the same mutex if and only if there was a waiter |
| `Schedule.StableSortIsUnique` | kernel/sched/ub_test.c:41-53 | sorted order and unchanged order of equal periods determine the list completely |
| `Schedule.StableSortFacts` | kernel/sched/ub_test.c:41-53 | the reference sort is sorted and keeps, for every period, the subsequence of that period |
| `Schedule.ExchangeSort` | kernel/sched/ub_test.c:41-53 | n identical passes sort the list and the element behind it, stably, in place |
| `Schedule.NeighbourMustBeMaximal` | kernel/sched/ub_test.c:44-46 | the caller's list comes out sorted and complete if and only if the element behind it has a period at least as long as all others |
| `Schedule.TestCountsFullPeriods` | kernel/sched/ub_test.c:54-66 | on admissible lists the integer test counts tasks with C equal to T and can fail only through B of the last one |
| `Schedule.TestFailsIff` | kernel/sched/ub_test.c:54-66 | on admissible lists the test passes if and only if B of the last task is below its period times one more than the tasks without full period |
| `Schedule.AssignSchedule` | kernel/sched/ub_test.c:33-67 | short lists untouched and accepted; longer ones stably sorted, verdict of the test on the sorted list |
| `KernelSpec.OrderedFacts` | kernel/syscall/proc.c:36-46 | a list that passes the checks stays free of zero periods and is in order of period after sorting |
| `KernelSpec.InstallsCallersTasks` | kernel/sched/ub_test.c:41-53 | the tasks installed are the caller's own, in order of period, if and only if the element behind a list of two or more has no shorter period than any of them |
| `KernelSpec.CreateSucceedsIff` | kernel/syscall/proc.c:28-52 | task_create succeeds if and only if the list passes the checks and the test, whatever state the kernel is in, and otherwise changes nothing |
| `KernelInvariant.PickFromChoosing` | kernel/sched/ctx_switch.c:62-83 | whenever nobody runs and no mutex is locked the dispatcher restores the invariant, running the best ready task |
| `KernelInvariant.DispatchSaveKeeps` | kernel/sched/ctx_switch.c:44-54 | dispatch_save restores the invariant; a task that holds a mutex keeps the processor and nothing changes |
| `KernelInvariant.WakeFacts` | kernel/device.c:113-116 | readying a queue fills exactly the slots of its tasks |
| `KernelInvariant.DrainKeeps` | kernel/device.c:107-119 | draining a device queue into the run queue keeps every task in exactly one place |
| `KernelInvariant.LockKeeps` | kernel/lock/mutex.c:62-104 | a lock call by a running task keeps the invariant and never puts the caller to sleep |
| `KernelInvariant.WaitKeeps` | kernel/device.c:66-92 | waiting for a device moves the caller from the processor to one queue and keeps the invariant |
| `KernelInvariant.CreateEstablishes` | kernel/sched/sched.c:55-97 | task_create leads into the invariant from any state with no mutex locked or waited for and no control block in the middle of a lock call |
| `KernelInvariant.LockedAcrossCreateBreaks` | kernel/sched/sched.c:58-59 | a mutex locked when a task set is installed breaks the invariant |
| `KernelInvariant.RepeatedUnlockBreaks` | kernel/lock/mutex.c:144-154 | an unlock of a free mutex by its last holder, who holds another one, breaks the agreement of count, ceiling and locks |
| `KernelInvariant.StepKeepsIff` | kernel/C_SWI_Handler.c:14-51 | every event keeps the invariant if and only if it is neither such an unlock nor the installation of a task set with a mutex locked |
| `KernelRuns.CreateStarts` | kernel/syscall/proc.c:45-51 | a successful task_create starts an execution: its state is the start of the runs below, with the sorted list |
| `KernelRuns.CreateContinues` | kernel/syscall/proc.c:45-51 | so does a later one, as long as no mutex is locked: each stretch between two task creations is an execution of its own |
| `KernelRuns.NoContention` | kernel/lock/mutex.c:72-100 | in every reachable state each locked mutex belongs to the running task, no task waits or is pending, and no lock call can block |
| `KernelRuns.EveryTaskInOnePlace` | kernel/sched/sched.c:60-95 | in every reachable state each task is running, in its own run-queue slot, or once in one device queue, and only one of these |
| `KernelRuns.NobodyIsDropped` | kernel/sched/run_queue.c:82-114 | whoever is queued next finds its slot free, slot 0 is empty between steps, and the dispatcher always finds a task |
| `KernelRuns.LockCountAndCeiling` | kernel/lock/mutex.c:99-154 | holds_lock equals the number of mutexes held, and cur_prio is 0 exactly when it is positive and the native priority otherwise |
| `KernelRuns.TasksRunTheirEntries` | kernel/sched/sched.c:60-74 | in every reachable state each control block has the function, argument and stack of its entry of the sorted list installed last |
| `KernelRuns.BestTaskRuns` | kernel/sched/ctx_switch.c:44-83 | the running task is ahead of every ready task; without a mutex the list entry whose program it runs has no longer period than that of any ready task; idle runs only when nobody is ready |
| `Clocks.ClockAdds` | kernel/irqHandler_c.c:25-34 | one interrupt adds its counter reading to clock and drift; one carry suffices |
| `Clocks.HasSentInNumbers` | kernel/device.c:106-109 | the state of a device that has sent k signals: match time period * (k + 1), and k at most clock / period |
| `Clocks.SignalsFollow` | kernel/device.c:106-109 | over any series of counter readings each interrupt makes the count k of signals the smaller of k + 1 and clock / period, and the match time the period times one more |
| `Clocks.CatchesUp` | kernel/device.c:106-109 | n interrupts send all signals that were due before them, or n |
| `Clocks.KeepsUpIff` | kernel/device.c:106-109 | a device that is caught up stays so after every interrupt if and only if no interrupt comes after a second period has passed |
| `KernelSignals.TicksAreConserved` | kernel/irqHandler_c.c:25-38 | over any run clock and drift are quotient and remainder of all counter readings, the clock modulo 2^32 |
| `KernelSignals.ExactWakeUp` | kernel/device.c:66-117 | a sleeper with match time x sleeps through everything before the first timer interrupt at clock x or later, and that one readies or runs it |
| `KernelSignals.TimerRun` | kernel/irqHandler_c.c:25-38 | whatever tasks do in a run, clock, match time and signals of a device are those of the counter readings alone |
| `KernelSignals.SignalsExactly` | kernel/device.c:101-109 | over a whole execution exactly those interrupts signal a device at which its count is behind clock / period |
| `KernelSignals.PeriodicSignals` | kernel/device.c:51-109 | in every reachable state the match time is the period times one more than the number k of signals, and none came early; an interrupt at clock x makes k the smaller of k + 1 and x / period |
| `KernelSignals.NoSignalIsLost` | kernel/device.c:101-109 | over any further run n timer interrupts send all signals due at its beginning, or n |
| `KernelSignals.CaughtUpIffInTime` | kernel/device.c:106-109 | over a whole execution that starts with nothing due, the device is caught up after every interrupt if and only if each comes before a second period has passed |
| `KernelSignals.SignalsTakeCountedTime` | kernel/device.c:106-109 | k signals of a device need at least k periods of counted time |
| `KernelSignals.MatchTimeWraps` | kernel/device.c:108 | a signal moves the match time forward if and only if the sum fits 32 bits; otherwise the next interrupt signals again at once |
| `KernelProtocol.RunIsProtocolRun` | kernel/lock/mutex.c:62-158 | every run of the kernel between task creations is a legal run of the protocol with the same mutexes and control blocks at its end |
| `KernelProtocol.ExecutionIsProtocolRun` | kernel/lock/mutex.c:62-158 | every execution begins in an initial state of the protocol and is a legal run of it, so the theorems of MutexProtocol are about the kernel |
| `KernelProtocol.OnlyTheRunningTaskIsInside` | kernel/lock/mutex.c:72-103 | mutual exclusion carried over: inside a mutex is the running task, exactly while the lock flag is set |
| `KernelProtocol.ServedInOrderOfCalls` | kernel/lock/mutex.c:79-92 | first come first served carried over: all accepted lock calls have got the mutex, in the order of the calls |
| `KernelProtocol.CountsWhatIsInside` | kernel/lock/mutex.c:99-154 | the count carried over: holds_lock is the number of mutexes a task is inside of |
| `KernelCalls.WaitResult` | kernel/device.c:66-92 | event_wait returns -22 above device 60, -59 with a mutex in hand, and otherwise hangs the caller behind the waiters of the device it names and of no other |
| `KernelCalls.WakesWithItsDevice` | kernel/device.c:66-117 | from the call on: the caller sleeps through everything before the first timer interrupt at the match time of the device it named, and that one readies or runs it |
| `KernelCalls.CreateResult` | kernel/lock/mutex.c:41-60 | mutex_create returns -12 and changes nothing if and only if no mutex is left; otherwise it returns the lowest one left, and only that one changes |
| `KernelCalls.CreatedMutexWorks` | kernel/lock/mutex.c:41-158 | the mutex returned can be locked by its caller if and only if it was not locked before, and then unlocked |
| `KernelCalls.LockOutcome` | kernel/lock/mutex.c:62-104 | under any scheduler: -22 for no mutex, 0 for a free one, -58 for one's own, sleep for another's; error codes change nothing |
| `KernelCalls.LockResult` | kernel/lock/mutex.c:62-104 | in a running system: -22 for no mutex, 0 for a free one, -58 for a locked one |
| `KernelCalls.UnlockResult` | kernel/lock/mutex.c:106-134 | -22 for no mutex, -1 for one that was not created or names another task, 0 otherwise; error codes change nothing |
| `KernelCalls.UnlockReadiesFirst` | kernel/lock/mutex.c:136-147 | an unlock with waiters readies the first one in the slot of its own priority and leaves the others queued and the mutex locked; without waiters the mutex is free |
| `KernelCalls.DispatchSaveResult` | kernel/sched/ctx_switch.c:44-54 | dispatch_save lets the caller go on if nobody is ready ahead of its current priority; otherwise the first of those runs and the caller takes its own slot |
| `KernelCalls.SwitchFinishesLock` | kernel/lock/mutex.c:97-103 | a task that slept in mutex_lock gets the mutex when it is switched to |
| `KernelCalls.LockSleeps` | kernel/lock/mutex.c:79-97 | a lock call that has to wait puts the caller at the end of the queue, pending, and runs the best ready task |
| `KernelCalls.PendingIsNotQueued` | kernel/sched/ctx_switch.c:44-51 | a pending task is not put back by dispatch_save |
| `KernelCalls.AcceptedTasks` | kernel/syscall/proc.c:28-46 | accepted lists have at most 62 tasks, each with a stack from 0xa0000000 below 0xa3000000, a period, and a computation time that fits it |
| `KernelCalls.AcceptedIff` | kernel/syscall/proc.c:28-46 | where the neighbour's times fit as well, a list is accepted if and only if it passes these checks and B of the last task leaves room for those that need their whole period |
| `KernelCalls.TaskCreateResult` | kernel/syscall/proc.c:28-52 | -22 for more than 62 tasks, else -14 for a stack outside user memory, else -100 for times that do not fit or a failed test |
| `KernelCalls.CreateKeepsMutexes` | kernel/sched/sched.c:55-97 | installing a task set changes no mutex and no clock |
| `KernelCalls.FrequencyTable` | kernel/device.c:44 | the periods of all 60 devices |
| `KernelFaults.RepeatedUnlockIsReachable` | kernel/lock/mutex.c:117-154 | from power-on, with any task set that is not empty, five calls lead to a second unlock that passes the checks and leaves a locked mutex without count and ceiling |
| `KernelFaults.ContentionFollows` | kernel/device.c:71-73 | then the holder may sleep on a device with the mutex in hand, and the next task that asks for the mutex is put to sleep |
| `KernelFaults.LockedAcrossCreateIsReachable` | kernel/sched/sched.c:58-59 | from power-on, with any task set that is not empty, two calls lead to a state in which every accepted list leaves a mutex locked on the charge of no installed task |
| `KernelFaults.LockedWithNobodyLeft` | kernel/sched/sched.c:58-59 | the same without a condition for the empty list |
| `KernelFaults.JustLocked` | kernel/lock/mutex.c:62-126 | a mutex just locked can be unlocked by its caller if and only if it has been handed out; otherwise the unlock returns -EPERM and changes nothing |
| `KernelFaults.HeldForGood` | kernel/lock/mutex.c:62-126 | over any run without mutex_create a task that has locked a mutex nobody created keeps the mutex and the processor |
| `Kernel.AppendToEmpty` | kernel/device.c:75-79 | hanging a task into an empty queue keeps all queues over the shared link field sound |
| `Kernel.AppendToLast` | kernel/device.c:80-86 | hanging a task behind the last one appends it to that queue, whatever stale link it brought, and no other queue changes |
| `Kernel.DropFirst` | kernel/lock/mutex.c:139-140 | unlinking the first waiter leaves the rest of its queue and all other queues intact |
| `Kernel.InvariantIsSound` | kernel/device.c:74-86 | in every state of a running system the dispatcher finds somebody, and when a task calls, the queues are without repetition, disjoint and without the caller |
| `Kernel.CheckTasks` | kernel/syscall/proc.c:32-44 | the error code of the first check that fails, in the order of the source, or 0 |
| `Kernel.OrderTasks` | kernel/syscall/proc.c:45-46 | the list in memory becomes the ordered list, with the verdict of the test |
| `Kernel.Kernel.Continue` | kernel/lock/mutex.c:99-101 | a task that slept in mutex_lock enters the mutex when it is switched to, others do nothing |
| `Kernel.Kernel.Dispatch` | kernel/sched/ctx_switch.c:62-83 | takes the best task off the run queue and runs it |
| `Kernel.Kernel.DispatchSave` | kernel/sched/ctx_switch.c:44-54 | puts the running task back at its current priority unless it is pending, then dispatches |
| `Kernel.Kernel.MutexInit` | kernel/lock/mutex.c:28-39 | all mutexes available, free and without waiters |
| `Kernel.Kernel.MutexCreate` | kernel/lock/mutex.c:41-60 | hands out the first available mutex or returns -ENOMEM |
| `Kernel.Kernel.LastWaiter` | kernel/lock/mutex.c:88-90 | the walk along the links ends at the last waiter |
| `Kernel.Kernel.SleepOnMutex` | kernel/lock/mutex.c:80-92 | the caller goes to the end of the linked queue, marked as pending |
| `Kernel.Kernel.MutexLock` | kernel/lock/mutex.c:62-104 | refines the lock call: error codes, immediate entry, or sleep and dispatch |
| `Kernel.Kernel.HandOver` | kernel/lock/mutex.c:136-147 | refines the hand-over: first waiter out of the linked queue and into the run queue, or the mutex free |
| `Kernel.Kernel.MutexUnlock` | kernel/lock/mutex.c:106-158 | refines the unlock call with its error codes, hand-over, count and dispatch |
| `Kernel.Kernel.DevInit` | kernel/device.c:51-58 | empty queues and first match times, whatever links were left behind |
| `Kernel.Kernel.LastSleeper` | kernel/device.c:81-82 | the walk along the shared links ends at the last sleeper of this device |
| `Kernel.Kernel.SleepOnDevice` | kernel/device.c:74-86 | appends exactly the running task to exactly one queue |
| `Kernel.Kernel.DevWait` | kernel/device.c:66-92 | -EHOLDSLOCK with a mutex in hand, otherwise sleep and dispatch |
| `Kernel.Kernel.WakeQueue` | kernel/device.c:113-116 | the walk readies the tasks of the queue in order |
| `Kernel.Kernel.DevUpdate` | kernel/device.c:101-127 | drains exactly the devices whose match time has come, advances their match times, and dispatches if somebody woke up |
| `Kernel.Kernel.IrqHandler` | kernel/irqHandler_c.c:17-39 | refines the interrupt: nothing for other sources, otherwise clock and devices |
| `Kernel.Kernel.AllocateTasks` | kernel/sched/sched.c:55-97 | fresh control blocks with the programs of the list, run queue and devices for tasks 1 to n and idle, then the best one runs |
| `Kernel.Kernel.TaskCreate` | kernel/syscall/proc.c:28-52 | refines task_create with its error codes, and leaves the caller's list ordered |
| `Kernel.Kernel.EventWait` | kernel/syscall/proc.c:54-62 | -EINVAL above NUM_DEVICES, otherwise dev_wait |
| `Kernel.Kernel.Handle` | kernel/C_SWI_Handler.c:32-46 | on the real data structures every event, task creation included, takes the abstract step, and keeps the invariant if and only if it is careful |
| `Kernel.Boot` | kernel/main.c:95 | from zeroed memory mutex_init and the first task_create lead to a running system, if and only if the list is accepted |
| `Printer.ExactWidth` | tasks/libc/stdio/doprnt.c:582-609 | every field is exactly as wide as asked for, or as its natural text if that is wider |
| `Directives.ParsedText` | tasks/libc/stdio/doprnt.c:203-268 | any flags in any order, zero flag, width, precision and number of l, with or without stars, are read back as written |
| `Directives.PrintsAsAsked` | tasks/libc/stdio/doprnt.c:203-611 | every numeric conversion of every format prints its argument in its base and size, with sign and prefix, on its side of the field, and printing goes on with the next argument |
| `Directives.LaidSides` | tasks/libc/stdio/doprnt.c:582-609 | which side of a field the number is on, and what fills the rest |
| `Directives.PrintsBare` | tasks/libc/stdio/doprnt.c:487-559 | without flags and width d and u print in base 10, o in base 8, x in base 16, r and n in the radix passed, 64 bits wide from the second l on |
| `Directives.PrintsCharacters` | tasks/libc/stdio/doprnt.c:328-618 | %c prints the character of its argument, and a character that is no conversion prints itself |
| `Directives.PrintsNothing` | tasks/libc/stdio/doprnt.c:613-615 | a percent sign at the end of the format prints nothing |
| `Printer.BufferSuffices` | tasks/libc/stdio/doprnt.c:144-156 | the 32-byte buffer suffices if and only if the number is below base^32: for all 64-bit numbers from base 4 on, for all 32-bit numbers in every base |
| `Printer.WriteDigits` | tasks/libc/stdio/doprnt.c:577-580 | the downward loop leaves the numeral at the end of the buffer and stays inside it |
| `Printer.PrintNum` | tasks/libc/stdio/doprnt.c:148-160 | appends the numeral |
| `Printer.PrintField` | tasks/libc/stdio/doprnt.c:561-611 | appends padding, sign, prefix and digits of the field |
| `Printer.ParseDirective` | tasks/libc/stdio/doprnt.c:203-268 | flags, zero flag, width, precision and length modifiers are read as specified, arguments taken for each star |
| `Printer.Doprnt` | tasks/libc/stdio/doprnt.c:180-622 | appends the text of the whole format |
| `Printer.Sink.SaveChar` | tasks/libc/stdio/sprintf.c:38-51 | appends one character |
| `Printer.Vsprintf` | tasks/libc/stdio/sprintf.c:53-64 | the text, a terminating zero, and the length |
| `Numerals.CharacterCodes` | tasks/libc/include/ctype.h:44-48 | white space and the values of digits and letters, by character code |
| `Numerals.DigitCodes` | tasks/libc/stdio/doprnt.c:565 | digits are printed in lower case |
| `Numerals.NumeralValue` | tasks/libc/stdio/doprnt.c:577-580 | a numeral reads back as its number, and begins with 0 only for 0 |
| `Numerals.NumeralLength` | tasks/libc/stdio/doprnt.c:577-580 | a number has at most k digits if and only if it is below base^k |
| `Numerals.WrapDigit` | tasks/libc/stdlib/strtol.c:53-58 | accumulating digits in wrapping arithmetic gives the exact number modulo 2^32, signed or unsigned |
| `Numerals.SameResidue` | tasks/libc/stdlib/strtol.c:53-58 | the signed and the unsigned reading of a number differ from it by a multiple of the word size |
| `Strtol.StrToL` | tasks/libc/stdlib/strtol.c:26-67 | white space, minus sign, prefix, base detection, longest digit run; value in wrapping 32-bit arithmetic and end pointer |
| `Strtol.StrToUL` | tasks/libc/stdlib/strtoul.c:26-61 | the same without signs |
| `Scanner.Source.Number` | tasks/libc/stdio/doscan.c:77-138 | the number conversions consume a minus sign and the longest digit run and give back one character |
| `Scanner.Doscan` | tasks/libc/stdio/doscan.c:43-175 | count and stored values of the whole format |
| `Scanner.Source.ReadChar` | tasks/libc/stdio/sscanf.c:38-41 | next character, or the terminating zero |
| `Scanner.Vsscanf` | tasks/libc/stdio/sscanf.c:49-52 | count and stored values for a string |
| `NumberRoundTrip.ExplicitBase` | tasks/libc/stdlib/strtol.c:31-66 | any printed field, whatever follows it, is read back with its base, value and end pointer, if and only if no plus sign was printed, no digit follows, and no x follows a lone hexadecimal 0 |
| `NumberRoundTrip.BaseDetection` | tasks/libc/stdlib/strtol.c:37-49 | decimal, and octal or hexadecimal fields with the # flag, are read back with base 0 if and only if no plus sign was printed, the field is not a zero-padded decimal of 8 or more, no digit of the detected base follows, and no x follows a lone 0 |
| `NumberRoundTrip.LoneZeroIsMisread` | tasks/libc/stdlib/strtol.c:37-42 | a printed hexadecimal 0 with xab behind it is read as 171 to the end of the text |
| `NumberRoundTrip.UnsignedExplicitBase` | tasks/libc/stdlib/strtoul.c:30-60 | strtoul reads every word in a field without sign back with the base of the field, value and end pointer, if and only if no digit follows, and no x follows a lone hexadecimal 0 |
| `NumberRoundTrip.UnsignedBaseDetection` | tasks/libc/stdlib/strtoul.c:30-43 | with base 0 it does so if and only if the field is not a zero-padded decimal of 8 or more, no digit of the detected base follows, and no x follows a lone 0 |
| `NumberRoundTrip.SignedConversion` | tasks/libc/stdio/doprnt.c:539-552 | what a signed conversion of any format text prints for any long, the smallest one included, is read back if and only if no plus sign was printed, no digit follows, and no x follows a lone hexadecimal 0 |
| `NumberRoundTrip.UnsignedConversion` | tasks/libc/stdio/doprnt.c:554-559 | what an unsigned conversion of any format text prints for any argument is read back as its bit pattern if and only if no digit follows, and no x follows a lone hexadecimal 0 |
| `FormatRoundTrip.PrintedIsOutput` | tasks/libc/stdio/doprnt.c:195-199 | literals and bare %d and %x print as themselves and as minimal numerals |
| `FormatRoundTrip.ScanPrinted` | tasks/libc/stdio/doscan.c:77-138 | a printed number is scanned back and scanning stops behind it |
| `FormatRoundTrip.ScanAfterPrint` | tasks/libc/stdio/doscan.c:53-174 | if no number printed has a digit of its base printed behind it, scanning the output of a format with the same format, in which any conversions may have a star, stores the arguments of those without one, in order, and counts just these |
| `FormatRoundTrip.ScanOutput` | tasks/libc/stdio/doscan.c:53-174 | the same with any text and any format behind, on which scanning goes on |
| `FormatRoundTrip.MismatchStops` | tasks/libc/stdio/doscan.c:64-67 | scanning stops at the first literal the text does not have, and what came before is stored and counted |
| `FormatRoundTrip.SeparatedIsReadable` | tasks/libc/stdio/doscan.c:53-138 | that is so for all arguments if each conversion is the last item or has a literal behind it that is no digit of its base |
| `IsoC.StrtolAgreesIff` | tasks/libc/stdlib/strtol.c:31-66 | strtol reads the number and leaves the end pointer that section 7.20.1.4 of ISO/IEC 9899:1999 asks for, up to wrapping, if and only if there is no bare 0x, a number has no plus sign, and a text without number has no white space or minus sign in front |
| `IsoC.StrtolDiffers` | tasks/libc/stdlib/strtol.c:31-66 | one text for each way to differ |
| `IsoC.UnsignedStopsAtSign` | tasks/libc/stdlib/strtoul.c:30-60 | strtoul reads nothing behind a sign and leaves the end pointer on it |
| `IsoC.ConversionAgreesIff` | tasks/libc/stdio/doscan.c:77-138 | a number conversion takes from the input what section 7.19.6.2 of ISO/IEC 9899:1999 asks for if and only if the input begins with digits behind at most a minus sign, and not with 0x for %x |
| `IsoC.FailedConversionCounts` | tasks/libc/stdio/doscan.c:77-138 | on such input scanning goes on as the standard asks for; where the standard's conversion fails it never does |
| `IsoC.OthersCount` | tasks/libc/stdio/doscan.c:166-171 | a character that is no conversion, a percent sign among them, takes no input and counts as a conversion |
| `IsoC.PercentDiffers` | tasks/libc/stdio/doscan.c:166-171 | the format of one percent sign yields 1 for every input |

## Left out

- Assembly, vector patching and kernel stacks: a context switch is the assignment of the running task
  plus the pending end of its `mutex_lock`. Of the saved registers only the three that say which
  program a control block starts are modelled, as `allocate_tasks` sets them.
- Device registers: the pending bit and the counter value of an interrupt are inputs.
- System calls before the first `task_create`, when no task control block is current.
- Kernel.Kernel.EventWait: not for device number 60, which passes the check and indexes past the device table.
- Schedule.AssignSchedule: not for a list of two or more that cannot be read one element past its end,
  or whose neighbour has period 0: the sort reads that element and the utilisation test divides by it.
- Kernel.OrderTasks: the same.
- The float accumulator of the utilisation test: its sums are integers, modelled exactly.
- `sleep_syscall`, `time_syscall`, `read_syscall`, `write_syscall`, `get_cur_prio`: thin or plain I/O.
- Printer.Doprnt: without the conversions %b, %t, %s and %p.
- Printer.Vsprintf: the same.
- Printer.Sink.SaveChar: without the limit that only `vsnprintf` sets.
- Scanner.Doscan: without %s, which does not stop at the end of the string, and formats that end inside
  a directive, behind which the source reads on.
- Scanner.Vsscanf: the same.
- `_doprnt_truncates`, a global that is never set: taken as false.
- Behaviour C leaves undefined in `_doprnt`: missing arguments, widths that overflow an int, and radix
  values without digits (`vsprintf` passes radix 0, so %r and %n are among them).
- KernelInvariant.CreateEstablishes: needs that control blocks `task_create` leaves alone are at rest, as
  they are in zeroed memory and in every reachable state with no mutex locked.
- Kernel.Kernel.AllocateTasks: the same as `Kernel.Kernel.TaskCreate`.
- Kernel.Kernel.TaskCreate: expects that nobody waits for a mutex, because clearing the links of the
  control blocks would cut such a queue; `KernelInvariant.CreateEstablishes` and the invariant say that nobody does.
- KernelSignals.PeriodicSignals: is stated for runs whose clock stays one period below 2^32 ticks, like
  the other lemmas about signals over a run; `KernelSignals.MatchTimeWraps` says what happens at the wrap.
