/** kernel/lock/mutex.c as functions on values: what each call does to the task control
    blocks and to the mutex table. The scheduler is not part of this file; a call that
    goes to sleep or makes another task ready says so in its result. */
module Mutexes {
  import opened Config

  type Prio = p: nat | p < 64

  /** Where a task continues when the processor comes back to it: in its own code, or in
      `mutex_lock` behind the call that put it to sleep. This stands for the saved context. */
  datatype Resume = User | InMutexLock(mutex: nat)

  /** What `launch_task` starts when a control block is switched to for the first time: the registers
      r4 to r6 of its context as `allocate_tasks` fills them in. `entry` stands for the function and
      its argument, the address of a task's stack comes with it, and the idle loop has its own. */
  datatype Program = NoProgram | IdleLoop | TaskProgram(entry: int, stackPos: nat)

  /** The scalar fields of `struct tcb`; the two link fields become the queues below. */
  datatype Tcb = Tcb(nativePrio: Prio, curPrio: Prio, holdsLock: int, pending: bool, resume: Resume, program: Program)

  /** The task is in its own code, waits for no mutex and holds none. */
  predicate AtRest(tcb: Tcb) {
    tcb.resume == User && !tcb.pending && tcb.holdsLock == 0 && tcb.curPrio == tcb.nativePrio
  }

  /** `struct mutex`; `queue` is the list that starts at `pSleep_queue`. */
  datatype Mutex = Mutex(available: bool, locked: bool, holder: TaskId, queue: seq<TaskId>)

  datatype LockState = LockState(tcbs: seq<Tcb>, mutexes: seq<Mutex>) {
    predicate WellFormed() {
      |tcbs| == OS_MAX_TASKS && |mutexes| == OS_NUM_MUTEX
    }
  }

  /** What a call hands back: a return code, or nothing yet because another task runs. */
  datatype Outcome = Return(code: int) | Switched

  predicate IsMutex(m: int) {
    0 <= m < OS_NUM_MUTEX
  }

  /** `mutex_init`. */
  const FREE_MUTEX := Mutex(true, false, NULL, [])

  /** The index of the first mutex not yet handed out, or OS_NUM_MUTEX. */
  function FirstAvailable(ms: seq<Mutex>, from: nat): (i: nat)
    requires from <= |ms|
    ensures from <= i <= |ms|
    ensures i < |ms| ==> ms[i].available
    ensures forall j :: from <= j < i ==> !ms[j].available
    decreases |ms| - from
  {
    if from == |ms| || ms[from].available then from else FirstAvailable(ms, from + 1)
  }

  /** `mutex_create`. */
  function MutexCreate(l: LockState): (LockState, int)
    requires l.WellFormed()
  {
    var i := FirstAvailable(l.mutexes, 0);
    if i == OS_NUM_MUTEX then (l, -ENOMEM)
    else (l.(mutexes := l.mutexes[i := l.mutexes[i].(available := false)]), i)
  }

  /** The last three assignments of `mutex_lock`: the caller now owns the mutex. */
  function Enter(l: LockState, t: TaskId, m: nat): LockState
    requires l.WellFormed() && IsMutex(m)
  {
    l.(tcbs := l.tcbs[t := l.tcbs[t].(holdsLock := l.tcbs[t].holdsLock + 1, curPrio := 0)],
       mutexes := l.mutexes[m := l.mutexes[m].(holder := t)])
  }

  /** The sleeping branch of `mutex_lock`: to the end of the queue, and remember where to go on. */
  function Block(l: LockState, t: TaskId, m: nat): LockState
    requires l.WellFormed() && IsMutex(m)
  {
    l.(tcbs := l.tcbs[t := l.tcbs[t].(pending := true, resume := InMutexLock(m))],
       mutexes := l.mutexes[m := l.mutexes[m].(queue := l.mutexes[m].queue + [t])])
  }

  /** `mutex_lock`, up to its return or to the context switch. */
  function MutexLock(l: LockState, t: TaskId, m: int): (LockState, Outcome)
    requires l.WellFormed()
  {
    if !IsMutex(m) then (l, Return(-EINVAL))
    else if !l.mutexes[m].locked then
      (Enter(l.(mutexes := l.mutexes[m := l.mutexes[m].(locked := true)]), t, m), Return(0))
    else if l.mutexes[m].holder == t then (l, Return(-EDEADLOCK))
    else (Block(l, t, m), Switched)
  }

  /** What runs first when a task is switched to: the rest of `mutex_lock`, if it slept there. */
  function Continue(l: LockState, t: TaskId): LockState
    requires l.WellFormed()
  {
    match l.tcbs[t].resume
    case User => l
    case InMutexLock(m) =>
      if IsMutex(m) then Enter(l.(tcbs := l.tcbs[t := l.tcbs[t].(resume := User)]), t, m) else l
  }

  /** The hand-over inside `mutex_unlock`; the second component is the task made ready, or NULL. */
  function HandOver(l: LockState, m: nat): (LockState, TaskId)
    requires l.WellFormed() && IsMutex(m)
  {
    var mu := l.mutexes[m];
    if mu.queue == [] then (l.(mutexes := l.mutexes[m := mu.(locked := false)]), NULL)
    else
      var first := mu.queue[0];
      (LockState(l.tcbs[first := l.tcbs[first].(pending := false, curPrio := l.tcbs[first].nativePrio)],
                 l.mutexes[m := mu.(queue := mu.queue[1..])]),
       first)
  }

  /** The end of `mutex_unlock`: one mutex less, and the native priority back with the last one. */
  function Leave(l: LockState, t: TaskId): LockState
    requires l.WellFormed()
  {
    var tcb := l.tcbs[t];
    l.(tcbs := l.tcbs[t := if tcb.holdsLock > 1 then tcb.(holdsLock := tcb.holdsLock - 1)
                           else tcb.(holdsLock := 0, curPrio := tcb.nativePrio)])
  }

  /** Whether `mutex_unlock` gets past its checks. Its tests for a null holder and for a
      second time a foreign holder cannot succeed after this one. */
  predicate UnlockPasses(l: LockState, t: TaskId, m: int)
    requires l.WellFormed()
  {
    IsMutex(m) && !l.mutexes[m].available && l.mutexes[m].holder == t
  }

  /** `mutex_unlock`, up to its call of the dispatcher: new state, return code, task made ready. */
  function MutexUnlock(l: LockState, t: TaskId, m: int): (LockState, int, TaskId)
    requires l.WellFormed()
  {
    if !IsMutex(m) then (l, -EINVAL, NULL)
    else if !UnlockPasses(l, t, m) then (l, -EPERM, NULL)
    else
      var (l1, woken) := HandOver(l, m);
      (Leave(l1, t), 0, woken)
  }
}
