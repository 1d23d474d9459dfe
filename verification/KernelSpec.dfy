/** The whole kernel as functions on values: run queue, dispatcher, devices, clock and system
    calls. Each of them works on kernel data with interrupts off, so every event is one step. */
module KernelSpec {
  import opened Config
  import opened Machine
  import opened Clocks
  import opened RunQueues
  import opened Mutexes
  import opened Schedule

  /** `struct dev`; `queue` is the list that starts at `sleep_q`. */
  datatype Device = Device(queue: seq<TaskId>, nextMatch: Word)

  /** `slots` is the run queue; `cur` the running task; `installed` records, for the proofs only, the
      task list that `task_create` installed last, in the order of the control blocks. */
  datatype State = State(locks: LockState, slots: seq<TaskId>, cur: TaskId, devices: seq<Device>,
                         time: Word, drift: Word, installed: seq<Task>) {
    predicate WellFormed() {
      locks.WellFormed() && |slots| == OS_MAX_TASKS && |devices| == NUM_DEVICES
    }
  }

  /** Zero-initialised memory, and the same after `mutex_init`. */
  function ZeroMemory(): (s: State)
    ensures s.WellFormed()
  {
    State(LockState(seq(OS_MAX_TASKS, _ => Tcb(0, 0, 0, false, User, NoProgram)),
                    seq(OS_NUM_MUTEX, _ => Mutex(false, false, NULL, []))),
          seq(OS_MAX_TASKS, _ => NULL), NULL, seq(NUM_DEVICES, _ => Device([], 0)), 0, 0, [])
  }

  function PoweredOn(): (s: State)
    ensures s.WellFormed()
  {
    ZeroMemory().(locks := ZeroMemory().locks.(mutexes := seq(OS_NUM_MUTEX, _ => FREE_MUTEX)))
  }

  // ---------------------------------------------------------------- dispatcher (ctx_switch.c)

  /** The switch itself, and whatever the chosen task still has to do inside the kernel. */
  function SwitchTo(s: State, t: TaskId): (s': State)
    requires s.WellFormed()
    ensures s'.WellFormed()
  {
    s.(cur := t, locks := Continue(s.locks, t))
  }

  /** `dispatch_nosave` and `dispatch_sleep`: take the task of best priority off the run queue. */
  function Pick(s: State): (s': State)
    requires s.WellFormed()
    ensures s'.WellFormed()
  {
    var p := Highest(s.slots);
    SwitchTo(s.(slots := s.slots[p := NULL]), s.slots[p])
  }

  function Requeued(s: State): (s': State)
    requires s.WellFormed()
    ensures s'.WellFormed()
  {
    if s.locks.tcbs[s.cur].pending then s
    else s.(slots := Enqueue(s.slots, s.cur, s.locks.tcbs[s.cur].curPrio))
  }

  function DispatchSave(s: State): (s': State)
    requires s.WellFormed()
    ensures s'.WellFormed()
  {
    Pick(Requeued(s))
  }

  // ---------------------------------------------------------------- devices (device.c)

  /** `dev_freq`. */
  function Freq(d: nat): (f: Word)
    requires d < NUM_DEVICES
    ensures 100 <= f <= 9000
  {
    if d == 59 then 9000 else 100 * (d + 1)
  }

  /** `dev_init`. */
  function FreshDevices(): (ds: seq<Device>)
    ensures |ds| == NUM_DEVICES
  {
    seq(NUM_DEVICES, d requires 0 <= d < NUM_DEVICES => Device([], Freq(d)))
  }

  /** `dev_wait`. */
  function DevWait(s: State, dev: nat): (State, Outcome)
    requires s.WellFormed() && dev < NUM_DEVICES
  {
    if s.locks.tcbs[s.cur].holdsLock != 0 then (s, Return(-EHOLDSLOCK))
    else
      var device := s.devices[dev];
      (Pick(s.(devices := s.devices[dev := device.(queue := device.queue + [s.cur])])), Switched)
  }

  /** Each task of a wait queue goes to the run queue at its native priority. */
  function Wake(slots: seq<TaskId>, tcbs: seq<Tcb>, q: seq<TaskId>): (slots': seq<TaskId>)
    requires |slots| == OS_MAX_TASKS == |tcbs|
    ensures |slots'| == OS_MAX_TASKS
    decreases |q|
  {
    if q == [] then slots else Wake(Enqueue(slots, q[0], tcbs[q[0]].nativePrio), tcbs, q[1..])
  }

  predicate Fires(s: State, d: nat, ms: Word)
    requires s.WellFormed() && d < NUM_DEVICES
  {
    s.devices[d].nextMatch <= ms
  }

  /** The loop of `dev_update` over the first k devices. */
  function Scan(s: State, ms: Word, k: nat): (s': State)
    requires s.WellFormed() && k <= NUM_DEVICES
    ensures s'.WellFormed() && s' == s.(devices := s'.devices, slots := s'.slots)
    ensures forall d :: k <= d < NUM_DEVICES ==> s'.devices[d] == s.devices[d]
  {
    if k == 0 then s
    else
      var r, d := Scan(s, ms, k - 1), s.devices[k - 1];
      if d.nextMatch <= ms then
        r.(devices := r.devices[k - 1 := Device([], AddWord(d.nextMatch, Freq(k - 1)))],
           slots := Wake(r.slots, s.locks.tcbs, d.queue))
      else r
  }

  /** `flag`: one of the first k devices fired and had a waiter. */
  predicate Woke(s: State, ms: Word, k: nat)
    requires s.WellFormed() && k <= NUM_DEVICES
  {
    exists d :: 0 <= d < k && Fires(s, d, ms) && s.devices[d].queue != []
  }

  /** `dev_update`. */
  function DevUpdate(s: State, ms: Word): (s': State)
    requires s.WellFormed()
    ensures s'.WellFormed()
  {
    var r := Scan(s, ms, NUM_DEVICES);
    if Woke(s, ms, NUM_DEVICES) then DispatchSave(r) else r
  }

  // ---------------------------------------------------------------- timer interrupt (irqHandler_c.c)

  /** `irqHandler`, given the pending bit of the timer and the counter it reads. */
  function Irq(s: State, timerPending: bool, oscr: Word): (s': State)
    requires s.WellFormed()
    ensures s'.WellFormed()
  {
    if !timerPending then s
    else
      var (t, d) := Clock(s.time, s.drift, oscr);
      DevUpdate(s.(time := t, drift := d), t)
  }

  // ---------------------------------------------------------------- task creation (proc.c, sched.c)

  const USR_START_ADDR := 0xa000_0000
  const USR_END_ADDR := 0xa300_0000

  predicate ValidStack(x: Task) {
    USR_START_ADDR <= x.stackPos < USR_END_ADDR
  }

  predicate Admissible(x: Task) {
    x.T != 0 && x.C <= x.T
  }

  /** The list that `assign_schedule` leaves behind; shorter lists stay as they are. */
  function Ordered(tasks: seq<Task>, n: nat): seq<Task>
    requires n <= |tasks| && (n >= 2 ==> n < |tasks|)
  {
    if n < 2 then tasks else StableSort(tasks[..n + 1]) + tasks[n + 1..]
  }

  predicate Installed(t: nat, n: nat) {
    1 <= t <= n || t == IDLE_PRIO
  }

  /** The program of a control block: block t gets entry t - 1 of the list, the last one the idle loop. */
  function ProgramOf(list: seq<Task>, t: nat): Program
    requires Installed(t, |list|)
  {
    if t == IDLE_PRIO then IdleLoop else TaskProgram(list[t - 1].entry, list[t - 1].stackPos)
  }

  /** A control block as `allocate_tasks` sets it up. */
  function NewTcb(prio: Prio, program: Program): Tcb {
    Tcb(prio, prio, 0, false, User, program)
  }

  function Allocated(s: State, list: seq<Task>): (s': State)
    requires s.WellFormed() && |list| <= OS_MAX_TASKS - 2
    ensures s'.WellFormed()
  {
    var n := |list|;
    var tcbs := seq(OS_MAX_TASKS, t requires 0 <= t < OS_MAX_TASKS =>
                      if Installed(t, n) then NewTcb(t, ProgramOf(list, t)) else s.locks.tcbs[t]);
    var slots: seq<TaskId> := seq(OS_MAX_TASKS, p requires 0 <= p < OS_MAX_TASKS =>
                                    if Installed(p, n) then p else NULL);
    s.(locks := s.locks.(tcbs := tcbs), slots := slots, devices := FreshDevices(), installed := list)
  }

  /** The checks of `task_create` that come before the utilisation test; 0 when all pass. */
  function CreateError(tasks: seq<Task>, n: nat): int
    requires n <= OS_MAX_TASKS - 2 ==> n <= |tasks|
  {
    if n > OS_MAX_TASKS - 2 then -EINVAL
    else if exists i :: 0 <= i < n && !ValidStack(tasks[i]) then -EFAULT
    else if exists i :: 0 <= i < n && !Admissible(tasks[i]) then -ESCHED
    else 0
  }

  /** What the source relies on: the list is there, and so is one more element behind a list of
      two or more, with a period that can be divided by. */
  ghost predicate ReadableList(tasks: seq<Task>, n: nat) {
    n <= OS_MAX_TASKS - 2 ==> n <= |tasks| && (n >= 2 ==> n < |tasks| && tasks[n].T > 0)
  }

  lemma OrderedFacts(tasks: seq<Task>, n: nat)
    requires ReadableList(tasks, n) && CreateError(tasks, n) == 0
    ensures |Ordered(tasks, n)| == |tasks|
    ensures forall k :: 0 <= k < n ==> Ordered(tasks, n)[k].T > 0
    ensures forall i, j :: 0 <= i <= j < n ==> Ordered(tasks, n)[i].T <= Ordered(tasks, n)[j].T
  {
    if n >= 2 {
      var s := tasks[..n + 1];
      StableSortFacts(s);
      forall k | 0 <= k < n ensures StableSort(s)[k].T > 0 {
        OfPeriodMember(StableSort(s), k);
        OfPeriodOccurs(s, StableSort(s)[k].T);
      }
    } else {
      assert forall k :: 0 <= k < n ==> Admissible(tasks[k]);
    }
  }

  /** The tasks that get installed are the caller's own, in order of period, exactly when the element
      behind a list of two or more has a period at least as long as all of them. */
  lemma InstallsCallersTasks(tasks: seq<Task>, n: nat)
    requires ReadableList(tasks, n) && CreateError(tasks, n) == 0
    ensures |Ordered(tasks, n)| == |tasks|
    ensures Ordered(tasks, n)[..n] == StableSort(tasks[..n]) <==>
              n < 2 || forall k :: 0 <= k < n ==> tasks[k].T <= tasks[n].T
  {
    OrderedFacts(tasks, n);
    if n >= 2 {
      var s := tasks[..n + 1];
      StableSortFacts(s);
      assert s[..n] == tasks[..n] && Ordered(tasks, n)[..n] == StableSort(s)[..n];
      NeighbourMustBeMaximal(s, n);
    } else if n == 1 {
      assert tasks[..1][1..] == [] && StableSort(tasks[..1]) == Insert(tasks[0], []) == tasks[..1];
    }
  }

  /** The lists that `task_create` installs: they pass its checks and the test of the sorted list. */
  ghost predicate Accepted(tasks: seq<Task>, n: nat) {
    ReadableList(tasks, n) && CreateError(tasks, n) == 0 && (OrderedFacts(tasks, n); PassesTest(Ordered(tasks, n), n))
  }

  /** The empty list, for one. */
  lemma EmptyListIsAccepted()
    ensures Accepted([], 0)
  {
    assert Ordered([], 0) == [];
  }

  /** `task_create`: on success the first task of the new set runs and the call never returns. */
  ghost function TaskCreate(s: State, tasks: seq<Task>, n: nat): (r: (State, Outcome))
    requires s.WellFormed() && ReadableList(tasks, n)
    ensures r.0.WellFormed()
  {
    if CreateError(tasks, n) != 0 then (s, Return(CreateError(tasks, n)))
    else
      OrderedFacts(tasks, n);
      if !PassesTest(Ordered(tasks, n), n) then (s, Return(-ESCHED))
      else (Pick(Allocated(s, Ordered(tasks, n)[..n])), Switched)
  }

  /** Exactly the other lists are rejected, and then nothing happens. */
  lemma CreateSucceedsIff(s: State, tasks: seq<Task>, n: nat)
    requires s.WellFormed() && ReadableList(tasks, n)
    ensures TaskCreate(s, tasks, n).1 == Switched <==> Accepted(tasks, n)
    ensures !Accepted(tasks, n) ==> TaskCreate(s, tasks, n).0 == s
    ensures Accepted(tasks, n) ==>
              && n <= |Ordered(tasks, n)| && n <= OS_MAX_TASKS - 2
              && TaskCreate(s, tasks, n).0 == Pick(Allocated(s, Ordered(tasks, n)[..n]))
  {
    if CreateError(tasks, n) == 0 { OrderedFacts(tasks, n); }
  }

  // ---------------------------------------------------------------- events

  datatype Event =
    | Create(tasks: seq<Task>, n: nat)
    | MakeMutex
    | LockMutex(m: int)
    | UnlockMutex(m: int)
    | WaitFor(dev: nat)
    | Interrupt(timerPending: bool, oscr: Word)

  /** `event_wait`: device numbers above NUM_DEVICES are rejected. */
  function EventWait(s: State, dev: nat): (r: (State, Outcome))
    requires s.WellFormed() && dev != NUM_DEVICES
    ensures r.0.WellFormed()
  {
    if dev > NUM_DEVICES then (s, Return(-EINVAL)) else DevWait(s, dev)
  }

  /** `mutex_create`. */
  function CreateCall(s: State): (r: (State, int))
    requires s.WellFormed()
    ensures r.0.WellFormed()
  {
    var (l, code) := MutexCreate(s.locks);
    (s.(locks := l), code)
  }

  /** `mutex_lock` by the running task. */
  function LockCall(s: State, m: int): (r: (State, Outcome))
    requires s.WellFormed()
    ensures r.0.WellFormed()
  {
    var (l, outcome) := MutexLock(s.locks, s.cur, m);
    var s1 := s.(locks := l);
    (if outcome == Switched then Pick(s1) else s1, outcome)
  }

  /** The state in which `mutex_unlock` calls the dispatcher. */
  function Released(s: State, m: int): (s': State)
    requires s.WellFormed()
    ensures s'.WellFormed()
  {
    var (l, _, woken) := MutexUnlock(s.locks, s.cur, m);
    s.(locks := l, slots := if woken == NULL then s.slots else Enqueue(s.slots, woken, l.tcbs[woken].nativePrio))
  }

  /** `mutex_unlock` by the running task; a call past the checks ends in the dispatcher. */
  function UnlockCall(s: State, m: int): (r: (State, int))
    requires s.WellFormed()
    ensures r.0.WellFormed()
  {
    if UnlockPasses(s.locks, s.cur, m) then (DispatchSave(Released(s, m)), 0)
    else (s, MutexUnlock(s.locks, s.cur, m).1)
  }

  /** What the environment of the kernel sees to: the idle loop makes no calls, the memory behind
      a task list can be read, and device number 60 is not asked for. */
  ghost predicate CanHappen(s: State, e: Event) {
    match e
    case Create(tasks, n) => s.cur != IDLE && ReadableList(tasks, n)
    case WaitFor(dev) => s.cur != IDLE && dev != NUM_DEVICES
    case Interrupt(_, _) => true
    case _ => s.cur != IDLE
  }

  ghost function Step(s: State, e: Event): (s': State)
    requires s.WellFormed() && CanHappen(s, e)
    ensures s'.WellFormed()
  {
    match e
    case Create(tasks, n) => TaskCreate(s, tasks, n).0
    case MakeMutex => CreateCall(s).0
    case LockMutex(m) => LockCall(s, m).0
    case UnlockMutex(m) => UnlockCall(s, m).0
    case WaitFor(dev) => EventWait(s, dev).0
    case Interrupt(timerPending, oscr) => Irq(s, timerPending, oscr)
  }
}
