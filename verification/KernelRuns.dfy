/** What holds over whole runs of the kernel: from the first `task_create` on, through any
    sequence of system calls and interrupts. */
module KernelRuns {
  import opened Config
  import opened RunQueues
  import opened Mutexes
  import opened Schedule
  import opened KernelSpec
  import opened KernelInvariant

  /** The event installs a task set. A rejected `task_create` is a step that changes nothing. */
  ghost predicate Installs(e: Event) {
    e.Create? && Accepted(e.tasks, e.n)
  }

  /** No task set is installed on the way. */
  ghost predicate OneTaskSet(events: seq<Event>) {
    forall e :: e in events ==> !Installs(e)
  }

  ghost predicate Legal(s: State, events: seq<Event>)
    requires s.WellFormed()
    decreases |events|
  {
    events == [] || (CanHappen(s, events[0]) && Careful(s, events[0]) && Legal(Step(s, events[0]), events[1..]))
  }

  ghost function Run(s: State, events: seq<Event>): (r: State)
    requires s.WellFormed() && Legal(s, events)
    ensures r.WellFormed()
    decreases |events|
  {
    if events == [] then s else Run(Step(s, events[0]), events[1..])
  }

  lemma {:induction false} RunKeeps(s: State, events: seq<Event>)
    requires Inv(s) && Legal(s, events)
    ensures Inv(Run(s, events))
    decreases |events|
  {
    if events != [] {
      StepKeepsIff(s, events[0]);
      RunKeeps(Step(s, events[0]), events[1..]);
    }
  }

  /** A run of the system: a kernel in which `mutex_init` has run, mutexes may have been created
      and none is locked; a task set in order of period; and what happens once `allocate_tasks` has
      installed that set and dispatched its first task. */
  datatype Execution = Execution(boot: State, list: seq<Task>, events: seq<Event>) {
    ghost predicate Boots() {
      boot.WellFormed() && boot.drift < OSTMR_COUNT && RateMonotonic(list) && Quiet(boot.locks)
    }

    ghost function Start(): (s: State)
      requires Boots()
      ensures s.WellFormed()
    {
      Pick(Allocated(boot, list))
    }

    ghost predicate Valid() {
      Boots() && Legal(Start(), events)
    }

    /** The state the run has reached. */
    ghost function State(): (s: State)
      requires Valid()
      ensures s.WellFormed()
    {
      Run(Start(), events)
    }
  }

  /** `task_create` starts an execution: its success is what `Start` describes. */
  lemma CreateStarts(s: State, tasks: seq<Task>, n: nat)
    requires s.WellFormed() && Accepted(tasks, n) && s.drift < OSTMR_COUNT && Quiet(s.locks)
    ensures |Ordered(tasks, n)| == |tasks|
    ensures var x := Execution(s, Ordered(tasks, n)[..n], []); x.Valid() && x.State() == TaskCreate(s, tasks, n).0
  {
    OrderedFacts(tasks, n);
  }

  lemma PoweredOnIsQuiet()
    ensures Quiet(PoweredOn().locks) && PoweredOn().drift < OSTMR_COUNT
  {
  }

  lemma StartInv(x: Execution)
    requires x.Boots()
    ensures Inv(x.Start())
  {
    AllocatedIsChoosing(x.boot, x.list);
    PickFromChoosing(Allocated(x.boot, x.list));
  }

  lemma ReachableInv(x: Execution)
    requires x.Valid()
    ensures Inv(x.State())
  {
    StartInv(x);
    RunKeeps(x.Start(), x.events);
  }

  /** A later `task_create` starts another execution, so each stretch of a run between two task
      creations is an execution of its own. */
  lemma CreateContinues(x: Execution, tasks: seq<Task>, n: nat)
    requires x.Valid() && NothingLocked(x.State().locks.mutexes) && Accepted(tasks, n)
    ensures |Ordered(tasks, n)| == |tasks|
    ensures var y := Execution(x.State(), Ordered(tasks, n)[..n], []);
            y.Valid() && y.State() == TaskCreate(x.State(), tasks, n).0
  {
    ReachableInv(x);
    UnlockedIsQuiet(x.State());
    CreateStarts(x.State(), tasks, n);
  }

  // ---------------------------------------------------------------- mutexes and scheduling

  /** Each locked mutex belongs to the running task, nobody waits for a mutex or is marked as
      pending, and so no lock call can put its caller to sleep: no deadlock on mutexes. */
  lemma NoContention(x: Execution, m: int)
    requires x.Valid()
    ensures var r := x.State();
            && (IsMutex(m) ==> var mu := r.locks.mutexes[m]; mu.queue == [] && (mu.locked ==> mu.holder == r.cur))
            && (forall t: TaskId :: Installed(t, |r.installed|) ==> !r.locks.tcbs[t].pending)
            && (r.cur != IDLE ==> LockCall(r, m).1 != Switched)
  {
    ReachableInv(x);
    if x.State().cur != IDLE { LockKeeps(x.State(), m); }
  }

  /** The places of a task: running, a slot of the run queue, or a position in a device queue. */
  datatype Place = Processor | Slot(prio: nat) | Waiting(dev: nat, index: nat)

  predicate IsAt(s: State, t: TaskId, p: Place)
    requires s.WellFormed()
  {
    match p
    case Processor => s.cur == t
    case Slot(prio) => prio < OS_MAX_TASKS && s.slots[prio] == t
    case Waiting(d, i) => d < NUM_DEVICES && i < |s.devices[d].queue| && s.devices[d].queue[i] == t
  }

  lemma PlaceExists(s: State, t: TaskId)
    requires Inv(s) && Installed(t, |s.installed|)
    ensures exists p: Place :: IsAt(s, t, p)
  {
    assert OnePlace(s.slots, s.cur, s.devices, t);
    if t == s.cur {
      assert IsAt(s, t, Processor);
    } else if Queued(s.slots, t) {
      assert IsAt(s, t, Slot(t));
    } else {
      var d :| 0 <= d < NUM_DEVICES && SleepsOn(s.devices, t, d);
      var i :| 0 <= i < |s.devices[d].queue| && s.devices[d].queue[i] == t;
      assert IsAt(s, t, Waiting(d, i));
    }
  }

  lemma PlaceIsUnique(s: State, t: TaskId, p: Place, q: Place)
    requires Inv(s) && Installed(t, |s.installed|) && IsAt(s, t, p) && IsAt(s, t, q)
    ensures p == q && (p.Slot? ==> p.prio == t)
  {
    assert OnePlace(s.slots, s.cur, s.devices, t);
    assert forall i: Place :: i.Waiting? && IsAt(s, t, i) ==> SleepsOn(s.devices, t, i.dev);
    if p.Waiting? && q.Waiting? {
      assert p.dev == q.dev;
      assert p.index < q.index || q.index < p.index || p.index == q.index;
    }
  }

  /** Conservation of tasks: each installed task, idle included, is in exactly one place, and in the
      run queue only in the slot of its own priority. */
  lemma EveryTaskInOnePlace(x: Execution, t: TaskId)
    requires x.Valid() && Installed(t, |x.State().installed|)
    ensures exists p: Place :: IsAt(x.State(), t, p)
    ensures forall p: Place, q: Place :: IsAt(x.State(), t, p) && IsAt(x.State(), t, q) ==>
              p == q && (p.Slot? ==> p.prio == t)
  {
    var s := x.State();
    ReachableInv(x);
    PlaceExists(s, t);
    forall p: Place, q: Place | IsAt(s, t, p) && IsAt(s, t, q) ensures p == q && (p.Slot? ==> p.prio == t) {
      PlaceIsUnique(s, t, p, q);
    }
  }

  /** So the run queue never loses a task: whoever is put back next, the running task or a sleeper,
      finds its slot free, and the dispatcher always finds somebody to run. */
  lemma NobodyIsDropped(x: Execution)
    requires x.Valid()
    ensures var r := x.State();
            && r.slots[r.locks.tcbs[r.cur].curPrio] == NULL && r.slots[0] == NULL
            && (forall t: TaskId :: Asleep(r.devices, t) ==> r.slots[r.locks.tcbs[t].nativePrio] == NULL)
            && (r.cur != IDLE ==> Queued(r.slots, IDLE))
            && !Empty(Requeued(r).slots)
  {
    ReachableInv(x);
    SlotsAreFree(x.State());
  }

  lemma SlotsAreFree(r: State)
    requires Inv(r)
    ensures r.slots[r.locks.tcbs[r.cur].curPrio] == NULL && r.slots[0] == NULL
    ensures forall t: TaskId :: Asleep(r.devices, t) ==> r.slots[r.locks.tcbs[t].nativePrio] == NULL
    ensures r.cur != IDLE ==> Queued(r.slots, IDLE)
    ensures !Empty(Requeued(r).slots)
  {
    assert OnePlace(r.slots, r.cur, r.devices, r.cur) && OnePlace(r.slots, r.cur, r.devices, IDLE);
    assert !Asleep(r.devices, IDLE);
    forall t: TaskId | Asleep(r.devices, t) ensures r.slots[r.locks.tcbs[t].nativePrio] == NULL {
      var d :| 0 <= d < NUM_DEVICES && SleepsOn(r.devices, t, d);
      assert OnePlace(r.slots, r.cur, r.devices, t);
    }
    assert Requeued(r).slots[r.locks.tcbs[r.cur].curPrio] != NULL;
  }

  /** The number `holds_lock` of the running task is the number of locked mutexes, everybody else's
      is 0, and a task has the ceiling priority exactly while its number is positive. */
  lemma LockCountAndCeiling(x: Execution, t: TaskId)
    requires x.Valid() && Installed(t, |x.State().installed|)
    ensures var r := x.State(); var tcb := r.locks.tcbs[t];
            && tcb.holdsLock == (if t == r.cur then LockedCount(r.locks.mutexes) else 0)
            && (tcb.curPrio == 0 <==> tcb.holdsLock > 0) && (tcb.curPrio != 0 ==> tcb.curPrio == tcb.nativePrio == t)
  {
    ReachableInv(x);
  }

  /** Control block t runs the program and uses the stack of entry t - 1 of the task set installed
      last, which is in order of period; that is the set the execution began with, until
      `task_create` succeeds again. */
  lemma TasksRunTheirEntries(x: Execution, t: TaskId)
    requires x.Valid() && Installed(t, |x.State().installed|)
    ensures x.State().locks.tcbs[t].program == ProgramOf(x.State().installed, t) && RateMonotonic(x.State().installed)
    ensures OneTaskSet(x.events) ==> x.State().installed == x.list
  {
    ReachableInv(x);
    if OneTaskSet(x.events) { InstalledStays(x.Start(), x.events); }
  }

  lemma RejectedStep(s: State, e: Event)
    requires s.WellFormed() && CanHappen(s, e) && e.Create? && !Installs(e)
    ensures Step(s, e) == s
  {
    CreateSucceedsIff(s, e.tasks, e.n);
  }

  lemma SetStays(s: State, e: Event)
    requires s.WellFormed() && CanHappen(s, e) && !Installs(e)
    ensures Step(s, e).installed == s.installed
  {
    if e.Create? { RejectedStep(s, e); }
  }

  lemma {:induction false} InstalledStays(s: State, events: seq<Event>)
    requires s.WellFormed() && Legal(s, events) && OneTaskSet(events)
    ensures Run(s, events).installed == s.installed
    decreases |events|
  {
    if events != [] {
      SetStays(s, events[0]);
      InstalledStays(Step(s, events[0]), events[1..]);
    }
  }

  /** The program of a control block is the one of this entry of a task list. */
  predicate Runs(tcb: Tcb, task: Task) {
    tcb.program == TaskProgram(task.entry, task.stackPos)
  }

  /** The best task runs: its current priority is ahead of everything in the run queue; without a
      mutex the entry whose program it runs has no longer period than the one of any ready task; and
      idle runs only if nobody is ready. */
  lemma BestTaskRuns(x: Execution, t: TaskId)
    requires x.Valid() && Installed(t, |x.State().installed|) && Queued(x.State().slots, t)
    ensures var r := x.State(); var list, running, ready := r.installed, r.locks.tcbs[r.cur], r.locks.tcbs[t];
            && 1 <= r.cur <= |list| && Runs(running, list[r.cur - 1]) && running.curPrio < ready.nativePrio
            && (t != IDLE ==> Runs(ready, list[t - 1]))
            && (running.holdsLock == 0 && t != IDLE ==> list[r.cur - 1].T <= list[t - 1].T)
  {
    ReachableInv(x);
    BestIsFirst(x.State(), t);
  }

  lemma BestIsFirst(r: State, t: TaskId)
    requires Inv(r) && Installed(t, |r.installed|) && Queued(r.slots, t)
    ensures var list, running, ready := r.installed, r.locks.tcbs[r.cur], r.locks.tcbs[t];
            && 1 <= r.cur <= |list| && Runs(running, list[r.cur - 1]) && running.curPrio < ready.nativePrio
            && (t != IDLE ==> Runs(ready, list[t - 1]))
            && (running.holdsLock == 0 && t != IDLE ==> list[r.cur - 1].T <= list[t - 1].T)
  {
    LockedBelowZero(r.locks.mutexes, OS_NUM_MUTEX);
  }
}
