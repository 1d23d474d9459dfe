/** What every step of the kernel keeps: each task is in exactly one place, the running task is
    the best one, only the running task holds mutexes, and nobody ever waits for one. */
module KernelInvariant {
  import opened Config
  import opened Machine
  import opened Clocks
  import opened RunQueues
  import opened Mutexes
  import opened Schedule
  import opened KernelSpec

  // ---------------------------------------------------------------- vocabulary

  predicate SleepsOn(ds: seq<Device>, t: TaskId, d: nat)
    requires d < |ds|
  {
    t in ds[d].queue
  }

  ghost predicate Asleep(ds: seq<Device>, t: TaskId) {
    exists d :: 0 <= d < |ds| && SleepsOn(ds, t, d)
  }

  predicate Queued(slots: seq<TaskId>, t: TaskId)
    requires |slots| == OS_MAX_TASKS
  {
    slots[t] == t
  }

  function LockedBelow(ms: seq<Mutex>, k: nat): nat
    requires k <= |ms|
  {
    if k == 0 then 0 else LockedBelow(ms, k - 1) + if ms[k - 1].locked then 1 else 0
  }

  function LockedCount(ms: seq<Mutex>): nat {
    LockedBelow(ms, |ms|)
  }

  // ---------------------------------------------------------------- the invariant
  // n is the number of installed tasks besides idle.

  /** Control blocks of installed tasks: nobody sleeps in `mutex_lock`. */
  ghost predicate TcbsOk(tcbs: seq<Tcb>, n: nat)
    requires |tcbs| == OS_MAX_TASKS
  {
    forall t: TaskId :: Installed(t, n) ==> tcbs[t].nativePrio == t && tcbs[t].resume == User && !tcbs[t].pending
  }

  /** Each control block runs the entry of the list that belongs to its priority. */
  ghost predicate ProgramsOk(tcbs: seq<Tcb>, list: seq<Task>)
    requires |tcbs| == OS_MAX_TASKS
  {
    forall t: TaskId :: Installed(t, |list|) ==> tcbs[t].program == ProgramOf(list, t)
  }

  /** The control blocks that are not in use hold no mutex and wait for none. */
  ghost predicate OthersRest(tcbs: seq<Tcb>, n: nat)
    requires |tcbs| == OS_MAX_TASKS
  {
    forall t: TaskId :: !Installed(t, n) ==> AtRest(tcbs[t])
  }

  /** Slot p only ever holds task p, and slot 0 nothing. */
  ghost predicate SlotsOk(slots: seq<TaskId>, n: nat)
    requires |slots| == OS_MAX_TASKS
  {
    forall p :: 0 <= p < OS_MAX_TASKS && slots[p] != NULL ==> slots[p] == p && Installed(p, n)
  }

  /** The device queues are disjoint and without repetition, and idle is in none. */
  ghost predicate QueuesOk(ds: seq<Device>, n: nat) {
    && |ds| == NUM_DEVICES
    && (forall d, t: TaskId :: 0 <= d < |ds| && SleepsOn(ds, t, d) ==> Installed(t, n) && t != IDLE)
    && (forall d, i, j :: 0 <= d < |ds| && 0 <= i < j < |ds[d].queue| ==> ds[d].queue[i] != ds[d].queue[j])
    && (forall d, e, t: TaskId :: 0 <= d < |ds| && 0 <= e < |ds| && SleepsOn(ds, t, d) && SleepsOn(ds, t, e) ==> d == e)
  }

  /** Nobody waits for a mutex. */
  ghost predicate NoWaiters(ms: seq<Mutex>) {
    |ms| == OS_NUM_MUTEX && forall m :: 0 <= m < |ms| ==> ms[m].queue == []
  }

  predicate NothingLocked(ms: seq<Mutex>) {
    forall m :: 0 <= m < |ms| ==> !ms[m].locked
  }

  /** Every locked mutex belongs to the running task. */
  ghost predicate HeldBy(ms: seq<Mutex>, cur: TaskId) {
    forall m :: 0 <= m < |ms| && ms[m].locked ==> ms[m].holder == cur
  }

  /** The running task is charged for every locked mutex and has the ceiling priority while there
      is one; the others hold nothing. */
  ghost predicate ChargesOk(l: LockState, cur: TaskId, n: nat)
    requires l.WellFormed()
  {
    forall t: TaskId :: Installed(t, n) ==>
      && l.tcbs[t].holdsLock == (if t == cur then LockedCount(l.mutexes) else 0)
      && l.tcbs[t].curPrio == if l.tcbs[t].holdsLock > 0 then 0 else t
  }

  /** Running, in the run queue, or in a device queue: exactly one of the three. */
  ghost predicate OnePlace(slots: seq<TaskId>, cur: TaskId, ds: seq<Device>, t: TaskId)
    requires |slots| == OS_MAX_TASKS
  {
    if t == cur then !Queued(slots, t) && !Asleep(ds, t) else Queued(slots, t) <==> !Asleep(ds, t)
  }

  ghost predicate RateMonotonic(list: seq<Task>) {
    |list| <= OS_MAX_TASKS - 2 && SortedByPeriod(list)
  }

  /** The facts that do not mention the running task. */
  ghost predicate Common(s: State) {
    && s.WellFormed() && RateMonotonic(s.installed) && s.drift < OSTMR_COUNT
    && TcbsOk(s.locks.tcbs, |s.installed|) && ProgramsOk(s.locks.tcbs, s.installed)
    && OthersRest(s.locks.tcbs, |s.installed|)
    && SlotsOk(s.slots, |s.installed|) && QueuesOk(s.devices, |s.installed|)
    && NoWaiters(s.locks.mutexes)
  }

  /** The running task is ahead of everything in the run queue. */
  ghost predicate BestRuns(s: State)
    requires s.WellFormed()
  {
    forall p :: 0 <= p < OS_MAX_TASKS && s.slots[p] != NULL ==> s.locks.tcbs[s.cur].curPrio < p
  }

  /** Everything but the claim that the best task runs; it holds just before the dispatcher. */
  ghost predicate Undispatched(s: State) {
    && Common(s)
    && Installed(s.cur, |s.installed|) && HeldBy(s.locks.mutexes, s.cur) && ChargesOk(s.locks, s.cur, |s.installed|)
    && (s.cur == IDLE ==> NothingLocked(s.locks.mutexes))
    && forall t: TaskId :: Installed(t, |s.installed|) ==> OnePlace(s.slots, s.cur, s.devices, t)
  }

  ghost predicate Inv(s: State) {
    Undispatched(s) && BestRuns(s)
  }

  /** Nobody runs and no mutex is locked: what the dispatcher chooses from. */
  ghost predicate Choosing(s: State) {
    && Common(s) && NothingLocked(s.locks.mutexes)
    && (forall t: TaskId :: Installed(t, |s.installed|) ==> (Queued(s.slots, t) <==> !Asleep(s.devices, t)))
    && (forall t: TaskId :: Installed(t, |s.installed|) ==> AtRest(s.locks.tcbs[t]))
  }

  // ---------------------------------------------------------------- counting locks

  lemma LockedBelowChanges(ms: seq<Mutex>, m: nat, mu: Mutex, k: nat)
    requires m < |ms| && k <= |ms|
    ensures LockedBelow(ms[m := mu], k) - LockedBelow(ms, k)
         == if m < k then (if mu.locked then 1 else 0) - (if ms[m].locked then 1 else 0) else 0
  {
    if k > 0 { LockedBelowChanges(ms, m, mu, k - 1); }
  }

  lemma LockedBelowZero(ms: seq<Mutex>, k: nat)
    requires k <= |ms|
    ensures LockedBelow(ms, k) == 0 <==> forall m :: 0 <= m < k ==> !ms[m].locked
  {
    if k > 0 { LockedBelowZero(ms, k - 1); }
  }

  /** No mutex is locked or waited for, and no control block is in the middle of anything: true of
      zero-initialised memory after `mutex_init`, and of a running system with no mutex locked. */
  ghost predicate Quiet(l: LockState) {
    l.WellFormed() && NoWaiters(l.mutexes) && NothingLocked(l.mutexes) && forall t: TaskId :: AtRest(l.tcbs[t])
  }

  lemma UnlockedIsQuiet(s: State)
    requires Inv(s) && NothingLocked(s.locks.mutexes)
    ensures Quiet(s.locks)
  {
    LockedBelowZero(s.locks.mutexes, OS_NUM_MUTEX);
  }

  // ---------------------------------------------------------------- the dispatcher

  /** From a choice, the dispatcher runs the task of best priority, and idle is always there. */
  lemma PickFromChoosing(s: State)
    requires Choosing(s)
    ensures Inv(Pick(s)) && Pick(s).cur == Highest(s.slots)
  {
    assert Installed(IDLE, |s.installed|) && !Asleep(s.devices, IDLE) && Queued(s.slots, IDLE);
    assert s.slots[Highest(s.slots)] == Highest(s.slots);
    LockedBelowZero(s.locks.mutexes, OS_NUM_MUTEX);
  }

  /** Saving the running task and dispatching restores the invariant. A task with a mutex goes to
      slot 0 and comes straight back. */
  lemma DispatchSaveKeeps(s: State)
    requires Undispatched(s)
    ensures Inv(DispatchSave(s))
    ensures LockedCount(s.locks.mutexes) > 0 ==> DispatchSave(s) == s
  {
    var r := Requeued(s);
    assert OnePlace(s.slots, s.cur, s.devices, s.cur);
    LockedBelowZero(s.locks.mutexes, OS_NUM_MUTEX);
    if LockedCount(s.locks.mutexes) > 0 {
      assert s.slots[0] == NULL;
      assert Highest(r.slots) == 0;
      assert r.slots[0 := NULL] == s.slots;
    } else {
      assert r.slots == s.slots[s.cur := s.cur];
      forall t: TaskId | Installed(t, |s.installed|) ensures Queued(r.slots, t) <==> !Asleep(r.devices, t) {
        assert OnePlace(s.slots, s.cur, s.devices, t);
      }
      PickFromChoosing(r);
    }
  }

  // ---------------------------------------------------------------- system calls

  lemma LockKeeps(s: State, m: int)
    requires Inv(s) && s.cur != IDLE
    ensures Inv(LockCall(s, m).0) && LockCall(s, m).1 != Switched
  {
    if IsMutex(m) && !s.locks.mutexes[m].locked {
      var s' := LockCall(s, m).0;
      var mu := s.locks.mutexes[m].(locked := true, holder := s.cur);
      LockedBelowChanges(s.locks.mutexes, m, mu, OS_NUM_MUTEX);
      assert s'.locks.mutexes == s.locks.mutexes[m := mu];
    }
  }

  /** Unlock calls the kernel survives: rejected ones, those for a mutex the task has locked, and
      repeated ones by a task that has none. */
  predicate HarmlessUnlock(s: State, m: int)
    requires s.WellFormed()
  {
    UnlockPasses(s.locks, s.cur, m) ==> s.locks.mutexes[m].locked || s.locks.tcbs[s.cur].holdsLock == 0
  }

  lemma ReleasedIsUndispatched(s: State, m: nat)
    requires Inv(s) && s.cur != IDLE && UnlockPasses(s.locks, s.cur, m) && HarmlessUnlock(s, m)
    ensures Undispatched(Released(s, m))
  {
    var s' := Released(s, m);
    var mu := s.locks.mutexes[m].(locked := false);
    LockedBelowChanges(s.locks.mutexes, m, mu, OS_NUM_MUTEX);
    LockedBelowZero(s.locks.mutexes, OS_NUM_MUTEX);
    assert s'.locks.mutexes == s.locks.mutexes[m := mu];
  }

  lemma UnlockKeeps(s: State, m: nat)
    requires Inv(s) && s.cur != IDLE && UnlockPasses(s.locks, s.cur, m) && HarmlessUnlock(s, m)
    ensures Inv(DispatchSave(Released(s, m)))
  {
    ReleasedIsUndispatched(s, m);
    DispatchSaveKeeps(Released(s, m));
  }

  /** A repeated unlock eats into the count of another mutex: the ceiling is dropped or the
      count is wrong, while that mutex stays locked. */
  lemma RepeatedUnlockBreaks(s: State, m: nat)
    requires Inv(s) && s.cur != IDLE && UnlockPasses(s.locks, s.cur, m) && !HarmlessUnlock(s, m)
    ensures !Inv(DispatchSave(Released(s, m)))
  {
    var s' := Released(s, m);
    var r := DispatchSave(s');
    LockedBelowZero(s.locks.mutexes, OS_NUM_MUTEX);
    assert s'.locks.mutexes == s.locks.mutexes;
    var i :| 0 <= i < OS_NUM_MUTEX && s.locks.mutexes[i].locked;
    assert r.locks.mutexes[i].locked;
  }

  lemma WaitKeeps(s: State, dev: nat)
    requires Inv(s) && s.cur != IDLE && dev < NUM_DEVICES
    ensures Inv(DevWait(s, dev).0)
  {
    if s.locks.tcbs[s.cur].holdsLock == 0 {
      var device := s.devices[dev];
      var ds := s.devices[dev := device.(queue := device.queue + [s.cur])];
      var r := s.(devices := ds);
      assert OnePlace(s.slots, s.cur, s.devices, s.cur);
      UnlockedIsQuiet(s) by { LockedBelowZero(s.locks.mutexes, OS_NUM_MUTEX); }
      assert forall d :: 0 <= d < NUM_DEVICES ==> !SleepsOn(s.devices, s.cur, d);
      assert s.cur !in device.queue by { assert !SleepsOn(s.devices, s.cur, dev); }
      assert forall t: TaskId, d :: 0 <= d < NUM_DEVICES ==>
               (SleepsOn(ds, t, d) <==> SleepsOn(s.devices, t, d) || (t == s.cur && d == dev));
      forall t: TaskId | Installed(t, |s.installed|) ensures Queued(r.slots, t) <==> !Asleep(ds, t) {
        assert OnePlace(s.slots, s.cur, s.devices, t);
        assert t == s.cur ==> SleepsOn(ds, t, dev);
        assert t != s.cur && Asleep(s.devices, t) ==>
                 exists d :: 0 <= d < NUM_DEVICES && SleepsOn(s.devices, t, d) && SleepsOn(ds, t, d);
      }
      PickFromChoosing(r);
    }
  }

  // ---------------------------------------------------------------- device signals

  /** Readying a queue of installed tasks puts each of them in its own slot and nothing else. */
  lemma {:induction false} WakeFacts(slots: seq<TaskId>, tcbs: seq<Tcb>, q: seq<TaskId>, n: nat)
    requires |slots| == OS_MAX_TASKS == |tcbs| && SlotsOk(slots, n) && TcbsOk(tcbs, n)
    requires forall t: TaskId :: t in q ==> Installed(t, n)
    ensures SlotsOk(Wake(slots, tcbs, q), n)
    ensures forall t: TaskId :: t != NULL ==> (Queued(Wake(slots, tcbs, q), t) <==> Queued(slots, t) || t in q)
    decreases |q|
  {
    if q != [] {
      assert q[0] in q && forall t: TaskId :: t in q[1..] ==> t in q;
      WakeFacts(Enqueue(slots, q[0], tcbs[q[0]].nativePrio), tcbs, q[1..], n);
    }
  }

  function Drained(s: State, d: nat, next: Word): (s': State)
    requires s.WellFormed() && d < NUM_DEVICES
    ensures s'.WellFormed()
  {
    s.(devices := s.devices[d := Device([], next)], slots := Wake(s.slots, s.locks.tcbs, s.devices[d].queue))
  }

  lemma DrainKeeps(s: State, d: nat, next: Word)
    requires Undispatched(s) && d < NUM_DEVICES
    ensures Undispatched(Drained(s, d, next))
  {
    var s' := Drained(s, d, next);
    DrainedQueues(s, d, next);
    assert forall t: TaskId :: t in s.devices[d].queue ==> SleepsOn(s.devices, t, d);
    WakeFacts(s.slots, s.locks.tcbs, s.devices[d].queue, |s.installed|);
    forall t: TaskId | Installed(t, |s.installed|) ensures OnePlace(s'.slots, s'.cur, s'.devices, t) {
      DrainedPlace(s, d, next, t);
    }
  }

  lemma DrainedQueues(s: State, d: nat, next: Word)
    requires s.WellFormed() && d < NUM_DEVICES
    ensures forall t: TaskId, e :: 0 <= e < NUM_DEVICES ==>
              (SleepsOn(Drained(s, d, next).devices, t, e) <==> SleepsOn(s.devices, t, e) && e != d)
    ensures QueuesOk(s.devices, |s.installed|) ==> QueuesOk(Drained(s, d, next).devices, |s.installed|)
  {
  }

  lemma DrainedPlace(s: State, d: nat, next: Word, t: TaskId)
    requires Undispatched(s) && d < NUM_DEVICES && Installed(t, |s.installed|)
    ensures var s' := Drained(s, d, next); OnePlace(s'.slots, s'.cur, s'.devices, t)
  {
    var s' := Drained(s, d, next);
    DrainedQueues(s, d, next);
    assert forall t: TaskId :: t in s.devices[d].queue ==> SleepsOn(s.devices, t, d);
    WakeFacts(s.slots, s.locks.tcbs, s.devices[d].queue, |s.installed|);
    assert OnePlace(s.slots, s.cur, s.devices, t);
    if e :| 0 <= e < NUM_DEVICES && SleepsOn(s.devices, t, e) {
      assert e != d ==> SleepsOn(s'.devices, t, e);
      assert e == d ==> t in s.devices[d].queue;
    }
  }

  lemma {:induction false} ScanKeeps(s: State, ms: Word, k: nat)
    requires Undispatched(s) && k <= NUM_DEVICES
    ensures Undispatched(Scan(s, ms, k))
    ensures !Woke(s, ms, k) ==> Scan(s, ms, k).slots == s.slots
  {
    if k > 0 {
      var r, d := Scan(s, ms, k - 1), s.devices[k - 1];
      ScanKeeps(s, ms, k - 1);
      assert Woke(s, ms, k - 1) ==> Woke(s, ms, k);
      if d.nextMatch <= ms {
        assert Fires(s, k - 1, ms);
        DrainKeeps(r, k - 1, AddWord(d.nextMatch, Freq(k - 1)));
        assert Scan(s, ms, k) == Drained(r, k - 1, AddWord(d.nextMatch, Freq(k - 1)));
      }
    }
  }

  lemma IrqKeeps(s: State, timerPending: bool, oscr: Word)
    requires Inv(s)
    ensures Inv(Irq(s, timerPending, oscr))
  {
    if timerPending {
      var (t, d) := Clock(s.time, s.drift, oscr);
      var s1 := s.(time := t, drift := d);
      ScanKeeps(s1, t, NUM_DEVICES);
      if Woke(s1, t, NUM_DEVICES) { DispatchSaveKeeps(Scan(s1, t, NUM_DEVICES)); }
    }
  }

  // ---------------------------------------------------------------- task creation

  /** `allocate_tasks` makes a good state out of any quiet one. */
  lemma AllocatedIsChoosing(s: State, list: seq<Task>)
    requires s.WellFormed() && RateMonotonic(list) && s.drift < OSTMR_COUNT && Quiet(s.locks)
    ensures Choosing(Allocated(s, list))
  {
    assert forall t: TaskId, d :: 0 <= d < NUM_DEVICES ==> !SleepsOn(FreshDevices(), t, d);
  }

  lemma CreateEstablishes(s: State, tasks: seq<Task>, n: nat)
    requires s.WellFormed() && s.drift < OSTMR_COUNT && Accepted(tasks, n) && Quiet(s.locks)
    ensures Inv(TaskCreate(s, tasks, n).0)
  {
    OrderedFacts(tasks, n);
    var list := Ordered(tasks, n)[..n];
    AllocatedIsChoosing(s, list);
    PickFromChoosing(Allocated(s, list));
  }

  lemma LockedAcrossAllocation(s: State, list: seq<Task>)
    requires s.WellFormed() && |list| <= OS_MAX_TASKS - 2 && !NothingLocked(s.locks.mutexes)
    ensures !Inv(Pick(Allocated(s, list)))
  {
    var r := Allocated(s, list);
    assert Queued(r.slots, IDLE);
    LockedBelowZero(s.locks.mutexes, OS_NUM_MUTEX);
    assert Pick(r).locks.tcbs[Highest(r.slots)].holdsLock == 0;
  }

  /** A mutex that is locked across `task_create` stays locked, on the charge of no installed task. */
  lemma LockedAcrossCreateBreaks(s: State, tasks: seq<Task>, n: nat)
    requires s.WellFormed() && Accepted(tasks, n) && !NothingLocked(s.locks.mutexes)
    ensures !Inv(TaskCreate(s, tasks, n).0)
  {
    OrderedFacts(tasks, n);
    LockedAcrossAllocation(s, Ordered(tasks, n)[..n]);
  }

  // ---------------------------------------------------------------- every step

  /** When a step keeps the invariant, exactly: always, except for a repeated unlock by a task that
      holds another mutex, and for the installation of a task set while a mutex is locked. */
  ghost predicate Careful(s: State, e: Event)
    requires s.WellFormed()
  {
    match e
    case Create(tasks, n) => Accepted(tasks, n) ==> NothingLocked(s.locks.mutexes)
    case UnlockMutex(m) => HarmlessUnlock(s, m)
    case _ => true
  }

  lemma StepKeepsIff(s: State, e: Event)
    requires Inv(s) && CanHappen(s, e)
    ensures Inv(Step(s, e)) <==> Careful(s, e)
  {
    match e
    case Create(tasks, n) =>
      CreateSucceedsIff(s, tasks, n);
      if Accepted(tasks, n) {
        if NothingLocked(s.locks.mutexes) {
          UnlockedIsQuiet(s);
          CreateEstablishes(s, tasks, n);
        } else {
          LockedAcrossCreateBreaks(s, tasks, n);
        }
      }
    case MakeMutex =>
      var i := FirstAvailable(s.locks.mutexes, 0);
      if i < OS_NUM_MUTEX {
        LockedBelowChanges(s.locks.mutexes, i, s.locks.mutexes[i].(available := false), OS_NUM_MUTEX);
      }
    case LockMutex(m) => LockKeeps(s, m);
    case UnlockMutex(m) =>
      if UnlockPasses(s.locks, s.cur, m) {
        if HarmlessUnlock(s, m) { UnlockKeeps(s, m); } else { RepeatedUnlockBreaks(s, m); }
      }
    case WaitFor(dev) => if dev < NUM_DEVICES { WaitKeeps(s, dev); }
    case Interrupt(timerPending, oscr) => IrqKeeps(s, timerPending, oscr);
  }
}
