/** Where the kernel's checks fall short: runs from power-on that end in each of the two events which
    KernelInvariant excludes, and what they do to the system. */
module KernelFaults {
  import opened Config
  import opened RunQueues
  import opened Mutexes
  import opened Schedule
  import opened KernelSpec
  import opened KernelInvariant
  import opened KernelRuns
  import Protocol = KernelProtocol

  lemma RunFirst(s: State, e: Event, more: seq<Event>)
    requires s.WellFormed() && CanHappen(s, e) && Careful(s, e) && Legal(Step(s, e), more)
    ensures Legal(s, [e] + more) && Run(s, [e] + more) == Run(Step(s, e), more)
  {
    assert ([e] + more)[1..] == more;
  }

  /** Task 1 runs, tasks 2 to n and idle are ready, and everybody is in his own code. */
  ghost predicate FirstRuns(s: State, n: nat) {
    && s.WellFormed() && s.cur == 1
    && (forall p :: 0 <= p < OS_MAX_TASKS ==> s.slots[p] == if 2 <= p <= n || p == IDLE_PRIO then p else NULL)
    && (forall t: TaskId :: s.locks.tcbs[t].resume == User && !s.locks.tcbs[t].pending)
    && s.locks.tcbs[1].nativePrio == 1 && s.locks.tcbs[1].curPrio <= 1
  }

  lemma StaysOn(s: State, n: nat)
    requires FirstRuns(s, n)
    ensures DispatchSave(s) == s
  {
    var p := s.locks.tcbs[1].curPrio;
    assert Requeued(s).slots == s.slots[p := 1];
    assert Requeued(s).slots[p] == 1 && Highest(Requeued(s).slots) == p;
    assert s.slots[p := 1][p := NULL] == s.slots;
  }

  /** The first two mutexes of the table, and the lock count of task 1. */
  ghost predicate Locks(s: State, m0: Mutex, m1: Mutex, count: int)
    requires s.WellFormed()
  {
    s.locks.mutexes[0] == m0 && s.locks.mutexes[1] == m1 && s.locks.tcbs[1].holdsLock == count
  }

  const CREATED := Mutex(false, false, NULL, [])
  const HELD := Mutex(false, true, 1, [])
  const RELEASED := Mutex(false, false, 1, [])

  lemma PowerOn(list: seq<Task>)
    requires RateMonotonic(list) && list != []
    ensures var x := Execution(PoweredOn(), list, []);
            x.Boots() && FirstRuns(x.Start(), |list|) && Locks(x.Start(), FREE_MUTEX, FREE_MUTEX, 0)
  {
    PoweredOnIsQuiet();
    var slots := Allocated(PoweredOn(), list).slots;
    assert slots[0] == NULL && slots[1] == 1;
    assert Highest(slots) == 1;
  }

  lemma MakesFirst(s: State, n: nat)
    requires FirstRuns(s, n) && Locks(s, FREE_MUTEX, FREE_MUTEX, 0)
    ensures var s' := Step(s, MakeMutex); FirstRuns(s', n) && Locks(s', CREATED, FREE_MUTEX, 0)
  {
    assert FirstAvailable(s.locks.mutexes, 0) == 0;
  }

  lemma MakesSecond(s: State, n: nat)
    requires FirstRuns(s, n) && Locks(s, CREATED, FREE_MUTEX, 0)
    ensures var s' := Step(s, MakeMutex); FirstRuns(s', n) && Locks(s', CREATED, CREATED, 0)
  {
    assert FirstAvailable(s.locks.mutexes, 0) == 1;
  }

  lemma Locked(s: State, n: nat, m0: Mutex, m1: Mutex, m: nat)
    requires FirstRuns(s, n) && Locks(s, m0, m1, 0) && m < 2 && !s.locks.mutexes[m].locked
    ensures var s' := Step(s, LockMutex(m)); FirstRuns(s', n) && s'.locks.tcbs[1].curPrio == 0
    ensures var s' := Step(s, LockMutex(m));
            Locks(s', if m == 0 then m0.(locked := true, holder := 1) else m0,
                  if m == 1 then m1.(locked := true, holder := 1) else m1, 1)
  {
  }

  /** An unlock of mutex 0 by its holder of record, whether it is locked or not, while nobody waits. */
  lemma Unlocked(s: State, n: nat, m0: Mutex, m1: Mutex)
    requires FirstRuns(s, n) && Locks(s, m0, m1, 1) && m0.holder == 1 && !m0.available && m0.queue == []
    ensures var s' := Step(s, UnlockMutex(0)); FirstRuns(s', n) && s'.locks.tcbs[1].curPrio == 1
    ensures Locks(Step(s, UnlockMutex(0)), m0.(locked := false), m1, 0)
  {
    assert FirstRuns(Released(s, 0), n);
    StaysOn(Released(s, 0), n);
  }

  /** Task 1 locks and unlocks mutex 0 and then locks mutex 1: mutex 0, now free, still names it. */
  const WITH_STALE_HOLDER := [MakeMutex, MakeMutex, LockMutex(0), UnlockMutex(0), LockMutex(1)]

  lemma OneByOne()
    ensures WITH_STALE_HOLDER
         == [MakeMutex] + ([MakeMutex] + ([LockMutex(0)] + ([UnlockMutex(0)] + ([LockMutex(1)] + []))))
  {
  }

  lemma LockAndRelease(s: State, n: nat)
    requires FirstRuns(s, n) && Locks(s, CREATED, CREATED, 0)
    ensures var events := [LockMutex(0)] + ([UnlockMutex(0)] + ([LockMutex(1)] + []));
            Legal(s, events) && FirstRuns(Run(s, events), n) && Locks(Run(s, events), RELEASED, HELD, 1)
  {
    Locked(s, n, CREATED, CREATED, 0);
    var s1 := Step(s, LockMutex(0));
    Unlocked(s1, n, HELD, CREATED);
    var s2 := Step(s1, UnlockMutex(0));
    Locked(s2, n, RELEASED, CREATED, 1);
    RunFirst(s2, LockMutex(1), []);
    RunFirst(s1, UnlockMutex(0), [LockMutex(1)] + []);
    RunFirst(s, LockMutex(0), [UnlockMutex(0)] + ([LockMutex(1)] + []));
  }

  lemma StaleHolderIsReachable(list: seq<Task>)
    requires RateMonotonic(list) && list != []
    ensures var x := Execution(PoweredOn(), list, WITH_STALE_HOLDER);
            x.Valid() && FirstRuns(x.State(), |list|) && Locks(x.State(), RELEASED, HELD, 1)
  {
    var more := [LockMutex(0)] + ([UnlockMutex(0)] + ([LockMutex(1)] + []));
    PowerOn(list);
    var s := Execution(PoweredOn(), list, []).Start();
    MakesFirst(s, |list|);
    var s1 := Step(s, MakeMutex);
    MakesSecond(s1, |list|);
    LockAndRelease(Step(s1, MakeMutex), |list|);
    RunFirst(s1, MakeMutex, more);
    RunFirst(s, MakeMutex, [MakeMutex] + more);
    OneByOne();
  }

  /** A repeated unlock can happen: from there a second unlock of mutex 0 passes the checks of the
      kernel, and task 1 keeps mutex 1 without a count and without the ceiling. */
  lemma RepeatedUnlockIsReachable(list: seq<Task>)
    requires RateMonotonic(list) && list != []
    ensures var x := Execution(PoweredOn(), list, WITH_STALE_HOLDER);
            x.Valid() && CanHappen(x.State(), UnlockMutex(0)) && !Careful(x.State(), UnlockMutex(0))
    ensures var r := Step(Execution(PoweredOn(), list, WITH_STALE_HOLDER).State(), UnlockMutex(0));
            !Inv(r) && FirstRuns(r, |list|) && Locks(r, RELEASED, HELD, 0) && r.locks.tcbs[1].curPrio == 1
  {
    var x := Execution(PoweredOn(), list, WITH_STALE_HOLDER);
    StaleHolderIsReachable(list);
    ReachableInv(x);
    StepKeepsIff(x.State(), UnlockMutex(0));
    Unlocked(x.State(), |list|, RELEASED, HELD);
  }

  /** And so mutexes get contended: task 1 may now wait for a device with mutex 1 in hand, and the
      next task that asks for mutex 1 is put to sleep. */
  lemma ContentionFollows(s: State, n: nat)
    requires FirstRuns(s, n) && n >= 2 && Locks(s, RELEASED, HELD, 0)
    ensures var r := Step(s, WaitFor(0));
            SleepsOn(r.devices, 1, 0) && r.locks.mutexes[1] == HELD && r.cur == 2 && LockCall(r, 1).1 == Switched
  {
    assert s.slots[2] == 2 && Highest(s.slots) == 2;
  }

  const WITH_LOCK := [MakeMutex, LockMutex(0)]

  /** The installation of a task set with a mutex locked can happen, with every list that is accepted:
      the mutex stays locked in the name of task 1, whatever program that is now, and no installed task
      is charged for it. */
  lemma LockedAcrossCreateIsReachable(list: seq<Task>, tasks: seq<Task>, n: nat)
    requires RateMonotonic(list) && list != [] && Accepted(tasks, n)
    ensures var x := Execution(PoweredOn(), list, WITH_LOCK);
            && x.Valid() && CanHappen(x.State(), Create(tasks, n)) && !Careful(x.State(), Create(tasks, n))
            && var r := Step(x.State(), Create(tasks, n));
               !Inv(r) && Uncharged(r, n)
  {
    PowerOn(list);
    var x := Execution(PoweredOn(), list, WITH_LOCK);
    var s := x.Start();
    MakesFirst(s, |list|);
    Locked(Step(s, MakeMutex), |list|, CREATED, FREE_MUTEX, 0);
    RunFirst(Step(s, MakeMutex), LockMutex(0), []);
    RunFirst(s, MakeMutex, [LockMutex(0)] + []);
    assert WITH_LOCK == [MakeMutex] + ([LockMutex(0)] + []);
    CreateForgets(x.State(), tasks, n);
  }

  /** Mutex 0 is locked, and none of the n installed tasks and idle counts a mutex. */
  ghost predicate Uncharged(s: State, n: nat)
    requires s.WellFormed()
  {
    s.locks.mutexes[0] == HELD && forall t: TaskId :: Installed(t, n) ==> s.locks.tcbs[t].holdsLock == 0
  }

  lemma CreateForgets(s: State, tasks: seq<Task>, n: nat)
    requires s.WellFormed() && s.locks.mutexes[0] == HELD && Accepted(tasks, n)
    ensures var r := TaskCreate(s, tasks, n).0; !Inv(r) && Uncharged(r, n)
  {
    OrderedFacts(tasks, n);
    LockedAcrossCreateBreaks(s, tasks, n);
    var r := Allocated(s, Ordered(tasks, n)[..n]);
    assert r.slots[63] == IDLE;
    assert Installed(Highest(r.slots), n);
  }

  /** It does happen: the empty list is accepted, idle runs, and mutex 0 stays locked. */
  lemma LockedWithNobodyLeft(list: seq<Task>)
    requires RateMonotonic(list) && list != []
    ensures var x := Execution(PoweredOn(), list, WITH_LOCK);
            && x.Valid() && CanHappen(x.State(), Create([], 0))
            && var r := Step(x.State(), Create([], 0));
               !Inv(r) && Uncharged(r, 0)
  {
    EmptyListIsAccepted();
    LockedAcrossCreateIsReachable(list, [], 0);
  }

  // ---------------------------------------------------------------- mutexes nobody created

  /** `mutex_lock` does not ask whether a mutex was handed out, `mutex_unlock` does: a task that has just
      locked a mutex can unlock it if and only if it was. Otherwise the call changes nothing. */
  lemma JustLocked(s: State, m: int)
    requires Inv(s) && s.cur != IDLE && IsMutex(m) && !s.locks.mutexes[m].locked
    ensures LockCall(s, m).1 == Return(0)
    ensures var s' := LockCall(s, m).0;
            && (UnlockCall(s', m).1 == 0 <==> !s.locks.mutexes[m].available)
            && (s.locks.mutexes[m].available ==> UnlockCall(s', m) == (s', -EPERM))
  {
  }

  /** And then it keeps the processor, whatever it calls and however often the timer interrupts, until a
      `mutex_create` hands the mutex out: the mutex can be neither released nor taken to sleep. */
  lemma {:induction false} HeldForGood(s: State, events: seq<Event>, m: nat)
    requires Inv(s) && Legal(s, events) && MakeMutex !in events && m < OS_NUM_MUTEX
    requires s.locks.mutexes[m].locked && s.locks.mutexes[m].available
    ensures Run(s, events).cur == s.cur && Run(s, events).locks.mutexes[m] == s.locks.mutexes[m]
    decreases |events|
  {
    if events != [] {
      HeldStep(s, events[0], m);
      StepKeepsIff(s, events[0]);
      HeldForGood(Step(s, events[0]), events[1..], m);
    }
  }

  lemma HeldStep(s: State, e: Event, m: nat)
    requires Inv(s) && CanHappen(s, e) && Careful(s, e) && !e.MakeMutex? && m < OS_NUM_MUTEX
    requires s.locks.mutexes[m].locked && s.locks.mutexes[m].available
    ensures Step(s, e).cur == s.cur && Step(s, e).locks.mutexes[m] == s.locks.mutexes[m]
  {
    assert !NothingLocked(s.locks.mutexes);
    match e
    case LockMutex(i) => LockKeeps(s, i);
    case UnlockMutex(i) =>
      if UnlockPasses(s.locks, s.cur, i) {
        ReleasedIsUndispatched(s, i);
        assert Released(s, i).locks.mutexes[m].locked;
        Protocol.DispatchKeepsLocks(Released(s, i));
      }
    case _ => Protocol.QuietStep(s, e);
  }
}
