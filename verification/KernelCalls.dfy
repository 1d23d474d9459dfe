/** What each system call returns and changes, said without the functions that compute it. */
module KernelCalls {
  import opened Config
  import opened RunQueues
  import opened Mutexes
  import opened Schedule
  import opened KernelSpec
  import opened KernelInvariant
  import opened KernelRuns
  import opened KernelSignals

  // ---------------------------------------------------------------- event_wait

  /** `event_wait` hangs the caller behind the waiters of the device it names and leaves every other
      device alone. With a mutex in hand, or with a number above 60, it changes nothing. */
  lemma WaitResult(s: State, dev: nat)
    requires Inv(s) && CanHappen(s, WaitFor(dev))
    ensures EventWait(s, dev).1 ==
              if dev > 60 then Return(-22) else if !NothingLocked(s.locks.mutexes) then Return(-59) else Switched
    ensures EventWait(s, dev).1 != Switched ==> Step(s, WaitFor(dev)) == s
    ensures EventWait(s, dev).1 == Switched ==>
              forall d :: 0 <= d < NUM_DEVICES ==>
                var before, after := s.devices[d], Step(s, WaitFor(dev)).devices[d];
                after.nextMatch == before.nextMatch && after.queue == before.queue + if d == dev then [s.cur] else []
    ensures EventWait(s, dev).1 == Switched ==> Step(s, WaitFor(dev)).locks == s.locks
  {
    LockedBelowZero(s.locks.mutexes, OS_NUM_MUTEX);
    if dev < NUM_DEVICES && NothingLocked(s.locks.mutexes) { WaitKeeps(s, dev); }
  }

  /** From the call to the wake-up: a task that waits for a device sleeps on through everything before the
      first timer interrupt at which the clock shows the match time the device had at the call, or more,
      and that interrupt makes it ready or runs it. */
  lemma WakesWithItsDevice(s: State, dev: nat, events: seq<Event>, e: Event)
    requires Inv(s) && s.cur != IDLE && dev < NUM_DEVICES && NothingLocked(s.locks.mutexes)
    requires var s1 := Step(s, WaitFor(dev)); Legal(s1, events) && OneTaskSet(events) && Silent(s1, events, dev)
    requires var r := Run(Step(s, WaitFor(dev)), events); CanHappen(r, e) && Careful(r, e) && !Installs(e)
    ensures var r := Run(Step(s, WaitFor(dev)), events); var r', x := Step(r, e), s.devices[dev].nextMatch;
            && SleepsOn(r.devices, s.cur, dev)
            && if IsTick(e) && x <= r'.time then s.cur == r'.cur || Queued(r'.slots, s.cur)
               else SleepsOn(r'.devices, s.cur, dev)
  {
    WaitResult(s, dev);
    StepKeepsIff(s, WaitFor(dev));
    ExactWakeUp(Step(s, WaitFor(dev)), events, e, s.cur, dev);
  }

  // ---------------------------------------------------------------- mutex_create

  /** `mutex_create` fails exactly if no mutex is left; otherwise it returns the lowest one left, and
      that one alone changes. */
  lemma CreateResult(s: State)
    requires s.WellFormed()
    ensures var (s', r) := CreateCall(s); var before, after := s.locks.mutexes, s'.locks.mutexes;
            && s' == s.(locks := s.locks.(mutexes := after))
            && (r == -12 <==> forall i :: 0 <= i < OS_NUM_MUTEX ==> !before[i].available)
            && (r == -12 ==> s' == s)
            && (r != -12 ==>
                  && 0 <= r < OS_NUM_MUTEX && before[r].available && !after[r].available
                  && (forall i :: 0 <= i < r ==> !before[i].available)
                  && after[r].(available := true) == before[r]
                  && (forall i :: 0 <= i < OS_NUM_MUTEX && i != r ==> after[i] == before[i]))
  {
  }

  /** The mutex that comes back can be locked and then unlocked by its caller, exactly if it was not
      locked before it was created; then its caller holds it and can unlock it. */
  lemma CreatedMutexWorks(s: State)
    requires Inv(s) && s.cur != IDLE && CreateCall(s).1 >= 0
    ensures var (s1, m) := CreateCall(s); var (s2, outcome) := LockCall(s1, m);
            && m < OS_NUM_MUTEX && outcome == (if s.locks.mutexes[m].locked then Return(-58) else Return(0))
            && UnlockCall(s2, m).1 == 0
  {
    CreateResult(s);
    StepKeepsIff(s, MakeMutex);
    LockResult(CreateCall(s).0, CreateCall(s).1);
  }

  // ---------------------------------------------------------------- mutex_lock and mutex_unlock

  /** The outcome of a lock call under any scheduler. Only a call that gets the mutex or queues up for it
      changes anything. */
  lemma LockOutcome(l: LockState, t: TaskId, m: int)
    requires l.WellFormed()
    ensures MutexLock(l, t, m).1 ==
              if m < 0 || m >= 32 then Return(-22)
              else if !l.mutexes[m].locked then Return(0)
              else if l.mutexes[m].holder == t then Return(-58) else Switched
    ensures MutexLock(l, t, m).1 != Return(0) && MutexLock(l, t, m).1 != Switched ==> MutexLock(l, t, m).0 == l
  {
  }

  /** In a running system: 0 for a free mutex, -EDEADLOCK for a locked one. */
  lemma LockResult(s: State, m: int)
    requires Inv(s) && s.cur != IDLE
    ensures LockCall(s, m).1 ==
              if m < 0 || m >= 32 then Return(-22) else if s.locks.mutexes[m].locked then Return(-58) else Return(0)
    ensures LockCall(s, m).1 != Return(0) ==> LockCall(s, m).0 == s
    ensures LockCall(s, m).1 == Return(0) ==>
              && LockCall(s, m).0.cur == s.cur && LockCall(s, m).0.locks.mutexes[m].holder == s.cur
              && LockCall(s, m).0.locks.mutexes[m].locked
              && LockCall(s, m).0.locks.mutexes[m].available == s.locks.mutexes[m].available
  {
    LockOutcome(s.locks, s.cur, m);
  }

  /** The code of an unlock call under any scheduler: a mutex that was created and names the caller. */
  lemma UnlockResult(s: State, m: int)
    requires s.WellFormed()
    ensures UnlockCall(s, m).1 ==
              if m < 0 || m >= 32 then -22
              else if s.locks.mutexes[m].available || s.locks.mutexes[m].holder != s.cur then -1 else 0
    ensures UnlockCall(s, m).1 != 0 ==> UnlockCall(s, m).0 == s
  {
  }

  /** What an unlock with waiters hands to the dispatcher: the first of them at its own priority, ready,
      the mutex still locked, the others still in the queue. Without waiters the mutex is free. */
  lemma UnlockReadiesFirst(s: State, m: nat)
    requires s.WellFormed() && m < OS_NUM_MUTEX && UnlockPasses(s.locks, s.cur, m)
    requires s.cur !in s.locks.mutexes[m].queue && NULL !in s.locks.mutexes[m].queue
    ensures var s', mu := Released(s, m), s.locks.mutexes[m]; var mu' := s'.locks.mutexes[m];
            if mu.queue == [] then s'.slots == s.slots && !mu'.locked && mu'.queue == []
            else
              var first := mu.queue[0]; var p := s.locks.tcbs[first].nativePrio;
              && [first] + mu'.queue == mu.queue && mu'.locked == mu.locked
              && !s'.locks.tcbs[first].pending && s'.locks.tcbs[first].curPrio == p
              && (s.slots[p] == NULL ==> s'.slots == s.slots[p := first])
  {
    var q := s.locks.mutexes[m].queue;
    if q != [] { assert q[0] in q && [q[0]] + q[1..] == q; }
  }

  // ---------------------------------------------------------------- the dispatcher

  /** `dispatch_save` for a task that is not pending: it goes on if nobody is ready at a better priority
      than its current one, and otherwise the first of those runs and it takes its own slot. */
  lemma DispatchSaveResult(s: State)
    requires s.WellFormed() && s.cur != NULL && !s.locks.tcbs[s.cur].pending
    requires s.slots[s.locks.tcbs[s.cur].curPrio] == NULL
    ensures var s', p := DispatchSave(s), s.locks.tcbs[s.cur].curPrio;
            if forall i :: 0 <= i < p ==> s.slots[i] == NULL then s'.cur == s.cur && s'.slots == s.slots
            else exists b :: 0 <= b < p && s.slots[b] != NULL && (forall i :: 0 <= i < b ==> s.slots[i] == NULL)
                             && s'.cur == s.slots[b] && s'.slots == s.slots[p := s.cur][b := NULL]
  {
    var p := s.locks.tcbs[s.cur].curPrio;
    var q := s.slots[p := s.cur];
    assert Requeued(s).slots == q && q[p] != NULL;
    if forall i :: 0 <= i < p ==> s.slots[i] == NULL {
      assert Highest(q) == p && q[p := NULL] == s.slots;
    } else {
      var b := Highest(q);
      assert b < p && q[b] == s.slots[b];
    }
  }

  /** A pending task is not put back: `dispatch_save` only takes somebody out. */
  lemma PendingIsNotQueued(s: State)
    requires s.WellFormed() && s.locks.tcbs[s.cur].pending && !Empty(s.slots)
    ensures var s' := DispatchSave(s);
            s'.cur == s.slots[Highest(s.slots)] && s'.slots == s.slots[Highest(s.slots) := NULL]
  {
  }

  /** A task that slept in `mutex_lock` gets the mutex when it is switched to, and one that did not goes
      on where it was. */
  lemma SwitchFinishesLock(s: State, m: nat)
    requires s.WellFormed() && m < OS_NUM_MUTEX
    ensures var t := s.slots[Highest(s.slots)]; var s', tcb, tcb' := Pick(s), s.locks.tcbs[t], Pick(s).locks.tcbs[t];
            && s'.cur == t
            && (tcb.resume == User ==> s'.locks == s.locks)
            && (tcb.resume == InMutexLock(m) ==>
                  && s'.locks.mutexes == s.locks.mutexes[m := s.locks.mutexes[m].(holder := t)]
                  && tcb' == tcb.(resume := User, holdsLock := tcb.holdsLock + 1, curPrio := 0))
  {
  }

  /** A lock call that has to wait: the caller is the last in the queue and pending, and the best ready
      task runs. */
  lemma LockSleeps(s: State, m: nat)
    requires s.WellFormed() && m < OS_NUM_MUTEX && LockCall(s, m).1 == Switched && !Empty(s.slots)
    requires var t := s.slots[Highest(s.slots)]; t != s.cur && s.locks.tcbs[t].resume == User
    ensures var s', t := LockCall(s, m).0, s.slots[Highest(s.slots)];
            && s'.cur == t && s'.slots == s.slots[Highest(s.slots) := NULL]
            && s'.locks.tcbs[s.cur] == s.locks.tcbs[s.cur].(pending := true, resume := InMutexLock(m))
            && s'.locks.mutexes[m] == s.locks.mutexes[m].(queue := s.locks.mutexes[m].queue + [s.cur])
  {
  }

  // ---------------------------------------------------------------- task_create

  /** Entries that the checks let through, in plain numbers. */
  predicate GoodStack(x: Task) {
    0xa0000000 <= x.stackPos && x.stackPos < 0xa3000000
  }

  predicate GoodTimes(x: Task) {
    0 < x.T && x.C <= x.T
  }

  /** `task_create` accepts at most 62 tasks; each has its stack in user memory, a period, and a computation
      time that fits it. */
  lemma AcceptedTasks(tasks: seq<Task>, n: nat)
    requires Accepted(tasks, n)
    ensures n <= 62 && n <= |tasks| && forall k :: 0 <= k < n ==> GoodStack(tasks[k]) && GoodTimes(tasks[k])
  {
    forall k | 0 <= k < n ensures GoodStack(tasks[k]) && GoodTimes(tasks[k]) {
      assert ValidStack(tasks[k]) && Admissible(tasks[k]);
    }
  }

  /** Lists that the checks let through, in plain numbers. */
  ghost predicate Checked(tasks: seq<Task>, n: nat) {
    ReadableList(tasks, n) && n <= 62 && forall k :: 0 <= k < n ==> GoodStack(tasks[k]) && GoodTimes(tasks[k])
  }

  lemma CheckedIff(tasks: seq<Task>, n: nat)
    requires ReadableList(tasks, n)
    ensures CreateError(tasks, n) == 0 <==> Checked(tasks, n)
  {
    if n <= 62 {
      assert forall k :: 0 <= k < n ==> (GoodStack(tasks[k]) <==> ValidStack(tasks[k]));
      assert forall k :: 0 <= k < n ==> (GoodTimes(tasks[k]) <==> Admissible(tasks[k]));
    }
  }

  /** What the sort puts first is the caller's, or the neighbour that the sort looks at. */
  lemma OrderedTaskIsThere(tasks: seq<Task>, n: nat, k: nat)
    requires Checked(tasks, n) && k < n
    ensures |Ordered(tasks, n)| == |tasks|
    ensures Ordered(tasks, n)[k] in if n < 2 then tasks[..n] else tasks[..n + 1]
  {
    CheckedIff(tasks, n);
    OrderedFacts(tasks, n);
    if n >= 2 { SortedTaskIsThere(tasks[..n + 1], k); } else { assert tasks[k] == tasks[..n][k]; }
  }

  lemma OrderedTimes(tasks: seq<Task>, n: nat)
    requires Checked(tasks, n) && (n >= 2 ==> GoodTimes(tasks[n]))
    ensures |Ordered(tasks, n)| == |tasks|
    ensures forall k :: 0 <= k < n ==> GoodTimes(Ordered(tasks, n)[k])
  {
    CheckedIff(tasks, n);
    OrderedFacts(tasks, n);
    forall k: nat | k < n ensures GoodTimes(Ordered(tasks, n)[k]) { OrderedTaskIsThere(tasks, n, k); }
  }

  /** Which lists are accepted, exactly, if the neighbour of a list of two or more has times that fit, too:
      those that pass the checks and in which B of the last task leaves room for the tasks that need
      their whole period. The test asks for nothing else. */
  lemma AcceptedIff(tasks: seq<Task>, n: nat)
    requires ReadableList(tasks, n) && (2 <= n <= 62 ==> GoodTimes(tasks[n]))
    ensures Accepted(tasks, n) ==> Checked(tasks, n)
    ensures Checked(tasks, n) && n < 2 ==> Accepted(tasks, n)
    ensures Checked(tasks, n) ==>
              && |Ordered(tasks, n)| == |tasks|
              && (forall k :: 0 <= k < n ==> Ordered(tasks, n)[k].T > 0)
              && QuotientSum(Ordered(tasks, n), n) == FullPeriods(Ordered(tasks, n), n)
    ensures Checked(tasks, n) && n >= 2 ==>
              var list := Ordered(tasks, n);
              Accepted(tasks, n) <==> list[n - 1].B < (n + 1 - FullPeriods(list, n)) * list[n - 1].T
  {
    CheckedIff(tasks, n);
    if Checked(tasks, n) {
      OrderedTimes(tasks, n);
      assert forall k :: 0 <= k < n ==> GoodTimes(Ordered(tasks, n)[k]);
      TestCountsFullPeriods(Ordered(tasks, n), n);
      TestFailsIff(Ordered(tasks, n), n);
    }
  }

  /** The code of `task_create`: too many tasks, a stack outside user memory, times that do not fit or a
      failed test, in this order. */
  lemma TaskCreateResult(s: State, tasks: seq<Task>, n: nat)
    requires s.WellFormed() && ReadableList(tasks, n)
    ensures TaskCreate(s, tasks, n).1 ==
              if n > 62 then Return(-22)
              else if exists k :: 0 <= k < n && !GoodStack(tasks[k]) then Return(-14)
              else if (exists k :: 0 <= k < n && !GoodTimes(tasks[k])) || !Accepted(tasks, n) then Return(-100)
              else Switched
  {
    CreateSucceedsIff(s, tasks, n);
    CheckedIff(tasks, n);
    if n <= 62 { assert forall k :: 0 <= k < n ==> (GoodStack(tasks[k]) <==> ValidStack(tasks[k])); }
  }

  /** Installing a task set leaves every mutex and the clock as they are. */
  lemma CreateKeepsMutexes(s: State, tasks: seq<Task>, n: nat)
    requires s.WellFormed() && Accepted(tasks, n)
    ensures var s' := TaskCreate(s, tasks, n).0;
            s'.locks.mutexes == s.locks.mutexes && s'.time == s.time && s'.drift == s.drift
  {
    CreateSucceedsIff(s, tasks, n);
    var r := Allocated(s, Ordered(tasks, n)[..n]);
    assert r.slots[63] == IDLE && Installed(Highest(r.slots), n);
  }

  // ---------------------------------------------------------------- devices

  /** `dev_freq`, as its initialiser lists it, ten devices in a row. */
  const DEV_FREQ: seq<seq<nat>> := [
    [100, 200, 300, 400, 500, 600, 700, 800, 900, 1000],
    [1100, 1200, 1300, 1400, 1500, 1600, 1700, 1800, 1900, 2000],
    [2100, 2200, 2300, 2400, 2500, 2600, 2700, 2800, 2900, 3000],
    [3100, 3200, 3300, 3400, 3500, 3600, 3700, 3800, 3900, 4000],
    [4100, 4200, 4300, 4400, 4500, 4600, 4700, 4800, 4900, 5000],
    [5100, 5200, 5300, 5400, 5500, 5600, 5700, 5800, 5900, 9000]
  ]

  lemma FrequencyTable(row: nat, column: nat)
    requires row < 6 && column < 10
    ensures |DEV_FREQ| == 6 && |DEV_FREQ[row]| == 10 && Freq(10 * row + column) == DEV_FREQ[row][column]
  {
  }
}
