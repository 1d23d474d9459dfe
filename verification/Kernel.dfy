/** The kernel's data structures and routines as they are in the source: arrays of records, wait
    queues threaded through one link field of the task control blocks, and the byte maps of the
    run queue. Each routine is proved to do to this representation what the functions of
    KernelSpec do to the abstract state. */
module Kernel {
  import opened Config
  import opened Machine
  import opened Clocks
  import opened RunQueues
  import opened Mutexes
  import opened Schedule
  import opened KernelSpec
  import Invariant = KernelInvariant
  import Runs = KernelRuns

  /** `struct dev` and `struct mutex` with the head pointers of their queues. */
  datatype DeviceRecord = DeviceRecord(sleepQ: TaskId, nextMatch: Word)
  datatype MutexRecord = MutexRecord(available: bool, locked: bool, holder: TaskId, sleepQ: TaskId)

  // ---------------------------------------------------------------- linked queues

  /** From `head` the links run through exactly the tasks of q and end at NULL. */
  ghost predicate Chain(link: seq<TaskId>, head: TaskId, q: seq<TaskId>)
    requires |link| == OS_MAX_TASKS
    decreases |q|
  {
    if q == [] then head == NULL else head == q[0] && head != NULL && Chain(link, link[head], q[1..])
  }

  /** A chain only depends on the links of its own tasks. */
  lemma {:induction false} ChainFrame(link: seq<TaskId>, link': seq<TaskId>, head: TaskId, q: seq<TaskId>)
    requires |link| == OS_MAX_TASKS == |link'| && Chain(link, head, q)
    requires forall t: TaskId :: t in q ==> link'[t] == link[t]
    ensures Chain(link', head, q)
    decreases |q|
  {
    if q != [] {
      assert forall t: TaskId :: t in q[1..] ==> t in q;
      ChainFrame(link, link', link[head], q[1..]);
    }
  }

  /** Hanging t behind the last task, with a null link of its own, appends t. */
  lemma {:induction false} ChainAppend(link: seq<TaskId>, link': seq<TaskId>, head: TaskId, q: seq<TaskId>, t: TaskId)
    requires |link| == OS_MAX_TASKS == |link'| && Chain(link, head, q) && q != [] && t != NULL && t !in q
    requires forall i, j :: 0 <= i < j < |q| ==> q[i] != q[j]
    requires link' == link[q[|q| - 1] := t][t := NULL]
    ensures Chain(link', head, q + [t])
    decreases |q|
  {
    assert (q + [t])[1..] == q[1..] + [t];
    if |q| == 1 {
      assert Chain(link', t, [t]);
    } else {
      assert q[1..][|q| - 2] == q[|q| - 1];
      ChainAppend(link, link', link[head], q[1..], t);
    }
  }

  lemma {:induction false} ChainAt(link: seq<TaskId>, head: TaskId, q: seq<TaskId>, i: nat)
    requires |link| == OS_MAX_TASKS && Chain(link, head, q) && i < |q|
    ensures q[i] != NULL && Chain(link, q[i], q[i..]) && (link[q[i]] == NULL <==> i == |q| - 1)
    ensures i < |q| - 1 ==> link[q[i]] == q[i + 1]
    decreases |q|
  {
    if i > 0 {
      ChainAt(link, link[head], q[1..], i - 1);
      assert q[1..][i - 1..] == q[i..];
    } else {
      assert q[0..] == q;
      if |q| > 1 { assert q[1..] != []; }
    }
  }

  /** Queues over one link field: no null entry, no repetition, pairwise disjoint. */
  ghost predicate Separate(qs: seq<seq<TaskId>>) {
    && (forall d :: 0 <= d < |qs| ==> NULL !in qs[d])
    && (forall d, i, j :: 0 <= d < |qs| && 0 <= i < j < |qs[d]| ==> qs[d][i] != qs[d][j])
    && (forall d, e, t: TaskId :: 0 <= d < |qs| && 0 <= e < |qs| && t in qs[d] && t in qs[e] ==> d == e)
  }

  ghost predicate InNone(qs: seq<seq<TaskId>>, t: TaskId) {
    forall d :: 0 <= d < |qs| ==> t !in qs[d]
  }

  /** All queues that share one link field, with their head pointers. */
  ghost predicate Threaded(link: seq<TaskId>, heads: seq<TaskId>, qs: seq<seq<TaskId>>) {
    |link| == OS_MAX_TASKS && |heads| == |qs| && forall d :: 0 <= d < |qs| ==> Chain(link, heads[d], qs[d])
  }

  /** A task that is in no queue goes to the end of an empty one. */
  lemma AppendToEmpty(link: seq<TaskId>, heads: seq<TaskId>, qs: seq<seq<TaskId>>, m: nat, t: TaskId)
    requires Threaded(link, heads, qs) && InNone(qs, t) && t != NULL && m < |qs| && qs[m] == []
    ensures Threaded(link[t := NULL], heads[m := t], qs[m := qs[m] + [t]])
  {
    var link': seq<TaskId> := link[t := NULL];
    forall d | 0 <= d < |qs| && d != m ensures Chain(link', heads[d], qs[d]) {
      ChainFrame(link, link', heads[d], qs[d]);
    }
    assert qs[m] + [t] == [t] && Chain(link', t, [t]);
  }

  /** A task that is in no queue goes to the end of another one: two links change, no other queue
      notices, whatever stale links the task brought along. */
  lemma AppendToLast(link: seq<TaskId>, heads: seq<TaskId>, qs: seq<seq<TaskId>>, m: nat, t: TaskId)
    requires Threaded(link, heads, qs) && Separate(qs) && InNone(qs, t) && t != NULL && m < |qs| && qs[m] != []
    ensures Threaded(link[qs[m][|qs[m]| - 1] := t][t := NULL], heads, qs[m := qs[m] + [t]])
  {
    var last := qs[m][|qs[m]| - 1];
    var link': seq<TaskId> := link[last := t];
    link' := link'[t := NULL];
    assert last in qs[m];
    forall d | 0 <= d < |qs| && d != m ensures Chain(link', heads[d], qs[d]) {
      ChainFrame(link, link', heads[d], qs[d]);
    }
    ChainAppend(link, link', heads[m], qs[m], t);
  }

  /** The first task leaves its queue, its own link cleared. */
  lemma DropFirst(link: seq<TaskId>, heads: seq<TaskId>, qs: seq<seq<TaskId>>, m: nat)
    requires Threaded(link, heads, qs) && Separate(qs) && m < |qs| && qs[m] != []
    ensures heads[m] == qs[m][0] && Threaded(link[heads[m] := NULL], heads[m := link[heads[m]]], qs[m := qs[m][1..]])
  {
    var first := heads[m];
    var link': seq<TaskId> := link[first := NULL];
    assert first in qs[m];
    forall d | 0 <= d < |qs| && d != m ensures Chain(link', heads[d], qs[d]) {
      ChainFrame(link, link', heads[d], qs[d]);
    }
    ChainFrame(link, link', link[first], qs[m][1..]);
  }

  // ---------------------------------------------------------------- what the routines rely on

  ghost function DeviceQueues(ds: seq<Device>): (qs: seq<seq<TaskId>>)
    ensures |qs| == |ds| && forall d :: 0 <= d < |ds| ==> qs[d] == ds[d].queue
  {
    seq(|ds|, d requires 0 <= d < |ds| => ds[d].queue)
  }

  ghost function MutexQueues(ms: seq<Mutex>): (qs: seq<seq<TaskId>>)
    ensures |qs| == |ms| && forall m :: 0 <= m < |ms| ==> qs[m] == ms[m].queue
  {
    seq(|ms|, m requires 0 <= m < |ms| => ms[m].queue)
  }

  ghost function DeviceHeads(rs: seq<DeviceRecord>): (heads: seq<TaskId>)
    ensures |heads| == |rs| && forall d :: 0 <= d < |rs| ==> heads[d] == rs[d].sleepQ
  {
    seq(|rs|, d requires 0 <= d < |rs| => rs[d].sleepQ)
  }

  ghost function MutexHeads(rs: seq<MutexRecord>): (heads: seq<TaskId>)
    ensures |heads| == |rs| && forall m :: 0 <= m < |rs| ==> heads[m] == rs[m].sleepQ
  {
    seq(|rs|, m requires 0 <= m < |rs| => rs[m].sleepQ)
  }

  /** A task runs, it waits for nothing, there is somebody else to run, and the queues are sound. */
  ghost predicate Sound(s: State) {
    && s.WellFormed() && s.cur != NULL && !Empty(s.slots)
    && Separate(DeviceQueues(s.devices)) && InNone(DeviceQueues(s.devices), s.cur)
    && Separate(MutexQueues(s.locks.mutexes)) && InNone(MutexQueues(s.locks.mutexes), s.cur)
  }

  /** The dispatcher, once the running task is put back, finds somebody. */
  ghost predicate CanDispatch(s: State) {
    s.WellFormed() && s.cur != NULL && (s.locks.tcbs[s.cur].pending ==> !Empty(s.slots))
  }

  ghost predicate SomebodySleeps(s: State)
    requires s.WellFormed()
  {
    exists d :: 0 <= d < NUM_DEVICES && s.devices[d].queue != []
  }

  /** Every state of a running system can take every event: the dispatcher finds somebody, and if a
      task makes a call the state is sound. */
  lemma InvariantIsSound(s: State)
    requires Invariant.Inv(s)
    ensures CanDispatch(s) && (s.cur != IDLE ==> Sound(s))
  {
    var ds := s.devices;
    assert forall d, t: TaskId :: 0 <= d < |ds| ==> (t in DeviceQueues(ds)[d] <==> Invariant.SleepsOn(ds, t, d));
    assert Invariant.OnePlace(s.slots, s.cur, ds, s.cur) && Invariant.OnePlace(s.slots, s.cur, ds, IDLE);
    assert forall d :: 0 <= d < |ds| ==> !Invariant.SleepsOn(ds, s.cur, d) && !Invariant.SleepsOn(ds, NULL, d);
    assert s.cur != IDLE ==> s.slots[63] == IDLE;
  }

  lemma RequeuedIsOccupied(s: State)
    requires CanDispatch(s)
    ensures !Empty(Requeued(s).slots)
  {
    if !s.locks.tcbs[s.cur].pending {
      assert Requeued(s).slots[s.locks.tcbs[s.cur].curPrio] != NULL;
    }
  }

  ghost predicate OnlyAdds(slots: seq<TaskId>, slots': seq<TaskId>) {
    |slots| == |slots'| && forall p :: 0 <= p < |slots| && slots[p] != NULL ==> slots'[p] != NULL
  }

  lemma StillDispatchable(s: State, s': State)
    requires CanDispatch(s) && s'.WellFormed() && s'.cur == s.cur && OnlyAdds(s.slots, s'.slots)
    requires s'.locks.tcbs[s.cur].pending == s.locks.tcbs[s.cur].pending
    ensures CanDispatch(s')
  {
  }

  lemma {:induction false} WakeOnlyAdds(slots: seq<TaskId>, tcbs: seq<Tcb>, q: seq<TaskId>)
    requires |slots| == OS_MAX_TASKS == |tcbs|
    ensures OnlyAdds(slots, Wake(slots, tcbs, q))
    decreases |q|
  {
    if q != [] { WakeOnlyAdds(Enqueue(slots, q[0], tcbs[q[0]].nativePrio), tcbs, q[1..]); }
  }

  lemma {:induction false} ScanOnlyAdds(s: State, ms: Word, k: nat)
    requires s.WellFormed() && k <= NUM_DEVICES
    ensures OnlyAdds(s.slots, Scan(s, ms, k).slots)
  {
    if k > 0 {
      ScanOnlyAdds(s, ms, k - 1);
      WakeOnlyAdds(Scan(s, ms, k - 1).slots, s.locks.tcbs, s.devices[k - 1].queue);
    }
  }

  /** Control blocks and run queue after k rounds of the loop in `allocate_tasks`. */
  ghost function SetUpUntil(tcbs: seq<Tcb>, list: seq<Task>, k: nat): (r: seq<Tcb>)
    requires |tcbs| == OS_MAX_TASKS && k <= |list| <= OS_MAX_TASKS - 2
    ensures |r| == OS_MAX_TASKS
  {
    if k == 0 then tcbs else SetUpUntil(tcbs, list, k - 1)[k := NewTcb(k, ProgramOf(list, k))]
  }

  ghost function ReadyUntil(k: nat): (r: seq<TaskId>)
    requires k <= OS_MAX_TASKS - 2
    ensures |r| == OS_MAX_TASKS && forall p :: 0 <= p < OS_MAX_TASKS ==> r[p] == if 1 <= p <= k then p else NULL
  {
    if k == 0 then seq(OS_MAX_TASKS, _ => NULL) else ReadyUntil(k - 1)[k := k]
  }

  lemma {:induction false} SetUpUntilAt(tcbs: seq<Tcb>, list: seq<Task>, k: nat)
    requires |tcbs| == OS_MAX_TASKS && k <= |list| <= OS_MAX_TASKS - 2
    ensures forall t :: 0 <= t < OS_MAX_TASKS ==>
              SetUpUntil(tcbs, list, k)[t] == if 1 <= t <= k then NewTcb(t, ProgramOf(list, t)) else tcbs[t]
  {
    if k > 0 { SetUpUntilAt(tcbs, list, k - 1); }
  }

  lemma AllocatedAt(s: State, list: seq<Task>)
    requires s.WellFormed() && |list| <= OS_MAX_TASKS - 2
    ensures var r := Allocated(s, list);
            && r.locks.tcbs == SetUpUntil(s.locks.tcbs, list, |list|)[IDLE := NewTcb(63, IdleLoop)]
            && r.slots == ReadyUntil(|list|)[IDLE := IDLE] && !Empty(r.slots)
  {
    SetUpUntilAt(s.locks.tcbs, list, |list|);
    assert Allocated(s, list).slots[63] == IDLE;
  }

  // ---------------------------------------------------------------- task lists (proc.c)

  /** The two loops of checks at the head of `task_create`. */
  method CheckTasks(tasks: array<Task>, n: nat) returns (code: int)
    requires ReadableList(tasks[..], n)
    ensures code == CreateError(tasks[..], n)
  {
    if n > OS_MAX_TASKS - 2 {
      return -EINVAL;
    }
    for i := 0 to n
      invariant forall k :: 0 <= k < i ==> ValidStack(tasks[..][k])
    {
      if !ValidStack(tasks[i]) {
        assert !ValidStack(tasks[..][i]);
        return -EFAULT;
      }
    }
    for i := 0 to n
      invariant forall k :: 0 <= k < i ==> Admissible(tasks[..][k])
    {
      if tasks[i].T < tasks[i].C || tasks[i].T == 0 {
        assert !Admissible(tasks[..][i]);
        return -ESCHED;
      }
    }
    return 0;
  }

  /** `assign_schedule` on a list that has passed the checks. */
  method OrderTasks(tasks: array<Task>, n: nat) returns (ok: bool)
    requires ReadableList(tasks[..], n) && CreateError(tasks[..], n) == 0
    modifies tasks
    ensures |Ordered(old(tasks[..]), n)| == |tasks[..]| && tasks[..] == Ordered(old(tasks[..]), n)
    ensures (forall k :: 0 <= k < n ==> tasks[..][k].T > 0) && ok == PassesTest(tasks[..], n)
  {
    ghost var list := tasks[..];
    OrderedFacts(list, n);
    assert forall k :: 0 <= k < n ==> Admissible(list[k]) && tasks[k] == list[k];
    ok := AssignSchedule(tasks, n);
    if n >= 2 {
      assert tasks[..] == tasks[..n + 1] + tasks[n + 1..];
      assert list[..n + 1] == old(tasks[..n + 1]) && list[n + 1..] == old(tasks[n + 1..]);
    }
  }

  // ---------------------------------------------------------------- the kernel

  class Kernel {
    const tcbs: array<Tcb>
    const sleepLink: array<TaskId>
    const mutexLink: array<TaskId>
    const runQueue: RunQueue
    const devices: array<DeviceRecord>
    const mutexes: array<MutexRecord>
    var cur: TaskId
    var systemTime: Word
    var timeDrift: Word

    /** The devices and mutexes with their queues written out, and the installed task list. */
    ghost var ds: seq<Device>
    ghost var ms: seq<Mutex>
    ghost var installed: seq<Task>

    ghost predicate DevicesOk()
      reads this, devices, sleepLink
    {
      && devices.Length == |ds| == NUM_DEVICES
      && Threaded(sleepLink[..], DeviceHeads(devices[..]), DeviceQueues(ds))
      && forall d :: 0 <= d < NUM_DEVICES ==> devices[d].nextMatch == ds[d].nextMatch
    }

    ghost predicate MutexesOk()
      reads this, mutexes, mutexLink
    {
      && mutexes.Length == |ms| == OS_NUM_MUTEX
      && Threaded(mutexLink[..], MutexHeads(mutexes[..]), MutexQueues(ms))
      && forall m :: 0 <= m < OS_NUM_MUTEX ==>
           mutexes[m] == MutexRecord(ms[m].available, ms[m].locked, ms[m].holder, mutexes[m].sleepQ)
    }

    ghost predicate Valid()
      reads this, tcbs, sleepLink, mutexLink, runQueue, runQueue.list, runQueue.bits, devices, mutexes
    {
      && tcbs.Length == sleepLink.Length == mutexLink.Length == OS_MAX_TASKS
      && sleepLink != mutexLink && runQueue.list != sleepLink && runQueue.list != mutexLink
      && runQueue.Valid() && DevicesOk() && MutexesOk()
    }

    /** The arrays the kernel works on; a caller's task list is none of them. */
    ghost function Memory(): set<object>
      reads this
    {
      {tcbs, sleepLink, mutexLink, runQueue.list, runQueue.bits, devices, mutexes}
    }

    ghost function Abs(): (s: State)
      reads this, tcbs, runQueue, runQueue.list, runQueue.bits, sleepLink, mutexLink, devices, mutexes
      requires Valid()
      ensures s.WellFormed()
    {
      State(LockState(tcbs[..], ms), runQueue.list[..], cur, ds, systemTime, timeDrift, installed)
    }

    /** Zero-initialised memory. */
    constructor ()
      ensures Valid() && fresh(tcbs) && fresh(sleepLink) && fresh(mutexLink) && fresh(devices) && fresh(mutexes)
      ensures fresh(runQueue) && fresh(runQueue.list) && fresh(runQueue.bits)
      ensures Abs() == ZeroMemory()
    {
      tcbs := new Tcb[OS_MAX_TASKS](_ => Tcb(0, 0, 0, false, User, NoProgram));
      sleepLink := new TaskId[OS_MAX_TASKS](_ => NULL);
      mutexLink := new TaskId[OS_MAX_TASKS](_ => NULL);
      runQueue := new RunQueue();
      devices := new DeviceRecord[NUM_DEVICES](_ => DeviceRecord(NULL, 0));
      mutexes := new MutexRecord[OS_NUM_MUTEX](_ => MutexRecord(false, false, NULL, NULL));
      cur, systemTime, timeDrift := NULL, 0, 0;
      ds := seq(NUM_DEVICES, _ => Device([], 0));
      ms := seq(OS_NUM_MUTEX, _ => Mutex(false, false, NULL, []));
      installed := [];
      new;
      assert tcbs[..] == seq(OS_MAX_TASKS, _ => Tcb(0, 0, 0, false, User, NoProgram));
    }

    // ------------------------------------------------------------ ctx_switch.c

    /** What the chosen task does first: return to its own code, or finish its `mutex_lock`. */
    method Continue()
      requires Valid()
      modifies this`ms, tcbs, mutexes
      ensures Valid() && Abs() == old(Abs()).(locks := Mutexes.Continue(old(Abs()).locks, cur))
    {
      match tcbs[cur].resume {
        case User =>
        case InMutexLock(m) =>
          if m < OS_NUM_MUTEX {
            tcbs[cur] := tcbs[cur].(resume := User);
            EnterMutex(m);
          }
      }
    }

    /** The last assignments of `mutex_lock`. */
    method EnterMutex(m: nat)
      requires Valid() && IsMutex(m)
      modifies this`ms, tcbs, mutexes
      ensures Valid() && Abs() == old(Abs()).(locks := Enter(old(Abs()).locks, cur, m))
    {
      tcbs[cur] := tcbs[cur].(holdsLock := tcbs[cur].holdsLock + 1);
      tcbs[cur] := tcbs[cur].(curPrio := 0);
      mutexes[m] := mutexes[m].(holder := cur);
      ms := ms[m := ms[m].(holder := cur)];
      assert tcbs[..] == Enter(old(Abs()).locks, cur, m).tcbs;
    }

    /** `dispatch_nosave` and `dispatch_sleep`. */
    method Dispatch()
      requires Valid() && !Empty(runQueue.list[..])
      modifies this`cur, this`ms, tcbs, mutexes, runQueue, runQueue.list, runQueue.bits
      ensures Valid() && Abs() == Pick(old(Abs()))
    {
      var prio := runQueue.HighestPrio();
      cur := runQueue.Remove(prio);
      Continue();
    }

    method DispatchSave()
      requires Valid() && CanDispatch(Abs())
      modifies this`cur, this`ms, tcbs, mutexes, runQueue, runQueue.list, runQueue.bits
      ensures Valid() && Abs() == KernelSpec.DispatchSave(old(Abs()))
    {
      if !tcbs[cur].pending {
        runQueue.Add(cur, tcbs[cur].curPrio);
      }
      assert Abs() == Requeued(old(Abs()));
      RequeuedIsOccupied(old(Abs()));
      Dispatch();
    }

    // ------------------------------------------------------------ mutex.c

    method MutexInit()
      requires Valid()
      modifies this`ms, mutexes
      ensures Valid() && Abs() == old(Abs()).(locks := old(Abs()).locks.(mutexes := seq(OS_NUM_MUTEX, _ => FREE_MUTEX)))
    {
      for index := 0 to OS_NUM_MUTEX
        invariant forall i :: 0 <= i < index ==> mutexes[i] == MutexRecord(true, false, NULL, NULL)
      {
        mutexes[index] := MutexRecord(true, false, NULL, NULL);
      }
      ms := seq(OS_NUM_MUTEX, _ => FREE_MUTEX);
    }

    method MutexCreate() returns (code: int)
      requires Valid()
      modifies this`ms, mutexes
      ensures Valid() && (Abs(), code) == CreateCall(old(Abs()))
    {
      var index := 0;
      while index < OS_NUM_MUTEX && !mutexes[index].available
        invariant 0 <= index <= OS_NUM_MUTEX
        invariant FirstAvailable(ms, 0) == FirstAvailable(ms, index)
      {
        index := index + 1;
      }
      if index == OS_NUM_MUTEX {
        code := -ENOMEM;
      } else {
        mutexes[index] := mutexes[index].(available := false);
        ms := ms[index := ms[index].(available := false)];
        code := index;
      }
    }

    /** The last task of a non-empty mutex queue: the walk along the links ends. */
    method LastWaiter(m: nat) returns (last: TaskId)
      requires Valid() && IsMutex(m) && ms[m].queue != []
      ensures last == ms[m].queue[|ms[m].queue| - 1]
    {
      ghost var q := ms[m].queue;
      ghost var i := 0;
      last := mutexes[m].sleepQ;
      ChainAt(mutexLink[..], mutexes[m].sleepQ, q, 0);
      while mutexLink[last] != NULL
        invariant 0 <= i < |q| && last == q[i]
        invariant mutexLink[last] == NULL <==> i == |q| - 1
        decreases |q| - i
      {
        ChainAt(mutexLink[..], mutexes[m].sleepQ, q, i);
        ChainAt(mutexLink[..], mutexes[m].sleepQ, q, i + 1);
        last := mutexLink[last];
        i := i + 1;
      }
    }

    /** The running task goes to the end of the queue of mutex m. */
    method AppendWaiter(m: nat)
      requires Valid() && IsMutex(m) && Sound(Abs())
      modifies this`ms, mutexes, mutexLink
      ensures Valid()
      ensures var s := old(Abs()); var ms := s.locks.mutexes; var mu := ms[m];
              Abs() == s.(locks := s.locks.(mutexes := ms[m := mu.(queue := mu.queue + [cur])]))
    {
      ghost var link, heads, qs := mutexLink[..], MutexHeads(mutexes[..]), MutexQueues(ms);
      if mutexes[m].sleepQ == NULL {
        AppendToEmpty(link, heads, qs, m, cur);
        mutexLink[cur] := NULL;
        mutexes[m] := mutexes[m].(sleepQ := cur);
      } else {
        AppendToLast(link, heads, qs, m, cur);
        var last := LastWaiter(m);
        mutexLink[last] := cur;
        mutexLink[cur] := NULL;
      }
      ms := ms[m := ms[m].(queue := ms[m].queue + [cur])];
      assert MutexQueues(ms) == qs[m := qs[m] + [cur]];
      assert MutexHeads(mutexes[..]) == if qs[m] == [] then heads[m := cur] else heads;
    }

    /** The sleeping branch of `mutex_lock`, up to the dispatcher. */
    method SleepOnMutex(m: nat)
      requires Valid() && IsMutex(m) && Sound(Abs())
      modifies this`ms, tcbs, mutexes, mutexLink
      ensures Valid() && Abs() == old(Abs()).(locks := Block(old(Abs()).locks, cur, m))
    {
      AppendWaiter(m);
      tcbs[cur] := tcbs[cur].(pending := true, resume := InMutexLock(m));
      assert tcbs[..] == Block(old(Abs()).locks, cur, m).tcbs;
    }

    method MutexLock(m: int) returns (outcome: Outcome)
      requires Valid() && Sound(Abs())
      modifies this`cur, this`ms, tcbs, mutexes, mutexLink, runQueue, runQueue.list, runQueue.bits
      ensures Valid() && (Abs(), outcome) == LockCall(old(Abs()), m)
    {
      if m >= OS_NUM_MUTEX || m < 0 {
        return Return(-EINVAL);
      }
      if mutexes[m].locked {
        if cur == mutexes[m].holder {
          return Return(-EDEADLOCK);
        }
        SleepOnMutex(m);
        Dispatch();
        return Switched;
      }
      mutexes[m] := mutexes[m].(locked := true);
      ms := ms[m := ms[m].(locked := true)];
      EnterMutex(m);
      return Return(0);
    }

    /** The first waiter leaves the queue of mutex m. */
    method UnlinkFirst(m: nat)
      requires Valid() && IsMutex(m) && Sound(Abs()) && mutexes[m].sleepQ != NULL
      modifies this`ms, mutexes, mutexLink
      ensures Valid() && old(ms[m].queue) != [] && old(mutexes[m].sleepQ) == old(ms[m].queue[0]) != cur
      ensures var s := old(Abs()); var ms := s.locks.mutexes; var mu := ms[m];
              Abs() == s.(locks := s.locks.(mutexes := ms[m := mu.(queue := mu.queue[1..])]))
    {
      ghost var link, heads, qs := mutexLink[..], MutexHeads(mutexes[..]), MutexQueues(ms);
      var first := mutexes[m].sleepQ;
      assert Chain(link, first, qs[m]);
      DropFirst(link, heads, qs, m);
      assert first in qs[m];
      mutexes[m] := mutexes[m].(sleepQ := mutexLink[first]);
      mutexLink[first] := NULL;
      ms := ms[m := ms[m].(queue := ms[m].queue[1..])];
      assert MutexQueues(ms) == qs[m := qs[m][1..]];
      assert MutexHeads(mutexes[..]) == heads[m := link[first]];
    }

    /** The hand-over of `mutex_unlock`. */
    method HandOver(m: nat)
      requires Valid() && IsMutex(m) && Sound(Abs())
      modifies this`ms, tcbs, mutexes, mutexLink, runQueue, runQueue.list, runQueue.bits
      ensures Valid()
      ensures var (l, woken) := Mutexes.HandOver(old(Abs()).locks, m);
              var slots := old(Abs()).slots;
              && (woken == NULL || woken != cur)
              && Abs() == old(Abs()).(locks := l,
                    slots := if woken == NULL then slots else Enqueue(slots, woken, l.tcbs[woken].nativePrio))
    {
      ghost var link, heads, qs := mutexLink[..], MutexHeads(mutexes[..]), MutexQueues(ms);
      var first := mutexes[m].sleepQ;
      if first != NULL {
        UnlinkFirst(m);
        tcbs[first] := tcbs[first].(pending := false, curPrio := tcbs[first].nativePrio);
        runQueue.Add(first, tcbs[first].curPrio);
      } else {
        mutexes[m] := mutexes[m].(locked := false);
        ms := ms[m := ms[m].(locked := false)];
        assert MutexQueues(ms) == qs && MutexHeads(mutexes[..]) == heads;
      }
      assert tcbs[..] == Mutexes.HandOver(old(Abs()).locks, m).0.tcbs;
    }

    /** The last assignments of `mutex_unlock`. */
    method LeaveMutex()
      requires Valid()
      modifies tcbs
      ensures Valid() && Abs() == old(Abs()).(locks := Leave(old(Abs()).locks, cur))
    {
      if tcbs[cur].holdsLock > 1 {
        tcbs[cur] := tcbs[cur].(holdsLock := tcbs[cur].holdsLock - 1);
      } else {
        tcbs[cur] := tcbs[cur].(holdsLock := 0, curPrio := tcbs[cur].nativePrio);
      }
      assert tcbs[..] == Leave(old(Abs()).locks, cur).tcbs;
    }

    method MutexUnlock(m: int) returns (code: int)
      requires Valid() && Sound(Abs())
      modifies this`cur, this`ms, tcbs, mutexes, mutexLink, runQueue, runQueue.list, runQueue.bits
      ensures Valid() && (Abs(), code) == UnlockCall(old(Abs()), m)
    {
      if m >= OS_NUM_MUTEX || m < 0 {
        return -EINVAL;
      }
      if mutexes[m].available || cur != mutexes[m].holder {
        return -EPERM;
      }
      HandOver(m);
      LeaveMutex();
      assert Abs() == Released(old(Abs()), m);
      assert OnlyAdds(old(Abs()).slots, Abs().slots);
      DispatchSave();
      return 0;
    }

    // ------------------------------------------------------------ device.c

    method DevInit()
      requires Valid()
      modifies this`ds, devices
      ensures Valid() && Abs() == old(Abs()).(devices := FreshDevices())
    {
      for i := 0 to NUM_DEVICES
        invariant forall d :: 0 <= d < i ==> devices[d] == DeviceRecord(NULL, Freq(d))
      {
        devices[i] := DeviceRecord(NULL, Freq(i));
      }
      ds := FreshDevices();
    }

    /** The last task of a non-empty wait queue: the walk along the links ends. */
    method LastSleeper(dev: nat) returns (last: TaskId)
      requires Valid() && dev < NUM_DEVICES && ds[dev].queue != []
      ensures last == ds[dev].queue[|ds[dev].queue| - 1]
    {
      ghost var q, head, link := ds[dev].queue, devices[dev].sleepQ, sleepLink[..];
      ghost var i := 0;
      last := devices[dev].sleepQ;
      assert Chain(link, head, q) by { assert DeviceQueues(ds)[dev] == q && DeviceHeads(devices[..])[dev] == head; }
      ChainAt(link, head, q, 0);
      while sleepLink[last] != NULL
        invariant 0 <= i < |q| && last == q[i]
        invariant sleepLink[last] == NULL <==> i == |q| - 1
        decreases |q| - i
      {
        ChainAt(link, head, q, i);
        ChainAt(link, head, q, i + 1);
        last := sleepLink[last];
        i := i + 1;
      }
    }

    method DevWait(dev: nat) returns (outcome: Outcome)
      requires Valid() && Sound(Abs()) && dev < NUM_DEVICES
      modifies this`cur, this`ms, this`ds, tcbs, mutexes, devices, sleepLink, runQueue, runQueue.list, runQueue.bits
      ensures Valid() && (Abs(), outcome) == KernelSpec.DevWait(old(Abs()), dev)
    {
      if tcbs[cur].holdsLock != 0 {
        return Return(-EHOLDSLOCK);
      }
      SleepOnDevice(dev);
      Dispatch();
      return Switched;
    }

    /** To the end of the wait queue of the device. */
    method SleepOnDevice(dev: nat)
      requires Valid() && Sound(Abs()) && dev < NUM_DEVICES
      modifies this`ds, devices, sleepLink
      ensures Valid()
      ensures var d := old(Abs()).devices[dev];
              Abs() == old(Abs()).(devices := old(Abs()).devices[dev := d.(queue := d.queue + [cur])])
    {
      ghost var link, heads, qs := sleepLink[..], DeviceHeads(devices[..]), DeviceQueues(ds);
      if devices[dev].sleepQ == NULL {
        AppendToEmpty(link, heads, qs, dev, cur);
        devices[dev] := devices[dev].(sleepQ := cur);
        sleepLink[devices[dev].sleepQ] := NULL;
      } else {
        AppendToLast(link, heads, qs, dev, cur);
        var last := LastSleeper(dev);
        sleepLink[last] := cur;
        last := sleepLink[last];
        sleepLink[last] := NULL;
      }
      ds := ds[dev := ds[dev].(queue := ds[dev].queue + [cur])];
      assert DeviceQueues(ds) == qs[dev := qs[dev] + [cur]];
      assert DeviceHeads(devices[..]) == if qs[dev] == [] then heads[dev := cur] else heads;
    }

    /** The inner loop of `dev_update`: everybody in the queue becomes ready. */
    method WakeQueue(dev: nat)
      requires Valid() && dev < NUM_DEVICES
      modifies runQueue, runQueue.list, runQueue.bits
      ensures Valid()
      ensures var s := old(Abs()); Abs() == s.(slots := Wake(s.slots, s.locks.tcbs, s.devices[dev].queue))
    {
      ghost var q, head, link := ds[dev].queue, devices[dev].sleepQ, sleepLink[..];
      ghost var i := 0;
      assert Chain(link, head, q) by { assert DeviceQueues(ds)[dev] == q && DeviceHeads(devices[..])[dev] == head; }
      var t := devices[dev].sleepQ;
      assert q[0..] == q;
      while t != NULL
        invariant 0 <= i <= |q| && Chain(link, t, q[i..])
        invariant Valid() && Wake(runQueue.list[..], tcbs[..], q[i..]) == Wake(old(runQueue.list[..]), tcbs[..], q)
        decreases |q| - i
      {
        assert q[i..][1..] == q[i + 1..];
        runQueue.Add(t, tcbs[t].nativePrio);
        t := sleepLink[t];
        i := i + 1;
      }
    }

    /** The next match time of a device that fires. */
    method AdvanceMatch(i: nat)
      requires Valid() && i < NUM_DEVICES
      modifies this`ds, devices
      ensures Valid()
      ensures var s := old(Abs()); var d := s.devices[i];
              Abs() == s.(devices := s.devices[i := d.(nextMatch := AddWord(d.nextMatch, Freq(i)))])
    {
      ghost var heads, qs := DeviceHeads(devices[..]), DeviceQueues(ds);
      devices[i] := devices[i].(nextMatch := AddWord(devices[i].nextMatch, Freq(i)));
      ds := ds[i := ds[i].(nextMatch := devices[i].nextMatch)];
      assert DeviceHeads(devices[..]) == heads && DeviceQueues(ds) == qs;
    }

    /** The wait queue of a device that fires becomes ready and is cut off. */
    method DrainQueue(i: nat) returns (woke: bool)
      requires Valid() && i < NUM_DEVICES
      modifies this`ds, devices, runQueue, runQueue.list, runQueue.bits
      ensures Valid() && woke == (old(ds[i].queue) != [])
      ensures var s := old(Abs()); var d := s.devices[i];
              Abs() == s.(devices := s.devices[i := d.(queue := [])], slots := Wake(s.slots, s.locks.tcbs, d.queue))
    {
      ghost var heads, qs := DeviceHeads(devices[..]), DeviceQueues(ds);
      assert Chain(sleepLink[..], heads[i], qs[i]);
      woke := devices[i].sleepQ != NULL;
      if woke {
        WakeQueue(i);
        devices[i] := devices[i].(sleepQ := NULL);
        ds := ds[i := ds[i].(queue := [])];
        assert DeviceHeads(devices[..]) == heads[i := NULL] && DeviceQueues(ds) == qs[i := []];
      }
    }

    /** One round of the loop of `dev_update`. */
    method SignalDevice(i: nat, millis: Word, ghost s: State, flag: bool) returns (woke: bool)
      requires Valid() && s.WellFormed() && i < NUM_DEVICES && Abs() == Scan(s, millis, i) && flag == Woke(s, millis, i)
      modifies this`ds, devices, runQueue, runQueue.list, runQueue.bits
      ensures Valid() && Abs() == Scan(s, millis, i + 1) && woke == Woke(s, millis, i + 1)
    {
      woke := flag;
      assert Fires(s, i, millis) == (devices[i].nextMatch <= millis) && ds[i] == s.devices[i];
      if devices[i].nextMatch <= millis {
        AdvanceMatch(i);
        var waiting := DrainQueue(i);
        woke := flag || waiting;
      }
    }

    method DevUpdate(millis: Word)
      requires Valid() && (Woke(Abs(), millis, NUM_DEVICES) ==> CanDispatch(Abs()))
      modifies this`cur, this`ms, this`ds, tcbs, mutexes, devices, runQueue, runQueue.list, runQueue.bits
      ensures Valid() && Abs() == KernelSpec.DevUpdate(old(Abs()), millis)
    {
      var flag := false;
      ghost var s := Abs();
      for i := 0 to NUM_DEVICES
        invariant Valid() && Abs() == Scan(s, millis, i) && flag == Woke(s, millis, i)
      {
        flag := SignalDevice(i, millis, s, flag);
      }
      if flag {
        ScanOnlyAdds(s, millis, NUM_DEVICES);
        StillDispatchable(s, Abs());
        DispatchSave();
      }
    }

    // ------------------------------------------------------------ irqHandler_c.c

    method AdvanceClock(oscr: Word)
      modifies this`systemTime, this`timeDrift
      ensures (systemTime, timeDrift) == Clock(old(systemTime), old(timeDrift), oscr)
    {
      systemTime := AddWord(systemTime, oscr / OSTMR_COUNT);
      timeDrift := AddWord(timeDrift, oscr % OSTMR_COUNT);
      if timeDrift >= OSTMR_COUNT {
        systemTime := AddWord(systemTime, 1);
        timeDrift := timeDrift - OSTMR_COUNT;
      }
    }

    method IrqHandler(timerPending: bool, oscr: Word)
      requires Valid() && (SomebodySleeps(Abs()) ==> CanDispatch(Abs()))
      modifies this`cur, this`ms, this`ds, this`systemTime, this`timeDrift
      modifies tcbs, mutexes, devices, runQueue, runQueue.list, runQueue.bits
      ensures Valid() && Abs() == Irq(old(Abs()), timerPending, oscr)
    {
      if !timerPending {
        return;
      }
      AdvanceClock(oscr);
      assert Woke(Abs(), systemTime, NUM_DEVICES) ==> SomebodySleeps(old(Abs()));
      DevUpdate(systemTime);
    }

    // ------------------------------------------------------------ sched.c

    /** `allocate_tasks`. */
    method AllocateTasks(tasks: array<Task>, n: nat)
      requires Valid() && tasks !in Memory() && n <= tasks.Length && n <= OS_MAX_TASKS - 2 && Invariant.NoWaiters(ms)
      modifies this`cur, this`ms, this`ds, this`installed
      modifies tcbs, sleepLink, mutexLink, mutexes, devices, runQueue, runQueue.list, runQueue.bits
      ensures Valid() && Abs() == Pick(Allocated(old(Abs()), tasks[..n]))
    {
      ghost var s := Abs();
      SetUpTasks(tasks, n);
      installed := tasks[..n];
      AllocatedAt(s, tasks[..n]);
      Dispatch();
    }

    /** `allocate_tasks` up to the dispatcher. */
    method SetUpTasks(tasks: array<Task>, n: nat)
      requires Valid() && tasks !in Memory() && n <= tasks.Length && n <= OS_MAX_TASKS - 2 && Invariant.NoWaiters(ms)
      modifies this`ds, tcbs, sleepLink, mutexLink, devices, runQueue, runQueue.list, runQueue.bits
      ensures Valid() && ds == FreshDevices()
      ensures tcbs[..] == SetUpUntil(old(tcbs[..]), tasks[..n], n)[IDLE := NewTcb(63, IdleLoop)]
      ensures runQueue.list[..] == ReadyUntil(n)[IDLE := IDLE]
    {
      DevInit();
      runQueue.Init();
      SetUpList(tasks, n);
      SetUpTcb(IDLE, IdleLoop);
    }

    /** The loop of `allocate_tasks`. */
    method SetUpList(tasks: array<Task>, n: nat)
      requires Valid() && tasks !in Memory() && n <= tasks.Length && n <= OS_MAX_TASKS - 2
      requires Invariant.NoWaiters(ms) && ds == FreshDevices() && runQueue.list[..] == ReadyUntil(0)
      modifies tcbs, sleepLink, mutexLink, runQueue, runQueue.list, runQueue.bits
      ensures Valid() && tcbs[..] == SetUpUntil(old(tcbs[..]), tasks[..n], n) && runQueue.list[..] == ReadyUntil(n)
    {
      ghost var list := tasks[..n];
      for i := 0 to n
        invariant Valid()
        invariant tcbs[..] == SetUpUntil(old(tcbs[..]), list, i) && runQueue.list[..] == ReadyUntil(i)
      {
        SetUpTcb(i + 1, TaskProgram(tasks[i].entry, tasks[i].stackPos));
      }
    }

    /** The body of the loop in `allocate_tasks`: a new control block, made ready. Nobody sleeps, so
        clearing the two links of the block cuts no queue. */
    method SetUpTcb(t: TaskId, program: Program)
      requires Valid() && t != NULL && Invariant.NoWaiters(ms) && ds == FreshDevices()
      requires runQueue.list[..][t] == NULL
      modifies tcbs, sleepLink, mutexLink, runQueue, runQueue.list, runQueue.bits
      ensures Valid() && tcbs[..] == old(tcbs[..])[t := NewTcb(t, program)]
      ensures runQueue.list[..] == old(runQueue.list[..])[t := t]
    {
      tcbs[t] := Tcb(t, t, 0, false, User, program);
      sleepLink[t] := NULL;
      mutexLink[t] := NULL;
      runQueue.Add(t, t);
    }

    // ------------------------------------------------------------ proc.c

    method TaskCreate(tasks: array<Task>, n: nat) returns (outcome: Outcome)
      requires Valid() && tasks !in Memory() && ReadableList(tasks[..], n) && Invariant.NoWaiters(ms)
      modifies this`cur, this`ms, this`ds, this`installed
      modifies tasks, tcbs, sleepLink, mutexLink, mutexes, devices, runQueue, runQueue.list, runQueue.bits
      ensures Valid() && (Abs(), outcome) == KernelSpec.TaskCreate(old(Abs()), old(tasks[..]), n)
      ensures var list := old(tasks[..]);
              tasks[..] == if CreateError(list, n) != 0 then list else Ordered(list, n)
    {
      var code := CheckTasks(tasks, n);
      if code != 0 {
        return Return(code);
      }
      var ok := OrderTasks(tasks, n);
      if !ok {
        return Return(-ESCHED);
      }
      AllocateTasks(tasks, n);
      return Switched;
    }

    method EventWait(dev: nat) returns (outcome: Outcome)
      requires Valid() && Sound(Abs()) && dev != NUM_DEVICES
      modifies this`cur, this`ms, this`ds, tcbs, mutexes, devices, sleepLink, runQueue, runQueue.list, runQueue.bits
      ensures Valid() && (Abs(), outcome) == KernelSpec.EventWait(old(Abs()), dev)
    {
      if dev > NUM_DEVICES {
        return Return(-EINVAL);
      }
      outcome := DevWait(dev);
    }

    // ------------------------------------------------------------ C_SWI_Handler.c

    /** The kernel's entry for every event, with the memory that holds the task list of a `task_create`:
        from a state of a running system it takes the abstract step, and it leads to a state of a
        running system again exactly if the event is careful. */
    method Handle(e: Event, memory: array<Task>)
      requires Valid() && Invariant.Inv(Abs()) && CanHappen(Abs(), e) && memory !in Memory()
      requires e.Create? ==> memory[..] == e.tasks
      modifies this`cur, this`ms, this`ds, this`installed, this`systemTime, this`timeDrift, memory
      modifies tcbs, mutexes, devices, sleepLink, mutexLink, runQueue, runQueue.list, runQueue.bits
      ensures Valid() && Abs() == Step(old(Abs()), e)
      ensures !e.Create? ==> memory[..] == old(memory[..])
      ensures Invariant.Inv(Abs()) <==> Invariant.Careful(old(Abs()), e)
    {
      Invariant.StepKeepsIff(Abs(), e);
      InvariantIsSound(Abs());
      if e.Create? {
        var outcome := TaskCreate(memory, e.n);
      } else {
        HandleCall(e);
      }
    }

    /** Every event but task creation. */
    method HandleCall(e: Event)
      requires Valid() && CanHappen(Abs(), e) && !e.Create? && CanDispatch(Abs()) && (cur != IDLE ==> Sound(Abs()))
      modifies this`cur, this`ms, this`ds, this`systemTime, this`timeDrift
      modifies tcbs, mutexes, devices, sleepLink, mutexLink, runQueue, runQueue.list, runQueue.bits
      ensures Valid() && Abs() == Step(old(Abs()), e)
    {
      match e {
        case MakeMutex => var code := MutexCreate();
        case LockMutex(m) => var outcome := MutexLock(m);
        case UnlockMutex(m) => var code := MutexUnlock(m);
        case WaitFor(dev) => var outcome := EventWait(dev);
        case Interrupt(timerPending, oscr) => IrqHandler(timerPending, oscr);
      }
    }
  }

  /** From zeroed memory to a running system: `mutex_init` at boot, and the first `task_create`. */
  method Boot(tasks: array<Task>, n: nat) returns (k: Kernel, outcome: Outcome)
    requires ReadableList(tasks[..], n)
    modifies tasks
    ensures fresh(k) && fresh(k.Memory()) && k.Valid()
    ensures outcome == Switched <==> Accepted(old(tasks[..]), n)
    ensures (k.Abs(), outcome) == KernelSpec.TaskCreate(PoweredOn(), old(tasks[..]), n)
    ensures outcome == Switched ==> Invariant.Inv(k.Abs())
  {
    k := new Kernel();
    k.MutexInit();
    assert k.Abs() == PoweredOn();
    outcome := k.TaskCreate(tasks, n);
    CreateSucceedsIff(PoweredOn(), old(tasks[..]), n);
    Runs.PoweredOnIsQuiet();
    if outcome == Switched { Invariant.CreateEstablishes(PoweredOn(), old(tasks[..]), n); }
  }
}
