/** The real scheduler is one of the arbitrary schedulers of MutexProtocol: every run of the kernel
    between two task creations is, on its mutexes and control blocks, a legal run of the protocol. */
module KernelProtocol {
  import opened Config
  import opened Clocks
  import opened Mutexes
  import opened KernelSpec
  import opened KernelInvariant
  import Runs = KernelRuns
  import Protocol = MutexProtocol

  /** The protocol's observer sees the running task inside every locked mutex, and nobody else. */
  ghost predicate Matches(s: State, p: Protocol.Proto) {
    && s.WellFormed() && p.WellFormed() && p.locks == s.locks
    && forall m :: 0 <= m < OS_NUM_MUTEX ==> p.inside[m] == if s.locks.mutexes[m].locked then {s.cur} else {}
  }

  /** The protocol events behind an event of the kernel. */
  ghost function Projected(s: State, e: Event): seq<Protocol.Event> {
    match e
    case MakeMutex => [Protocol.MakeMutex]
    case LockMutex(m) => [Protocol.LockBy(s.cur, m)]
    case UnlockMutex(m) => [Protocol.UnlockBy(s.cur, m)]
    case _ => []
  }

  ghost function ProjectedRun(s: State, events: seq<Event>): seq<Protocol.Event>
    requires s.WellFormed() && Runs.Legal(s, events)
    decreases |events|
  {
    if events == [] then [] else Projected(s, events[0]) + ProjectedRun(Step(s, events[0]), events[1..])
  }

  lemma {:induction false} RunAppend(p: Protocol.Proto, a: seq<Protocol.Event>, b: seq<Protocol.Event>)
    requires p.WellFormed()
    ensures Protocol.Run(p, a + b) == Protocol.Run(Protocol.Run(p, a), b)
    ensures Protocol.Legal(p, a + b) <==> Protocol.Legal(p, a) && Protocol.Legal(Protocol.Run(p, a), b)
    decreases |a|
  {
    if a == [] {
      assert a + b == b;
    } else {
      assert (a + b)[1..] == a[1..] + b;
      RunAppend(Protocol.Step(p, a[0]), a[1..], b);
    }
  }

  /** With a mutex locked the dispatcher changes nothing; without one it leaves the locks alone. */
  lemma DispatchKeepsLocks(s: State)
    requires Undispatched(s)
    ensures DispatchSave(s).locks == s.locks
    ensures !NothingLocked(s.locks.mutexes) ==> DispatchSave(s).cur == s.cur
  {
    DispatchSaveKeeps(s);
    LockedBelowZero(s.locks.mutexes, OS_NUM_MUTEX);
  }

  lemma QuietStep(s: State, e: Event)
    requires Inv(s) && CanHappen(s, e) && !Runs.Installs(e) && (e.WaitFor? || e.Interrupt? || e.Create?)
    ensures Step(s, e).locks == s.locks && (!NothingLocked(s.locks.mutexes) ==> Step(s, e).cur == s.cur)
  {
    LockedBelowZero(s.locks.mutexes, OS_NUM_MUTEX);
    match e
    case Create(_, _) => Runs.RejectedStep(s, e);
    case WaitFor(dev) =>
      if dev < NUM_DEVICES && s.locks.tcbs[s.cur].holdsLock == 0 { WaitKeeps(s, dev); }
    case Interrupt(timerPending, oscr) =>
      if timerPending {
        var (t, d) := Clock(s.time, s.drift, oscr);
        var s1 := s.(time := t, drift := d);
        ScanKeeps(s1, t, NUM_DEVICES);
        DispatchKeepsLocks(Scan(s1, t, NUM_DEVICES));
      }
  }

  lemma CallStep(s: State, e: Event, p: Protocol.Proto)
    requires Inv(s) && CanHappen(s, e) && Careful(s, e) && Matches(s, p)
    requires e.MakeMutex? || e.LockMutex? || e.UnlockMutex?
    ensures Protocol.Enabled(p, Projected(s, e)[0]) && Matches(Step(s, e), Protocol.Step(p, Projected(s, e)[0]))
  {
    match e
    case MakeMutex =>
    case LockMutex(m) => LockKeeps(s, m);
    case UnlockMutex(m) =>
      if UnlockPasses(s.locks, s.cur, m) { UnlockStep(s, m, p); }
  }

  lemma UnlockStep(s: State, m: nat, p: Protocol.Proto)
    requires Inv(s) && s.cur != IDLE && UnlockPasses(s.locks, s.cur, m) && HarmlessUnlock(s, m) && Matches(s, p)
    ensures Protocol.Enabled(p, Protocol.UnlockBy(s.cur, m))
    ensures Matches(UnlockCall(s, m).0, Protocol.Step(p, Protocol.UnlockBy(s.cur, m)))
  {
    UnlockKeeps(s, m);
    var r := Released(s, m);
    var s', p' := DispatchSave(r), Protocol.Step(p, Protocol.UnlockBy(s.cur, m));
    ReleasedIsUndispatched(s, m);
    DispatchKeepsLocks(r);
    assert p'.locks == r.locks;
  }

  /** One event of the kernel is none or one enabled event of the protocol. */
  lemma StepIsProtocolStep(s: State, e: Event, p: Protocol.Proto)
    requires Inv(s) && CanHappen(s, e) && Careful(s, e) && !Runs.Installs(e) && Matches(s, p)
    ensures Protocol.Legal(p, Projected(s, e)) && Matches(Step(s, e), Protocol.Run(p, Projected(s, e)))
  {
    if e.WaitFor? || e.Interrupt? || e.Create? {
      QuietStep(s, e);
    } else {
      CallStep(s, e, p);
      Protocol.RunOfOne(p, Projected(s, e)[0]);
    }
  }

  /** A run of the kernel is a legal run of the protocol with the same locks at its end. */
  lemma {:induction false} RunIsProtocolRun(s: State, events: seq<Event>, p: Protocol.Proto)
    requires Inv(s) && Runs.Legal(s, events) && Runs.OneTaskSet(events) && Matches(s, p)
    ensures Protocol.Legal(p, ProjectedRun(s, events))
    ensures Matches(Runs.Run(s, events), Protocol.Run(p, ProjectedRun(s, events)))
    decreases |events|
  {
    if events != [] {
      var s1, first := Step(s, events[0]), Projected(s, events[0]);
      StepIsProtocolStep(s, events[0], p);
      StepKeepsIff(s, events[0]);
      RunIsProtocolRun(s1, events[1..], Protocol.Run(p, first));
      RunAppend(p, first, ProjectedRun(s1, events[1..]));
    }
  }

  // ---------------------------------------------------------------- what carries over

  /** The protocol's view of a kernel state, with an observer who starts to watch there. */
  ghost function Observed(s: State): (p: Protocol.Proto)
    requires s.WellFormed()
    ensures Matches(s, p)
  {
    Protocol.Proto(s.locks,
                   seq(OS_NUM_MUTEX, m requires 0 <= m < OS_NUM_MUTEX =>
                         if s.locks.mutexes[m].locked then {s.cur} else {}),
                   seq(OS_NUM_MUTEX, _ => []), seq(OS_NUM_MUTEX, _ => []))
  }

  /** An execution begins as the protocol does. */
  lemma StartIsInit(x: Runs.Execution)
    requires x.Boots()
    ensures Protocol.Init(Observed(x.Start()))
  {
    Runs.StartInv(x);
    assert NothingLocked(x.Start().locks.mutexes);
    UnlockedIsQuiet(x.Start());
  }

  /** What the observer of an execution has seen at its end. */
  ghost function Seen(x: Runs.Execution): (p: Protocol.Proto)
    requires x.Valid()
    ensures p.WellFormed()
  {
    Protocol.Run(Observed(x.Start()), ProjectedRun(x.Start(), x.events))
  }

  /** Every theorem of MutexProtocol about legal runs from an initial state is about the executions
      of the kernel. */
  lemma ExecutionIsProtocolRun(x: Runs.Execution)
    requires x.Valid() && Runs.OneTaskSet(x.events)
    ensures var p := Observed(x.Start());
            Protocol.Init(p) && Protocol.Legal(p, ProjectedRun(x.Start(), x.events)) && Matches(x.State(), Seen(x))
  {
    StartIsInit(x);
    Runs.StartInv(x);
    RunIsProtocolRun(x.Start(), x.events, Observed(x.Start()));
  }

  /** Mutual exclusion in the kernel: only the running task is inside a mutex, and only if the lock
      flag is set. */
  lemma OnlyTheRunningTaskIsInside(x: Runs.Execution, m: nat, t: TaskId)
    requires x.Valid() && Runs.OneTaskSet(x.events) && m < OS_NUM_MUTEX
    ensures Protocol.Claims(Seen(x), t, m) <==> t == x.State().cur && x.State().locks.mutexes[m].locked
  {
    ExecutionIsProtocolRun(x);
    var p, q := Observed(x.Start()), Seen(x);
    Protocol.MutualExclusion(p, ProjectedRun(x.Start(), x.events), m, t, x.State().cur);
    if c: TaskId :| Protocol.Claims(q, c, m) {
      Protocol.MutualExclusion(p, ProjectedRun(x.Start(), x.events), m, t, c);
      Protocol.MutualExclusion(p, ProjectedRun(x.Start(), x.events), m, x.State().cur, c);
    }
  }

  /** Every accepted lock call of an execution has got its mutex, in the order of the calls. */
  lemma ServedInOrderOfCalls(x: Runs.Execution, m: nat)
    requires x.Valid() && Runs.OneTaskSet(x.events) && m < OS_NUM_MUTEX
    ensures Seen(x).entered[m] == Seen(x).arrived[m]
  {
    ExecutionIsProtocolRun(x);
    Runs.NoContention(x, m);
    Protocol.FirstComeFirstServed(Observed(x.Start()), ProjectedRun(x.Start(), x.events), m);
    NobodyIsGranted(x, m);
  }

  lemma NobodyIsGranted(x: Runs.Execution, m: nat)
    requires x.Valid() && Runs.OneTaskSet(x.events) && m < OS_NUM_MUTEX
    ensures forall g: TaskId :: !Protocol.Granted(Seen(x), g, m)
  {
    ExecutionIsProtocolRun(x);
    Runs.ReachableInv(x);
  }

  /** The lock count of every control block counts the mutexes its task is inside of. */
  lemma CountsWhatIsInside(x: Runs.Execution, t: TaskId)
    requires x.Valid() && Runs.OneTaskSet(x.events) && Installed(t, |x.State().installed|)
    ensures x.State().locks.tcbs[t].holdsLock == Protocol.Held(Seen(x).inside, t)
  {
    ExecutionIsProtocolRun(x);
    Runs.ReachableInv(x);
    Runs.TasksRunTheirEntries(x, t);
    Runs.StartInv(x);
    Protocol.CountAndCeiling(Observed(x.Start()), ProjectedRun(x.Start(), x.events), t);
  }
}
