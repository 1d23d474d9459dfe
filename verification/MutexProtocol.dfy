/** The mutexes under an arbitrary scheduler: between two steps any task may be chosen that is
    not asleep in a mutex queue. Proved over every run: mutual exclusion, first come first
    served entry, no lost waiter, and agreement of `holds_lock` and the priority ceiling. */
module MutexProtocol {
  import opened Config
  import opened Mutexes

  /** The kernel's data, and what an observer of the calls and their results writes down:
      who is between a successful lock and its unlock, in which order tasks came to each
      mutex (entered at once or went to sleep), and in which order they got in. */
  datatype Proto = Proto(locks: LockState, inside: seq<set<TaskId>>,
                         arrived: seq<seq<TaskId>>, entered: seq<seq<TaskId>>) {
    ghost predicate WellFormed() {
      locks.WellFormed() && |inside| == |arrived| == |entered| == OS_NUM_MUTEX
    }
  }

  datatype Event = MakeMutex | LockBy(task: TaskId, m: int) | ResumeOf(task: TaskId) | UnlockBy(task: TaskId, m: int)

  function Resumed(p: Proto, t: TaskId): Resume
    requires p.locks.WellFormed()
  {
    p.locks.tcbs[t].resume
  }

  /** Asleep in the queue of m. */
  predicate Waiting(p: Proto, t: TaskId, m: nat)
    requires p.locks.WellFormed()
  {
    Resumed(p, t) == InMutexLock(m) && p.locks.tcbs[t].pending
  }

  /** Handed the mutex m, but not yet back on the processor. */
  predicate Granted(p: Proto, t: TaskId, m: nat)
    requires p.locks.WellFormed()
  {
    Resumed(p, t) == InMutexLock(m) && !p.locks.tcbs[t].pending
  }

  /** Between the unlock that grants t a mutex and t's return to the processor. */
  predicate HandedOver(p: Proto, t: TaskId)
    requires p.locks.WellFormed()
  {
    Resumed(p, t).InMutexLock? && !p.locks.tcbs[t].pending
  }

  predicate Claims(p: Proto, t: TaskId, m: nat)
    requires p.locks.WellFormed() && m < |p.inside|
  {
    t in p.inside[m] || Granted(p, t, m)
  }

  /** How many of the first k mutexes t is inside of. */
  function HeldBelow(inside: seq<set<TaskId>>, t: TaskId, k: nat): nat
    requires k <= |inside|
  {
    if k == 0 then 0 else HeldBelow(inside, t, k - 1) + if t in inside[k - 1] then 1 else 0
  }

  function Held(inside: seq<set<TaskId>>, t: TaskId): nat {
    HeldBelow(inside, t, |inside|)
  }

  // ---------------------------------------------------------------- steps

  ghost function Step(p: Proto, e: Event): (p': Proto)
    requires p.WellFormed()
    ensures p'.WellFormed()
  {
    match e
    case MakeMutex => p.(locks := MutexCreate(p.locks).0)
    case LockBy(t, m) =>
      var (l, outcome) := MutexLock(p.locks, t, m);
      if outcome == Return(0) then
        Proto(l, p.inside[m := p.inside[m] + {t}],
              p.arrived[m := p.arrived[m] + [t]], p.entered[m := p.entered[m] + [t]])
      else if outcome == Switched then p.(locks := l, arrived := p.arrived[m := p.arrived[m] + [t]])
      else p.(locks := l)
    case ResumeOf(t) =>
      var l := Continue(p.locks, t);
      if Resumed(p, t).InMutexLock? && IsMutex(Resumed(p, t).mutex) then
        var m := Resumed(p, t).mutex;
        p.(locks := l, inside := p.inside[m := p.inside[m] + {t}], entered := p.entered[m := p.entered[m] + [t]])
      else p
    case UnlockBy(t, m) =>
      var (l, code, _) := MutexUnlock(p.locks, t, m);
      if code == 0 then p.(locks := l, inside := p.inside[m := p.inside[m] - {t}]) else p
  }

  /** An unlock that gets past the kernel's checks is harmless exactly when the task really is
      inside, or nobody is and the task has no other mutex whose count it would eat into. */
  predicate HarmlessUnlock(p: Proto, t: TaskId, m: int)
    requires p.locks.WellFormed() && |p.inside| == OS_NUM_MUTEX
  {
    UnlockPasses(p.locks, t, m) ==>
      t in p.inside[m] || (!p.locks.mutexes[m].locked && p.locks.tcbs[t].holdsLock == 0)
  }

  /** The events an arbitrary scheduler can produce when tasks unlock with care. */
  ghost predicate Enabled(p: Proto, e: Event)
    requires p.WellFormed()
  {
    match e
    case MakeMutex => true
    case LockBy(t, m) => t != NULL && Resumed(p, t) == User
    case ResumeOf(t) => t != NULL && Resumed(p, t).InMutexLock? && !p.locks.tcbs[t].pending
    case UnlockBy(t, m) => t != NULL && Resumed(p, t) == User && HarmlessUnlock(p, t, m)
  }

  ghost function Run(p: Proto, events: seq<Event>): (p': Proto)
    requires p.WellFormed()
    ensures p'.WellFormed()
    decreases |events|
  {
    if events == [] then p else Run(Step(p, events[0]), events[1..])
  }

  ghost predicate Legal(p: Proto, events: seq<Event>)
    requires p.WellFormed()
    decreases |events|
  {
    events == [] || (Enabled(p, events[0]) && Legal(Step(p, events[0]), events[1..]))
  }

  /** No mutex is locked or waited for, every task is in its own code and holds nothing, and the
      observer has seen nothing yet. Mutexes may be handed out and name a former holder. */
  ghost predicate Init(p: Proto) {
    && p.WellFormed()
    && (forall m :: 0 <= m < OS_NUM_MUTEX ==> !p.locks.mutexes[m].locked && p.locks.mutexes[m].queue == [])
    && (forall m :: 0 <= m < OS_NUM_MUTEX ==> p.inside[m] == {} && p.arrived[m] == [] && p.entered[m] == [])
    && (forall t: TaskId :: AtRest(p.locks.tcbs[t]))
  }

  // ---------------------------------------------------------------- invariant

  ghost predicate Distinct(s: seq<TaskId>) {
    forall i, j :: 0 <= i < j < |s| ==> s[i] != s[j]
  }

  ghost predicate MutexInv(p: Proto, m: nat)
    requires p.WellFormed() && m < OS_NUM_MUTEX
  {
    var mu := p.locks.mutexes[m];
    // the queue holds exactly the tasks asleep on m, each once
    && Distinct(mu.queue)
    && (forall t: TaskId :: t in mu.queue <==> Waiting(p, t, m))
    // one claimant while locked, none otherwise
    && (forall t: TaskId, u: TaskId :: Claims(p, t, m) && Claims(p, u, m) ==> t == u)
    && (mu.locked <==> exists t: TaskId :: Claims(p, t, m))
    && (!mu.locked ==> mu.queue == [])
    && (forall t: TaskId :: t in p.inside[m] ==> mu.holder == t && !Granted(p, t, m) && !Waiting(p, t, m))
    // arrivals that are not in yet: the granted task, then the queue
    && (forall g: TaskId :: Granted(p, g, m) ==> p.arrived[m] == p.entered[m] + [g] + mu.queue)
    && ((forall g: TaskId :: !Granted(p, g, m)) ==> p.arrived[m] == p.entered[m] + mu.queue)
  }

  ghost predicate TaskInv(p: Proto, t: TaskId)
    requires p.WellFormed()
  {
    var tcb := p.locks.tcbs[t];
    && (tcb.resume == User ==> !tcb.pending)
    && (tcb.resume.InMutexLock? ==> t != NULL && tcb.resume.mutex < OS_NUM_MUTEX)
    && tcb.holdsLock == Held(p.inside, t)
    && tcb.curPrio == if tcb.holdsLock > 0 && !HandedOver(p, t) then 0 else tcb.nativePrio
  }

  ghost predicate Inv(p: Proto) {
    && p.WellFormed()
    && (forall m :: 0 <= m < OS_NUM_MUTEX ==> MutexInv(p, m))
    && (forall t: TaskId :: TaskInv(p, t))
  }

  // ---------------------------------------------------------------- counting

  /** Adding t to, or removing it from, the set of mutex m moves its count by one. */
  lemma HeldChanges(inside: seq<set<TaskId>>, inside': seq<set<TaskId>>, t: TaskId, m: nat, k: nat)
    requires m < |inside| == |inside'| && k <= |inside|
    requires forall i :: 0 <= i < |inside| && i != m ==> (t in inside[i] <==> t in inside'[i])
    ensures HeldBelow(inside', t, k) - HeldBelow(inside, t, k)
         == if m < k then (if t in inside'[m] then 1 else 0) - (if t in inside[m] then 1 else 0) else 0
  {
    if k > 0 { HeldChanges(inside, inside', t, m, k - 1); }
  }

  lemma HeldNothing(inside: seq<set<TaskId>>, t: TaskId, k: nat)
    requires k <= |inside|
    ensures HeldBelow(inside, t, k) == 0 <==> forall m :: 0 <= m < k ==> t !in inside[m]
  {
    if k > 0 { HeldNothing(inside, t, k - 1); }
  }

  // ---------------------------------------------------------------- preservation

  lemma InitInv(p: Proto)
    requires Init(p)
    ensures Inv(p)
  {
    forall t: TaskId ensures TaskInv(p, t) {
      HeldNothing(p.inside, t, OS_NUM_MUTEX);
    }
  }

  /** A mutex nothing has touched keeps its invariant. */
  lemma OtherMutex(p: Proto, p': Proto, m: nat)
    requires p.WellFormed() && p'.WellFormed() && m < OS_NUM_MUTEX && MutexInv(p, m)
    requires p'.locks.mutexes[m].(available := p.locks.mutexes[m].available) == p.locks.mutexes[m]
    requires p'.inside[m] == p.inside[m] && p'.arrived[m] == p.arrived[m] && p'.entered[m] == p.entered[m]
    requires forall t: TaskId :: Waiting(p', t, m) == Waiting(p, t, m) && Granted(p', t, m) == Granted(p, t, m)
    ensures MutexInv(p', m)
  {
    assert forall t: TaskId :: Claims(p', t, m) == Claims(p, t, m);
  }

  lemma OtherTask(p: Proto, p': Proto, t: TaskId)
    requires p.WellFormed() && p'.WellFormed() && TaskInv(p, t)
    requires p'.locks.tcbs[t] == p.locks.tcbs[t]
    requires forall m :: 0 <= m < OS_NUM_MUTEX ==> (t in p'.inside[m] <==> t in p.inside[m])
    ensures TaskInv(p', t)
  {
    HeldChanges(p.inside, p'.inside, t, 0, OS_NUM_MUTEX);
  }

  lemma CreateKeeps(p: Proto)
    requires Inv(p)
    ensures Inv(Step(p, MakeMutex))
  {
    var p' := Step(p, MakeMutex);
    forall m: nat | m < OS_NUM_MUTEX ensures MutexInv(p', m) { OtherMutex(p, p', m); }
    forall t: TaskId ensures TaskInv(p', t) { OtherTask(p, p', t); }
  }

  lemma LockKeeps(p: Proto, t: TaskId, m: int)
    requires Inv(p) && t != NULL && Resumed(p, t) == User
    ensures Inv(Step(p, LockBy(t, m)))
  {
    var p' := Step(p, LockBy(t, m));
    if MutexLock(p.locks, t, m).1 == Return(0) {
      EnterFree(p, t, m);
    } else if MutexLock(p.locks, t, m).1 == Switched {
      SleepInQueue(p, t, m);
    } else {
      assert p' == p;
    }
  }

  lemma EnterFree(p: Proto, t: TaskId, m: nat)
    requires Inv(p) && t != NULL && Resumed(p, t) == User
    requires IsMutex(m) && !p.locks.mutexes[m].locked
    ensures Inv(Step(p, LockBy(t, m)))
  {
    var p' := Step(p, LockBy(t, m));
    assert MutexInv(p, m) && TaskInv(p, t);
    forall u: TaskId ensures u !in p.inside[m] && !Granted(p, u, m) { assert !Claims(p, u, m); }
    assert forall u: TaskId, i :: Granted(p', u, i) == Granted(p, u, i) && Waiting(p', u, i) == Waiting(p, u, i);
    assert forall u: TaskId :: Claims(p', u, m) <==> u == t;
    forall i: nat | i < OS_NUM_MUTEX ensures MutexInv(p', i) {
      assert MutexInv(p, i);
      if i != m { OtherMutex(p, p', i); } else { assert Claims(p', t, m); }
    }
    forall u: TaskId ensures TaskInv(p', u) {
      if u != t { OtherTask(p, p', u); } else { HeldChanges(p.inside, p'.inside, t, m, OS_NUM_MUTEX); }
    }
  }

  lemma SleepInQueue(p: Proto, t: TaskId, m: nat)
    requires Inv(p) && t != NULL && Resumed(p, t) == User
    requires IsMutex(m) && p.locks.mutexes[m].locked && p.locks.mutexes[m].holder != t
    ensures Inv(Step(p, LockBy(t, m)))
  {
    var p' := Step(p, LockBy(t, m));
    assert MutexInv(p, m) && TaskInv(p, t);
    assert !Waiting(p, t, m);
    assert forall u: TaskId, i :: Granted(p', u, i) == Granted(p, u, i);
    assert forall u: TaskId, i :: Waiting(p', u, i) == (Waiting(p, u, i) || (u == t && i == m));
    forall i: nat | i < OS_NUM_MUTEX ensures MutexInv(p', i) {
      assert MutexInv(p, i);
      if i != m { OtherMutex(p, p', i); } else { assert forall u: TaskId :: Claims(p', u, m) == Claims(p, u, m); }
    }
    forall u: TaskId ensures TaskInv(p', u) {
      assert TaskInv(p, u);
      HeldChanges(p.inside, p'.inside, u, m, OS_NUM_MUTEX);
    }
  }

  lemma ResumeKeeps(p: Proto, t: TaskId)
    requires Inv(p) && Enabled(p, ResumeOf(t))
    ensures Inv(Step(p, ResumeOf(t)))
  {
    var p' := Step(p, ResumeOf(t));
    assert TaskInv(p, t);
    var m := Resumed(p, t).mutex;
    assert MutexInv(p, m) && Granted(p, t, m) && Claims(p, t, m);
    forall u: TaskId ensures u !in p.inside[m] && (Granted(p, u, m) ==> u == t) { assert Claims(p, u, m) ==> u == t; }
    assert forall u: TaskId, i :: Granted(p', u, i) == (Granted(p, u, i) && u != t);
    assert forall u: TaskId, i :: Waiting(p', u, i) == Waiting(p, u, i);
    forall i: nat | i < OS_NUM_MUTEX ensures MutexInv(p', i) {
      assert MutexInv(p, i);
      if i != m {
        OtherMutex(p, p', i);
      } else {
        assert Claims(p, t, m) && Claims(p', t, m);
        assert forall u: TaskId :: Claims(p', u, m) <==> u == t;
      }
    }
    forall u: TaskId ensures TaskInv(p', u) {
      if u != t { OtherTask(p, p', u); } else { HeldChanges(p.inside, p'.inside, t, m, OS_NUM_MUTEX); }
    }
  }

  lemma AloneInside(p: Proto, t: TaskId, m: nat)
    requires Inv(p) && IsMutex(m) && t in p.inside[m]
    ensures p.inside[m] == {t} && p.locks.mutexes[m].locked && !Waiting(p, t, m)
    ensures forall u: TaskId :: !Granted(p, u, m)
    ensures var q := p.locks.mutexes[m].queue; q != [] ==> Waiting(p, q[0], m)
  {
    assert MutexInv(p, m) && Claims(p, t, m);
    forall u: TaskId ensures (u in p.inside[m] ==> u == t) && !Granted(p, u, m) {
      assert Claims(p, u, m) ==> u == t;
    }
    assert p.locks.mutexes[m].queue != [] ==> p.locks.mutexes[m].queue[0] in p.locks.mutexes[m].queue;
  }

  /** The task is inside: the first waiter is granted the mutex, or it becomes free. */
  lemma UnlockFromInside(p: Proto, t: TaskId, m: nat)
    requires Inv(p) && t != NULL && Resumed(p, t) == User
    requires UnlockPasses(p.locks, t, m) && t in p.inside[m]
    ensures Inv(Step(p, UnlockBy(t, m)))
  {
    var p' := Step(p, UnlockBy(t, m));
    var q := p.locks.mutexes[m].queue;
    AloneInside(p, t, m);
    assert q != [] ==> Waiting(p, q[0], m) && TaskInv(p, q[0]);
    assert forall u: TaskId, i :: Granted(p', u, i) <==> Granted(p, u, i) || (q != [] && u == q[0] && i == m);
    assert forall u: TaskId, i :: Waiting(p', u, i) <==> Waiting(p, u, i) && !(q != [] && u == q[0]);
    forall i: nat | i < OS_NUM_MUTEX ensures MutexInv(p', i) {
      assert MutexInv(p, i);
      if i != m { OtherMutex(p, p', i); } else { ReleasedMutex(p, p', m); }
    }
    forall u: TaskId ensures TaskInv(p', u) {
      assert TaskInv(p, u);
      HeldChanges(p.inside, p'.inside, u, m, OS_NUM_MUTEX);
    }
  }

  lemma ReleasedMutex(p: Proto, p': Proto, m: nat)
    requires p.WellFormed() && p'.WellFormed() && IsMutex(m) && MutexInv(p, m)
    requires p.locks.mutexes[m].locked && p'.inside[m] == {}
    requires p'.arrived[m] == p.arrived[m] && p'.entered[m] == p.entered[m]
    requires forall u: TaskId :: !Granted(p, u, m)
    requires var mu := p.locks.mutexes[m];
             p'.locks.mutexes[m] == if mu.queue == [] then mu.(locked := false) else mu.(queue := mu.queue[1..])
    requires var q := p.locks.mutexes[m].queue;
             forall u: TaskId :: (Granted(p', u, m) <==> q != [] && u == q[0])
                              && (Waiting(p', u, m) <==> Waiting(p, u, m) && !(q != [] && u == q[0]))
    ensures MutexInv(p', m)
  {
    var q := p.locks.mutexes[m].queue;
    if q != [] {
      assert [q[0]] + q[1..] == q;
      assert Claims(p', q[0], m);
    }
  }

  /** Past the checks without being inside: the window of a hand-over, or a stale holder. */
  lemma UnlockFromOutside(p: Proto, t: TaskId, m: nat)
    requires Inv(p) && t != NULL && Resumed(p, t) == User
    requires UnlockPasses(p.locks, t, m) && t !in p.inside[m]
    ensures Inv(Step(p, UnlockBy(t, m))) <==> !p.locks.mutexes[m].locked && p.locks.tcbs[t].holdsLock == 0
  {
    var p' := Step(p, UnlockBy(t, m));
    var q := p.locks.mutexes[m].queue;
    assert MutexInv(p, m) && TaskInv(p, t);
    assert p'.inside[m] == p.inside[m];
    if p.locks.mutexes[m].locked {
      var c: TaskId :| Claims(p, c, m);
      assert c != t && Granted(p, c, m);
      assert c !in q && (q != [] ==> q[0] in q && Waiting(p, q[0], m));
      assert Claims(p', c, m);
      if q == [] {
        assert !p'.locks.mutexes[m].locked;
      } else {
        assert Claims(p', q[0], m) && q[0] != c;
      }
      assert !MutexInv(p', m);
    } else if p.locks.tcbs[t].holdsLock == 0 {
      assert p'.locks.tcbs[t] == p.locks.tcbs[t];
      assert p'.locks.tcbs == p.locks.tcbs && p'.locks.mutexes == p.locks.mutexes && p'.inside == p.inside;
      assert p' == p;
    } else {
      HeldChanges(p.inside, p'.inside, t, m, OS_NUM_MUTEX);
      assert !TaskInv(p', t);
    }
  }

  /** Which unlock calls keep the protocol intact, exactly: an unlock by the task inside; one that
      the kernel rejects; and a repeated one, if the caller then holds nothing else. */
  lemma UnlockKeepsIffHarmless(p: Proto, t: TaskId, m: int)
    requires Inv(p) && t != NULL && Resumed(p, t) == User
    ensures Inv(Step(p, UnlockBy(t, m))) <==> HarmlessUnlock(p, t, m)
  {
    if !UnlockPasses(p.locks, t, m) {
      assert Step(p, UnlockBy(t, m)) == p;
    } else if t in p.inside[m] {
      UnlockFromInside(p, t, m);
    } else {
      UnlockFromOutside(p, t, m);
    }
  }

  lemma StepKeeps(p: Proto, e: Event)
    requires Inv(p) && Enabled(p, e)
    ensures Inv(Step(p, e))
  {
    match e
    case MakeMutex => CreateKeeps(p);
    case LockBy(t, m) => LockKeeps(p, t, m);
    case ResumeOf(t) => ResumeKeeps(p, t);
    case UnlockBy(t, m) => UnlockKeepsIffHarmless(p, t, m);
  }

  lemma {:induction false} RunKeeps(p: Proto, events: seq<Event>)
    requires Inv(p) && Legal(p, events)
    ensures Inv(Run(p, events))
    decreases |events|
  {
    if events != [] {
      StepKeeps(p, events[0]);
      RunKeeps(Step(p, events[0]), events[1..]);
    }
  }

  // ---------------------------------------------------------------- theorems over runs

  /** Arrivals that have not got in yet, oldest first. */
  ghost function Backlog(p: Proto, m: nat): seq<TaskId>
    requires p.WellFormed() && m < OS_NUM_MUTEX
  {
    if exists g: TaskId :: Granted(p, g, m) then
      (var g: TaskId :| Granted(p, g, m); [g]) + p.locks.mutexes[m].queue
    else p.locks.mutexes[m].queue
  }

  /** Whatever the scheduler does, at most one task is inside a mutex or has been handed it, the
      lock flag says whether there is one, and nobody sleeps on a mutex that is free. */
  lemma MutualExclusion(p: Proto, events: seq<Event>, m: nat, t: TaskId, u: TaskId)
    requires Init(p) && Legal(p, events) && m < OS_NUM_MUTEX
    ensures var q := Run(p, events);
            && (Claims(q, t, m) && Claims(q, u, m) ==> t == u)
            && (q.locks.mutexes[m].locked <==> exists c: TaskId :: Claims(q, c, m))
            && (Waiting(q, t, m) ==> q.locks.mutexes[m].locked)
  {
    InitInv(p);
    RunKeeps(p, events);
    assert MutexInv(Run(p, events), m);
  }

  /** Tasks get into a mutex in exactly the order in which they came to it: those already in
      are a prefix of the arrivals, and the rest is the granted task followed by the queue. */
  lemma FirstComeFirstServed(p: Proto, events: seq<Event>, m: nat)
    requires Init(p) && Legal(p, events) && m < OS_NUM_MUTEX
    ensures var q := Run(p, events); q.arrived[m] == q.entered[m] + Backlog(q, m)
  {
    InitInv(p);
    RunKeeps(p, events);
    var q := Run(p, events);
    assert MutexInv(q, m);
    if g: TaskId :| Granted(q, g, m) {
      assert forall h: TaskId :: Granted(q, h, m) ==> Claims(q, h, m);
      assert q.entered[m] + [g] + q.locks.mutexes[m].queue == q.entered[m] + ([g] + q.locks.mutexes[m].queue);
      assert Backlog(q, m) == [g] + q.locks.mutexes[m].queue;
    }
  }

  /** `holds_lock` counts the mutexes a task is inside of, and the ceiling priority 0 is in force
      while that count is positive, with one exception: a task that slept on one mutex while
      holding another gets its native priority at the hand-over and keeps it until it resumes. */
  lemma CountAndCeiling(p: Proto, events: seq<Event>, t: TaskId)
    requires Init(p) && Legal(p, events) && p.locks.tcbs[t].nativePrio != 0
    ensures var q := Run(p, events); var tcb := q.locks.tcbs[t];
            && tcb.holdsLock == Held(q.inside, t)
            && ((tcb.curPrio == 0 <==> Held(q.inside, t) > 0) <==> !(Held(q.inside, t) > 0 && HandedOver(q, t)))
  {
    InitInv(p);
    RunKeeps(p, events);
    NativePrioKept(p, events, t);
    assert TaskInv(Run(p, events), t);
  }

  lemma {:induction false} NativePrioKept(p: Proto, events: seq<Event>, t: TaskId)
    requires p.WellFormed()
    ensures Run(p, events).locks.tcbs[t].nativePrio == p.locks.tcbs[t].nativePrio
    decreases |events|
  {
    if events != [] { NativePrioKept(Step(p, events[0]), events[1..], t); }
  }

  lemma GrantOutlastsStep(p: Proto, e: Event, g: TaskId, m: nat)
    requires Inv(p) && Enabled(p, e) && m < OS_NUM_MUTEX && Granted(p, g, m) && e != ResumeOf(g)
    ensures Granted(Step(p, e), g, m) && Step(p, e).entered[m] == p.entered[m]
  {
    assert MutexInv(p, m) && Claims(p, g, m);
    assert forall u: TaskId :: Granted(p, u, m) ==> Claims(p, u, m);
    if e.UnlockBy? && UnlockPasses(p.locks, e.task, e.m) {
      var q := p.locks.mutexes[e.m].queue;
      assert MutexInv(p, e.m);
      assert q != [] ==> q[0] in q && Waiting(p, q[0], e.m);
    }
    assert e.ResumeOf? ==> !Granted(p, e.task, m);
  }

  /** From the unlock that grants g the mutex until g itself resumes, nobody gets in: the mutex
      stays locked and empty for however long, and g stays the one to enter next. */
  lemma {:induction false} NoBarging(p: Proto, events: seq<Event>, g: TaskId, m: nat)
    requires Inv(p) && Legal(p, events) && m < OS_NUM_MUTEX && Granted(p, g, m)
    requires ResumeOf(g) !in events
    ensures var p' := Run(p, events);
            Granted(p', g, m) && p'.entered[m] == p.entered[m] && p'.locks.mutexes[m].locked
    decreases |events|
  {
    assert MutexInv(p, m) && Claims(p, g, m);
    if events != [] {
      GrantOutlastsStep(p, events[0], g, m);
      StepKeeps(p, events[0]);
      NoBarging(Step(p, events[0]), events[1..], g, m);
    }
  }

  // ---------------------------------------------------------------- where the kernel's checks fall short

  /** Right after `mutex_init`. */
  ghost predicate Booted(p: Proto) {
    Init(p) && forall m :: 0 <= m < OS_NUM_MUTEX ==> p.locks.mutexes[m] == FREE_MUTEX
  }

  /** A hand-over under way on mutex 0: task 1 has left, 2 is granted, 3 still sleeps. */
  ghost predicate Window(p: Proto) {
    && p.WellFormed()
    && p.locks.mutexes[0] == Mutex(false, true, 1, [3]) && p.inside[0] == {}
    && Granted(p, 2, 0) && Waiting(p, 3, 0) && Resumed(p, 1) == User
  }

  /** Task 1 is inside mutex 0, and q sleeps on it; all others are in their own code. */
  ghost predicate Crowded(p: Proto, q: seq<TaskId>) {
    && p.WellFormed() && p.locks.mutexes[0] == Mutex(false, true, 1, q)
    && p.inside[0] == {1} && p.locks.tcbs[1].holdsLock == 1
    && (forall t: TaskId :: if t in q then Waiting(p, t, 0) else Resumed(p, t) == User)
  }

  lemma QueueUp(p: Proto)
    requires Crowded(p, [])
    ensures Crowded(Step(Step(p, LockBy(2, 0)), LockBy(3, 0)), [2, 3])
  {
    assert Crowded(Step(p, LockBy(2, 0)), [2]);
  }

  lemma OpenWindow(p: Proto)
    requires Crowded(p, [2, 3])
    ensures Window(Step(p, UnlockBy(1, 0)))
  {
    assert [2, 3][1..] == [3];
    assert Waiting(p, 2, 0) && Waiting(p, 3, 0) && 1 !in [2, 3] && Resumed(p, 1) == User;
  }

  lemma ReachWindow(p: Proto)
    requires Booted(p)
    ensures var events := [MakeMutex, LockBy(1, 0), LockBy(2, 0), LockBy(3, 0), UnlockBy(1, 0)];
            Legal(p, events) && Window(Run(p, events))
  {
    var p2 := Step(Step(p, MakeMutex), LockBy(1, 0));
    assert FirstAvailable(p.locks.mutexes, 0) == 0;
    QueueUp(p2);
    OpenWindow(Step(Step(p2, LockBy(2, 0)), LockBy(3, 0)));
    RunOfFive(p, MakeMutex, LockBy(1, 0), LockBy(2, 0), LockBy(3, 0), UnlockBy(1, 0));
  }

  /** The holder field still names the old owner while a hand-over is under way, so a second
      unlock by that owner passes the checks and grants the mutex a second time: from any
      initial state these calls put tasks 2 and 3 inside mutex 0 together. */
  lemma RepeatedUnlockBreaksExclusion(p: Proto)
    requires Booted(p)
    ensures var events := [MakeMutex, LockBy(1, 0), LockBy(2, 0), LockBy(3, 0), UnlockBy(1, 0)];
            var q := Run(p, events);
            && Legal(p, events) && UnlockPasses(q.locks, 1, 0) && !HarmlessUnlock(q, 1, 0)
            && Run(q, [UnlockBy(1, 0), ResumeOf(2), ResumeOf(3)]).inside[0] == {2, 3}
  {
    ReachWindow(p);
    var q := Run(p, [MakeMutex, LockBy(1, 0), LockBy(2, 0), LockBy(3, 0), UnlockBy(1, 0)]);
    var q1 := Step(q, UnlockBy(1, 0));
    assert Granted(q1, 2, 0) && Granted(q1, 3, 0) && q1.inside[0] == {};
    var q2 := Step(q1, ResumeOf(2));
    assert Granted(q2, 3, 0) && q2.inside[0] == {2};
    RunOfThree(q, UnlockBy(1, 0), ResumeOf(2), ResumeOf(3));
  }

  lemma RunOfOne(p: Proto, a: Event)
    requires p.WellFormed()
    ensures Run(p, [a]) == Step(p, a) && (Legal(p, [a]) <==> Enabled(p, a))
  {
    assert [a][1..] == [];
  }

  lemma RunOfTwo(p: Proto, a: Event, b: Event)
    requires p.WellFormed()
    ensures Run(p, [a, b]) == Step(Step(p, a), b)
    ensures Legal(p, [a, b]) <==> Enabled(p, a) && Enabled(Step(p, a), b)
  {
    RunOfOne(Step(p, a), b);
    assert [a, b][1..] == [b];
  }

  lemma RunOfThree(p: Proto, a: Event, b: Event, c: Event)
    requires p.WellFormed()
    ensures Run(p, [a, b, c]) == Step(Step(Step(p, a), b), c)
    ensures Legal(p, [a, b, c]) <==> Enabled(p, a) && Enabled(Step(p, a), b) && Enabled(Step(Step(p, a), b), c)
  {
    RunOfTwo(Step(p, a), b, c);
    assert [a, b, c][1..] == [b, c];
  }

  lemma RunOfFive(p: Proto, a: Event, b: Event, c: Event, d: Event, e: Event)
    requires p.WellFormed()
    ensures Run(p, [a, b, c, d, e]) == Step(Step(Step(Step(Step(p, a), b), c), d), e)
    ensures Legal(p, [a, b, c, d, e]) <==>
              && Enabled(p, a) && Enabled(Step(p, a), b)
              && Legal(Step(Step(p, a), b), [c, d, e])
  {
    RunOfThree(Step(Step(p, a), b), c, d, e);
    assert [b, c, d, e][1..] == [c, d, e];
    assert [a, b, c, d, e][1..] == [b, c, d, e];
  }

  /** The other way past the checks: a mutex that is free still names its last holder. From any
      booted state task 1 can come to hold mutex 1 while mutex 0 is free and names it; a second
      unlock of mutex 0 then takes mutex 1 off its count and its ceiling, and mutex 1 stays locked. */
  lemma StaleHolderBreaksCount(p: Proto)
    requires Booted(p)
    ensures var events := [MakeMutex, MakeMutex, LockBy(1, 0), UnlockBy(1, 0), LockBy(1, 1)];
            var q := Run(p, events); var r := Step(q, UnlockBy(1, 0));
            && Legal(p, events) && UnlockPasses(q.locks, 1, 0) && !HarmlessUnlock(q, 1, 0)
            && r.inside[1] == {1} && r.locks.mutexes[1].locked
            && r.locks.tcbs[1].holdsLock == 0 && r.locks.tcbs[1].curPrio == r.locks.tcbs[1].nativePrio
  {
    var p1 := Step(p, MakeMutex);
    var p2 := Step(p1, MakeMutex);
    var p3 := Step(p2, LockBy(1, 0));
    var p4 := Step(p3, UnlockBy(1, 0));
    assert FirstAvailable(p.locks.mutexes, 0) == 0;
    assert p1.locks.mutexes[0] == Mutex(false, false, NULL, []) && p1.locks.mutexes[1] == FREE_MUTEX;
    assert FirstAvailable(p1.locks.mutexes, 0) == 1;
    assert p2.locks.mutexes[0] == p2.locks.mutexes[1] == Mutex(false, false, NULL, []);
    assert p3.locks.mutexes[0] == Mutex(false, true, 1, []) && p3.inside[0] == {1};
    assert p4.locks.mutexes[0] == Mutex(false, false, 1, []) && p4.locks.tcbs[1].holdsLock == 0;
    RunOfFive(p, MakeMutex, MakeMutex, LockBy(1, 0), UnlockBy(1, 0), LockBy(1, 1));
  }

  /** In the same window the old owner, which holds nothing any more, cannot queue up again:
      its lock call is turned down as a self-deadlock. */
  lemma OldOwnerIsTurnedDown(p: Proto, t: TaskId, m: nat)
    requires Inv(p) && t != NULL && Resumed(p, t) == User
    requires IsMutex(m) && t in p.inside[m] && UnlockPasses(p.locks, t, m)
    ensures var p' := Step(p, UnlockBy(t, m));
            MutexLock(p'.locks, t, m).1 == Return(-EDEADLOCK) <==> p.locks.mutexes[m].queue != []
  {
    assert MutexInv(p, m) && Claims(p, t, m);
  }
}
