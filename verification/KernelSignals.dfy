/** The clock and the devices over whole runs: no counted time is lost, signals keep to their periods,
    and a task that waits for a device wakes up with its next signal. */
module KernelSignals {
  import opened Config
  import opened Machine
  import opened Clocks
  import opened KernelSpec
  import opened KernelInvariant
  import opened KernelRuns

  // ---------------------------------------------------------------- ticks

  /** Sum of the counter readings taken by timer interrupts. */
  function Counted(events: seq<Event>): nat {
    if events == [] then 0 else Reading(events[0]) + Counted(events[1..])
  }

  /** An interrupt of the timer. */
  predicate IsTick(e: Event) {
    e.Interrupt? && e.timerPending
  }

  function Reading(e: Event): Word {
    if IsTick(e) then e.oscr else 0
  }

  /** Only timer interrupts move the clock. */
  lemma StepClock(s: State, e: Event)
    requires s.WellFormed() && CanHappen(s, e)
    ensures var s' := Step(s, e);
            (s'.time, s'.drift) == if IsTick(e) then Clock(s.time, s.drift, e.oscr) else (s.time, s.drift)
  {
  }

  /** No counter reading is lost, whatever the timing of the interrupts: over any run the clock and
      the drift keep showing everything that was counted. */
  lemma {:induction false} TicksAreConserved(s: State, events: seq<Event>, total: nat)
    requires s.WellFormed() && Legal(s, events) && ShowsTime(s.time, s.drift, total)
    ensures ShowsTime(Run(s, events).time, Run(s, events).drift, total + Counted(events))
    decreases |events|
  {
    if events != [] {
      StepClock(s, events[0]);
      ClockAdds(s.time, s.drift, Reading(events[0]), total);
      if Reading(events[0]) == 0 { ClockStands(s.time, s.drift); }
      TicksAreConserved(Step(s, events[0]), events[1..], total + Reading(events[0]));
    }
  }

  // ---------------------------------------------------------------- device signals

  lemma {:induction false} ScanDevices(s: State, ms: Word, k: nat)
    requires s.WellFormed() && k <= NUM_DEVICES
    ensures forall d :: 0 <= d < k ==>
              Scan(s, ms, k).devices[d] ==
                if Fires(s, d, ms) then Device([], AddWord(s.devices[d].nextMatch, Freq(d))) else s.devices[d]
  {
    if k > 0 { ScanDevices(s, ms, k - 1); }
  }

  /** The event is a timer interrupt that brings the clock to device d's match time. */
  predicate Signals(s: State, e: Event, d: nat)
    requires s.WellFormed() && d < NUM_DEVICES
  {
    IsTick(e) && s.devices[d].nextMatch <= Clock(s.time, s.drift, e.oscr).0
  }

  lemma StepDevice(s: State, e: Event, d: nat)
    requires s.WellFormed() && CanHappen(s, e) && !Installs(e) && d < NUM_DEVICES
    ensures var dev, dev' := s.devices[d], Step(s, e).devices[d];
            if Signals(s, e, d) then dev' == Device([], AddWord(dev.nextMatch, Freq(d)))
            else dev'.nextMatch == dev.nextMatch && dev.queue <= dev'.queue
  {
    if IsTick(e) {
      var (t, drift) := Clock(s.time, s.drift, e.oscr);
      ScanDevices(s.(time := t, drift := drift), t, NUM_DEVICES);
    }
  }

  /** One step of somebody's sleep: it ends exactly with the signal, and then on the processor or
      in the run queue. */
  lemma SleepStep(s: State, e: Event, t: TaskId, d: nat)
    requires Inv(s) && CanHappen(s, e) && !Installs(e) && Careful(s, e) && d < NUM_DEVICES && SleepsOn(s.devices, t, d)
    ensures var s' := Step(s, e);
            if Signals(s, e, d) then t == s'.cur || Queued(s'.slots, t)
            else SleepsOn(s'.devices, t, d) && s'.devices[d].nextMatch == s.devices[d].nextMatch
  {
    var s' := Step(s, e);
    StepDevice(s, e, d);
    StepKeepsIff(s, e);
    if Signals(s, e, d) {
      assert s'.installed == s.installed;
      forall i | 0 <= i < NUM_DEVICES ensures !SleepsOn(s'.devices, t, i) {
        StepDevice(s, e, i);
        var (time, drift) := Clock(s.time, s.drift, e.oscr);
        ScanDevices(s.(time := time, drift := drift), time, NUM_DEVICES);
        assert i != d ==> !SleepsOn(s.devices, t, i);
      }
      assert OnePlace(s'.slots, s'.cur, s'.devices, t);
    }
  }

  /** No event of the run signals device d. */
  ghost predicate Silent(s: State, events: seq<Event>, d: nat)
    requires s.WellFormed() && Legal(s, events) && d < NUM_DEVICES
    decreases |events|
  {
    events == [] || (!Signals(s, events[0], d) && Silent(Step(s, events[0]), events[1..], d))
  }

  lemma {:induction false} SleepsWhileSilent(s: State, events: seq<Event>, t: TaskId, d: nat)
    requires Inv(s) && Legal(s, events) && OneTaskSet(events)
    requires d < NUM_DEVICES && SleepsOn(s.devices, t, d) && Silent(s, events, d)
    ensures var r := Run(s, events); SleepsOn(r.devices, t, d) && r.devices[d].nextMatch == s.devices[d].nextMatch
    decreases |events|
  {
    if events != [] {
      SleepStep(s, events[0], t, d);
      StepKeepsIff(s, events[0]);
      SleepsWhileSilent(Step(s, events[0]), events[1..], t, d);
    }
  }

  /** Exact wake-up: whatever the others do meanwhile, a task asleep on device d with match time x
      sleeps on through every event before the first timer interrupt that finds the clock at x or
      later, and that interrupt makes it ready or runs it. */
  lemma ExactWakeUp(s: State, events: seq<Event>, e: Event, t: TaskId, d: nat)
    requires Inv(s) && Legal(s, events) && OneTaskSet(events)
    requires d < NUM_DEVICES && SleepsOn(s.devices, t, d) && Silent(s, events, d)
    requires CanHappen(Run(s, events), e) && Careful(Run(s, events), e) && !Installs(e)
    ensures var r := Run(s, events); var r' := Step(r, e); var x := s.devices[d].nextMatch;
            && SleepsOn(r.devices, t, d)
            && if IsTick(e) && x <= r'.time then t == r'.cur || Queued(r'.slots, t)
               else SleepsOn(r'.devices, t, d) && r'.devices[d].nextMatch == x
  {
    RunKeeps(s, events);
    SleepsWhileSilent(s, events, t, d);
    SleepStep(Run(s, events), e, t, d);
    StepClock(Run(s, events), e);
  }

  // ---------------------------------------------------------------- signals over a run

  /** What the clock arithmetic sees of a state and of a run. */
  function TimerOf(s: State, d: nat): Timer
    requires s.WellFormed() && d < NUM_DEVICES
  {
    Timer(s.time, s.drift, s.devices[d].nextMatch)
  }

  function Readings(events: seq<Event>): seq<Word> {
    if events == [] then []
    else if IsTick(events[0]) then [events[0].oscr] + Readings(events[1..]) else Readings(events[1..])
  }

  /** How many events of the run signal device d. */
  ghost function SignalCount(s: State, events: seq<Event>, d: nat): nat
    requires s.WellFormed() && Legal(s, events) && d < NUM_DEVICES
    decreases |events|
  {
    if events == [] then 0
    else Count(Signals(s, events[0], d)) + SignalCount(Step(s, events[0]), events[1..], d)
  }

  lemma TimerStep(s: State, e: Event, d: nat)
    requires s.WellFormed() && CanHappen(s, e) && !Installs(e) && d < NUM_DEVICES
    ensures TimerOf(Step(s, e), d) == if IsTick(e) then Tick(TimerOf(s, d), Freq(d), e.oscr) else TimerOf(s, d)
    ensures Signals(s, e, d) <==> IsTick(e) && Reached(TimerOf(s, d), e.oscr)
  {
    StepDevice(s, e, d);
    StepClock(s, e);
  }

  /** Whatever tasks do between the interrupts, clock, match time and signals of a device only depend
      on the counter readings. */
  lemma {:induction false} TimerRun(s: State, events: seq<Event>, d: nat)
    requires s.WellFormed() && Legal(s, events) && OneTaskSet(events) && d < NUM_DEVICES
    ensures TimerOf(Run(s, events), d) == TickAll(TimerOf(s, d), Freq(d), Readings(events))
    ensures SignalCount(s, events, d) == Signalled(TimerOf(s, d), Freq(d), Readings(events))
    decreases |events|
  {
    if events != [] {
      TimerStep(s, events[0], d);
      TimerRun(Step(s, events[0]), events[1..], d);
      assert IsTick(events[0]) ==> Readings(events)[1..] == Readings(events[1..]);
    }
  }

  lemma CountOfRun(s: State, events: seq<Event>, d: nat)
    requires s.WellFormed() && Legal(s, events) && OneTaskSet(events) && d < NUM_DEVICES
    ensures SignalCount(s, events, d) == Signalled(TimerOf(s, d), Freq(d), Readings(events))
  {
    TimerRun(s, events, d);
  }

  /** The run stays with its task set, and the clock clear of its word size. */
  ghost predicate Clocked(s: State, events: seq<Event>, d: nat)
    requires s.WellFormed() && d < NUM_DEVICES
  {
    Legal(s, events) && OneTaskSet(events) && NoWrap(TimerOf(s, d), Freq(d), Readings(events))
  }

  ghost predicate ClockedExecution(x: Execution, d: nat) {
    x.Valid() && d < NUM_DEVICES && Clocked(x.Start(), x.events, d)
  }

  /** The signals of device d since `dev_init`. */
  ghost function Sent(x: Execution, d: nat): nat
    requires x.Valid() && d < NUM_DEVICES
  {
    SignalCount(x.Start(), x.events, d)
  }

  lemma StartIsFresh(x: Execution, d: nat)
    requires x.Boots() && d < NUM_DEVICES
    ensures HasSent(TimerOf(x.Start(), d), Freq(d), 0)
  {
    StartInv(x);
  }

  lemma DeviceFollows(s: State, d: nat, readings: seq<Word>)
    requires s.WellFormed() && d < NUM_DEVICES && HasSent(TimerOf(s, d), Freq(d), 0)
    requires NoWrap(TimerOf(s, d), Freq(d), readings)
    ensures var tm, f := TimerOf(s, d), Freq(d);
            InStep(tm, f, 0, readings) && HasSent(TickAll(tm, f, readings), f, Signalled(tm, f, readings))
  {
    SignalsFollow(TimerOf(s, d), Freq(d), 0, readings);
  }

  lemma SignalsSoFar(x: Execution, d: nat)
    requires ClockedExecution(x, d)
    ensures HasSent(TimerOf(x.State(), d), Freq(d), Sent(x, d))
  {
    StartIsFresh(x, d);
    TimerRun(x.Start(), x.events, d);
    DeviceFollows(x.Start(), d, Readings(x.events));
  }

  /** Which interrupts signal a device, exactly: those at which its count of signals is behind the
      number of periods that have passed on the clock. */
  lemma SignalsExactly(x: Execution, d: nat)
    requires ClockedExecution(x, d)
    ensures InStep(TimerOf(x.Start(), d), Freq(d), 0, Readings(x.events))
  {
    StartIsFresh(x, d);
    DeviceFollows(x.Start(), d, Readings(x.events));
  }

  /** Periodic signals do not drift: after any run since `dev_init` the match time is the period times
      one more than the number k of signals so far; none came early; and a timer interrupt at clock x
      brings k to the smaller of k + 1 and x / period. */
  lemma PeriodicSignals(x: Execution, e: Event, d: nat)
    requires ClockedExecution(x, d) && IsTick(e) && x.State().time + e.oscr / OSTMR_COUNT + 9001 < WORD
    ensures var r, k := x.State(), Sent(x, d);
            && r.devices[d].nextMatch == Times(Freq(d), 1 + k) && Times(Freq(d), k) <= r.time
            && k + Count(Signals(r, e, d)) == Min(k + 1, Due(TimerOf(Step(r, e), d), Freq(d)))
  {
    SignalsSoFar(x, d);
    TimerStep(x.State(), e, d);
    TickStep(TimerOf(x.State(), d), Freq(d), e.oscr, Sent(x, d));
    AtMostQuotient(Freq(d), Sent(x, d), x.State().time);
  }

  lemma DeviceCatchesUp(s: State, more: seq<Event>, d: nat, k: nat)
    requires s.WellFormed() && d < NUM_DEVICES && HasSent(TimerOf(s, d), Freq(d), k) && Clocked(s, more, d)
    ensures var tm, f, readings := TimerOf(s, d), Freq(d), Readings(more);
            k + Signalled(tm, f, readings) >= Min(k + |readings|, Due(tm, f))
  {
    CatchesUp(TimerOf(s, d), Freq(d), k, Readings(more));
  }

  /** No signal gets lost: of what is due in some state of a run, n timer interrupts deliver all, or n
      signals, whatever else happens. In a reachable state k is the count so far, as SignalsSoFar says. */
  lemma NoSignalIsLost(s: State, more: seq<Event>, d: nat, k: nat)
    requires s.WellFormed() && d < NUM_DEVICES && HasSent(TimerOf(s, d), Freq(d), k) && Clocked(s, more, d)
    ensures k + SignalCount(s, more, d) >= Min(k + |Readings(more)|, Due(TimerOf(s, d), Freq(d)))
  {
    CountOfRun(s, more, d);
    DeviceCatchesUp(s, more, d, k);
  }

  /** A device that starts with nothing due is never behind after a timer interrupt, exactly if each
      interrupt comes before a second period has passed. */
  lemma CaughtUpIffInTime(x: Execution, d: nat)
    requires ClockedExecution(x, d) && Due(TimerOf(x.Start(), d), Freq(d)) == 0
    ensures var tm := TimerOf(x.Start(), d);
            KeepsUp(tm, Freq(d), 0, Readings(x.events)) <==> InTime(tm, Freq(d), Readings(x.events))
  {
    StartIsFresh(x, d);
    KeepsUpIff(TimerOf(x.Start(), d), Freq(d), Readings(x.events));
  }

  /** The clock never shows more than was counted. */
  lemma {:induction false} NothingIsGained(s: State, events: seq<Event>)
    requires s.WellFormed() && Legal(s, events) && s.drift < OSTMR_COUNT
    ensures Run(s, events).time * OSTMR_COUNT + Run(s, events).drift <= s.time * OSTMR_COUNT + s.drift + Counted(events)
    decreases |events|
  {
    if events != [] {
      StepClock(s, events[0]);
      ClockIsBounded(s.time, s.drift, Reading(events[0]));
      NothingIsGained(Step(s, events[0]), events[1..]);
    }
  }

  /** Signals are bounded by counted time: k signals of period f take at least f * k ticks of
      OSTMR_COUNT counter cycles since the clock stood at 0. */
  lemma SignalsTakeCountedTime(x: Execution, d: nat)
    requires ClockedExecution(x, d)
    ensures Times(Freq(d), Sent(x, d)) * OSTMR_COUNT <= x.boot.time * OSTMR_COUNT + x.boot.drift + Counted(x.events)
  {
    SignalsSoFar(x, d);
    AtMostQuotient(Freq(d), Sent(x, d), x.State().time);
    StartIsFresh(x, d);
    NothingIsGained(x.Start(), x.events);
  }

  /** Where the no-wrap condition is needed: a signal moves the match time forward exactly if the sum
      fits the word. Otherwise the match time falls back below one period, and the next timer
      interrupt signals the device again although no time has passed. */
  lemma MatchTimeWraps(s: State, e: Event, d: nat)
    requires s.WellFormed() && CanHappen(s, e) && d < NUM_DEVICES && Signals(s, e, d) && s.drift < OSTMR_COUNT
    ensures var x, x' := s.devices[d].nextMatch, Step(s, e).devices[d].nextMatch;
            && (x < x' <==> x + Freq(d) < WORD)
            && (x + Freq(d) >= WORD ==> x' < Freq(d) && Signals(Step(s, e), Interrupt(true, 0), d))
  {
    StepDevice(s, e, d);
    StepClock(s, e);
    WrapSum(s.devices[d].nextMatch, Freq(d));
    ClockIsBounded(s.time, s.drift, e.oscr);
    ClockStands(Step(s, e).time, Step(s, e).drift);
  }
}
