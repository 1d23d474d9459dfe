/** The arithmetic of the clock in irqHandler_c.c and of the match times in device.c: a series of timer
    interrupts, each with a counter reading, and one device. */
module Clocks {
  import opened Config
  import opened Machine

  // ---------------------------------------------------------------- the clock

  /** Whole ticks go to the clock, the rest to the drift, and a full drift carries over once. */
  function Clock(time: Word, drift: Word, oscr: Word): (Word, Word) {
    var t, d := AddWord(time, oscr / OSTMR_COUNT), AddWord(drift, oscr % OSTMR_COUNT);
    if d >= OSTMR_COUNT then (AddWord(t, 1), d - OSTMR_COUNT) else (t, d)
  }

  lemma WrapOnce(q: nat, x: Word)
    ensures AddWord(q % WORD, x) == (q + x) % WORD
  {
    var k := q / WORD;
    assert q + x == WORD * k + (q % WORD + x);
  }

  /** Clock and drift are quotient and remainder of `total` counter cycles, the clock modulo its
      word size; so they are for 0 cycles at boot. */
  ghost predicate ShowsTime(time: Word, drift: Word, total: nat) {
    drift == total % OSTMR_COUNT && time == total / OSTMR_COUNT % WORD
  }

  lemma ClockAdds(time: Word, drift: Word, oscr: Word, total: nat)
    requires ShowsTime(time, drift, total)
    ensures var (t, d) := Clock(time, drift, oscr); ShowsTime(t, d, total + oscr)
  {
    var q, ticks, rest := total / OSTMR_COUNT, oscr / OSTMR_COUNT, drift + oscr % OSTMR_COUNT;
    assert AddWord(drift, oscr % OSTMR_COUNT) == rest;
    assert total + oscr == (q + ticks) * OSTMR_COUNT + rest;
    WrapOnce(q, ticks);
    WrapOnce(q + ticks, 1);
  }

  lemma ClockStands(time: Word, drift: Word)
    requires drift < OSTMR_COUNT
    ensures Clock(time, drift, 0) == (time, drift)
  {
  }

  /** The clock never gains: it shows no more than was counted. */
  lemma ClockIsBounded(time: Word, drift: Word, oscr: Word)
    requires drift < OSTMR_COUNT
    ensures var (t, d) := Clock(time, drift, oscr);
            d < OSTMR_COUNT && t * OSTMR_COUNT + d <= time * OSTMR_COUNT + drift + oscr
  {
    assert AddWord(time, oscr / OSTMR_COUNT) <= time + oscr / OSTMR_COUNT;
  }

  lemma ClockNoWrap(time: Word, drift: Word, oscr: Word)
    requires drift < OSTMR_COUNT && time + oscr / OSTMR_COUNT + 9001 < WORD
    ensures var (t, d) := Clock(time, drift, oscr); time <= t && t + 9000 < WORD && d < OSTMR_COUNT
  {
  }

  lemma WrapSum(x: Word, y: Word)
    ensures AddWord(x, y) == if x + y < WORD then x + y else x + y - WORD
  {
  }

  // ---------------------------------------------------------------- periods

  /** k periods of length f. */
  function Times(f: nat, k: nat): nat {
    if k == 0 then 0 else f + Times(f, k - 1)
  }

  lemma {:induction false} TimesIsProduct(f: nat, k: nat)
    ensures Times(f, k) == f * k
  {
    if k > 0 {
      TimesIsProduct(f, k - 1);
      assert f * k == f + f * (k - 1);
    }
  }

  lemma {:induction false} AtMostQuotient(f: nat, k: nat, x: nat)
    requires f >= 2
    ensures Times(f, k) <= x <==> k <= Quot(x, f)
  {
    if k > 0 && x >= f { AtMostQuotient(f, k - 1, x - f); }
  }

  lemma QuotientGrows(f: nat, x: nat, y: nat)
    requires f >= 2 && x <= y
    ensures Quot(x, f) <= Quot(y, f)
  {
    AtMostQuotient(f, Quot(x, f), x);
    AtMostQuotient(f, Quot(x, f), y);
  }

  // ---------------------------------------------------------------- one device

  /** The clock and the match time of a device. */
  datatype Timer = Timer(time: Word, drift: Word, next: Word)

  /** A period between two of the match times that `dev_freq` gives. */
  type Period = f: Word | 2 <= f <= 9000 witness 100

  /** The interrupt brings the clock to the match time. */
  predicate Reached(tm: Timer, oscr: Word) {
    tm.next <= Clock(tm.time, tm.drift, oscr).0
  }

  function Count(b: bool): nat {
    if b then 1 else 0
  }

  function Tick(tm: Timer, f: Period, oscr: Word): Timer {
    var (t, d) := Clock(tm.time, tm.drift, oscr);
    Timer(t, d, if Reached(tm, oscr) then AddWord(tm.next, f) else tm.next)
  }

  function TickAll(tm: Timer, f: Period, readings: seq<Word>): Timer
    decreases |readings|
  {
    if readings == [] then tm else TickAll(Tick(tm, f, readings[0]), f, readings[1..])
  }

  /** How many of the interrupts signal the device. */
  function Signalled(tm: Timer, f: Period, readings: seq<Word>): nat
    decreases |readings|
  {
    if readings == [] then 0
    else Count(Reached(tm, readings[0])) + Signalled(Tick(tm, f, readings[0]), f, readings[1..])
  }

  /** How many periods have passed on the clock: clock / period. */
  function Due(tm: Timer, f: Period): nat {
    Quot(tm.time, f)
  }

  /** The device is set for its signal number k + 1, and none of the k before it came early. */
  ghost predicate HasSent(tm: Timer, f: Period, k: nat) {
    tm.drift < OSTMR_COUNT && tm.next == Times(f, 1 + k) && k <= Due(tm, f)
  }

  /** In plain numbers: the match time is the period times k + 1, and k is at most clock / period. */
  lemma HasSentInNumbers(tm: Timer, f: Period, k: nat)
    ensures HasSent(tm, f, k) <==> tm.drift < OSTMR_COUNT && tm.next == f * (1 + k) && k <= tm.time / f
  {
    TimesIsProduct(f, 1 + k);
    Division(tm.time, f);
  }

  /** The clock stays clear of its word size by the longest period. */
  ghost predicate NoWrap(tm: Timer, f: Period, readings: seq<Word>)
    decreases |readings|
  {
    readings == [] ||
    (tm.time + readings[0] / OSTMR_COUNT + 9001 < WORD && NoWrap(Tick(tm, f, readings[0]), f, readings[1..]))
  }

  /** One interrupt: the device gets nearer to the clock by at most one signal, and never ahead. */
  lemma TickStep(tm: Timer, f: Period, oscr: Word, k: nat)
    requires HasSent(tm, f, k) && tm.time + oscr / OSTMR_COUNT + 9001 < WORD
    ensures var tm', k' := Tick(tm, f, oscr), k + Count(Reached(tm, oscr));
            HasSent(tm', f, k') && Due(tm, f) <= Due(tm', f) && k' == Min(k + 1, Due(tm', f))
  {
    ClockNoWrap(tm.time, tm.drift, oscr);
    QuotientGrows(f, tm.time, Tick(tm, f, oscr).time);
    AtMostQuotient(f, 1 + k, Tick(tm, f, oscr).time);
  }

  /** At every interrupt a count that starts at k goes up by one, but not beyond the periods passed. */
  predicate InStep(tm: Timer, f: Period, k: nat, readings: seq<Word>)
    decreases |readings|
  {
    readings != [] ==>
      var tm', k' := Tick(tm, f, readings[0]), k + Count(Reached(tm, readings[0]));
      k' == Min(k + 1, Due(tm', f)) && InStep(tm', f, k', readings[1..])
  }

  /** The signals of a device keep in step with the clock, and its match time with its signals. */
  lemma {:induction false} SignalsFollow(tm: Timer, f: Period, k: nat, readings: seq<Word>)
    requires HasSent(tm, f, k) && NoWrap(tm, f, readings)
    ensures InStep(tm, f, k, readings) && HasSent(TickAll(tm, f, readings), f, k + Signalled(tm, f, readings))
    decreases |readings|
  {
    if readings != [] {
      TickStep(tm, f, readings[0], k);
      SignalsFollow(Tick(tm, f, readings[0]), f, k + Count(Reached(tm, readings[0])), readings[1..]);
    }
  }

  /** Of what is due at the beginning, n interrupts deliver all, or n signals. */
  lemma {:induction false} CatchesUp(tm: Timer, f: Period, k: nat, readings: seq<Word>)
    requires HasSent(tm, f, k) && NoWrap(tm, f, readings)
    ensures k + Signalled(tm, f, readings) >= Min(k + |readings|, Due(tm, f))
    decreases |readings|
  {
    if readings != [] {
      TickStep(tm, f, readings[0], k);
      CatchesUp(Tick(tm, f, readings[0]), f, k + Count(Reached(tm, readings[0])), readings[1..]);
    }
  }

  /** After each interrupt the device, with k signals before the first, has signalled for every period. */
  predicate KeepsUp(tm: Timer, f: Period, k: nat, readings: seq<Word>)
    decreases |readings|
  {
    readings != [] ==>
      var tm', k' := Tick(tm, f, readings[0]), k + Count(Reached(tm, readings[0]));
      k' == Due(tm', f) && KeepsUp(tm', f, k', readings[1..])
  }

  /** No interrupt comes so late that a second period has passed. */
  predicate InTime(tm: Timer, f: Period, readings: seq<Word>)
    decreases |readings|
  {
    readings != [] ==>
      var tm' := Tick(tm, f, readings[0]);
      Due(tm', f) <= Due(tm, f) + 1 && InTime(tm', f, readings[1..])
  }

  lemma {:induction false} KeepsUpIff(tm: Timer, f: Period, readings: seq<Word>)
    requires HasSent(tm, f, Due(tm, f)) && NoWrap(tm, f, readings)
    ensures KeepsUp(tm, f, Due(tm, f), readings) <==> InTime(tm, f, readings)
    decreases |readings|
  {
    if readings != [] {
      var tm' := Tick(tm, f, readings[0]);
      TickStep(tm, f, readings[0], Due(tm, f));
      if Due(tm', f) <= Due(tm, f) + 1 { KeepsUpIff(tm', f, readings[1..]); }
    }
  }
}
