/** The control loop behind `-pubRate`, which corrects the delay between samples by
    one step whenever it compares the measured rate with the requested one. */
module RateController {
  import opened Machine

  /** `step` is one microsecond in the unit of the delay: spins, or nanoseconds of sleep. */
  datatype Control = Control(pubRate: nat, samplePeriod: nat, step: nat) {
    predicate Valid() { samplePeriod > 0 && step > 0 }
  }

  /** Samples per second over the last period; a clock that did not move reads as one microsecond. */
  function MeasuredRate(c: Control, timeDelta: nat): (rate: nat) {
    if timeDelta > 0 then c.samplePeriod * 1_000_000 / timeDelta else c.samplePeriod * 1_000_000
  }

  /** One correction, in 64-bit unsigned arithmetic. */
  function Adjust(c: Control, delay: nat, rate: nat): (d: nat) {
    if rate > c.pubRate then UInt64(delay + c.step)
    else if rate < c.pubRate && delay > c.step then UInt64(delay - c.step)
    else if rate < c.pubRate && delay <= c.step then 0
    else delay
  }

  /** The subtraction saturates at zero and never underflows. */
  lemma AdjustSaturates(c: Control, delay: nat, rate: nat)
    requires delay + c.step < TWO64
    ensures Adjust(c, delay, rate)
         == if rate > c.pubRate then delay + c.step
            else if rate < c.pubRate then Max(0, delay - c.step)
            else delay
  {
  }

  /** The delay after the checks that read `clock[1..]`, where `clock[0]` was read before the loop. */
  function DelayAfter(c: Control, start: nat, clock: seq<nat>, checks: nat): (d: nat)
    requires checks < |clock| && Running(clock)
  {
    if checks == 0 then start else
      Adjust(c, DelayAfter(c, start, clock, checks - 1), RateAt(c, clock, checks))
  }

  function RateAt(c: Control, clock: seq<nat>, check: nat): (rate: nat)
    requires 0 < check < |clock| && Running(clock)
  {
    MeasuredRate(c, clock[check] - clock[check - 1])
  }

  predicate Running(clock: seq<nat>) {
    forall i :: 0 < i < |clock| ==> clock[i - 1] <= clock[i]
  }

  /** How many checks a loop of `n` samples makes. */
  function ChecksWithin(c: Control, n: nat): (k: nat)
    requires c.Valid()
  {
    if n == 0 then 0 else DivNonNegative(n - 1, c.samplePeriod); (n - 1) / c.samplePeriod
  }

  /** The send loop with everything but the control loop left out. */
  method Run(c: Control, start: nat, numIter: nat, clock: seq<nat>) returns (delay: nat)
    requires c.Valid() && Running(clock) && ChecksWithin(c, numIter) < |clock|
    ensures delay == DelayAfter(c, start, clock, ChecksWithin(c, numIter))
  {
    delay := start;
    var loop, checks, timeLastCheck := 0, 0, clock[0];
    while loop < numIter
      invariant 0 <= loop <= numIter
      invariant checks == ChecksWithin(c, loop) < |clock|
      invariant timeLastCheck == clock[checks]
      invariant delay == DelayAfter(c, start, clock, checks)
    {
      NextCheck(c, loop, numIter);
      if loop > 0 && loop % c.samplePeriod == 0 {
        checks := checks + 1;
        var timeNow := clock[checks];
        var timeDelta := timeNow - timeLastCheck;
        timeLastCheck := timeNow;
        var rate := if timeDelta > 0 then c.samplePeriod * 1_000_000 / timeDelta else c.samplePeriod * 1_000_000;
        if rate > c.pubRate {
          delay := UInt64(delay + c.step);
        } else if rate < c.pubRate && delay > c.step {
          delay := UInt64(delay - c.step);
        } else if rate < c.pubRate && delay <= c.step {
          delay := 0;
        }
      }
      loop := loop + 1;
    }
  }

  /** A check is made at exactly the positive multiples of the period. */
  lemma NextCheck(c: Control, loop: nat, numIter: nat)
    requires c.Valid() && loop < numIter
    ensures ChecksWithin(c, 0) == 0
    ensures ChecksWithin(c, loop + 1)
         == ChecksWithin(c, loop) + if loop > 0 && loop % c.samplePeriod == 0 then 1 else 0
    ensures ChecksWithin(c, loop + 1) <= ChecksWithin(c, numIter)
  {
    if loop > 0 {
      DivModSuccessor(loop - 1, c.samplePeriod);
    } else {
      DivModUnique(0, c.samplePeriod, 0, 0);
    }
    DivMonotone(loop, numIter - 1, c.samplePeriod);
  }

  // ----- What a check decides -----

  /** The time since the check before; a clock that did not move counts as a microsecond. */
  function Elapsed(clock: seq<nat>, check: nat): (t: nat)
    requires 0 < check < |clock| && Running(clock)
    ensures t > 0
  {
    Max(1, clock[check] - clock[check - 1])
  }

  /** Faster than asked: one sample a second more would still have taken the time. */
  predicate TooFast(c: Control, clock: seq<nat>, check: nat)
    requires 0 < check < |clock| && Running(clock)
  {
    (c.pubRate + 1) * Elapsed(clock, check) <= c.samplePeriod * 1_000_000
  }

  /** Slower than asked. */
  predicate TooSlow(c: Control, clock: seq<nat>, check: nat)
    requires 0 < check < |clock| && Running(clock)
  {
    c.samplePeriod * 1_000_000 < c.pubRate * Elapsed(clock, check)
  }

  /** In times instead of rates: the delay rises by a step exactly where the period was too
      short, falls by one, down to zero, exactly where it was too long, and else stays. */
  lemma CheckDecides(c: Control, start: nat, clock: seq<nat>, check: nat)
    requires 0 < check < |clock| && Running(clock)
    requires DelayAfter(c, start, clock, check - 1) + c.step < TWO64
    ensures var before := DelayAfter(c, start, clock, check - 1);
            DelayAfter(c, start, clock, check)
            == if TooFast(c, clock, check) then before + c.step
               else if TooSlow(c, clock, check) then Max(0, before - c.step)
               else before
  {
    hide DelayAfter, Adjust;
    var before, rate := DelayAfter(c, start, clock, check - 1), RateAt(c, clock, check);
    DelayStep(c, start, clock, check);
    AdjustSaturates(c, before, rate);
    RateInTimes(c, clock, check);
  }

  lemma DelayStep(c: Control, start: nat, clock: seq<nat>, check: nat)
    requires 0 < check < |clock| && Running(clock)
    ensures DelayAfter(c, start, clock, check)
         == Adjust(c, DelayAfter(c, start, clock, check - 1), RateAt(c, clock, check))
  {
  }

  lemma RateInTimes(c: Control, clock: seq<nat>, check: nat)
    requires 0 < check < |clock| && Running(clock)
    ensures RateAt(c, clock, check) > c.pubRate <==> TooFast(c, clock, check)
    ensures RateAt(c, clock, check) < c.pubRate <==> TooSlow(c, clock, check)
  {
    var t, samples := Elapsed(clock, check), c.samplePeriod * 1_000_000;
    MulNonNegative(c.samplePeriod, 1_000_000);
    RateIsQuotient(c, clock, check);
    QuotientAtLeast(samples, t, c.pubRate + 1);
    QuotientAtLeast(samples, t, c.pubRate);
  }

  lemma RateIsQuotient(c: Control, clock: seq<nat>, check: nat)
    requires 0 < check < |clock| && Running(clock)
    ensures RateAt(c, clock, check) == c.samplePeriod * 1_000_000 / Elapsed(clock, check)
  {
    var x := c.samplePeriod * 1_000_000;
    DivModUnique(x, 1, x, 0);
  }

  lemma QuotientAtLeast(x: int, d: int, q: int)
    requires d > 0
    ensures x / d >= q <==> q * d <= x
  {
    DivModIdentity(x, d);
    if x / d >= q {
      MulMonotone(q, x / d, d);
    } else {
      MulMonotone(x / d + 1, q, d);
      DecrementFactor(x / d + 1, d);
    }
  }

  // ----- Convergence -----

  /** Up to check `checks` the periods behave as if some delay `balance` meets the request:
      too short at any smaller delay, too long at any larger one. */
  ghost predicate Balanced(c: Control, start: nat, clock: seq<nat>, balance: nat, checks: nat)
    requires checks < |clock| && Running(clock)
  {
    forall k :: 0 < k <= checks ==>
      var d := DelayAfter(c, start, clock, k - 1);
      && (d < balance ==> TooFast(c, clock, k))
      && (d > balance ==> TooSlow(c, clock, k))
  }

  /** The distance to the balance shrinks by a full step at each check until it is at most
      one step, and stays there for the rest of the run. */
  lemma {:induction false} DelayConverges(c: Control, start: nat, clock: seq<nat>, balance: nat, checks: nat)
    requires c.Valid() && checks < |clock| && Running(clock)
    requires start < TWO64 && balance + c.step < TWO64
    requires Balanced(c, start, clock, balance, checks)
    ensures var d := DelayAfter(c, start, clock, checks);
            && d < TWO64
            && (checks * c.step < Abs(start - balance) ==> Abs(d - balance) == Abs(start - balance) - checks * c.step)
            && (checks * c.step >= Abs(start - balance) ==> Abs(d - balance) <= c.step)
  {
    hide Adjust, RateAt, UInt64, TooFast, TooSlow;
    if checks > 0 {
      RateInTimes(c, clock, checks);
      DelayConverges(c, start, clock, balance, checks - 1);
      DecrementFactor(checks, c.step);
      OneCheck(c, DelayAfter(c, start, clock, checks - 1), RateAt(c, clock, checks), balance);
    }
  }

  /** One check from any delay. */
  lemma OneCheck(c: Control, delay: nat, rate: nat, balance: nat)
    requires c.Valid() && delay < TWO64 && balance + c.step < TWO64
    requires delay < balance ==> rate > c.pubRate
    requires delay > balance ==> rate < c.pubRate
    ensures var d := Adjust(c, delay, rate);
            && d < TWO64
            && (Abs(delay - balance) > c.step ==> Abs(d - balance) == Abs(delay - balance) - c.step)
            && (Abs(delay - balance) <= c.step ==> Abs(d - balance) <= c.step)
  {
    if delay + c.step < TWO64 {
      AdjustSaturates(c, delay, rate);
    }
  }

  lemma SlowCheck(c: Control, delay: nat, rate: nat)
    requires delay < TWO64 && rate < c.pubRate
    ensures Adjust(c, delay, rate) == Max(0, delay - c.step)
  {
  }

  /** When even no delay is too slow, the delay runs down to zero and stays. */
  lemma {:induction false} DelaySaturatesAtZero(c: Control, start: nat, clock: seq<nat>, checks: nat)
    requires c.Valid() && checks < |clock| && Running(clock)
    requires start < TWO64
    requires forall k :: 0 < k <= checks ==> TooSlow(c, clock, k)
    ensures DelayAfter(c, start, clock, checks) == Max(0, start - checks * c.step)
  {
    hide RateAt, TooFast, TooSlow, Adjust, UInt64;
    if checks > 0 {
      RateInTimes(c, clock, checks);
      DelaySaturatesAtZero(c, start, clock, checks - 1);
      SlowCheck(c, DelayAfter(c, start, clock, checks - 1), RateAt(c, clock, checks));
      DecrementFactor(checks, c.step);
      MulNonNegative(checks - 1, c.step);
    }
  }
}
