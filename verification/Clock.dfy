/** Conversion of stopwatch ticks to microseconds in 64-bit signed arithmetic, and why
    a pong that returns to the process that stamped it never looks like clock skew. */
module Clock {
  import opened Machine
  import opened Messages
  import opened LatencyListener

  const MICROS: nat := 1_000_000

  /** C# division of signed integers, which truncates toward zero. */
  function Quotient(a: int, b: int): (q: int)
    requires b > 0
  {
    if a >= 0 then a / b else -((-a) / b)
  }

  /** The clock of the C# copy, every intermediate result wrapped to 64 signed bits. */
  function GetTimeUsec(ticks: int, frequency: int): (usec: nat)
    requires frequency > 0
  {
    var wholeSeconds := Quotient(ticks, frequency);
    var remainingTicks := Rem(ticks, frequency);
    UInt64(Int64(Int64(wholeSeconds * MICROS) + Quotient(Int64(remainingTicks * MICROS), frequency)))
  }

  /** The exact time, rounded down. */
  function Micros(ticks: nat, frequency: nat): (usec: nat)
    requires frequency > 0
  {
    ticks * MICROS / frequency
  }

  /** Where the split conversion fits 64 signed bits. */
  predicate InRange(ticks: nat, frequency: nat)
    requires frequency > 0
  {
    Micros(ticks, frequency) < TWO63 && (frequency - 1) * MICROS < TWO63
  }

  /** Over the integers, converting seconds and remainder apart loses nothing. */
  lemma SplitIsFloor(ticks: nat, frequency: nat)
    requires frequency > 0
    ensures Micros(ticks, frequency) == ticks / frequency * MICROS + ticks % frequency * MICROS / frequency
  {
    var q, r := ticks / frequency, ticks % frequency;
    var s, t := r * MICROS / frequency, r * MICROS % frequency;
    DivModIdentity(ticks, frequency);
    DivModIdentity(r * MICROS, frequency);
    assert ticks * MICROS == (q * MICROS + s) * frequency + t by {
      assert ticks * MICROS == (q * frequency) * MICROS + r * MICROS;
      Rearrange(q, s, frequency);
    }
    DivModUnique(ticks * MICROS, frequency, q * MICROS + s, t);
  }

  lemma Rearrange(q: int, s: int, f: int)
    ensures (q * f) * MICROS + s * f == (q * MICROS + s) * f
  {
  }

  /** The 64-bit conversion is the exact floor wherever it is in range. */
  lemma ConversionIsExact(ticks: nat, frequency: nat)
    requires frequency > 0 && InRange(ticks, frequency)
    ensures GetTimeUsec(ticks, frequency) == Micros(ticks, frequency)
  {
    SplitIsFloor(ticks, frequency);
    var q, r := ticks / frequency, ticks % frequency;
    assert 0 <= r * MICROS <= (frequency - 1) * MICROS;
    Int64Fits(r * MICROS);
    var s := r * MICROS / frequency;
    DivNonNegative(r * MICROS, frequency);
    DivNonNegative(ticks, frequency);
    Int64Fits(q * MICROS);
    Int64Fits(q * MICROS + s);
  }

  lemma TimeIsMonotone(earlier: nat, later: nat, frequency: nat)
    requires frequency > 0 && earlier <= later && InRange(later, frequency)
    ensures InRange(earlier, frequency)
    ensures GetTimeUsec(earlier, frequency) <= GetTimeUsec(later, frequency)
  {
    DivMonotone(earlier * MICROS, later * MICROS, frequency);
    ConversionIsExact(earlier, frequency);
    ConversionIsExact(later, frequency);
  }

  /** With a nanosecond stopwatch the conversion is exact for every tick value there is. */
  lemma NanosecondClockIsExact(ticks: nat)
    requires ticks < TWO63
    ensures GetTimeUsec(ticks, 1_000_000_000) == ticks / 1000
  {
    assert ticks * MICROS / 1_000_000_000 == ticks / 1000;
    ConversionIsExact(ticks, 1_000_000_000);
  }

  /** A message stamped at one tick and handled by the same process at a later one, whatever
      was echoed in between, reads as not from the future: the skew counter never moves. */
  lemma EchoNeverSkews(p: Pongs, m: Message, stamped: nat, handled: nat, frequency: nat)
    requires frequency > 0 && stamped <= handled && InRange(handled, frequency)
    ensures var pong := Stamp(m, GetTimeUsec(stamped, frequency));
            var now := GetTimeUsec(handled, frequency);
            && now >= SentTime(pong)
            && Process(CSharp, p, pong, now).pongs.clockSkews == p.clockSkews
            && (!IsControl(m.size) && !p.Full() ==> Process(CSharp, p, pong, now).notified)
  {
    TimeIsMonotone(stamped, handled, frequency);
    StampRoundTrip(m, GetTimeUsec(stamped, frequency));
  }
}
