/** The publisher's listener for pongs: latency accumulators, the bounded history
    array, the reset that swallows the first pong, and the ping notification. */
module LatencyListener {
  import opened Machine
  import opened Messages
  import opened Sorting
  import opened Statistics

  /** The traditional C++ copy and the C# copy differ in three places: the width of
      a latency, when a new payload size resets, and what clock skew does. */
  datatype Variant = Traditional | CSharp

  /** The value that marks `latencyMin` as unset. */
  function ResetValue(v: Variant): (r: nat) {
    match v
    case Traditional => TWO64 - 1
    case CSharp => TWO32 - 1
  }

  /** Half of the measured round trip, in the copy's own unsigned type. */
  function OneWay(v: Variant, now: nat, sent: nat): (l: nat)
    requires now >= sent
    ensures l < ResetValue(v)
  {
    match v
    case Traditional => UInt64(now - sent) / 2
    case CSharp => UInt32(now - sent) / 2
  }

  /** A listener as a value: the latencies stored since the last reset stand for
      every accumulator. Capacity 0 is the null history array, which holds no bound. */
  datatype Pongs = Pongs(capacity: nat, lastDataLength: int, clockSkews: nat, stored: seq<nat>) {
    predicate Full() { capacity > 0 && |stored| >= capacity }
  }

  /** The state a message leaves, and whether it reaches the ping notification. */
  datatype Processed = Processed(pongs: Pongs, notified: bool)

  function Process(v: Variant, p: Pongs, m: Message, now: nat): (r: Processed) {
    if IsControl(m.size) then Processed(p, false)
    else match v
      case CSharp =>
        if now < SentTime(m) then
          Processed(p.(clockSkews := p.clockSkews + 1), false)
        else
          Store(v, p, m, now)
      case Traditional =>
        var p := if p.lastDataLength != m.size then p.(stored := []) else p;
        if now < SentTime(m) then
          Processed(p.(clockSkews := p.clockSkews + 1), true)
        else
          Store(v, p, m, now)
  }

  /** The part both copies share: store unless full, then reset if the size is new. */
  function Store(v: Variant, p: Pongs, m: Message, now: nat): (r: Processed)
    requires now >= SentTime(m)
  {
    if p.Full() then Processed(p, false)
    else if p.lastDataLength != m.size then
      Processed(p.(stored := [], lastDataLength := m.size), true)
    else
      Processed(p.(stored := p.stored + [OneWay(v, now, SentTime(m))]), true)
  }

  // ----- Runs of pongs -----

  datatype Arrival = Arrival(message: Message, now: nat)

  function Feed(v: Variant, p: Pongs, arrivals: seq<Arrival>): (r: Pongs) {
    if arrivals == [] then p
    else
      var a := arrivals[|arrivals| - 1];
      Process(v, Feed(v, p, arrivals[..|arrivals| - 1]), a.message, a.now).pongs
  }

  /** Whether arrival `j` of a run reaches the ping notification. */
  predicate Notified(v: Variant, p: Pongs, arrivals: seq<Arrival>, j: nat)
    requires j < |arrivals|
  {
    Process(v, Feed(v, p, arrivals[..j]), arrivals[j].message, arrivals[j].now).notified
  }

  /** Data pongs of one payload size whose clock never runs backwards. */
  ghost predicate SteadyRun(arrivals: seq<Arrival>, size: int) {
    && !IsControl(size)
    && forall a :: a in arrivals ==> a.message.size == size && a.now >= SentTime(a.message)
  }

  function Latencies(v: Variant, arrivals: seq<Arrival>): (s: seq<nat>)
    requires forall a :: a in arrivals ==> a.now >= SentTime(a.message)
    ensures |s| == |arrivals|
  {
    seq(|arrivals|, i requires 0 <= i < |arrivals| =>
      assert arrivals[i] in arrivals;
      OneWay(v, arrivals[i].now, SentTime(arrivals[i].message)))
  }

  /** A nonzero size differs from the initial last length, so its first pong is reset away. */
  function Swallowed(size: int): (n: nat) {
    if size != 0 then 1 else 0
  }

  /** How many of `n` steady pongs the listener accepts before it calls them too many. */
  function Accepted(capacity: nat, size: int, n: nat): (k: nat) {
    if capacity == 0 then n else Min(n, capacity + Swallowed(size))
  }

  /** The part of a steady run's latencies that is accepted and not swallowed. */
  function Kept(capacity: nat, size: int, s: seq<nat>): (r: seq<nat>) {
    var k := Accepted(capacity, size, |s|);
    s[Min(Swallowed(size), k)..k]
  }

  function Fresh(capacity: nat): (p: Pongs) { Pongs(capacity, 0, 0, []) }

  /** The whole effect of a steady run, the same for both copies: the stored values
      are the latencies of the accepted pongs after the swallowed one, in order. */
  lemma {:induction false} SteadyRunStores(v: Variant, capacity: nat, arrivals: seq<Arrival>, size: int)
    requires SteadyRun(arrivals, size)
    ensures Feed(v, Fresh(capacity), arrivals)
         == Pongs(capacity, if arrivals == [] then 0 else size, 0, Kept(capacity, size, Latencies(v, arrivals)))
  {
    if arrivals != [] {
      hide Process, OneWay, Accepted;
      var n := |arrivals| - 1;
      var init, a := arrivals[..n], arrivals[n];
      assert a in arrivals && forall b :: b in init ==> b in arrivals;
      SteadyRunStores(v, capacity, init, size);
      var latency := OneWay(v, a.now, SentTime(a.message));
      var p := Feed(v, Fresh(capacity), init);
      SteadyStep(v, p, a, size);
      assert Feed(v, Fresh(capacity), arrivals) == Process(v, p, a.message, a.now).pongs;
      assert Latencies(v, arrivals) == Latencies(v, init) + [latency];
      KeptSnoc(capacity, size, Latencies(v, init), latency);
    }
  }

  /** One steady pong, on which the two copies agree. */
  lemma SteadyStep(v: Variant, p: Pongs, a: Arrival, size: int)
    requires !IsControl(size) && a.message.size == size && a.now >= SentTime(a.message)
    requires p.lastDataLength != size ==> p.stored == []
    ensures Process(v, p, a.message, a.now).pongs
         == if p.lastDataLength != size then p.(lastDataLength := size)
            else if p.Full() then p
            else p.(stored := p.stored + [OneWay(v, a.now, SentTime(a.message))])
  {
  }

  /** What one more pong adds to the accepted part. */
  lemma KeptSnoc(capacity: nat, size: int, s: seq<nat>, x: nat)
    ensures var kept := Kept(capacity, size, s);
            Kept(capacity, size, s + [x])
            == if |s| < Swallowed(size) then []
               else if capacity > 0 && |kept| >= capacity then kept
               else kept + [x]
  {
    var w, n := Swallowed(size), |s|;
    var k, k' := Accepted(capacity, size, n), Accepted(capacity, size, n + 1);
    if n >= w {
      if k' == k {
        assert (s + [x])[w..k] == s[w..k];
      } else {
        assert k == n && k' == n + 1;
        assert (s + [x])[w..n + 1] == s[w..n] + [x];
      }
    }
  }

  /** Latencies are measured modulo this, in each copy's unsigned type. */
  function Width(v: Variant): (w: nat) {
    match v
    case Traditional => TWO64
    case CSharp => TWO32
  }

  /** A number that stands for half a round trip, rounded down, cut to the copy's width. */
  predicate HalfRoundTrip(v: Variant, l: nat, roundTrip: nat) {
    2 * l <= roundTrip % Width(v) <= 2 * l + 1
  }

  /** Which numbers a steady run stores: in order, of every pong from the second on (of an
      empty payload from the first), until the history is full, half its round trip. */
  lemma SteadyRunMeasures(v: Variant, capacity: nat, arrivals: seq<Arrival>, size: int)
    requires SteadyRun(arrivals, size)
    ensures var stored := Feed(v, Fresh(capacity), arrivals).stored;
            var first := if size == 0 then 0 else 1;
            && |stored| == (if |arrivals| < first then 0
                            else if capacity == 0 then |arrivals| - first
                            else Min(|arrivals| - first, capacity))
            && forall i :: 0 <= i < |stored| ==>
                 var a := arrivals[first + i];
                 && a.now >= SentTime(a.message)
                 && HalfRoundTrip(v, stored[i], a.now - SentTime(a.message))
  {
    hide Feed, OneWay, HalfRoundTrip;
    SteadyRunStores(v, capacity, arrivals, size);
    var stored, first := Feed(v, Fresh(capacity), arrivals).stored, if size == 0 then 0 else 1;
    assert forall i :: 0 <= i < |arrivals| ==> arrivals[i] in arrivals;
    forall i | 0 <= i < |stored|
      ensures HalfRoundTrip(v, stored[i], arrivals[first + i].now - SentTime(arrivals[first + i].message))
    {
      var a := arrivals[first + i];
      assert stored[i] == Latencies(v, arrivals)[first + i] == OneWay(v, a.now, SentTime(a.message));
      Halved(v, a.now, SentTime(a.message));
    }
  }

  lemma Halved(v: Variant, now: nat, sent: nat)
    requires now >= sent
    ensures HalfRoundTrip(v, OneWay(v, now, sent), now - sent)
  {
  }

  /** Whatever makes the history grow adds one latency at the end, that of the message. */
  lemma GrowthMeasures(v: Variant, p: Pongs, m: Message, now: nat)
    requires |Process(v, p, m, now).pongs.stored| > |p.stored|
    ensures var r := Process(v, p, m, now);
            && r.notified && !IsControl(m.size) && now >= SentTime(m)
            && |r.pongs.stored| == |p.stored| + 1 && r.pongs.stored[..|p.stored|] == p.stored
            && HalfRoundTrip(v, r.pongs.stored[|p.stored|], now - SentTime(m))
  {
    hide OneWay, HalfRoundTrip;
    if now >= SentTime(m) {
      Halved(v, now, SentTime(m));
    }
  }

  /** A pong stamped at one clock reading and processed at a later one, by a listener that
      has room and knows the size, stores half the time between, if it fits the width. */
  lemma StampedPongMeasures(v: Variant, p: Pongs, m: Message, sent: nat, now: nat)
    requires sent <= now < TWO64 && now - sent < Width(v)
    requires !IsControl(m.size) && p.lastDataLength == m.size && !p.Full()
    ensures var r := Process(v, p, Stamp(m, sent), now);
            && r.notified && |r.pongs.stored| == |p.stored| + 1
            && r.pongs.stored[..|p.stored|] == p.stored
            && var l := r.pongs.stored[|p.stored|];
               2 * l <= now - sent <= 2 * l + 1
  {
    hide OneWay;
    StampRoundTrip(m, sent);
    Halved(v, now, sent);
    assert (now - sent) % Width(v) == now - sent;
  }

  /** A pong from the future stores nothing and is counted as skew. The C# copy drops it
      unanswered; the traditional copy has first emptied its counters for a new size, keeps
      the old size on record, and notifies. */
  lemma FuturePong(v: Variant, p: Pongs, m: Message, now: nat)
    requires !IsControl(m.size) && now < SentTime(m)
    ensures var r := Process(v, p, m, now);
            && r.pongs.clockSkews == p.clockSkews + 1
            && r.pongs.lastDataLength == p.lastDataLength && r.pongs.capacity == p.capacity
            && (r.notified <==> v.Traditional?)
            && r.pongs.stored == (if v.Traditional? && m.size != p.lastDataLength then [] else p.stored)
  {
  }

  /** A pong of a new size is swallowed by the reset, unless a full history refuses it
      first, which the traditional copy has just emptied. */
  lemma NewSizeSwallows(v: Variant, p: Pongs, m: Message, now: nat)
    requires !IsControl(m.size) && now >= SentTime(m) && m.size != p.lastDataLength
    ensures Process(v, p, m, now)
         == if v.CSharp? && p.Full() then Processed(p, false)
            else Processed(Pongs(p.capacity, m.size, p.clockSkews, []), true)
  {
  }

  /** Control messages change and notify nothing. */
  lemma ControlIgnored(v: Variant, p: Pongs, m: Message, now: nat)
    requires IsControl(m.size)
    ensures Process(v, p, m, now) == Processed(p, false)
  {
  }

  /** Exactly which pongs are answered "too many" and notify nobody. */
  lemma DroppedPongs(v: Variant, capacity: nat, arrivals: seq<Arrival>, size: int, j: nat)
    requires SteadyRun(arrivals, size) && j < |arrivals|
    ensures Notified(v, Fresh(capacity), arrivals, j)
        <==> capacity == 0 || j < capacity + Swallowed(size)
  {
    assert arrivals[j] in arrivals && forall a :: a in arrivals[..j] ==> a in arrivals;
    SteadyRunStores(v, capacity, arrivals[..j], size);
    SteadyNotifies(v, Feed(v, Fresh(capacity), arrivals[..j]), arrivals[j], size);
  }

  lemma SteadyNotifies(v: Variant, p: Pongs, a: Arrival, size: int)
    requires !IsControl(size) && a.message.size == size && a.now >= SentTime(a.message)
    requires p.lastDataLength != size ==> p.stored == []
    ensures Process(v, p, a.message, a.now).notified <==> !p.Full()
  {
  }

  lemma WrappedSumsSnoc(s: seq<nat>, x: nat, square: nat)
    requires square == x * x
    ensures UInt64(UInt64(Sum(s)) + x) == UInt64(Sum(s + [x]))
    ensures UInt64(UInt64(SumSquares(s)) + square) == UInt64(SumSquares(s + [x]))
  {
    SumsSnoc(s, x);
    UInt64Add(Sum(s), x);
    UInt64Add(SumSquares(s), square);
  }

  // ----- The listener with its running accumulators -----

  /** What the summary comes to; sorting fails when there is no array to sort. */
  datatype Summary = NoPongs | SortFails | Summary(
    sum: nat, sumSquare: nat, count: nat, min: nat, max: nat, percentiles: Percentiles)

  class Listener {
    const variant: Variant
    const latencyHistory: array?<nat>
    var latencySum: nat
    var latencySumSquare: nat
    var count: nat
    var latencyMin: nat
    var latencyMax: nat
    var lastDataLength: int
    var clockSkewCount: nat
    ghost var stored: seq<nat>

    /** Every accumulator agrees with the stored values, sums modulo 2^64. */
    ghost predicate Valid()
      reads this, latencyHistory
    {
      && count == |stored|
      && latencySum == UInt64(Sum(stored))
      && latencySumSquare == UInt64(SumSquares(stored))
      && ExtremesAgree(stored)
      && HistoryAgrees()
    }

    ghost predicate ExtremesAgree(s: seq<nat>)
      reads this`latencyMin, this`latencyMax
    {
      && (forall x :: x in s ==> x < ResetValue(variant))
      && (s == [] ==> latencyMin == ResetValue(variant) && latencyMax == 0)
      && (s != [] ==> IsMin(s, latencyMin) && IsMax(s, latencyMax))
    }

    ghost predicate HistoryAgrees()
      reads this`count, this`stored, latencyHistory
    {
      && (latencyHistory != null ==>
            0 < latencyHistory.Length && count <= latencyHistory.Length
            && latencyHistory[..count] == stored)
    }

    ghost function View(): (p: Pongs)
      reads this
    {
      Pongs(if latencyHistory == null then 0 else latencyHistory.Length, lastDataLength, clockSkewCount, stored)
    }

    constructor (variant: Variant, numLatency: nat)
      ensures Valid() && View() == Fresh(numLatency) && this.variant == variant
      ensures latencyHistory != null ==> fresh(latencyHistory)
    {
      this.variant := variant;
      latencySum, latencySumSquare, count := 0, 0, 0;
      latencyMin, latencyMax := ResetValue(variant), 0;
      lastDataLength, clockSkewCount := 0, 0;
      stored := [];
      if numLatency > 0 {
        latencyHistory := new nat[numLatency];
      } else {
        latencyHistory := null;
      }
    }

    method ResetLatencyCounters()
      requires latencyHistory != null ==> latencyHistory.Length > 0
      modifies this
      ensures Valid()
      ensures View() == old(View()).(stored := [])
    {
      latencySum, latencySumSquare := 0, 0;
      latencyMin, latencyMax := ResetValue(variant), 0;
      count := 0;
      stored := [];
    }

    /** Adds one latency to the history and to every accumulator, if there is room. */
    method Record(latency: nat) returns (room: bool)
      requires Valid() && latency < ResetValue(variant)
      modifies this, latencyHistory
      ensures Valid()
      ensures room == !old(View().Full())
      ensures View() == if room then old(View()).(stored := old(stored) + [latency]) else old(View())
    {
      hide UInt64, Sum, SumSquares, ExtremesAgree;
      if latencyHistory != null {
        if count >= latencyHistory.Length {
          return false;
        }
        latencyHistory[count] := latency;
      }
      UpdateExtremes(latency);
      UpdateSums(latency);
      count := count + 1;
      stored := stored + [latency];
      room := true;
    }

    method UpdateSums(latency: nat)
      requires latencySum == UInt64(Sum(stored)) && latencySumSquare == UInt64(SumSquares(stored))
      modifies this`latencySum, this`latencySumSquare
      ensures latencySum == UInt64(Sum(stored + [latency]))
      ensures latencySumSquare == UInt64(SumSquares(stored + [latency]))
    {
      hide UInt64, Sum, SumSquares;
      var square := latency * latency;
      WrappedSumsSnoc(stored, latency, square);
      latencySum := UInt64(latencySum + latency);
      latencySumSquare := UInt64(latencySumSquare + square);
    }

    /** The min and max branch, which treats the reset value as "no value yet". */
    method UpdateExtremes(latency: nat)
      requires ExtremesAgree(stored) && latency < ResetValue(variant)
      modifies this`latencyMin, this`latencyMax
      ensures ExtremesAgree(stored + [latency])
    {
      ExtremesSnoc(stored, latencyMin, latencyMax, latency);
      if stored != [] {
        MinAtMostMax(stored, latencyMin, latencyMax);
      }
      if latencyMin == ResetValue(variant) {
        latencyMin, latencyMax := latency, latency;
      } else if latency < latencyMin {
        latencyMin := latency;
      } else if latency > latencyMax {
        latencyMax := latency;
      }
    }

    method ProcessMessage(m: Message, now: nat) returns (notified: bool)
      requires Valid()
      modifies this, latencyHistory
      ensures Valid()
      ensures Processed(View(), notified) == Process(variant, old(View()), m, now)
    {
      if m.size == INITIALIZE_SIZE || m.size == FINISHED_SIZE {
        return false;
      }
      if variant == Traditional && lastDataLength != m.size {
        ResetLatencyCounters();
      }
      var sentTime := SentTime(m);
      if now < sentTime {
        clockSkewCount := clockSkewCount + 1;
        return variant == Traditional;
      }
      var room := Record(OneWay(variant, now, sentTime));
      if !room {
        return false;
      }
      if lastDataLength != m.size {
        lastDataLength := m.size;
        ResetLatencyCounters();
      }
      notified := true;
    }

    /** The end-of-test summary. Sorting a history that was never allocated, or reading its
        percentiles, fails, and nothing is reset then. */
    method PrintSummaryLatency() returns (s: Summary)
      requires Valid()
      modifies this, latencyHistory
      ensures Valid()
      ensures s.NoPongs? <==> old(stored) == []
      ensures s.SortFails? <==> latencyHistory == null && old(stored) != []
      ensures !s.Summary? ==> View() == old(View())
      ensures s.Summary? ==>
                && s.count == |old(stored)|
                && s.sum == UInt64(Sum(old(stored)))
                && s.sumSquare == UInt64(SumSquares(old(stored)))
                && IsMin(old(stored), s.min) && IsMax(old(stored), s.max)
                && s.min <= s.percentiles.p50 <= s.percentiles.p90 <= s.percentiles.p99
                   <= s.percentiles.p9999 <= s.percentiles.p999999 <= s.max
                && ArePercentiles(old(stored), s.percentiles)
                && View() == old(View()).(stored := [], clockSkews := 0)
      ensures s.Summary? && SumSquares(old(stored)) < TWO64 ==>
                s.sumSquare / s.count >= (s.sum / s.count) * (s.sum / s.count)
    {
      if count == 0 {
        return NoPongs;
      }
      if latencyHistory == null {
        return SortFails;
      }
      SortsStored(stored, latencyMin, latencyMax);
      ReadsArePercentiles(stored);
      UnwrappedVariance(stored);
      SortHistory();
      s := Summary(latencySum, latencySumSquare, count, latencyMin, latencyMax, PercentilesOf(latencyHistory[..count]));
      ResetLatencyCounters();
      clockSkewCount := 0;
    }

    /** The library sort of the used part of the array. */
    method SortHistory()
      requires latencyHistory != null && count <= latencyHistory.Length
      modifies latencyHistory
      ensures latencyHistory[..count] == Sort(old(latencyHistory[..count]), BY_NUMBER)
    {
      var used := latencyHistory[..count];
      var sorted := Sort(used, BY_NUMBER);
      SortKeepsLength(used, BY_NUMBER);
      forall i | 0 <= i < |sorted| {
        latencyHistory[i] := sorted[i];
      }
      assert latencyHistory[..count] == sorted;
    }
  }

  /** The sorted history lies between the running extremes. */
  lemma SortsStored(stored: seq<nat>, lo: nat, hi: nat)
    requires stored != [] && IsMin(stored, lo) && IsMax(stored, hi)
    ensures var sorted := Sort(stored, BY_NUMBER);
            && |sorted| == |stored|
            && var p := PercentilesOf(sorted);
               lo <= p.p50 <= p.p90 <= p.p99 <= p.p9999 <= p.p999999 <= hi
  {
    OrdersAreTotal();
    SortOrders(stored, BY_NUMBER);
    SortKeepsLength(stored, BY_NUMBER);
    PercentilesInOrder(stored, Sort(stored, BY_NUMBER), lo, hi);
  }

  /** From construction to summary over any pongs: the summary fails exactly when the
      size handed to the constructor is 0 and a pong was counted. */
  method RunAndSummarize(variant: Variant, numLatency: nat, arrivals: seq<Arrival>) returns (s: Summary)
    ensures var stored := Feed(variant, Fresh(numLatency), arrivals).stored;
            && (s.SortFails? <==> numLatency == 0 && stored != [])
            && (s.NoPongs? <==> stored == [])
            && (s.Summary? ==>
                  && s.count == |stored| && IsMin(stored, s.min) && IsMax(stored, s.max)
                  && ArePercentiles(stored, s.percentiles))
  {
    var listener := new Listener(variant, numLatency);
    for i := 0 to |arrivals|
      invariant fresh(listener) && (listener.latencyHistory != null ==> fresh(listener.latencyHistory))
      invariant listener.Valid() && listener.variant == variant
      invariant listener.View() == Feed(variant, Fresh(numLatency), arrivals[..i])
    {
      var _ := listener.ProcessMessage(arrivals[i].message, arrivals[i].now);
      assert arrivals[..i + 1][..i] == arrivals[..i];
    }
    assert arrivals[..|arrivals|] == arrivals;
    FeedKeepsCapacity(variant, Fresh(numLatency), arrivals);
    s := listener.PrintSummaryLatency();
  }

  lemma {:induction false} FeedKeepsCapacity(v: Variant, p: Pongs, arrivals: seq<Arrival>)
    ensures Feed(v, p, arrivals).capacity == p.capacity
  {
    if arrivals != [] {
      FeedKeepsCapacity(v, p, arrivals[..|arrivals| - 1]);
    }
  }

  /** On pongs of one size: from which pong on the missing array makes the summary fail. */
  lemma SteadySummaryFailsIff(v: Variant, numLatency: nat, arrivals: seq<Arrival>, size: int)
    requires SteadyRun(arrivals, size)
    ensures numLatency == 0 ==> (Feed(v, Fresh(0), arrivals).stored != [] <==> |arrivals| > Swallowed(size))
  {
    SteadyRunStores(v, numLatency, arrivals, size);
  }

  /** With no 64-bit overflow the printed integer variance is not negative. */
  lemma UnwrappedVariance(s: seq<nat>)
    requires s != []
    ensures SumSquares(s) < TWO64 ==>
              UInt64(SumSquares(s)) / |s| >= (UInt64(Sum(s)) / |s|) * (UInt64(Sum(s)) / |s|)
  {
    if SumSquares(s) < TWO64 {
      SumBelowSquares(s);
      assert UInt64(SumSquares(s)) == SumSquares(s) && UInt64(Sum(s)) == Sum(s);
      TruncatedVarianceNonNegative(s);
    }
  }

  /** The bound is needed: the squares of five latencies of 2^31 - 1, which both copies can
      measure, wrap the sum, and the variance argument turns negative. */
  lemma WrappedVarianceNegative()
    ensures var l := TWO31 - 1;
            var s := [l, l, l, l, l];
            && SumSquares(s) >= TWO64
            && UInt64(SumSquares(s)) / |s| < (UInt64(Sum(s)) / |s|) * (UInt64(Sum(s)) / |s|)
  {
    var l: nat := TWO31 - 1;
    SumsOfFive(l);
    assert l * l == 0x3FFF_FFFF_0000_0001;
  }

  lemma SumsOfFive(l: nat)
    ensures Sum([l, l, l, l, l]) == 5 * l && SumSquares([l, l, l, l, l]) == 5 * (l * l)
  {
    SumsSnoc([], l);
    SumsSnoc([l], l);
    SumsSnoc([l, l], l);
    SumsSnoc([l, l, l], l);
    SumsSnoc([l, l, l, l], l);
    assert [] + [l] == [l] && [l] + [l] == [l, l] && [l, l] + [l] == [l, l, l];
    assert [l, l, l] + [l] == [l, l, l, l] && [l, l, l, l] + [l] == [l, l, l, l, l];
  }

  lemma {:induction false} SumBelowSquares(s: seq<nat>)
    ensures Sum(s) <= SumSquares(s)
  {
    if s != [] {
      var y := s[|s| - 1];
      SumBelowSquares(s[..|s| - 1]);
      if y > 0 {
        MulAtLeast(y, y);
      }
    }
  }
}
