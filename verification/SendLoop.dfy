/** The publisher's main sending loop: which samples carry a latency ping, to
    whom, how many pings a run makes, and whether the latency history array that
    is sized before the loop can hold their answers. */
module SendLoop {
  import opened Machine

  /** The values the loop reads but never changes. */
  datatype Config = Config(
    numIter: nat,
    samplesPerBatch: nat,
    latencyCount: nat,
    numSubscribers: nat,
    pubId: nat)
  {
    /** What configuration checking leaves: positive counts, 64-bit `numIter`. */
    predicate Valid() {
      && numIter < TWO64
      && 0 < samplesPerBatch < TWO31
      && 0 < latencyCount < TWO31
      && 0 < numSubscribers < TWO31
    }
  }

  /** The loop's mutable locals. */
  datatype Cursor = Cursor(
    numPings: int,
    currentIndexInBatch: nat,
    pingIndexInBatch: nat,
    sentPing: bool)

  /** The part of a data message that the loop rewrites on every iteration. */
  datatype Sample = Sample(seqNum: nat, latencyPing: int)

  /** One iteration: the locals it leaves, the sample it sends, and whether a
      latency test stops after it to wait for a ping response. */
  datatype Iteration = Iteration(next: Cursor, sample: Sample, waits: bool)

  const START := Cursor(0, 0, 0, false)
  const NO_PING: int := -1

  function Iterate(c: Config, st: Cursor, loop: nat): (out: Iteration)
    requires c.Valid()
  {
    var eligible := c.pubId == 0 && loop / c.samplesPerBatch % c.latencyCount == 0;
    var pings := eligible && st.currentIndexInBatch == st.pingIndexInBatch && !st.sentPing;
    var current := (st.currentIndexInBatch + 1) % c.samplesPerBatch;
    var sent := st.sentPing || pings;
    var next := Cursor(
      if pings then Int32(st.numPings + 1) else st.numPings,
      current,
      if pings then (st.pingIndexInBatch + 1) % c.samplesPerBatch else st.pingIndexInBatch,
      sent && current != 0);
    Iteration(
      next,
      Sample(UInt32(loop), if pings then Rem(st.numPings, c.numSubscribers) else NO_PING),
      sent)
  }

  /** The locals after the first `n` loop indices. At an index in `stalled` the C#
      loop reads a zero time delta and skips the rest of its body; the C++ loops
      have no such index. */
  function CursorAt(c: Config, stalled: set<nat>, n: nat): (st: Cursor)
    requires c.Valid()
  {
    if n == 0 then START
    else if n - 1 in stalled then CursorAt(c, stalled, n - 1)
    else Iterate(c, CursorAt(c, stalled, n - 1), n - 1).next
  }

  /** The samples written during the first `n` loop indices. */
  function Trace(c: Config, stalled: set<nat>, n: nat): (sent: seq<Sample>)
    requires c.Valid()
  {
    if n == 0 then []
    else if n - 1 in stalled then Trace(c, stalled, n - 1)
    else Trace(c, stalled, n - 1) + [Iterate(c, CursorAt(c, stalled, n - 1), n - 1).sample]
  }

  // ----- The closed form of the ping schedule -----

  /** The loop index at which ping `k` goes out. */
  function PingIndex(c: Config, k: nat): (i: nat)
    requires c.Valid()
  {
    MulNonNegative(k * c.latencyCount, c.samplesPerBatch);
    k * c.latencyCount * c.samplesPerBatch + k % c.samplesPerBatch
  }

  /** How many pings go out before loop index `n`. */
  function PingsBefore(c: Config, n: nat): (k: nat)
    requires c.Valid()
  {
    DivNonNegative(n, c.samplesPerBatch);
    var batch: nat := n / c.samplesPerBatch;
    DivNonNegative(batch, c.latencyCount);
    var e: nat := batch / c.latencyCount;
    if batch % c.latencyCount == 0 && n % c.samplesPerBatch <= e % c.samplesPerBatch then e else e + 1
  }

  /** The subscriber that ping `k` asks for an answer, given a 32-bit ping counter. */
  function Target(c: Config, k: nat): (t: int)
    requires c.Valid()
  {
    Rem(Int32(k), c.numSubscribers)
  }

  /** The closed forms fit together: ping `k` is among the pings before `n` exactly
      when its loop index lies before `n`. */
  lemma PingsBeforeCounts(c: Config, k: nat, n: nat)
    requires c.Valid()
    ensures k < PingsBefore(c, n) <==> PingIndex(c, k) < n
  {
    SlotOrder(c, k, n);
  }

  /** Ping slot `k` against loop index `n`, by the eligible batches before `n`. */
  lemma SlotOrder(c: Config, k: nat, n: nat)
    requires c.Valid()
    ensures var e := n / c.samplesPerBatch / c.latencyCount;
            && (k < e ==> PingIndex(c, k) < n)
            && (k > e ==> PingIndex(c, k) >= n)
            && (k == e ==> (PingIndex(c, k) < n
                <==> n / c.samplesPerBatch % c.latencyCount > 0
                     || k % c.samplesPerBatch < n % c.samplesPerBatch))
  {
    var S, L := c.samplesPerBatch, c.latencyCount;
    var e, q, r, block := Decompose(c, n);
    MulAssociative(k, L, S);
    Positions(k, k % S, e, q, r, L, S, block, PingIndex(c, k), n);
  }

  /** The order of slot `k`, position `w`, and of position `(e, q, r)`. */
  lemma Positions(k: nat, w: nat, e: nat, q: nat, r: nat,
                  L: nat, S: nat, block: nat, slot: nat, n: nat)
    requires w < S && q < L && r < S && block == L * S
    requires slot == k * block + w && n == e * block + q * S + r
    ensures k < e ==> slot < n
    ensures k == e ==> (slot < n <==> q > 0 || w < r)
    ensures k > e ==> slot >= n
  {
    MulAtLeast(L, S);
    MulNonNegative(q, S);
    MulMonotone(q + 1, L, S);
    assert (q + 1) * S == q * S + S;
    if k < e {
      MulMonotone(k + 1, e, block);
      assert (k + 1) * block == k * block + block;
    } else if k == e {
      if q > 0 {
        MulAtLeast(q, S);
      }
    } else {
      MulMonotone(e + 1, k, block);
      assert (e + 1) * block == e * block + block;
    }
  }

  /** A loop index in terms of eligible batch, batch in between and position. */
  lemma Decompose(c: Config, n: nat) returns (e: nat, q: nat, r: nat, block: nat)
    requires c.Valid()
    ensures e == n / c.samplesPerBatch / c.latencyCount && q == n / c.samplesPerBatch % c.latencyCount
    ensures r == n % c.samplesPerBatch && block == c.latencyCount * c.samplesPerBatch
    ensures n == e * block + q * c.samplesPerBatch + r
  {
    var S, L := c.samplesPerBatch, c.latencyCount;
    DivNonNegative(n, S);
    DivModIdentity(n, S);
    var batch: nat := n / S;
    DivNonNegative(batch, L);
    DivModIdentity(batch, L);
    e, q, r := batch / L, batch % L, n % S;
    MulNonNegative(L, S);
    block := L * S;
    Distribute(e, L, q, S);
  }

  /** Ping `k` falls in batch `k * latencyCount`, so an eligible batch carries
      exactly one ping and its position rotates through the batch. */
  lemma OnePingPerEligibleBatch(c: Config, k: nat)
    requires c.Valid()
    ensures PingIndex(c, k) / c.samplesPerBatch == k * c.latencyCount
    ensures PingIndex(c, k) % c.samplesPerBatch == k % c.samplesPerBatch
    ensures PingsBefore(c, PingIndex(c, k)) == k
    ensures PingIndex(c, k) < PingIndex(c, k + 1)
  {
    var S, L := c.samplesPerBatch, c.latencyCount;
    DivModUnique(PingIndex(c, k), S, k * L, k % S);
    DivModUnique(k * L, L, k, 0);
    PingsBeforeCounts(c, k, PingIndex(c, k + 1));
    DivModUnique(PingIndex(c, k + 1), S, (k + 1) * L, (k + 1) % S);
    DivModUnique((k + 1) * L, L, k + 1, 0);
  }

  /** Whether the batch of loop index `n` has had its ping before `n`. */
  predicate PingedInBatch(c: Config, n: nat)
    requires c.Valid()
  {
    var batch := n / c.samplesPerBatch;
    batch % c.latencyCount == 0
    && n % c.samplesPerBatch > batch / c.latencyCount % c.samplesPerBatch
  }

  /** Whether loop index `n` is the scheduled place of the next ping. */
  predicate PingDue(c: Config, n: nat)
    requires c.Valid()
  {
    n == PingIndex(c, PingsBefore(c, n))
  }

  /** The locals at loop index `n`, in closed form, for publisher 0. */
  ghost predicate OnSchedule(c: Config, n: nat, st: Cursor)
    requires c.Valid()
  {
    var p := PingsBefore(c, n);
    st == Cursor(Int32(p), n % c.samplesPerBatch, p % c.samplesPerBatch, PingedInBatch(c, n))
  }

  /** One iteration keeps the loop on schedule and pings at the scheduled indices only. */
  lemma IterateKeepsSchedule(c: Config, n: nat, st: Cursor)
    requires c.Valid() && c.pubId == 0 && OnSchedule(c, n, st)
    ensures OnSchedule(c, n + 1, Iterate(c, st, n).next)
    ensures Iterate(c, st, n).sample == ScheduledSample(c, n)
    ensures Iterate(c, st, n).waits == (PingedInBatch(c, n) || PingDue(c, n))
  {
    var p := PingsBefore(c, n);
    PingDecision(c, n);
    PingsBeforeSuccessor(c, n);
    PingedSuccessor(c, n);
    ModSuccessor(p, c.samplesPerBatch);
    ModSuccessor(n, c.samplesPerBatch);
    Int32Successor(p);
  }

  /** The loop's test for a ping, on schedule, is true exactly at scheduled indices. */
  lemma PingDecision(c: Config, n: nat)
    requires c.Valid()
    ensures PingDue(c, n)
        <==> n / c.samplesPerBatch % c.latencyCount == 0
             && n % c.samplesPerBatch == PingsBefore(c, n) % c.samplesPerBatch
             && !PingedInBatch(c, n)
  {
    PingAtHead(c, n);
  }

  /** How the batch's flag moves from one loop index to the next. */
  lemma PingedSuccessor(c: Config, n: nat)
    requires c.Valid()
    ensures PingedInBatch(c, n + 1)
         == ((PingedInBatch(c, n) || PingDue(c, n)) && (n + 1) % c.samplesPerBatch != 0)
  {
    var S, L := c.samplesPerBatch, c.latencyCount;
    DivModSuccessor(n, S);
    PingAtHead(c, n);
    if n % S + 1 == S {
      assert 0 <= (n + 1) / S / L % S;
    }
  }

  /** The count of pings rises by one exactly at a scheduled index. */
  lemma PingsBeforeSuccessor(c: Config, n: nat)
    requires c.Valid()
    ensures PingsBefore(c, n + 1)
         == if n == PingIndex(c, PingsBefore(c, n)) then PingsBefore(c, n) + 1 else PingsBefore(c, n)
  {
    var p := PingsBefore(c, n);
    PingsBeforeCounts(c, p, n);
    PingsBeforeCounts(c, p, n + 1);
    PingsBeforeCounts(c, p + 1, n + 1);
    OnePingPerEligibleBatch(c, p);
    if p > 0 {
      PingsBeforeCounts(c, p - 1, n);
      PingsBeforeCounts(c, p - 1, n + 1);
    }
  }

  /** When the next ping is due exactly now. */
  lemma PingAtHead(c: Config, n: nat)
    requires c.Valid()
    ensures var batch := n / c.samplesPerBatch;
            n == PingIndex(c, PingsBefore(c, n))
            <==> batch % c.latencyCount == 0
                 && n % c.samplesPerBatch == batch / c.latencyCount % c.samplesPerBatch
  {
    var S, L := c.samplesPerBatch, c.latencyCount;
    var batch := n / S;
    var e, q, r, block := Decompose(c, n);
    if batch % L == 0 && n % S <= e % S {
      MulAssociative(e, L, S);
    } else {
      PingsBeforeCounts(c, PingsBefore(c, n), n);
      PingsBeforeCounts(c, PingsBefore(c, n), n + 1);
      if n == PingIndex(c, e + 1) {
        OnePingPerEligibleBatch(c, e + 1);
        DivModUnique((e + 1) * L, L, e + 1, 0);
      }
    }
  }

  /** What the schedule says the sample of loop index `n` is. */
  function ScheduledSample(c: Config, n: nat): (s: Sample)
    requires c.Valid()
  {
    var k := PingsBefore(c, n);
    Sample(UInt32(n), if n == PingIndex(c, k) then Target(c, k) else NO_PING)
  }

  // ----- The loop itself -----

  /** Every how many samples the C# loop looks at its rate. */
  function SamplePeriod(pubRate: nat): (p: nat)
    ensures p > 0
  {
    if pubRate > 100 then pubRate / 100 else 1
  }

  /** A hundred checks a second: the period is the hundredth part of the rate, and one
      sample for rates below a hundred. */
  lemma HundredChecks(pubRate: nat)
    ensures pubRate >= 100 ==> 100 * SamplePeriod(pubRate) <= pubRate < 100 * (SamplePeriod(pubRate) + 1)
    ensures pubRate < 100 ==> SamplePeriod(pubRate) == 1
  {
  }

  /** Whether the C# loop compares its rate at this index. */
  predicate ChecksRate(pubRate: nat, loop: nat) {
    pubRate > 0 && loop > 0 && loop % SamplePeriod(pubRate) == 0
  }

  /** Where it skips its body: at a check for which the clock has not moved. */
  function Stalls(pubRate: nat, frozen: set<nat>): (stalled: set<nat>)
    ensures pubRate == 0 ==> stalled == {}
    ensures 0 !in stalled
  {
    set i | i in frozen && ChecksRate(pubRate, i)
  }

  /** The send loop without its send and wait calls. `frozen` are the loop indices at
      which the clock reads as at the check before, and `timeout` the index at whose head
      the completion flag is first seen set. Without a rate nothing is ever skipped. */
  method Run(c: Config, pubRate: nat, frozen: set<nat>, timeout: nat) returns (sent: seq<Sample>, numPings: int)
    requires c.Valid()
    ensures var n := Min(c.numIter, timeout);
            && sent == Trace(c, Stalls(pubRate, frozen), n)
            && numPings == CursorAt(c, Stalls(pubRate, frozen), n).numPings
    ensures var n := Min(c.numIter, timeout);
            c.pubId == 0 && (pubRate == 0 || frozen == {}) ==>
              && |sent| == n
              && (forall i :: 0 <= i < n ==> sent[i] == ScheduledSample(c, i))
              && numPings == Int32(PingsBefore(c, n))
  {
    ghost var stalled := Stalls(pubRate, frozen);
    sent := [];
    numPings := 0;
    var currentIndexInBatch, pingIndexInBatch, sentPing := 0, 0, false;
    var loop := 0;
    while loop < c.numIter && loop < timeout
      invariant 0 <= loop <= Min(c.numIter, timeout)
      invariant currentIndexInBatch >= 0 && pingIndexInBatch >= 0
      invariant CursorAt(c, stalled, loop)
             == Cursor(numPings, currentIndexInBatch, pingIndexInBatch, sentPing)
      invariant sent == Trace(c, stalled, loop)
    {
      if pubRate > 0 && loop > 0 && loop % SamplePeriod(pubRate) == 0 {
        if loop in frozen {
          loop := loop + 1;
          continue;
        }
      }
      ghost var out := Iterate(c, CursorAt(c, stalled, loop), loop);
      var pingID := NO_PING;
      if c.pubId == 0 && loop / c.samplesPerBatch % c.latencyCount == 0 {
        if currentIndexInBatch == pingIndexInBatch && !sentPing {
          pingID := Rem(numPings, c.numSubscribers);
          numPings := Int32(numPings + 1);
          pingIndexInBatch := (pingIndexInBatch + 1) % c.samplesPerBatch;
          sentPing := true;
        }
      }
      currentIndexInBatch := (currentIndexInBatch + 1) % c.samplesPerBatch;
      sent := sent + [Sample(UInt32(loop), pingID)];
      if currentIndexInBatch == 0 {
        sentPing := false;
      }
      assert out.sample == Sample(UInt32(loop), pingID);
      assert out.next == Cursor(numPings, currentIndexInBatch, pingIndexInBatch, sentPing);
      loop := loop + 1;
    }
    TraceIsScheduledUnlessStalled(c, stalled, loop);
  }

  lemma TraceIsScheduledUnlessStalled(c: Config, stalled: set<nat>, n: nat)
    requires c.Valid()
    ensures c.pubId == 0 && (forall i :: 0 <= i < n ==> i !in stalled) ==>
              && |Trace(c, stalled, n)| == n
              && (forall i :: 0 <= i < n ==> Trace(c, stalled, n)[i] == ScheduledSample(c, i))
              && CursorAt(c, stalled, n).numPings == Int32(PingsBefore(c, n))
  {
    if c.pubId == 0 && (forall i :: 0 <= i < n ==> i !in stalled) {
      TraceIsScheduled(c, stalled, n);
    }
  }

  lemma {:induction false} TraceIsScheduled(c: Config, stalled: set<nat>, n: nat)
    requires c.Valid() && c.pubId == 0
    requires forall i :: 0 <= i < n ==> i !in stalled
    ensures OnSchedule(c, n, CursorAt(c, stalled, n))
    ensures |Trace(c, stalled, n)| == n
    ensures forall i :: 0 <= i < n ==> Trace(c, stalled, n)[i] == ScheduledSample(c, i)
  {
    if n == 0 {
      assert 0 / c.samplesPerBatch == 0 && 0 / c.latencyCount == 0;
    } else {
      TraceIsScheduled(c, stalled, n - 1);
      IterateKeepsSchedule(c, n - 1, CursorAt(c, stalled, n - 1));
    }
  }

  /** Only publisher 0 sends pings. */
  lemma {:induction false} OtherPublishersNeverPing(c: Config, stalled: set<nat>, n: nat)
    requires c.Valid() && c.pubId != 0
    ensures CursorAt(c, stalled, n).numPings == 0 && !CursorAt(c, stalled, n).sentPing
    ensures forall s :: s in Trace(c, stalled, n) ==> s.latencyPing == NO_PING
  {
    if n > 0 {
      OtherPublishersNeverPing(c, stalled, n - 1);
    }
  }

  /** A run that stalls anywhere departs from the schedule, and a run that never
      stalls does not. */
  lemma ScheduleHoldsIffNeverStalled(c: Config, stalled: set<nat>, n: nat)
    requires c.Valid() && c.pubId == 0
    ensures Trace(c, stalled, n) == seq(n, i requires i >= 0 => ScheduledSample(c, i))
        <==> forall i :: 0 <= i < n ==> i !in stalled
  {
    TraceLength(c, stalled, n);
    if forall i :: 0 <= i < n ==> i !in stalled {
      TraceIsScheduled(c, stalled, n);
    }
  }

  /** The loop indices that are not skipped, in order. */
  function Written(stalled: set<nat>, n: nat): (w: seq<nat>)
    ensures forall i :: i in w <==> 0 <= i < n && i !in stalled
    ensures forall a, b :: 0 <= a < b < |w| ==> w[a] < w[b]
  {
    if n == 0 then []
    else if n - 1 in stalled then Written(stalled, n - 1)
    else
      var w := Written(stalled, n - 1);
      assert forall a :: 0 <= a < |w| ==> w[a] in w;
      w + [n - 1]
  }

  lemma SampleAt(c: Config, st: Cursor, loop: nat)
    requires c.Valid()
    ensures var sample := Iterate(c, st, loop).sample;
            && sample.seqNum == loop % 0x1_0000_0000
            && (c.pubId != 0 || loop / c.samplesPerBatch % c.latencyCount != 0 ==> sample.latencyPing == -1)
  {
    hide Rem, Int32;
  }

  /** Skipped or not, a sample carries its loop index, cut to 32 bits, and asks for an answer
      only from publisher 0 in an eligible batch. */
  lemma {:induction false} SamplesAreNumbered(c: Config, stalled: set<nat>, n: nat)
    requires c.Valid()
    ensures var w, sent := Written(stalled, n), Trace(c, stalled, n);
            && |sent| == |w|
            && forall j :: 0 <= j < |w| ==>
                 && sent[j].seqNum == w[j] % 0x1_0000_0000
                 && (c.pubId != 0 || w[j] / c.samplesPerBatch % c.latencyCount != 0 ==> sent[j].latencyPing == -1)
  {
    hide Iterate;
    if n > 0 {
      SamplesAreNumbered(c, stalled, n - 1);
      SampleAt(c, CursorAt(c, stalled, n - 1), n - 1);
    }
  }

  lemma {:induction false} TraceLength(c: Config, stalled: set<nat>, n: nat)
    requires c.Valid()
    ensures |Trace(c, stalled, n)| <= n
    ensures (exists i :: 0 <= i < n && i in stalled) ==> |Trace(c, stalled, n)| < n
  {
    if n > 0 {
      TraceLength(c, stalled, n - 1);
    }
  }

  /** A stall in batch mode loses more than a sample: with two samples a batch, a
      stall at index 1 costs the ping that was due at index 3. */
  lemma StallLosesPing()
    ensures var c := Config(4, 2, 1, 1, 0);
            && c.Valid()
            && CursorAt(c, {}, 4).numPings == 2
            && Stalls(1, {1}) == {1}
            && CursorAt(c, {1}, 4).numPings == 1
  {
    var c := Config(4, 2, 1, 1, 0);
    var s1 := CursorAt(c, {}, 1);
    assert s1 == CursorAt(c, {1}, 1) == Cursor(1, 1, 1, true);
    var s2 := CursorAt(c, {}, 2);
    assert s2 == Cursor(1, 0, 1, false);
    assert CursorAt(c, {}, 3) == Cursor(1, 1, 1, false);
    assert CursorAt(c, {1}, 2) == s1;
    assert CursorAt(c, {1}, 3) == Cursor(1, 0, 1, false);
  }

  /** The 32-bit ping counter asks subscribers in turn for as long as, and only as
      long as, it has not gone negative under a remainder that shows it. */
  lemma TargetsRotate(c: Config, n: nat)
    requires c.Valid()
    ensures (forall k :: 0 <= k < n ==> Target(c, k) == k % c.numSubscribers)
        <==> n <= TWO31
             || c.numSubscribers == 1
             || (n == TWO31 + 1 && TWO31 % c.numSubscribers == 0)
  {
    var M := c.numSubscribers;
    if M == 1 {
      forall k: nat
        ensures Target(c, k) == k % M
      {
        RemByOne(Int32(k));
      }
    } else {
      forall k | 0 <= k < n && k < TWO31
        ensures Target(c, k) == k % M
      {
        TargetInRange(k, M);
      }
      WrappedTargets(M);
      assert n > TWO31 ==> Target(c, TWO31) == -(TWO31 % M);
      assert n > TWO31 + 1 ==> Target(c, TWO31 + 1) == -((TWO31 - 1) % M);
    }
  }

  /** Whether the first `n` pings all name a subscriber. */
  predicate TargetsNonNegative(c: Config, n: nat)
    requires c.Valid()
  {
    n <= TWO31 || c.numSubscribers == 1 || (n == TWO31 + 1 && TWO31 % c.numSubscribers == 0)
  }

  /** The remainder turns negative exactly where that condition says, however long the run. */
  lemma TargetsNonNegativeIff(c: Config, n: nat)
    requires c.Valid()
    ensures (forall k :: 0 <= k < n ==> Target(c, k) >= 0) <==> TargetsNonNegative(c, n)
  {
    var M := c.numSubscribers;
    if M == 1 {
      forall k: nat
        ensures Target(c, k) == 0
      {
        RemByOne(Int32(k));
      }
    } else {
      forall k | 0 <= k < n && k < TWO31
        ensures Target(c, k) >= 0
      {
        TargetInRange(k, M);
      }
      WrappedTargets(M);
      assert n > TWO31 ==> Target(c, TWO31) == -(TWO31 % M);
      assert n > TWO31 + 1 ==> Target(c, TWO31 + 1) == -((TWO31 - 1) % M);
    }
  }

  lemma RemByOne(x: int)
    ensures Rem(x, 1) == 0
  {
  }

  lemma TargetInRange(k: nat, M: nat)
    requires M > 0 && (k < TWO31 || (M == 1 && k < TWO32))
    ensures Rem(Int32(k), M) == k % M
  {
  }

  /** The first two counts past the signed range. */
  lemma WrappedTargets(M: nat)
    requires M > 1
    ensures TWO31 % M >= 0 && (TWO31 + 1) % M >= 0
    ensures TWO31 % M == 0 ==> (TWO31 - 1) % M > 0
  {
    DivModSuccessor(TWO31 - 1, M);
  }

  // ----- The size of the latency history array -----

  /** `num_latency` of the C++ publishers, before it is passed as 32 bits. */
  function TraditionalNumLatency(c: Config): (m: nat)
    requires c.Valid()
  {
    DivNonNegative(c.numIter, c.samplesPerBatch);
    var batches: nat := c.numIter / c.samplesPerBatch;
    DivNonNegative(batches, c.latencyCount);
    var whole: nat := batches / c.latencyCount;
    whole
    + (if batches % c.latencyCount > 0 then 1 else 0)
    + (if c.samplesPerBatch > 1 then 1 else 0)
  }

  /** `numLatency` of the C# publisher, which is 32 bits wide throughout and tests
      the remainder of its already divided value. */
  function CSharpNumLatency(c: Config): (m: nat)
    requires c.Valid()
  {
    RoundedUp(c, UInt32(c.numIter / c.samplesPerBatch / c.latencyCount))
  }

  /** The two increments that may follow the division. */
  function RoundedUp(c: Config, whole: nat): (m: nat)
    requires c.Valid()
    ensures whole + 2 < TWO32 ==> whole <= m <= whole + 2
  {
    UInt32Below(whole + 1);
    UInt32Below(whole + 2);
    var rounded := if whole / c.samplesPerBatch % c.latencyCount > 0 then UInt32(whole + 1) else whole;
    if c.samplesPerBatch > 1 then UInt32(rounded + 1) else rounded
  }

  /** The C++ array is exactly as long as the pings of a full run, except that with
      batches one slot may stay free, and it says when. */
  lemma TraditionalCapacityIsTight(c: Config)
    requires c.Valid()
    ensures var m, pings := TraditionalNumLatency(c), PingsBefore(c, c.numIter);
            && m - 1 <= pings <= m
            && (c.samplesPerBatch == 1 ==> pings == m)
            && (c.samplesPerBatch > 1 ==>
                  (pings == m <==> PingedInBatch(c, c.numIter)))
  {
  }

  /** That size reaches the array through 32 bits, which hold it exactly while it is below 2^32. */
  lemma TraditionalCapacitySufficesIff(c: Config)
    requires c.Valid()
    ensures PingsBefore(c, c.numIter) <= UInt32(TraditionalNumLatency(c)) <==> TraditionalNumLatency(c) < TWO32
  {
    TraditionalCapacityIsTight(c);
    UInt32Below(TraditionalNumLatency(c));
  }

  lemma UInt32Below(x: nat)
    ensures UInt32(x) < TWO32
    ensures x < TWO32 ==> UInt32(x) == x
    ensures TWO32 <= x < 2 * TWO32 ==> UInt32(x) == x - TWO32
  {
  }

  /** How much the two roundings add to the whole part. */
  function Increments(c: Config, whole: nat): (n: nat)
    requires c.Valid()
    ensures n <= 2
  {
    (if whole / c.samplesPerBatch % c.latencyCount > 0 then 1 else 0) + (if c.samplesPerBatch > 1 then 1 else 0)
  }

  /** Exactly when the C# array holds a slot for every ping of a full run: its size fits
      32 bits, and it is not that without batches the last ping is left over while the
      whole part divides evenly. */
  lemma CSharpCapacitySufficesIff(c: Config)
    requires c.Valid()
    ensures PingsBefore(c, c.numIter) <= CSharpNumLatency(c)
        <==> var whole := c.numIter / c.samplesPerBatch / c.latencyCount;
             && whole + Increments(c, whole) < TWO32
             && !(c.samplesPerBatch == 1 && c.numIter % c.latencyCount > 0 && whole % c.latencyCount == 0)
  {
    hide RoundedUp, PingsBefore, UInt32;
    PingsBeforeWhole(c, c.numIter);
    var whole: nat := c.numIter / c.samplesPerBatch / c.latencyCount;
    UInt32Below(whole);
    RoundedUpTotal(c, UInt32(whole));
    WholePings(c);
    if whole < TWO32 {
      UInt32Below(whole + Increments(c, whole));
    } else {
      UInt32Below(UInt32(whole) + Increments(c, UInt32(whole)));
    }
  }

  lemma RoundedUpTotal(c: Config, whole: nat)
    requires c.Valid() && whole < TWO32
    ensures RoundedUp(c, whole) == UInt32(whole + Increments(c, whole))
  {
  }

  /** Without batches a run has one ping more than whole rounds if the last is cut short. */
  lemma WholePings(c: Config)
    requires c.Valid()
    ensures var whole := c.numIter / c.samplesPerBatch / c.latencyCount;
            && whole <= PingsBefore(c, c.numIter) <= whole + 1
            && (c.samplesPerBatch == 1 ==>
                  && c.numIter / c.samplesPerBatch == c.numIter
                  && (PingsBefore(c, c.numIter) == whole + 1 <==> c.numIter % c.latencyCount > 0)
                  && whole / c.samplesPerBatch == whole)
  {
    DivNonNegative(c.numIter, c.samplesPerBatch);
    DivNonNegative(c.numIter / c.samplesPerBatch, c.latencyCount);
  }

  /** The C# array can be one short of the pings, never more, while its size fits 32 bits. */
  lemma CSharpCapacityWithinOne(c: Config)
    requires c.Valid()
    requires c.numIter / c.samplesPerBatch / c.latencyCount + 2 < TWO32
    ensures PingsBefore(c, c.numIter) <= CSharpNumLatency(c) + 1
    ensures CSharpNumLatency(c) <= c.numIter / c.samplesPerBatch / c.latencyCount + 2
  {
    var whole := c.numIter / c.samplesPerBatch / c.latencyCount;
    PingsBeforeWhole(c, c.numIter);
    assert UInt32(whole) == whole;
    var m := RoundedUp(c, whole);
  }

  lemma PingsBeforeWhole(c: Config, n: nat)
    requires c.Valid()
    ensures 0 <= n / c.samplesPerBatch / c.latencyCount
    ensures PingsBefore(c, n) <= n / c.samplesPerBatch / c.latencyCount + 1
  {
    DivNonNegative(n, c.samplesPerBatch);
    DivNonNegative(n / c.samplesPerBatch, c.latencyCount);
  }

  /** Both off-by-one and truncation do happen: ten samples with a ping every three
      make four pings for three slots, and 2^32 + 5 pings get five slots. */
  lemma CSharpCapacityFallsShort()
    ensures var c := Config(10, 1, 3, 1, 0);
            c.Valid() && PingsBefore(c, c.numIter) == 4 && CSharpNumLatency(c) == 3
    ensures var c := Config(TWO32 + 5, 1, 1, 1, 0);
            c.Valid() && PingsBefore(c, c.numIter) == TWO32 + 5 && CSharpNumLatency(c) == 5
  {
  }
}
