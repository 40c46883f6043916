/** How configuration settles the batch size, and with it the samples per batch that the
    send loop and the ping protocol depend on. */
module BatchConfig {
  import opened Machine
  import opened Messages
  import PingPong

  const DEFAULT_THROUGHPUT_BATCH_SIZE: int := 8192
  const MINIMUM_BURST: int := 50

  /** What the user asked for. `dataLen` and `sendQueueSize` have passed their range checks. */
  datatype Request = Request(
    batchSize: Option<int>, dataLen: nat, sendQueueSize: nat, latencyTest: bool, pubRateSet: bool,
    turboMode: bool, asynchronous: bool)
  {
    predicate Valid() {
      && 0 < dataLen < TWO31 && 0 < sendQueueSize < TWO31
      && (batchSize.Some? ==> 0 - TWO31 <= batchSize.value < TWO31)
    }

    function Wanted(): (size: int) {
      if batchSize.Some? then batchSize.value else DEFAULT_THROUGHPUT_BATCH_SIZE
    }
  }

  /** How many samples the send loop counts as one batch. */
  function SamplesPerBatch(batchSize: int, dataLen: nat): (n: nat)
    requires dataLen > 0
  {
    if batchSize > 0 then
      DivNonNegative(batchSize, dataLen);
      Max(1, batchSize / dataLen)
    else 1
  }

  class Implementation {
    const request: Request
    var parametersBatchSize: int
    var enableTurboMode: bool
    var batchSize: int
    var initialBurstSampleCount: int

    ghost predicate Valid()
      reads this
    {
      request.Valid() && 0 - TWO31 <= parametersBatchSize < TWO31
    }

    constructor (request: Request)
      requires request.Valid()
      ensures Valid() && this.request == request
      ensures request.batchSize.Some? ==> parametersBatchSize == request.batchSize.value
      ensures enableTurboMode == request.turboMode
    {
      this.request := request;
      parametersBatchSize := if request.batchSize.Some? then request.batchSize.value else 0;
      enableTurboMode := request.turboMode;
      batchSize, initialBurstSampleCount := 0, 0;
    }

    /** The batch rules of command-line checking. */
    method ParseConfig() returns (ok: bool)
      requires Valid() && (request.batchSize.Some? ==> parametersBatchSize == request.batchSize.value)
      modifies this`parametersBatchSize
      ensures Valid()
      ensures ok == Asked(request).Some?
      ensures ok ==> parametersBatchSize == Asked(request).value
    {
      var isSet := request.batchSize.Some?;
      if isSet && parametersBatchSize < 0 {
        return false;
      }
      if !isSet {
        parametersBatchSize := DEFAULT_THROUGHPUT_BATCH_SIZE;
      }
      if parametersBatchSize > 0 {
        if request.latencyTest {
          if isSet {
            return false;
          } else {
            parametersBatchSize := 0;
          }
        }
      }
      ok := true;
    }

    /** The rules that depend on the sample size and the transport. */
    method DataSizeRelatedCalculations(maxUnfragmented: int) returns (ok: bool)
      requires Valid()
      modifies this
      ensures Valid()
      ensures var asked := old(parametersBatchSize);
              && ok == !((asked > 0 && request.dataLen > maxUnfragmented && request.batchSize.Some?)
                         || (old(enableTurboMode) && request.asynchronous))
              && (ok ==> enableTurboMode == (old(enableTurboMode) && request.dataLen <= maxUnfragmented))
              && (ok ==> batchSize == parametersBatchSize == Settled(request, asked, maxUnfragmented))
              && (ok ==> initialBurstSampleCount == InitialBurst(request, batchSize))
    {
      var isSet, isLargeData := request.batchSize.Some?, request.dataLen > maxUnfragmented;
      if parametersBatchSize > 0 {
        if isLargeData {
          if isSet {
            return false;
          } else {
            parametersBatchSize := -2;
          }
        } else if parametersBatchSize < UInt64(request.dataLen * 2) {
          if isSet {
            parametersBatchSize := -1;
          } else {
            parametersBatchSize := 0;
          }
        }
      }
      if request.pubRateSet && isSet && parametersBatchSize > 0 {
        parametersBatchSize := -4;
      }
      if enableTurboMode {
        if request.asynchronous {
          return false;
        }
        if isLargeData {
          enableTurboMode := false;
        }
      }
      batchSize := parametersBatchSize;
      initialBurstSampleCount := MINIMUM_BURST;
      initialBurstSampleCount := Max(initialBurstSampleCount, Int32(request.sendQueueSize));
      if batchSize > 0 {
        var samplesPerBatch := Max(1, batchSize / request.dataLen);
        var batchedSampleCount := request.sendQueueSize * samplesPerBatch;
        initialBurstSampleCount := Min(TWO31 - 1, Max(batchedSampleCount, initialBurstSampleCount));
      }
      ok := true;
    }

    /** Both, as a run does them. */
    method Configure(maxUnfragmented: int) returns (ok: bool)
      requires Valid() && enableTurboMode == request.turboMode
      requires request.batchSize.Some? ==> parametersBatchSize == request.batchSize.value
      modifies this
      ensures Valid()
      ensures ok == Configured(request, maxUnfragmented).Some?
      ensures ok ==> batchSize == Configured(request, maxUnfragmented).value
    {
      ok := ParseConfig();
      if ok {
        ok := DataSizeRelatedCalculations(maxUnfragmented);
      }
    }
  }

  /** The batch size that command-line checking asks for, unless it refuses. */
  function Asked(q: Request): (size: Option<int>) {
    if q.batchSize.Some? && (q.batchSize.value < 0 || (q.batchSize.value > 0 && q.latencyTest)) then None
    else Some(if q.latencyTest then 0 else q.Wanted())
  }

  /** The batch size of a whole configuration, unless it is refused. */
  function Configured(q: Request, maxUnfragmented: int): (size: Option<int>) {
    var asked := Asked(q);
    if asked.None? then None
    else if asked.value > 0 && q.dataLen > maxUnfragmented && q.batchSize.Some? then None
    else if q.turboMode && q.asynchronous then None
    else Some(Settled(q, asked.value, maxUnfragmented))
  }

  /** The batch size after both sets of rules, where a refusal does not come first: zero
      or less switches batching off, and tells the printout why. */
  function Settled(q: Request, asked: int, maxUnfragmented: int): (size: int) {
    if asked <= 0 then asked
    else if q.dataLen > maxUnfragmented then -2
    else if asked < 2 * q.dataLen then (if q.batchSize.Some? then -1 else 0)
    else if q.pubRateSet && q.batchSize.Some? then -4
    else asked
  }

  function InitialBurst(q: Request, size: int): (n: int)
    requires q.Valid()
  {
    if size > 0 then Min(TWO31 - 1, Max(q.sendQueueSize * SamplesPerBatch(size, q.dataLen),
                                        Max(MINIMUM_BURST, q.sendQueueSize)))
    else Max(MINIMUM_BURST, q.sendQueueSize)
  }

  /** In every accepted configuration batching is on exactly when it was wanted, fits and
      nothing rules it out; then a batch holds at least two samples, and otherwise it
      counts as one. */
  lemma BatchesHoldTwoIffOn(q: Request, maxUnfragmented: int)
    requires q.Valid() && Configured(q, maxUnfragmented).Some?
    ensures var size := Configured(q, maxUnfragmented).value;
            && (size > 0 <==> !q.latencyTest && 2 * q.dataLen <= q.Wanted() && q.dataLen <= maxUnfragmented
                              && !(q.pubRateSet && q.batchSize.Some?))
            && (size > 0 <==> SamplesPerBatch(size, q.dataLen) >= 2)
            && (size <= 0 <==> SamplesPerBatch(size, q.dataLen) == 1)
            && SamplesPerBatch(size, q.dataLen) < TWO31
  {
    var size := Configured(q, maxUnfragmented).value;
    if size > 0 {
      TwoFit(size, q.dataLen);
    }
  }

  /** A batch of a positive size counts the samples that fit into it, or one if none does. */
  lemma BatchHolds(size: int, dataLen: nat)
    requires dataLen > 0
    ensures var n := SamplesPerBatch(size, dataLen);
            if dataLen <= size then n * dataLen <= size < (n + 1) * dataLen else n == 1
  {
    if size > 0 {
      DivModIdentity(size, dataLen);
      if size < dataLen {
        DivModUnique(size, dataLen, 0, size);
      } else {
        DivMonotone(dataLen, size, dataLen);
        DivModUnique(dataLen, dataLen, 1, 0);
      }
    }
  }

  /** A configuration is refused exactly for asynchronous turbo mode, or for an explicit size
      that is negative, or meant for a latency test or for large data. */
  lemma RefusedIff(q: Request, maxUnfragmented: int)
    ensures Configured(q, maxUnfragmented).None?
        <==> || (q.turboMode && q.asynchronous)
             || (q.batchSize.Some? && q.batchSize.value < 0)
             || (q.batchSize.Some? && q.batchSize.value > 0 && (q.latencyTest || q.dataLen > maxUnfragmented))
  {
  }

  /** What an accepted configuration tells the printout: the size in use is the one asked for,
      8192 by default, and each of the other values has one reason. */
  lemma SizesTellReasons(q: Request, maxUnfragmented: int)
    requires q.Valid() && Configured(q, maxUnfragmented).Some?
    ensures var size := Configured(q, maxUnfragmented).value;
            var isSet, isLarge := q.batchSize.Some?, q.dataLen > maxUnfragmented;
            var wanted := if isSet then q.batchSize.value else 8192;
            && (size > 0 ==> size == wanted)
            && (size == -1 <==> isSet && 0 < wanted < 2 * q.dataLen)
            && (size == -2 <==> !isSet && !q.latencyTest && isLarge)
            && (size == -4 <==> isSet && q.pubRateSet && 2 * q.dataLen <= wanted)
            && (size == 0 <==> wanted == 0 || q.latencyTest || (!isSet && !isLarge && wanted < 2 * q.dataLen))
            && (size > 0 || size in [0, -1, -2, -4])
  {
  }

  lemma TwoFit(size: nat, dataLen: nat)
    requires 0 < dataLen && 2 * dataLen <= size
    ensures 2 <= size / dataLen <= size
  {
    DivMonotone(2 * dataLen, size, dataLen);
    DivModUnique(2 * dataLen, dataLen, 2, 0);
    DivModIdentity(size, dataLen);
    MulMonotone(1, dataLen, size / dataLen);
  }

  /** Settling is done once and for all: applying the rules again changes nothing. */
  lemma SettlingIsStable(q: Request, asked: int, maxUnfragmented: int)
    requires q.Valid()
    ensures var size := Settled(q, asked, maxUnfragmented); Settled(q, size, maxUnfragmented) == size
  {
  }

  /** A latency test is left with one sample per batch, whatever the sizes, so that with
      a data payload every ping it sends can be answered. */
  lemma LatencyTestsAreAnswerable(q: Request, maxUnfragmented: int, t: PingPong.Test)
    requires q.Valid() && q.latencyTest && t.Valid() && Configured(q, maxUnfragmented).Some?
    requires t.c.samplesPerBatch == SamplesPerBatch(Configured(q, maxUnfragmented).value, q.dataLen)
    requires t.size == q.dataLen - OVERHEAD_BYTES && !IsControl(t.size)
    requires t.variant.Traditional? || q.dataLen != OVERHEAD_BYTES
    requires t.c.numIter / t.c.latencyCount + 2 < TWO31
    ensures t.c.samplesPerBatch == 1 && PingPong.Answerable(t)
  {
    PingPong.ConfiguredTestsAreAnswerable(t);
  }

  /** The burst of first samples fills the send queue, in samples or in whole batches. */
  lemma BurstFillsSendQueue(q: Request, size: int)
    requires q.Valid() && size < TWO31
    ensures var n := InitialBurst(q, size);
            && MINIMUM_BURST <= n < TWO31 && q.sendQueueSize <= n
            && (n >= q.sendQueueSize * SamplesPerBatch(size, q.dataLen) || n == TWO31 - 1)
  {
  }

  /** And no larger than that needs. */
  lemma BurstIsLeast(q: Request, size: int, n: int)
    requires q.Valid() && size < TWO31
    requires MINIMUM_BURST <= n && q.sendQueueSize <= n && q.sendQueueSize * SamplesPerBatch(size, q.dataLen) <= n
    ensures InitialBurst(q, size) <= n
  {
  }
}
