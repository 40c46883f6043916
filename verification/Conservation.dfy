/** The end of a run with any number of publishers: packets received, packets reported
    missing and packets that the report cannot see add up to the packets sent. */
module Conservation {
  import opened Machine
  import opened Messages
  import opened Collections
  import opened ThroughputListener
  import opened LossCounting

  // ----- Runs -----

  /** Whether a known publisher's data sample is delivered. */
  predicate IsData(d: Delivery, numPublishers: nat) {
    0 <= d.message.entityId < numPublishers && !IsControl(d.message.size)
  }

  /** The payload size of the last data sample; -1 before the first. */
  function LastSize(ds: seq<Delivery>, numPublishers: nat): (size: int) {
    if ds == [] then -1 else
      var d := ds[|ds| - 1];
      if IsData(d, numPublishers) then d.message.size else LastSize(ds[..|ds| - 1], numPublishers)
  }

  /** The data samples among any deliveries since the payload size last changed. */
  function DataLog(ds: seq<Delivery>, numPublishers: nat): (log: seq<Datum>)
    ensures forall e :: e in log ==> e.publisher < numPublishers
  {
    if ds == [] then [] else
      var init, d := ds[..|ds| - 1], ds[|ds| - 1];
      if IsData(d, numPublishers) then
        (if d.message.size == LastSize(init, numPublishers) then DataLog(init, numPublishers) else [])
        + [Datum(d.message.entityId, d.message.seqNum)]
      else DataLog(init, numPublishers)
  }

  /** Sample numbers as they travel. */
  function Cut(nums: seq<nat>): (s: seq<nat>)
    ensures |s| == |nums| && forall i :: 0 <= i < |s| ==> s[i] == UInt32(nums[i])
  {
    seq(|nums|, i requires 0 <= i < |nums| => UInt32(nums[i]))
  }

  ghost predicate Increasing(s: seq<nat>) {
    forall i, j :: 0 <= i < j < |s| ==> s[i] < s[j]
  }

  /** The number that a FINISHED sample still carries after `n` data samples. */
  function FinalNumber(n: nat): (seqNum: nat) { if n == 0 then 0 else UInt32(n - 1) }

  /** What publishers sent and what of it arrived since the size last changed, in order but
      with gaps. */
  ghost predicate Received(log: seq<Datum>, received: seq<seq<nat>>, sent: seq<nat>) {
    && |received| == |sent|
    && forall p :: 0 <= p < |sent| ==>
         Stream(log, p) == Cut(received[p]) && Increasing(received[p]) && Below(received[p], sent[p])
  }

  ghost predicate Below(nums: seq<nat>, n: nat) { forall x :: x in nums ==> x < n }

  ghost predicate SizesFit(ds: seq<Delivery>, numPublishers: nat) {
    forall d :: d in ds && IsData(d, numPublishers) ==> d.message.size >= 0
  }

  /** The deliveries of a whole run: data of all publishers in any interleaving and of any
      sizes, among it any control messages, and at the end the FINISHED sample of publisher
      `q` that ends the test. Pings, timestamps and clock readings are arbitrary. */
  ghost predicate IsRun(r0: Reception, ds: seq<Delivery>, last: Delivery, q: nat,
                        received: seq<seq<nat>>, sent: seq<nat>) {
    && r0 == Start(|sent|, false, r0.subId, r0.overhead)
    && SizesFit(ds, |sent|) && Received(DataLog(ds, |sent|), received, sent)
    && q < |sent| && FinishedFrom(last, q) && last.message.seqNum == FinalNumber(sent[q])
    && !Deliver(r0, ds).endTest && Deliver(r0, ds + [last]).endTest
  }

  /** The publisher whose tail the summary counts; none if no data arrived. */
  function TailOf(ds: seq<Delivery>, numPublishers: nat, q: nat): (p: int) {
    if DataLog(ds, numPublishers) == [] then -1 else q
  }

  // ----- The law -----

  /** The first nonzero number received; 0 if there is none. */
  function FirstNonzero(nums: seq<nat>): (n: nat)
    requires nums != []
  {
    if nums[0] > 0 then nums[0] else if |nums| > 1 then nums[1] else 0
  }

  /** The samples lost ahead of the first nonzero number received. */
  function LostAhead(nums: seq<nat>): (lost: set<int>)
    requires nums != []
  {
    set i | 0 <= i < FirstNonzero(nums) && i !in nums
  }

  /** How many of a publisher's `n` samples the report cannot see: those lost ahead of the
      first nonzero number, and unless its tail is counted also those lost after the last
      number; of a publisher that was not heard at all everything, or sample 0. */
  function Unreported(nums: seq<nat>, n: nat, tailCounted: bool): (lost: nat)
    requires Below(nums, n)
  {
    if nums == [] then (if tailCounted then Min(1, n) else n)
    else
      assert nums[|nums| - 1] in nums;
      |LostAhead(nums)| + if tailCounted then 0 else n - 1 - nums[|nums| - 1]
  }

  function UnreportedBy(received: seq<seq<nat>>, sent: seq<nat>, q: int, n: nat): (lost: nat)
    requires n <= |sent| == |received|
    requires forall p :: 0 <= p < |sent| ==> Below(received[p], sent[p])
  {
    if n == 0 then 0
    else UnreportedBy(received, sent, q, n - 1) + Unreported(received[n - 1], sent[n - 1], n - 1 == q)
  }

  function SentBy(sent: seq<nat>, n: nat): (total: nat)
    requires n <= |sent|
  {
    if n == 0 then 0 else SentBy(sent, n - 1) + sent[n - 1]
  }

  /** The conservation law of a run. */
  ghost predicate Conserved(i: Interval, q: int, received: seq<seq<nat>>, sent: seq<nat>)
    requires |received| == |sent| && forall p :: 0 <= p < |sent| ==> Below(received[p], sent[p])
  {
    i.packets + i.missing + UnreportedBy(received, sent, q, |sent|) == SentBy(sent, |sent|)
  }

  // ----- The summary of a run -----

  /** Delivery `k` is the data sample since which the payload size has been the same. */
  ghost predicate BeginsLastSize(ds: seq<Delivery>, k: nat, numPublishers: nat) {
    && k < |ds| && IsData(ds[k], numPublishers)
    && ds[k].message.size == LastSize(ds, numPublishers) != LastSize(ds[..k], numPublishers)
    && forall j :: k <= j < |ds| && IsData(ds[j], numPublishers) ==> ds[j].message.size == ds[k].message.size
  }

  /** The clock read `t` when that sample was handled. */
  ghost predicate BeganAt(ds: seq<Delivery>, t: int, numPublishers: nat) {
    exists k: nat :: BeginsLastSize(ds, k, numPublishers) && ds[k].now == t
  }

  /** All data samples among some deliveries. */
  function DataOf(ds: seq<Delivery>, numPublishers: nat): (log: seq<Datum>) {
    if ds == [] then [] else
      var d := ds[|ds| - 1];
      DataOf(ds[..|ds| - 1], numPublishers)
      + if IsData(d, numPublishers) then [Datum(d.message.entityId, d.message.seqNum)] else []
  }

  /** The log holds all data from there on. */
  lemma {:induction false} LogSince(ds: seq<Delivery>, k: nat, numPublishers: nat)
    requires BeginsLastSize(ds, k, numPublishers)
    ensures DataLog(ds, numPublishers) == DataOf(ds[k..], numPublishers)
  {
    var init, d := ds[..|ds| - 1], ds[|ds| - 1];
    assert ds[k..] == init[k..] + [d] && ds[k..][..|ds| - k - 1] == init[k..];
    assert ds[..k] == init[..k];
    if k == |init| {
      assert init[k..] == [] && init[..k] == init;
    } else {
      SizeSince(init, k, numPublishers);
      LogSince(init, k, numPublishers);
    }
  }

  lemma {:induction false} SizeSince(ds: seq<Delivery>, k: nat, numPublishers: nat)
    requires k < |ds| && IsData(ds[k], numPublishers)
    requires forall j :: k <= j < |ds| && IsData(ds[j], numPublishers) ==> ds[j].message.size == ds[k].message.size
    ensures LastSize(ds, numPublishers) == ds[k].message.size
  {
    if k < |ds| - 1 {
      SizeSince(ds[..|ds| - 1], k, numPublishers);
    }
  }

  lemma BeganStays(ds: seq<Delivery>, d: Delivery, t: int, numPublishers: nat)
    requires BeganAt(ds, t, numPublishers)
    requires IsData(d, numPublishers) ==> d.message.size == LastSize(ds, numPublishers)
    ensures BeganAt(ds + [d], t, numPublishers)
  {
    var k: nat :| BeginsLastSize(ds, k, numPublishers) && ds[k].now == t;
    var ds' := ds + [d];
    assert ds'[..|ds|] == ds && ds'[..k] == ds[..k] && ds'[k] == ds[k];
    assert BeginsLastSize(ds', k, numPublishers);
  }

  lemma BeginsNow(ds: seq<Delivery>, d: Delivery, numPublishers: nat)
    requires IsData(d, numPublishers) && d.message.size != LastSize(ds, numPublishers)
    ensures BeganAt(ds + [d], d.now, numPublishers)
  {
    var ds' := ds + [d];
    assert ds'[..|ds|] == ds && ds'[|ds|] == d;
    assert BeginsLastSize(ds', |ds|, numPublishers);
  }

  /** Until the test ends the listener has logged the data, knows since when, and nothing
      else has changed. */
  lemma {:induction false} RunIsLogged(r0: Reception, ds: seq<Delivery>)
    requires r0 == Start(r0.numPublishers, r0.useCft, r0.subId, r0.overhead)
    requires !Deliver(r0, ds).endTest
    ensures var r := Deliver(r0, ds);
            && r.lastDataLength == LastSize(ds, r0.numPublishers) && r.log == DataLog(ds, r0.numPublishers)
            && r.base == r0.base && r.interval == r0.interval
            && r.useCft == r0.useCft && r.overhead == r0.overhead
            && (r.lastDataLength != -1 ==> BeganAt(ds, r.beginTime, r0.numPublishers))
  {
    if ds != [] {
      var init, d := ds[..|ds| - 1], ds[|ds| - 1];
      hide Process, BeganAt;
      var q := Deliver(r0, init);
      EndStays(q, d);
      RunIsLogged(r0, init);
      OneDelivery(q, d);
      assert ds == init + [d];
      if IsData(d, r0.numPublishers) && d.message.size != q.lastDataLength {
        BeginsNow(init, d, r0.numPublishers);
      } else if q.lastDataLength != -1 {
        BeganStays(init, d, q.beginTime, r0.numPublishers);
      }
    }
  }

  lemma EndStays(r: Reception, d: Delivery)
    requires r.Sized()
    ensures r.endTest ==> Process(r, d.message, d.now).reception.endTest
  {
  }

  /** One delivery before the end, by kind. */
  lemma OneDelivery(r: Reception, d: Delivery)
    requires r.Sized() && r.base == Zeros(r.numPublishers)
    ensures var r' := Process(r, d.message, d.now).reception;
            !r'.endTest ==>
              && !r.endTest && r'.base == r.base && r'.interval == r.interval
              && r'.useCft == r.useCft && r'.overhead == r.overhead
              && r'.beginTime
                 == (if IsData(d, r.numPublishers) && d.message.size != r.lastDataLength then d.now else r.beginTime)
              && (IsData(d, r.numPublishers) ==>
                    && r'.lastDataLength == d.message.size
                    && r'.log == (if d.message.size == r.lastDataLength then r.log else [])
                                 + [Datum(d.message.entityId, d.message.seqNum)])
              && (!IsData(d, r.numPublishers) ==> r'.log == r.log && r'.lastDataLength == r.lastDataLength)
  {
  }

  lemma {:induction false} NoDataNoLog(ds: seq<Delivery>, numPublishers: nat)
    requires SizesFit(ds, numPublishers)
    ensures DataLog(ds, numPublishers) == [] <==> LastSize(ds, numPublishers) == -1
  {
    if ds != [] {
      assert ds[|ds| - 1] in ds && forall e :: e in ds[..|ds| - 1] ==> e in ds;
      NoDataNoLog(ds[..|ds| - 1], numPublishers);
    }
  }

  /** The message that ends a test meets a listener that has logged the data. */
  lemma EndsAfterRun(r0: Reception, ds: seq<Delivery>, last: Delivery)
    requires r0 == Start(r0.numPublishers, r0.useCft, r0.subId, r0.overhead)
    requires SizesFit(ds, r0.numPublishers)
    requires !Deliver(r0, ds).endTest && Deliver(r0, ds + [last]).endTest
    ensures 0 <= last.message.entityId < r0.numPublishers && last.message.size == FINISHED_SIZE
    ensures var r := Deliver(r0, ds);
            && Deliver(r0, ds + [last]) == Process(r, last.message, last.now).reception
            && r.interval == Interval(-1, 0, 0, 0, 0) && (r.log == [] <==> r.lastDataLength == -1)
            && r.base == Zeros(r0.numPublishers)
  {
    hide Process, Deliver, DataLog, LastSize, BeganAt;
    RunIsLogged(r0, ds);
    NoDataNoLog(ds, r0.numPublishers);
    DeliverSnoc(r0, ds, last);
    OnlyFinishedEnds(Deliver(r0, ds), last.message, last.now);
  }

  /** The figures frozen at the end of a test, with a filter or without: they speak of the
      data since the payload size last changed. A filter leaves nothing to miss. */
  lemma SummaryOfRun(r0: Reception, ds: seq<Delivery>, last: Delivery)
    requires r0 == Start(r0.numPublishers, r0.useCft, r0.subId, r0.overhead)
    requires SizesFit(ds, r0.numPublishers)
    requires !Deliver(r0, ds).endTest && Deliver(r0, ds + [last]).endTest
    ensures 0 <= last.message.entityId < r0.numPublishers
    ensures var n := r0.numPublishers;
            var log, i := DataLog(ds, n), Deliver(r0, ds + [last]).interval;
            && i.dataLength == LastSize(ds, n)
            && i.packets == |log| && i.bytes == |log| * (i.dataLength + r0.overhead)
            && i.missing
               == (if r0.useCft then 0
                   else Missing(Zeros(n), log)
                        + if log == [] then 0
                          else Max(0, last.message.seqNum - LastSeq(Zeros(n), log, last.message.entityId)))
  {
    hide Start, Zeros, Process, Deliver, LastSeq, DataLog, LastSize, SizesFit, BeganAt, Missing;
    RunIsLogged(r0, ds);
    EndsAfterRun(r0, ds, last);
    EndingFigures(Deliver(r0, ds), last.message, last.now);
  }

  /** Its time runs from the sample with which that size came; without data it stays at zero. */
  lemma TimeOfRun(r0: Reception, ds: seq<Delivery>, last: Delivery)
    requires r0 == Start(r0.numPublishers, r0.useCft, r0.subId, r0.overhead)
    requires SizesFit(ds, r0.numPublishers)
    requires !Deliver(r0, ds).endTest && Deliver(r0, ds + [last]).endTest
    ensures var time := Deliver(r0, ds + [last]).interval.time;
            if DataLog(ds, r0.numPublishers) == [] then time == 0
            else BeganAt(ds, last.now - time, r0.numPublishers)
  {
    hide Start, Zeros, Process, Deliver, LastSeq, DataLog, LastSize, SizesFit, BeganAt, Missing;
    RunIsLogged(r0, ds);
    EndsAfterRun(r0, ds, last);
    EndingFigures(Deliver(r0, ds), last.message, last.now);
  }

  lemma OnlyFinishedEnds(r: Reception, m: Message, now: int)
    requires r.Sized() && !r.endTest && Process(r, m, now).reception.endTest
    ensures 0 <= m.entityId < r.numPublishers && m.size == FINISHED_SIZE
  {
  }

  lemma DeliverSnoc(r: Reception, ds: seq<Delivery>, d: Delivery)
    requires r.Sized()
    ensures Deliver(r, ds + [d]) == Process(Deliver(r, ds), d.message, d.now).reception
  {
    assert (ds + [d])[..|ds|] == ds;
  }

  /** The message that ends a test freezes the figures of the log before it. */
  lemma EndingMessage(r: Reception, m: Message, now: int)
    requires r.Sized() && !r.endTest
    requires 0 <= m.entityId < r.numPublishers && m.size == FINISHED_SIZE && Process(r, m, now).reception.endTest
    ensures Process(r, m, now).reception.interval
         == if r.interval.dataLength == r.lastDataLength then r.interval
            else Interval(
              r.lastDataLength, |r.log|, Bytes(r.log, r.lastDataLength + r.overhead),
              if r.useCft then 0
              else Missing(r.base, r.log) + Max(0, m.seqNum - LastSeq(r.base, r.log, m.entityId)),
              now - r.beginTime)
  {
  }

  /** The same in the words of the summary. */
  lemma EndingFigures(r: Reception, m: Message, now: int)
    requires r.Sized() && !r.endTest && 0 <= m.entityId < r.numPublishers && m.size == FINISHED_SIZE
    requires r.interval == Interval(-1, 0, 0, 0, 0) && (r.log == [] <==> r.lastDataLength == -1)
    requires Process(r, m, now).reception.endTest
    ensures var i := Process(r, m, now).reception.interval;
            && i.dataLength == r.lastDataLength && i.packets == |r.log|
            && i.bytes == |r.log| * (r.lastDataLength + r.overhead)
            && i.missing
               == (if r.useCft then 0
                   else Missing(r.base, r.log)
                        + if r.log == [] then 0 else Max(0, m.seqNum - LastSeq(r.base, r.log, m.entityId)))
            && i.time == if r.log == [] then 0 else now - r.beginTime
  {
    hide Process, LastSeq, Bytes;
    EndingMessage(r, m, now);
    BytesIsProduct(r.log, r.lastDataLength + r.overhead);
  }

  // ----- One stream -----

  /** The gaps of an increasing stream after the number 0 that means unset. */
  lemma {:induction false} GapsOfRun(nums: seq<nat>)
    requires nums != [] && Increasing(nums)
    ensures GapsOf(0, nums)
         == if nums[0] > 0 then nums[|nums| - 1] - nums[0] + 1 - |nums|
            else if |nums| > 1 then nums[|nums| - 1] - nums[1] + 2 - |nums|
            else 0
  {
    var init, x := nums[..|nums| - 1], nums[|nums| - 1];
    assert [0] + nums == ([0] + init) + [x];
    GapsSnoc([0] + init, x);
    if init == [] {
      assert Gaps([0] + init) == 0;
    } else {
      GapsOfRun(init);
      assert ([0] + init)[|init|] == nums[|nums| - 2] < x;
    }
  }

  /** Numbers below 2^32 travel unchanged. */
  lemma CutFits(nums: seq<nat>)
    requires Below(nums, TWO32)
    ensures Cut(nums) == nums
  {
    forall i | 0 <= i < |nums|
      ensures UInt32(nums[i]) == nums[i]
    {
      assert nums[i] in nums;
      UInt32Fits(nums[i]);
    }
  }

  lemma {:induction false} IncreasingLength(nums: seq<nat>, k: nat)
    requires Increasing(nums) && k <= |nums|
    ensures k > 0 ==> nums[k - 1] >= nums[0] + k - 1
    ensures k > 1 ==> nums[k - 1] >= nums[1] + k - 2
  {
    if k > 1 {
      IncreasingLength(nums, k - 1);
    }
  }

  lemma LostAheadSize(nums: seq<nat>)
    requires nums != [] && Increasing(nums)
    ensures |LostAhead(nums)|
         == if nums[0] > 0 then nums[0] else if |nums| > 1 then nums[1] - 1 else 0
  {
    var n := FirstNonzero(nums);
    forall i | 0 <= i < n
      ensures i in nums <==> i == nums[0] == 0
    {
      if i in nums {
        var k :| 0 <= k < |nums| && nums[k] == i;
      }
    }
    if nums[0] == 0 && n > 0 {
      assert LostAhead(nums) == Range(n) - {0};
    } else {
      assert LostAhead(nums) == Range(n);
    }
  }

  /** The last number of a stream; 0 if nothing was received. */
  function LastOf(s: seq<nat>): (n: nat) { if s == [] then 0 else s[|s| - 1] }

  /** The law for one publisher. */
  lemma OneStreamConserved(nums: seq<nat>, n: nat, tailCounted: bool)
    requires Increasing(nums) && Below(nums, n) && n <= TWO32
    ensures var tail := if tailCounted then Max(0, FinalNumber(n) - LastOf(Cut(nums))) else 0;
            |nums| + GapsOf(0, Cut(nums)) + tail + Unreported(nums, n, tailCounted) == n
  {
    if n > 0 {
      UInt32Fits(n - 1);
    }
    if nums == [] {
      assert Cut(nums) == [] && [0] + [] == [0];
    } else {
      assert nums[|nums| - 1] in nums;
      CutFits(nums);
      GapsOfRun(nums);
      LostAheadSize(nums);
      IncreasingLength(nums, |nums|);
    }
  }

  // ----- All streams -----

  function Lengths(log: seq<Datum>, n: nat): (total: nat) {
    if n == 0 then 0 else Lengths(log, n - 1) + |Stream(log, n - 1)|
  }

  lemma {:induction false} LengthsOfLog(log: seq<Datum>, n: nat)
    requires forall e :: e in log ==> e.publisher < n
    ensures Lengths(log, n) == |log|
  {
    if log == [] {
      NoLengths(n);
    } else {
      var init, d := log[..|log| - 1], log[|log| - 1];
      assert d in log && log == init + [d] && forall e :: e in init ==> e in log;
      LengthsOfLog(init, n);
      LengthsSnoc(init, d, n);
    }
  }

  lemma {:induction false} NoLengths(n: nat)
    ensures Lengths([], n) == 0
  {
    if n > 0 {
      NoLengths(n - 1);
    }
  }

  lemma {:induction false} LengthsSnoc(init: seq<Datum>, d: Datum, n: nat)
    ensures Lengths(init + [d], n) == Lengths(init, n) + if d.publisher < n then 1 else 0
  {
    if n > 0 {
      LengthsSnoc(init, d, n - 1);
      StreamSnoc(init, d, n - 1);
    }
  }

  lemma {:induction false} StreamsConserved(log: seq<Datum>, q: int, received: seq<seq<nat>>, sent: seq<nat>, n: nat)
    requires n <= |sent| && q < |sent| && Received(log, received, sent)
    requires forall p :: 0 <= p < |sent| ==> sent[p] <= TWO32
    ensures var tail := if 0 <= q < n then Max(0, FinalNumber(sent[q]) - LastOf(Cut(received[q]))) else 0;
            Lengths(log, n) + GapsOfStreams(Zeros(|sent|), log, n) + tail
            + UnreportedBy(received, sent, q, n) == SentBy(sent, n)
  {
    hide Unreported, GapsOf, LastOf, FinalNumber, Stream, Increasing, Below;
    if n > 0 {
      StreamsConserved(log, q, received, sent, n - 1);
      OneStreamConserved(received[n - 1], sent[n - 1], n - 1 == q);
    }
  }

  lemma LastSeqOfStream(log: seq<Datum>, numPublishers: nat, q: nat)
    requires q < numPublishers
    ensures LastSeq(Zeros(numPublishers), log, q) == LastOf(Stream(log, q))
  {
    StreamEnd(Zeros(numPublishers), log, q);
  }

  // ----- The theorems -----

  /** For any number of publishers, any interleaving and any losses: received, reported
      missing and unreported add up to what was sent, while no publisher sends more than
      2^32 samples. */
  lemma EndOfRunConservation(r0: Reception, ds: seq<Delivery>, last: Delivery, q: nat,
                             received: seq<seq<nat>>, sent: seq<nat>)
    requires IsRun(r0, ds, last, q, received, sent)
    requires forall p :: 0 <= p < |sent| ==> sent[p] <= TWO32
    ensures Conserved(Deliver(r0, ds + [last]).interval, TailOf(ds, |sent|, q), received, sent)
  {
    hide Deliver, DataLog, Missing, LastSeq, Stream, GapsOfStreams, Lengths, UnreportedBy, SentBy, FinalNumber;
    var log := DataLog(ds, |sent|);
    SummaryOfRun(r0, ds, last);
    MissingIsSumOfGaps(Zeros(|sent|), log);
    LengthsOfLog(log, |sent|);
    LastSeqOfStream(log, |sent|, q);
    StreamsConserved(log, TailOf(ds, |sent|, q), received, sent, |sent|);
  }

  /** The bound is exact: the law holds in every run in which the publishers send that many
      samples if and only if none of them sends more than 2^32. */
  lemma ConservationHoldsIff(sent: seq<nat>)
    ensures (forall r0, ds, last, q, received :: IsRun(r0, ds, last, q, received, sent) ==>
               Conserved(Deliver(r0, ds + [last]).interval, TailOf(ds, |sent|, q), received, sent))
        <==> forall p :: 0 <= p < |sent| ==> sent[p] <= TWO32
  {
    if forall p :: 0 <= p < |sent| ==> sent[p] <= TWO32 {
      forall r0, ds, last, q, received | IsRun(r0, ds, last, q, received, sent)
        ensures Conserved(Deliver(r0, ds + [last]).interval, TailOf(ds, |sent|, q), received, sent)
      {
        EndOfRunConservation(r0, ds, last, q, received, sent);
      }
    } else {
      var p :| 0 <= p < |sent| && sent[p] > TWO32;
      var r0, ds, last, received := WrappedRun(sent, p);
      assert IsRun(r0, ds, last, p, received, sent);
    }
  }

  /** Publisher 0 alone: of `n` samples the numbers `nums` arrive, at any times and with any
      pings among them. The report never exceeds the true loss and falls short of it by
      exactly the samples lost ahead of the first nonzero number; if none arrives it shows
      zeros. */
  lemma LossConservation(r0: Reception, ds: seq<Delivery>, last: Delivery, nums: seq<nat>, n: nat)
    requires IsRun(r0, ds, last, 0, [nums], [n]) && n <= TWO32
    ensures var i := Deliver(r0, ds + [last]).interval;
            && i.packets == |nums| && i.missing <= n - |nums|
            && i.dataLength == LastSize(ds, 1) && i.bytes == |nums| * (i.dataLength + r0.overhead)
            && (nums == [] ==> i.missing == 0)
            && (nums != [] ==> i.packets + i.missing == n - |LostAhead(nums)|)
  {
    var log := DataLog(ds, 1);
    EndOfRunConservation(r0, ds, last, 0, [nums], [n]);
    SummaryOfRun(r0, ds, last);
    LengthsOfLog(log, 1);
    assert Lengths(log, 1) == Lengths(log, 0) + |Stream(log, 0)|;
    assert Stream(log, 0) == Cut([nums][0]);
    var tail := TailOf(ds, 1, 0);
    assert UnreportedBy([nums], [n], tail, 1) == UnreportedBy([nums], [n], tail, 0) + Unreported(nums, n, tail == 0);
    assert SentBy([n], 1) == SentBy([n], 0) + n;
  }

  // ----- A run past the wrap -----

  function Sample(p: nat, size: int, seqNum: nat): (d: Delivery) { Delivery(Message(p, size, seqNum, 0, 0, -1), 0) }

  /** Control messages of all publishers, a FINISHED sample of each but `p`. */
  function OtherFinishes(numPublishers: nat, p: nat): (ds: seq<Delivery>)
    ensures |ds| == numPublishers
    ensures forall i :: 0 <= i < |ds| ==> ds[i] == Sample(i, if i == p then INITIALIZE_SIZE else FINISHED_SIZE, 0)
  {
    seq(numPublishers, i requires i >= 0 => Sample(i, if i == p then INITIALIZE_SIZE else FINISHED_SIZE, 0))
  }

  lemma {:induction false} ControlIsNotLogged(ds: seq<Delivery>, cs: seq<Delivery>, numPublishers: nat)
    requires forall c :: c in cs ==> !IsData(c, numPublishers)
    ensures DataLog(ds + cs, numPublishers) == DataLog(ds, numPublishers)
    ensures LastSize(ds + cs, numPublishers) == LastSize(ds, numPublishers)
  {
    if cs == [] {
      assert ds + cs == ds;
    } else {
      var init, c := cs[..|cs| - 1], cs[|cs| - 1];
      assert c in cs && forall e :: e in init ==> e in cs;
      ControlIsNotLogged(ds, init, numPublishers);
      assert (ds + cs)[..|ds + cs| - 1] == ds + init;
    }
  }

  /** Of more than 2^32 samples of publisher `p` only number 1 and the last arrive, and of
      the other publishers nothing; the sum falls short. */
  lemma WrappedRun(sent: seq<nat>, p: nat)
    returns (r0: Reception, ds: seq<Delivery>, last: Delivery, received: seq<seq<nat>>)
    requires p < |sent| && sent[p] > TWO32
    ensures IsRun(r0, ds, last, p, received, sent)
    ensures !Conserved(Deliver(r0, ds + [last]).interval, TailOf(ds, |sent|, p), received, sent)
  {
    hide Deliver, DataLog, Received, Conserved, Stream, WrappedDeliveries, SizesFit, UInt32, TailOf;
    var n, u := sent[p], UInt32(sent[p] - 1);
    r0, ds := Start(|sent|, false, 0, 0), WrappedDeliveries(|sent|, p, u);
    last := Sample(p, FINISHED_SIZE, u);
    received := seq(|sent|, i => if i == p then [1, n - 1] else []);
    WrappedLog(|sent|, p, u);
    EndsWithLast(|sent|, p, u, last);
    WrappedStreams(sent, p, received);
    WrappedSum(r0, ds, last, p, received, sent);
  }

  function WrappedDeliveries(numPublishers: nat, p: nat, u: nat): (ds: seq<Delivery>) {
    [Sample(p, 100, 1), Sample(p, 100, u)] + OtherFinishes(numPublishers, p)
  }

  /** The figures of that run, two packets and at most 2^32 - 3 missing, are too few. */
  lemma WrappedSum(r0: Reception, ds: seq<Delivery>, last: Delivery, p: nat,
                   received: seq<seq<nat>>, sent: seq<nat>)
    requires IsRun(r0, ds, last, p, received, sent) && sent[p] > TWO32
    requires DataLog(ds, |sent|) == [Datum(p, 1), Datum(p, UInt32(sent[p] - 1))]
    requires forall i :: 0 <= i < |sent| ==> received[i] == if i == p then [1, sent[p] - 1] else []
    ensures !Conserved(Deliver(r0, ds + [last]).interval, TailOf(ds, |sent|, p), received, sent)
  {
    hide Deliver, DataLog, UInt32, Missing, LastSeq, Unreported, Stream, SizesFit;
    var u := UInt32(sent[p] - 1);
    SummaryOfRun(r0, ds, last);
    WrappedFigures(|sent|, p, u);
    OnlyOneHeard(sent, p, received, |sent|);
    assert u < TWO32 by { CutBelow(sent[p] - 1); }
  }

  lemma CutBelow(x: nat)
    ensures UInt32(x) < TWO32
  {
  }

  lemma WrappedLog(numPublishers: nat, p: nat, u: nat)
    requires p < numPublishers
    ensures var ds := WrappedDeliveries(numPublishers, p, u);
            && DataLog(ds, numPublishers) == [Datum(p, 1), Datum(p, u)]
            && SizesFit(ds, numPublishers)
  {
    var data, others := [Sample(p, 100, 1), Sample(p, 100, u)], OtherFinishes(numPublishers, p);
    forall c | c in others
      ensures !IsData(c, numPublishers)
    {
    }
    ControlIsNotLogged(data, others, numPublishers);
    assert data[..1] == [data[0]] && data[..1][..0] == [];
    assert DataLog(data[..1][..0], numPublishers) == [];
    assert DataLog(data[..1], numPublishers) == [Datum(p, 1)];
    assert LastSize(data[..1], numPublishers) == 100;
    forall d | d in data + others && IsData(d, numPublishers)
      ensures d.message.size >= 0
    {
      assert d in data || d in others;
    }
  }

  lemma WrappedStreams(sent: seq<nat>, p: nat, received: seq<seq<nat>>)
    requires p < |sent| && sent[p] > TWO32
    requires |received| == |sent|
    requires forall i :: 0 <= i < |sent| ==> received[i] == if i == p then [1, sent[p] - 1] else []
    ensures Received([Datum(p, 1), Datum(p, UInt32(sent[p] - 1))], received, sent)
  {
    var u := UInt32(sent[p] - 1);
    var log := [Datum(p, 1), Datum(p, u)];
    assert log[..1] == [Datum(p, 1)] && log[..1][..0] == [];
    UInt32Fits(1);
    forall i | 0 <= i < |sent|
      ensures Stream(log, i) == Cut(received[i]) && Increasing(received[i]) && Below(received[i], sent[i])
    {
      assert Stream(log[..1][..0], i) == [];
      assert Stream(log[..1], i) == if i == p then [1] else [];
      assert i == p ==> Cut(received[i]) == [1, u];
    }
  }

  /** The test ends with the FINISHED sample of `p` and not before. */
  lemma EndsWithLast(numPublishers: nat, p: nat, u: nat, last: Delivery)
    requires p < numPublishers && FinishedFrom(last, p)
    ensures var r0, ds := Start(numPublishers, false, 0, 0), WrappedDeliveries(numPublishers, p, u);
            !Deliver(r0, ds).endTest && Deliver(r0, ds + [last]).endTest
  {
    hide Deliver;
    var r0, ds := Start(numPublishers, false, 0, 0), WrappedDeliveries(numPublishers, p, u);
    FinishedListIsExact(r0, ds);
    FinishedListIsExact(r0, ds + [last]);
    forall i | 0 <= i < |ds|
      ensures !FinishedFrom(ds[i], p)
    {
    }
    assert !HeardFinish(ds, p);
    forall i | 0 <= i < numPublishers
      ensures HeardFinish(ds + [last], i)
    {
      if i == p {
        assert FinishedFrom((ds + [last])[|ds|], i);
      } else {
        assert FinishedFrom((ds + [last])[2 + i], i);
      }
    }
  }

  lemma WrappedFigures(numPublishers: nat, p: nat, u: nat)
    requires p < numPublishers
    ensures var log := [Datum(p, 1), Datum(p, u)];
            && Missing(Zeros(numPublishers), log) == Max(0, u - 2)
            && LastSeq(Zeros(numPublishers), log, p) == u
  {
    var log := [Datum(p, 1), Datum(p, u)];
    assert log[..1] == [Datum(p, 1)] && log[..1][..0] == [];
    assert LastSeq(Zeros(numPublishers), log[..1], p) == 1;
    assert Missing(Zeros(numPublishers), log[..1][..0]) == 0;
    assert Missing(Zeros(numPublishers), log[..1]) == 0;
  }

  lemma {:induction false} OnlyOneHeard(sent: seq<nat>, p: nat, received: seq<seq<nat>>, k: nat)
    requires k <= |sent| == |received| && p < |sent| && sent[p] > TWO32
    requires forall i :: 0 <= i < |sent| ==> received[i] == if i == p then [1, sent[p] - 1] else []
    ensures UnreportedBy(received, sent, p, k) + (if p < k then sent[p] - 1 else 0) == SentBy(sent, k)
  {
    if k > 0 {
      OnlyOneHeard(sent, p, received, k - 1);
      LostAheadSize([1, sent[p] - 1]);
    }
  }
}
