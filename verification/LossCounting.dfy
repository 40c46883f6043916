/** What a whole run of deliveries leaves in a subscriber's listener: when the test
    ends, what the summary freezes, and what the missing-packet count means. */
module LossCounting {
  import opened Machine
  import opened Messages
  import opened Collections
  import opened ThroughputListener

  datatype Delivery = Delivery(message: Message, now: int)

  function Deliver(r: Reception, ds: seq<Delivery>): (r': Reception)
    requires r.Sized()
    ensures r'.Sized() && r'.numPublishers == r.numPublishers
  {
    if ds == [] then r
    else
      var d := ds[|ds| - 1];
      Process(Deliver(r, ds[..|ds| - 1]), d.message, d.now).reception
  }

  // ----- The list of finished publishers -----

  predicate FinishedFrom(d: Delivery, p: int) {
    d.message.size == FINISHED_SIZE && d.message.entityId == p
  }

  /** Some FINISHED sample of publisher `p` was delivered. */
  ghost predicate HeardFinish(ds: seq<Delivery>, p: int) {
    exists i :: 0 <= i < |ds| && FinishedFrom(ds[i], p)
  }

  /** After any deliveries at all: the finished ids are distinct and in range, they
      are the publishers whose FINISHED was delivered, the test has ended exactly
      when that is every publisher, and the summary was taken once, no earlier. */
  lemma {:induction false} FinishedListIsExact(r0: Reception, ds: seq<Delivery>)
    requires r0.numPublishers > 0 && r0 == Start(r0.numPublishers, r0.useCft, r0.subId, r0.overhead)
    ensures var r := Deliver(r0, ds);
            && Distinct(r.finished)
            && |r.finished| <= r.numPublishers
            && (forall p :: p in r.finished <==> 0 <= p < r.numPublishers && HeardFinish(ds, p))
            && (r.endTest <==> |r.finished| == r.numPublishers)
            && (r.endTest <==> forall p :: 0 <= p < r.numPublishers ==> HeardFinish(ds, p))
            && r.summaries == (if r.endTest then 1 else 0)
  {
    var r := Deliver(r0, ds);
    if ds == [] {
      assert forall p :: !HeardFinish(ds, p);
      assert !HeardFinish(ds, 0);
    } else {
      var init, d := ds[..|ds| - 1], ds[|ds| - 1];
      var q := Deliver(r0, init);
      FinishedListIsExact(r0, init);
      forall p
        ensures HeardFinish(ds, p) <==> HeardFinish(init, p) || FinishedFrom(d, p)
      {
        HeardSnoc(init, d, p);
        assert ds == init + [d];
      }
      ProcessFinished(q, d.message, d.now);
      Pigeonhole(r.finished, r.numPublishers);
    }
  }

  lemma HeardSnoc(init: seq<Delivery>, d: Delivery, p: int)
    ensures HeardFinish(init + [d], p) <==> HeardFinish(init, p) || FinishedFrom(d, p)
  {
    if HeardFinish(init, p) {
      var i :| 0 <= i < |init| && FinishedFrom(init[i], p);
      assert FinishedFrom((init + [d])[i], p);
    }
    if FinishedFrom(d, p) {
      assert FinishedFrom((init + [d])[|init|], p);
    }
  }

  /** One message's effect on the end-of-test bookkeeping. */
  lemma ProcessFinished(r: Reception, m: Message, now: int)
    requires r.Sized() && Distinct(r.finished)
    requires r.endTest ==> forall p :: 0 <= p < r.numPublishers ==> p in r.finished
    ensures var r' := Process(r, m, now).reception;
            var counts := m.size == FINISHED_SIZE && 0 <= m.entityId < r.numPublishers
                          && m.entityId !in r.finished;
            && r'.finished == (if counts then r.finished + [m.entityId] else r.finished)
            && Distinct(r'.finished)
            && r'.endTest == (r.endTest || (counts && |r'.finished| >= r.numPublishers))
            && r'.summaries == (if r'.endTest && !r.endTest then r.summaries + 1 else r.summaries)
            && (r'.interval != r.interval ==> r'.endTest && !r.endTest)
  {
  }

  /** Once the test has ended no message changes the summary's figures, the finished
      list or the end flag. */
  lemma {:induction false} NothingMovesAfterTheEnd(r: Reception, ds: seq<Delivery>)
    requires r.Sized() && r.endTest
    ensures var r' := Deliver(r, ds);
            r'.endTest && r'.interval == r.interval && r'.finished == r.finished && r'.summaries == r.summaries
  {
    if ds != [] {
      NothingMovesAfterTheEnd(r, ds[..|ds| - 1]);
    }
  }

  // ----- Missing packets, publisher by publisher -----

  /** The numbers received from publisher `p`, in order of arrival. */
  function Stream(log: seq<Datum>, p: nat): (s: seq<nat>) {
    if log == [] then []
    else
      var d := log[|log| - 1];
      Stream(log[..|log| - 1], p) + (if d.publisher == p then [d.seqNum] else [])
  }

  /** Forward gaps between neighbours of one sequence of numbers. */
  function Gaps(s: seq<nat>): (g: nat) {
    if |s| < 2 then 0 else Gaps(s[..|s| - 1]) + Gap(s[|s| - 2], s[|s| - 1])
  }

  /** The gaps of the first `n` publishers, each counted on its own stream. */
  function GapsOfStreams(base: seq<nat>, log: seq<Datum>, n: nat): (g: nat)
    requires n <= |base|
  {
    if n == 0 then 0
    else GapsOfStreams(base, log, n - 1) + GapsOf(base[n - 1], Stream(log, n - 1))
  }

  /** The gaps of one publisher's stream after its previous number `prev`. */
  function GapsOf(prev: nat, s: seq<nat>): (g: nat) { Gaps([prev] + s) }

  /** The counter, which sees the publishers interleaved, is the sum of the gaps that
      each publisher's stream has by itself. */
  lemma {:induction false} MissingIsSumOfGaps(base: seq<nat>, log: seq<Datum>)
    requires forall d :: d in log ==> d.publisher < |base|
    ensures Missing(base, log) == GapsOfStreams(base, log, |base|)
  {
    if log == [] {
      NoGaps(base, |base|);
    } else {
      var init, d := log[..|log| - 1], log[|log| - 1];
      assert d in log && log == init + [d];
      MissingIsSumOfGaps(base, init);
      OneStreamGrows(base, init, d, |base|);
    }
  }

  lemma {:induction false} NoGaps(base: seq<nat>, n: nat)
    requires n <= |base|
    ensures GapsOfStreams(base, [], n) == 0
  {
    if n > 0 {
      NoGaps(base, n - 1);
    }
  }

  lemma {:induction false} OneStreamGrows(base: seq<nat>, init: seq<Datum>, d: Datum, n: nat)
    requires n <= |base| && d.publisher < |base|
    ensures GapsOfStreams(base, init + [d], n)
         == GapsOfStreams(base, init, n)
            + if d.publisher < n then Gap(LastSeq(base, init, d.publisher), d.seqNum) else 0
  {
    hide Stream, LastSeq, Gap, Gaps, GapsOf;
    if n > 0 {
      OneStreamGrows(base, init, d, n - 1);
      StreamGrows(base, init, d, n - 1);
    }
  }

  lemma StreamGrows(base: seq<nat>, init: seq<Datum>, d: Datum, p: nat)
    requires p < |base|
    ensures GapsOf(base[p], Stream(init + [d], p))
         == GapsOf(base[p], Stream(init, p))
            + if d.publisher == p then Gap(LastSeq(base, init, p), d.seqNum) else 0
  {
    StreamSnoc(init, d, p);
    if d.publisher == p {
      var before := [base[p]] + Stream(init, p);
      StreamEnd(base, init, p);
      GapsSnoc(before, d.seqNum);
      assert [base[p]] + (Stream(init, p) + [d.seqNum]) == before + [d.seqNum];
    }
  }

  lemma StreamSnoc(init: seq<Datum>, d: Datum, p: nat)
    ensures Stream(init + [d], p) == if d.publisher == p then Stream(init, p) + [d.seqNum] else Stream(init, p)
  {
    assert (init + [d])[..|init|] == init;
  }

  lemma GapsSnoc(s: seq<nat>, x: nat)
    requires s != []
    ensures Gaps(s + [x]) == Gaps(s) + Gap(s[|s| - 1], x)
  {
    assert (s + [x])[..|s|] == s;
  }

  lemma {:induction false} StreamEnd(base: seq<nat>, log: seq<Datum>, p: nat)
    requires p < |base|
    ensures var s := [base[p]] + Stream(log, p); s[|s| - 1] == LastSeq(base, log, p)
  {
    if log != [] && log[|log| - 1].publisher != p {
      StreamEnd(base, log[..|log| - 1], p);
    }
  }

  /** Both logs interleave the same streams of the first `n` publishers. */
  ghost predicate SameStreams(log: seq<Datum>, log': seq<Datum>, n: nat) {
    n == 0 || (SameStreams(log, log', n - 1) && Stream(log, n - 1) == Stream(log', n - 1))
  }

  /** Two interleavings of the same streams report the same loss. */
  lemma InterleavingDoesNotMatter(base: seq<nat>, log: seq<Datum>, log': seq<Datum>)
    requires forall d :: d in log ==> d.publisher < |base|
    requires forall d :: d in log' ==> d.publisher < |base|
    requires SameStreams(log, log', |base|)
    ensures Missing(base, log) == Missing(base, log')
  {
    MissingIsSumOfGaps(base, log);
    MissingIsSumOfGaps(base, log');
    SameStreamsSameGaps(base, log, log', |base|);
  }

  lemma {:induction false} SameStreamsSameGaps(base: seq<nat>, log: seq<Datum>, log': seq<Datum>, n: nat)
    requires n <= |base| && SameStreams(log, log', n)
    ensures GapsOfStreams(base, log, n) == GapsOfStreams(base, log', n)
  {
    if n > 0 {
      SameStreamsSameGaps(base, log, log', n - 1);
    }
  }

  /** The numbers a publisher writes: the loop index cut to 32 bits. */
  ghost predicate Lossless(s: seq<nat>) {
    forall i :: 0 <= i < |s| ==> s[i] == UInt32(i)
  }

  /** Streams received whole, of any length and interleaving, report no loss, even
      across the wrap of the 32-bit number. */
  lemma LosslessReportsNothing(log: seq<Datum>, numPublishers: nat)
    requires forall d :: d in log ==> d.publisher < numPublishers
    requires forall p :: 0 <= p < numPublishers ==> Lossless(Stream(log, p))
    ensures Missing(Zeros(numPublishers), log) == 0
  {
    MissingIsSumOfGaps(Zeros(numPublishers), log);
    LosslessStreams(log, numPublishers, numPublishers);
  }

  lemma {:induction false} LosslessStreams(log: seq<Datum>, numPublishers: nat, n: nat)
    requires n <= numPublishers
    requires forall p :: 0 <= p < numPublishers ==> Lossless(Stream(log, p))
    ensures GapsOfStreams(Zeros(numPublishers), log, n) == 0
  {
    if n > 0 {
      LosslessStreams(log, numPublishers, n - 1);
      assert Lossless(Stream(log, n - 1));
      LosslessHasNoGaps(Stream(log, n - 1));
    }
  }

  lemma {:induction false} LosslessHasNoGaps(s: seq<nat>)
    requires Lossless(s)
    ensures Gaps([0] + s) == 0
  {
    if s != [] {
      var t, i := s[..|s| - 1], |s| - 1;
      LosslessHasNoGaps(t);
      GapsSnoc([0] + t, s[i]);
      assert [0] + t + [s[i]] == [0] + s;
      if i > 0 {
        assert s[i] == UInt32(i) && s[i - 1] == UInt32(i - 1);
        NoGapAt(i);
      }
    }
  }

  lemma NoGapAt(i: nat)
    requires i > 0
    ensures Gap(UInt32(i - 1), UInt32(i)) == 0
  {
  }

  /** Deliveries of data with one payload size from known publishers. */
  ghost predicate SteadyData(ds: seq<Delivery>, size: int, numPublishers: nat) {
    && !IsControl(size) && size >= 0
    && forall d :: d in ds ==> d.message.size == size && 0 <= d.message.entityId < numPublishers
                               && d.message.seqNum < TWO32
  }

  function Logged(ds: seq<Delivery>, numPublishers: nat): (log: seq<Datum>)
    requires forall d :: d in ds ==> 0 <= d.message.entityId < numPublishers
    ensures |log| == |ds| && forall e :: e in log ==> e.publisher < numPublishers
  {
    seq(|ds|, i requires 0 <= i < |ds| =>
      assert ds[i] in ds; Datum(ds[i].message.entityId, ds[i].message.seqNum))
  }

  lemma {:induction false} SteadyDataIsLogged(r0: Reception, ds: seq<Delivery>, size: int)
    requires r0 == Start(r0.numPublishers, r0.useCft, r0.subId, r0.overhead)
    requires SteadyData(ds, size, r0.numPublishers)
    ensures Deliver(r0, ds)
         == if ds == [] then r0
            else r0.(lastDataLength := size, log := Logged(ds, r0.numPublishers), beginTime := ds[0].now)
  {
    if ds != [] {
      hide Process;
      var init, d := ds[..|ds| - 1], ds[|ds| - 1];
      assert d in ds && forall e :: e in init ==> e in ds;
      SteadyDataIsLogged(r0, init, size);
      OneDatum(Deliver(r0, init), d, size);
      assert Logged(ds, r0.numPublishers)
          == Logged(init, r0.numPublishers) + [Datum(d.message.entityId, d.message.seqNum)];
    }
  }

  lemma OneDatum(r: Reception, d: Delivery, size: int)
    requires r.Sized() && 0 <= d.message.entityId < r.numPublishers
    requires !IsControl(size) && d.message.size == size
    requires r.lastDataLength == size || (r.log == [] && r.base == Zeros(r.numPublishers))
    ensures Process(r, d.message, d.now).reception
         == r.(lastDataLength := size, log := r.log + [Datum(d.message.entityId, d.message.seqNum)],
               beginTime := if r.lastDataLength == size then r.beginTime else d.now)
  {
  }

  /** For data of one size from any number of publishers: the counters after any
      interleaving depend only on each publisher's own stream, the missing count is
      the sum of their gaps, and it is zero when every stream arrived whole. */
  lemma MissingOfInterleavedStreams(r0: Reception, ds: seq<Delivery>, ds': seq<Delivery>, size: int)
    requires r0 == Start(r0.numPublishers, r0.useCft, r0.subId, r0.overhead)
    requires SteadyData(ds, size, r0.numPublishers) && SteadyData(ds', size, r0.numPublishers)
    requires SameStreams(Logged(ds, r0.numPublishers), Logged(ds', r0.numPublishers), r0.numPublishers)
    ensures var r, r' := Deliver(r0, ds), Deliver(r0, ds');
            && Missing(r.base, r.log) == GapsOfStreams(r.base, r.log, r0.numPublishers)
            && Missing(r.base, r.log) == Missing(r'.base, r'.log)
            && ((forall p :: 0 <= p < r0.numPublishers ==> Lossless(Stream(r.log, p)))
                ==> Missing(r.base, r.log) == 0)
  {
    SteadyDataIsLogged(r0, ds, size);
    SteadyDataIsLogged(r0, ds', size);
    var r, r' := Deliver(r0, ds), Deliver(r0, ds');
    MissingIsSumOfGaps(r.base, r.log);
    InterleavingDoesNotMatter(r.base, Logged(ds, r0.numPublishers), Logged(ds', r0.numPublishers));
    if forall p :: 0 <= p < r0.numPublishers ==> Lossless(Stream(r.log, p)) {
      LosslessReportsNothing(r.log, r0.numPublishers);
    }
  }
}
