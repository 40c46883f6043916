/** The subscriber's listener: echoing pings, counting packets and missing packets,
    collecting the publishers that have finished, and the end-of-test summary. */
module ThroughputListener {
  import opened Machine
  import opened Messages

  /** One received data sample, reduced to what loss counting looks at. */
  datatype Datum = Datum(publisher: nat, seqNum: nat)

  /** The figures of the summary; a data length of -1 means none was taken yet. */
  datatype Interval = Interval(dataLength: int, packets: nat, bytes: int, missing: nat, time: int)

  /** A listener as a value. `log` lists the data samples counted since the last
      reset and `base` the last sequence numbers, per publisher, from before it. */
  datatype Reception = Reception(
    numPublishers: nat,
    useCft: bool,
    subId: int,
    overhead: nat,
    lastDataLength: int,
    base: seq<nat>,
    log: seq<Datum>,
    finished: seq<int>,
    endTest: bool,
    beginTime: int,
    interval: Interval,
    summaries: nat)
  {
    /** Sizes fit and every logged sample names a known publisher. */
    predicate Sized() {
      |base| == numPublishers && forall d :: d in log ==> d.publisher < numPublishers
    }
  }

  function Start(numPublishers: nat, useCft: bool, subId: int, overhead: nat): (r: Reception)
    ensures r.Sized()
  {
    Reception(numPublishers, useCft, subId, overhead, -1, Zeros(numPublishers), [], [], false, 0,
              Interval(-1, 0, 0, 0, 0), 0)
  }

  function Zeros(n: nat): (s: seq<nat>)
    ensures |s| == n && forall i :: 0 <= i < n ==> s[i] == 0
  {
    seq(n, _ => 0)
  }

  // ----- Loss counting -----

  /** Samples skipped between consecutive numbers `a` and `b` of one publisher. A
      previous number of 0 means "unset", and a step back is a restart, not a loss. */
  function Gap(a: nat, b: nat): (g: nat) {
    if a == 0 || b <= a + 1 then 0 else b - a - 1
  }

  /** The last sequence number seen from publisher `p`; unknown publishers have none. */
  function LastSeq(base: seq<nat>, log: seq<Datum>, p: nat): (n: nat) {
    if log == [] then (if p < |base| then base[p] else 0)
    else
      var d := log[|log| - 1];
      if d.publisher == p then d.seqNum else LastSeq(base, log[..|log| - 1], p)
  }

  /** The missing-packet counter after `log`. */
  function Missing(base: seq<nat>, log: seq<Datum>): (n: nat) {
    if log == [] then 0
    else
      var init, d := log[..|log| - 1], log[|log| - 1];
      Missing(base, init) + Gap(LastSeq(base, init, d.publisher), d.seqNum)
  }

  // ----- One message -----

  /** The state a message leaves and whether the message is sent back. */
  datatype Processed = Processed(reception: Reception, echoed: bool)

  function Process(r: Reception, m: Message, now: int): (out: Processed)
    requires r.Sized()
    ensures out.reception.Sized() && out.reception.numPublishers == r.numPublishers
  {
    if m.entityId < 0 || m.entityId >= r.numPublishers then Processed(r, false)
    else if m.size == INITIALIZE_SIZE then Processed(r, true)
    else if m.size == FINISHED_SIZE then Processed(Finish(r, m, now), false)
    else Processed(Count(r, m, now), Answers(r.subId, r.useCft, m))
  }

  /** Whether a data sample is a ping this subscriber answers. */
  predicate Answers(subId: int, useCft: bool, m: Message) {
    m.latencyPing == subId || (useCft && m.latencyPing != -1)
  }

  /** What is written back, by kind: initialization always, the end never, a ping by whom it
      names, or with a filter any ping that comes through it. */
  lemma EchoRule(r: Reception, m: Message, now: int)
    requires r.Sized()
    ensures var echoed := Process(r, m, now).echoed;
            if !(0 <= m.entityId < r.numPublishers) || m.size == FINISHED_SIZE then !echoed
            else if m.size == INITIALIZE_SIZE then echoed
            else
              && (!r.useCft ==> (echoed <==> m.latencyPing == r.subId))
              && (r.useCft && r.subId >= 0 ==> (echoed <==> m.latencyPing != -1))
  {
  }

  /** A data sample: start over if the payload size changed, then log it. */
  function Count(r: Reception, m: Message, now: int): (r': Reception)
    requires r.Sized() && 0 <= m.entityId < r.numPublishers
    ensures r'.Sized()
  {
    var r := if m.size != r.lastDataLength
             then r.(base := Zeros(r.numPublishers), log := [], beginTime := now)
             else r;
    r.(lastDataLength := m.size, log := r.log + [Datum(m.entityId, m.seqNum)])
  }

  /** A FINISHED sample: only the first from each publisher counts. */
  function Finish(r: Reception, m: Message, now: int): (r': Reception)
    requires r.Sized() && 0 <= m.entityId < r.numPublishers
    ensures r'.Sized()
  {
    if m.entityId in r.finished || r.endTest then r
    else
      var r := r.(finished := r.finished + [m.entityId]);
      if |r.finished| >= r.numPublishers then Summarize(r, m, now).(endTest := true) else r
  }

  /** The missing count of the summary, which also compares the number that the
      FINISHED sample still carries. */
  function MissingAtEnd(r: Reception, m: Message): (n: nat)
    requires r.Sized() && 0 <= m.entityId < r.numPublishers
  {
    if r.useCft then 0
    else Missing(r.base, r.log) + Max(0, m.seqNum - LastSeq(r.base, r.log, m.entityId))
  }

  /** The figures a summary shows; a data length already summarized keeps its own. */
  function IntervalAt(r: Reception, m: Message, now: int): (i: Interval)
    requires r.Sized() && 0 <= m.entityId < r.numPublishers
  {
    if r.interval.dataLength != r.lastDataLength then
      Interval(r.lastDataLength, |r.log|, BytesOf(r), MissingAtEnd(r, m), now - r.beginTime)
    else r.interval
  }

  function Summarize(r: Reception, m: Message, now: int): (r': Reception)
    requires r.Sized() && 0 <= m.entityId < r.numPublishers
    ensures r'.Sized()
  {
    r.(interval := IntervalAt(r, m, now), base := LastSeqs(r)[0 := 0], log := [], beginTime := now,
       summaries := r.summaries + 1)
  }

  /** The end of a test starts the counters again, and forgets the last number of publisher 0
      only. */
  lemma EndStartsOver(r: Reception, m: Message, now: int)
    requires r.Sized() && !r.endTest && Process(r, m, now).reception.endTest
    ensures var r' := Process(r, m, now).reception;
            && r'.log == [] && r'.beginTime == now && r'.base[0] == 0
            && forall p :: 0 < p < r.numPublishers ==>
                 r'.base[p] == if r.useCft then r.base[p] else LastSeq(r.base, r.log, p)
  {
  }

  /** Every logged sample counts its payload and the fixed message overhead. */
  function BytesOf(r: Reception): (n: int) { Bytes(r.log, r.lastDataLength + r.overhead) }

  function Bytes(log: seq<Datum>, each: int): (n: int) {
    if log == [] then 0 else Bytes(log[..|log| - 1], each) + each
  }

  lemma {:induction false} BytesIsProduct(log: seq<Datum>, each: int)
    ensures Bytes(log, each) == |log| * each
  {
    if log != [] {
      BytesIsProduct(log[..|log| - 1], each);
    }
  }

  /** The array of last sequence numbers, which filtered tests never touch. */
  function LastSeqs(r: Reception): (s: seq<nat>)
    requires r.Sized()
    ensures |s| == r.numPublishers
  {
    if r.useCft then r.base
    else seq(r.numPublishers, p requires 0 <= p < |r.base| => LastSeq(r.base, r.log, p))
  }

  // ----- The listener with its running counters -----

  class Listener {
    const numPublishers: nat
    const useCft: bool
    const subId: int
    const overhead: nat
    const lastSeqNum: array<nat>
    var packetsReceived: nat
    var bytesReceived: int
    var missingPackets: nat
    var endTest: bool
    var lastDataLength: int
    var interval: Interval
    var beginTime: int
    var finishedPublishers: seq<int>
    ghost var base: seq<nat>
    ghost var log: seq<Datum>
    ghost var summaries: nat

    ghost function View(): (r: Reception)
      reads this
    {
      Reception(numPublishers, useCft, subId, overhead, lastDataLength, base, log,
                finishedPublishers, endTest, beginTime, interval, summaries)
    }

    /** The counters are those of the logged samples. */
    ghost predicate Valid()
      reads this, lastSeqNum
    {
      && View().Sized() && lastSeqNum.Length == numPublishers
      && packetsReceived == |log|
      && bytesReceived == BytesOf(View())
      && missingPackets == (if useCft then 0 else Missing(base, log))
      && lastSeqNum[..] == LastSeqs(View())
    }

    constructor (numPublishers: nat, useCft: bool, subId: int, overhead: nat)
      ensures Valid() && View() == Start(numPublishers, useCft, subId, overhead)
      ensures fresh(lastSeqNum)
    {
      this.numPublishers, this.useCft, this.subId, this.overhead := numPublishers, useCft, subId, overhead;
      lastSeqNum := new nat[numPublishers](_ => 0);
      packetsReceived, bytesReceived, missingPackets := 0, 0, 0;
      endTest, lastDataLength := false, -1;
      interval := Interval(-1, 0, 0, 0, 0);
      beginTime := 0;
      finishedPublishers := [];
      base, log, summaries := Zeros(numPublishers), [], 0;
    }

    method ProcessMessage(m: Message, now: int) returns (echoed: bool)
      requires Valid()
      modifies this, lastSeqNum
      ensures Valid()
      ensures Processed(View(), echoed) == Process(old(View()), m, now)
    {
      if m.entityId >= numPublishers || m.entityId < 0 {
        return false;
      }
      if m.size == INITIALIZE_SIZE {
        return true;
      } else if m.size == FINISHED_SIZE {
        if m.entityId in finishedPublishers {
          return false;
        }
        if endTest {
          return false;
        }
        finishedPublishers := finishedPublishers + [m.entityId];
        if |finishedPublishers| >= numPublishers {
          PrintSummaryThroughput(m, now);
          endTest := true;
        }
        return false;
      }
      echoed := m.latencyPing == subId || (useCft && m.latencyPing != -1);
      if m.size != lastDataLength {
        StartOver(m.size, now);
      }
      lastDataLength := m.size;
      packetsReceived := packetsReceived + 1;
      bytesReceived := bytesReceived + (m.size + overhead);
      CountMissing(m);
    }

    method StartOver(size: int, now: int)
      requires Valid()
      modifies this, lastSeqNum
      ensures Valid()
      ensures View() == old(View()).(base := Zeros(numPublishers), log := [], beginTime := now)
    {
      packetsReceived, bytesReceived, missingPackets := 0, 0, 0;
      for i := 0 to numPublishers
        modifies lastSeqNum
        invariant forall j :: 0 <= j < i ==> lastSeqNum[j] == 0
      {
        lastSeqNum[i] := 0;
      }
      beginTime := now;
      base, log := Zeros(numPublishers), [];
    }

    /** Loss counting for one sample whose packet has been counted already. */
    method CountMissing(m: Message)
      requires View().Sized() && lastSeqNum.Length == numPublishers
      requires 0 <= m.entityId < numPublishers && m.size == lastDataLength
      requires packetsReceived == |log| + 1
      requires bytesReceived == BytesOf(View()) + (m.size + overhead)
      requires missingPackets == (if useCft then 0 else Missing(base, log))
      requires lastSeqNum[..] == LastSeqs(View())
      modifies this`missingPackets, this`log, lastSeqNum
      ensures Valid()
      ensures View() == old(View()).(log := old(log) + [Datum(m.entityId, m.seqNum)])
    {
      var d := Datum(m.entityId, m.seqNum);
      LoggingMovesCounters(View(), d);
      if !useCft {
        var skipped := Advance(m.entityId, m.seqNum);
        missingPackets := missingPackets + skipped;
      }
      log := log + [d];
    }

    /** The 0-means-unset comparison on one publisher's last sequence number. */
    method Advance(id: nat, seqNum: nat) returns (skipped: nat)
      requires id < lastSeqNum.Length
      modifies lastSeqNum
      ensures skipped == Gap(old(lastSeqNum[id]), seqNum)
      ensures lastSeqNum[..] == old(lastSeqNum[..])[id := seqNum]
    {
      skipped := 0;
      if lastSeqNum[id] == 0 {
        lastSeqNum[id] := seqNum;
      } else {
        lastSeqNum[id] := lastSeqNum[id] + 1;
        if seqNum != lastSeqNum[id] {
          if seqNum > lastSeqNum[id] {
            skipped := seqNum - lastSeqNum[id];
          }
          lastSeqNum[id] := seqNum;
        }
      }
    }

    method PrintSummaryThroughput(m: Message, now: int)
      requires Valid() && 0 <= m.entityId < numPublishers
      modifies this, lastSeqNum
      ensures Valid()
      ensures View() == Summarize(old(View()), m, now)
    {
      StoreInterval(m, now);
      ghost var last := LastSeqs(View());
      packetsReceived, bytesReceived, missingPackets := 0, 0, 0;
      lastSeqNum[0] := 0;
      beginTime := now;
      base, log, summaries := last[0 := 0], [], summaries + 1;
      EmptyLog(View());
    }

    method StoreInterval(m: Message, now: int)
      requires Valid() && 0 <= m.entityId < numPublishers
      modifies this`interval, this`missingPackets
      ensures interval == IntervalAt(old(View()), m, now)
    {
      assert !useCft ==> lastSeqNum[m.entityId] == LastSeqs(View())[m.entityId];
      if interval.dataLength != lastDataLength {
        if !useCft {
          if m.seqNum != lastSeqNum[m.entityId] {
            if m.seqNum > lastSeqNum[m.entityId] {
              missingPackets := missingPackets + (m.seqNum - lastSeqNum[m.entityId]);
            }
          }
        }
        interval := Interval(lastDataLength, packetsReceived, bytesReceived, missingPackets, now - beginTime);
      }
    }
  }

  /** What one more logged sample does to every counter. */
  lemma LoggingMovesCounters(r: Reception, d: Datum)
    requires r.Sized() && d.publisher < r.numPublishers
    ensures var r' := r.(log := r.log + [d]);
            && r'.Sized()
            && BytesOf(r') == BytesOf(r) + (r.lastDataLength + r.overhead)
            && Missing(r'.base, r'.log)
               == Missing(r.base, r.log) + Gap(LastSeq(r.base, r.log, d.publisher), d.seqNum)
            && LastSeqs(r') == if r.useCft then LastSeqs(r) else LastSeqs(r)[d.publisher := d.seqNum]
  {
    LogSnoc(r.base, r.log, d);
    var log := r.log + [d];
    assert log[..|log| - 1] == r.log;
    var last, last' := LastSeqs(r), LastSeqs(r.(log := log));
    if !r.useCft {
      forall p | 0 <= p < r.numPublishers
        ensures last'[p] == last[d.publisher := d.seqNum][p]
      {
      }
    }
  }

  lemma EmptyLog(r: Reception)
    requires r.Sized() && r.log == []
    ensures LastSeqs(r) == r.base && BytesOf(r) == 0 && Missing(r.base, r.log) == 0
  {
  }

  lemma LogSnoc(base: seq<nat>, log: seq<Datum>, d: Datum)
    ensures Missing(base, log + [d]) == Missing(base, log) + Gap(LastSeq(base, log, d.publisher), d.seqNum)
    ensures forall p: nat ::
              LastSeq(base, log + [d], p) == if p == d.publisher then d.seqNum else LastSeq(base, log, p)
  {
    assert (log + [d])[..|log|] == log;
  }
}
