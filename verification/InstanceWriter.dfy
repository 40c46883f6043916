/** The writer's choice of instance for each sample, and what a filtering subscriber
    then receives. */
module InstanceWriter {
  import opened Bytes
  import opened Machine
  import Messages
  import ThroughputListener
  import opened ContentFilter

  /** The instance id for a sample, from the counter of round-robin sends. */
  function ChosenKey(numInstances: int, instancesToBeWritten: int, counter: int, wildcard: bool): (key: int) {
    if wildcard then MAX_CFT_VALUE
    else if numInstances > 1 then
      (if instancesToBeWritten == -1 then Rem(counter, numInstances) else instancesToBeWritten)
    else 0
  }

  /** The four key bytes of an instance id. */
  function KeyBytes(key: int): (bytes: seq<Byte>)
    ensures |bytes| == KEY_SIZE
  {
    Encode(UInt32(key), KEY_SIZE)
  }

  /** How many of `sends` (true: wildcard) are data samples. */
  function DataSends(sends: seq<bool>): (n: nat)
    ensures n <= |sends|
  {
    if sends == [] then 0
    else DataSends(sends[..|sends| - 1]) + if sends[|sends| - 1] then 0 else 1
  }

  /** The instance ids of a run of sends. */
  function Keys(numInstances: int, instancesToBeWritten: int, sends: seq<bool>): (keys: seq<int>)
    ensures |keys| == |sends|
  {
    if sends == [] then [] else
      var before := sends[..|sends| - 1];
      Keys(numInstances, instancesToBeWritten, before)
      + [ChosenKey(numInstances, instancesToBeWritten, Int64(DataSends(before)), sends[|sends| - 1])]
  }

  /** A run of keys on the wire. */
  function Wire(keys: seq<int>): (wire: seq<seq<Byte>>)
    ensures |wire| == |keys|
  {
    seq(|keys|, j requires 0 <= j < |keys| => KeyBytes(keys[j]))
  }

  /** The C# writer; `written` holds the keys it handed to the middleware. */
  class Writer {
    const numInstances: int
    const instancesToBeWritten: int
    var instanceCounter: int
    var written: seq<seq<Byte>>
    ghost var sends: seq<bool>

    ghost predicate Valid()
      reads this
    {
      && written == Wire(Keys(numInstances, instancesToBeWritten, sends))
      && (numInstances > 1 && instancesToBeWritten == -1 ==> instanceCounter == Int64(DataSends(sends)))
    }

    constructor (numInstances: int, instancesToBeWritten: int)
      ensures Valid() && sends == []
      ensures this.numInstances == numInstances && this.instancesToBeWritten == instancesToBeWritten
    {
      this.numInstances := numInstances;
      this.instancesToBeWritten := instancesToBeWritten;
      instanceCounter := 0;
      written := [];
      sends := [];
    }

    /** One sample; `accepted` is whether the middleware took it without an exception. */
    method Send(isCftWildCardKey: bool, accepted: bool) returns (ok: bool)
      requires Valid()
      modifies this
      ensures Valid() && sends == old(sends) + [isCftWildCardKey]
      ensures ok == accepted
    {
      hide Encode, Rem, UInt32;
      var key := 0;
      if !isCftWildCardKey {
        if numInstances > 1 {
          if instancesToBeWritten == -1 {
            key := Rem(instanceCounter, numInstances);
            instanceCounter := Int64(instanceCounter + 1);
          } else {
            key := instancesToBeWritten;
          }
        }
      } else {
        key := MAX_CFT_VALUE;
      }
      written := written + [KeyBytes(key)];
      Int64Successor(DataSends(sends));
      sends := sends + [isCftWildCardKey];
      assert sends[..|sends| - 1] == old(sends);
      ok := accepted;
    }
  }

  /** Every send's key depends only on its kind and on the data samples before it. */
  lemma {:induction false} KeyAt(numInstances: int, instancesToBeWritten: int, sends: seq<bool>, j: nat)
    requires j < |sends|
    ensures Keys(numInstances, instancesToBeWritten, sends)[j]
         == ChosenKey(numInstances, instancesToBeWritten, Int64(DataSends(sends[..j])), sends[j])
  {
    var before := sends[..|sends| - 1];
    if j < |before| {
      KeyAt(numInstances, instancesToBeWritten, before, j);
      assert before[..j] == sends[..j];
    }
  }

  lemma {:induction false} DataSendsMonotone(sends: seq<bool>, j: nat)
    requires j < |sends|
    ensures DataSends(sends[..j]) + (if sends[j] then 0 else 1) <= DataSends(sends)
  {
    var before := sends[..|sends| - 1];
    if j < |before| {
      DataSendsMonotone(before, j);
      assert before[..j] == sends[..j];
    }
  }

  // ----- Round robin -----

  /** Data sample number `i` goes to instance `i % n`, whatever control messages come between. */
  lemma TurnsAreKept(n: int, sends: seq<bool>, j: nat)
    requires n > 1 && j < |sends| && DataSends(sends) <= TWO63
    ensures Keys(n, -1, sends)[j] == if sends[j] then MAX_CFT_VALUE else DataSends(sends[..j]) % n
  {
    KeyAt(n, -1, sends, j);
    DataSendsMonotone(sends, j);
    if !sends[j] {
      Int64Fits(DataSends(sends[..j]));
    }
  }

  /** How far the turns are kept once the signed counter is allowed to wrap. */
  lemma TurnsKeptExactly(n: int, count: nat)
    requires n > 1
    ensures (forall i :: 0 <= i < count ==> ChosenKey(n, -1, Int64(i), false) == i % n)
        <==> count <= if TWO63 % n == 0 then TWO63 + 1 else TWO63
  {
    var limit: int := TWO63;
    assert Int64(limit) == -limit && Int64(limit + 1) == 1 - limit;
    forall i | 0 <= i < count && i < limit
      ensures ChosenKey(n, -1, Int64(i), false) == i % n
    {
      Int64Fits(i);
    }
    if TWO63 % n != 0 && count > TWO63 {
      assert ChosenKey(n, -1, Int64(TWO63), false) < 0;
    } else if count > TWO63 + 1 {
      var wrapped := (TWO63 - 1) % n;
      DivModIdentity(TWO63, n);
      var q := TWO63 / n;
      DecrementFactor(q, n);
      DivModUnique(TWO63 - 1, n, q - 1, n - 1);
      assert ChosenKey(n, -1, Int64(TWO63 + 1), false) == -wrapped < 0;
    }
  }

  /** How many of the first `count` data samples go to instance `a`. */
  function Share(count: nat, n: int, a: int): (r: nat)
    requires n > 1
  {
    if count == 0 then 0 else Share(count - 1, n, a) + if (count - 1) % n == a then 1 else 0
  }

  lemma {:induction false} ShareClosedForm(count: nat, n: int, a: nat)
    requires n > 1 && a < n
    ensures Share(count, n, a) == count / n + if a < count % n then 1 else 0
  {
    if count > 0 {
      ShareClosedForm(count - 1, n, a);
      DivModSuccessor(count - 1, n);
    } else {
      DivModUnique(0, n, 0, 0);
    }
  }

  lemma {:induction false} KeysPerInstance(n: int, sends: seq<bool>, a: nat)
    requires 1 < n <= MAX_CFT_VALUE && a < n && DataSends(sends) <= TWO63
    ensures multiset(Keys(n, -1, sends))[a] == Share(DataSends(sends), n, a)
  {
    if sends != [] {
      var before := sends[..|sends| - 1];
      KeysPerInstance(n, before, a);
      TurnsAreKept(n, sends, |before|);
      assert Keys(n, -1, sends) == Keys(n, -1, before) + [Keys(n, -1, sends)[|before|]];
    }
  }

  /** Over any mix of data and control sends no instance is ahead of another by more than one. */
  lemma InstancesStayBalanced(n: int, sends: seq<bool>, a: nat, b: nat)
    requires 1 < n <= MAX_CFT_VALUE && a < n && b < n && DataSends(sends) <= TWO63
    ensures var keys := multiset(Keys(n, -1, sends));
            keys[a] <= keys[b] + 1 && (a <= b ==> keys[a] >= keys[b])
  {
    KeysPerInstance(n, sends, a);
    KeysPerInstance(n, sends, b);
    ShareClosedForm(DataSends(sends), n, a);
    ShareClosedForm(DataSends(sends), n, b);
  }

  // ----- Round robin under a filter -----

  /** The positions of the samples that a filter lets through, in order. */
  function Delivered(wire: seq<seq<Byte>>, start: nat, end: nat): (positions: seq<nat>)
    requires forall j :: 0 <= j < |wire| ==> |wire[j]| == KEY_SIZE
  {
    if wire == [] then [] else
      var last := |wire| - 1;
      Delivered(wire[..last], start, end) + if Passes(start, end, wire[last]) then [last] else []
  }

  /** The positions of the control messages and of the data samples whose turn falls in the range. */
  function Wanted(n: int, sends: seq<bool>, start: nat, end: nat): (positions: seq<nat>)
    requires n > 1
  {
    if sends == [] then [] else
      var last := |sends| - 1;
      Wanted(n, sends[..last], start, end)
      + if sends[last] || start <= DataSends(sends[..last]) % n <= end then [last] else []
  }

  /** A subscriber that filters `[start, end]` receives every control message and exactly
      the data samples `i` with `start <= i % n <= end`, in order. */
  lemma {:induction false} SubscriberGetsItsInstances(n: int, sends: seq<bool>, start: nat, end: nat)
    requires 1 < n <= MAX_CFT_VALUE && DataSends(sends) <= TWO63
    requires start < TWO32 && end < TWO32
    ensures Delivered(Wire(Keys(n, -1, sends)), start, end) == Wanted(n, sends, start, end)
  {
    if sends != [] {
      var last := |sends| - 1;
      var keys := Keys(n, -1, sends);
      SubscriberGetsItsInstances(n, sends[..last], start, end);
      TurnsAreKept(n, sends, last);
      assert Wire(keys)[..last] == Wire(Keys(n, -1, sends[..last]));
      UInt32Fits(keys[last]);
      FilterAcceptsInterval(start, end, keys[last]);
    }
  }

  /** The filter separates data samples exactly as long as no instance id is the wildcard's. */
  lemma FilterExactIffIdsBelowWildcard(n: int, start: nat, end: nat)
    requires 1 < n < TWO31 && start <= end < MAX_CFT_VALUE
    ensures (forall i: nat :: Passes(start, end, KeyBytes(i % n)) <==> start <= i % n <= end)
        <==> n <= MAX_CFT_VALUE
  {
    forall i: nat
      ensures Passes(start, end, KeyBytes(i % n)) <==> start <= i % n <= end || i % n == MAX_CFT_VALUE
    {
      UInt32Fits(i % n);
      FilterAcceptsInterval(start, end, i % n);
    }
    if n > MAX_CFT_VALUE {
      DivModUnique(MAX_CFT_VALUE, n, 0, MAX_CFT_VALUE);
      assert Passes(start, end, KeyBytes(MAX_CFT_VALUE % n));
    }
  }

  /** A writer bound to one instance reaches exactly the subscribers whose range holds it,
      unless it is bound to the wildcard's number, which reaches all. */
  lemma FixedInstanceReaches(n: int, instance: nat, sends: seq<bool>, j: nat, start: nat, end: nat)
    requires 1 < n && instance < TWO32 && j < |sends|
    requires start < TWO32 && end < TWO32
    ensures Passes(start, end, Wire(Keys(n, instance, sends))[j])
        <==> sends[j] || start <= instance <= end || instance == MAX_CFT_VALUE
  {
    KeyAt(n, instance, sends, j);
    var key := Keys(n, instance, sends)[j];
    UInt32Fits(key);
    FilterAcceptsInterval(start, end, key);
  }

  // ----- Pings under a filter -----

  /** A subscriber with its range, as far as answering goes. */
  datatype Filtering = Filtering(start: nat, end: nat, reception: ThroughputListener.Reception)

  /** A subscriber that knows the publisher, filters and has a proper id. */
  predicate Listening(f: Filtering, m: Messages.Message) {
    && f.reception.Sized() && f.reception.useCft && f.reception.subId >= 0
    && 0 <= m.entityId < f.reception.numPublishers
    && f.start < TWO32 && f.end < TWO32
  }

  ghost predicate AllListening(subs: seq<Filtering>, m: Messages.Message) {
    forall i :: 0 <= i < |subs| ==> Listening(subs[i], m)
  }

  /** Whether a subscriber receives send `j` and writes it back. */
  predicate Answers(f: Filtering, n: int, sends: seq<bool>, j: nat, m: Messages.Message, now: int)
    requires j < |sends| && f.reception.Sized()
  {
    && Passes(f.start, f.end, Wire(Keys(n, -1, sends))[j])
    && ThroughputListener.Process(f.reception, m, now).echoed
  }

  /** A data sample in its turn is answered, if it is a ping, by a subscriber exactly if its
      range holds the turn, whatever id the ping names, and otherwise by nobody. */
  lemma PingAnsweredByRange(f: Filtering, n: int, sends: seq<bool>, j: nat, m: Messages.Message, now: int)
    requires 1 < n <= MAX_CFT_VALUE && DataSends(sends) <= TWO63 && j < |sends| && !sends[j]
    requires !Messages.IsControl(m.size) && Listening(f, m)
    ensures Answers(f, n, sends, j, m, now)
        <==> m.latencyPing != -1 && f.start <= DataSends(sends[..j]) % n <= f.end
  {
    hide Passes, Keys, ThroughputListener.Process;
    var key := Keys(n, -1, sends)[j];
    TurnsAreKept(n, sends, j);
    UInt32Fits(key);
    FilterAcceptsInterval(f.start, f.end, key);
    ThroughputListener.EchoRule(f.reception, m, now);
  }

  /** So a ping is answered exactly once, as a latency test needs, for every turn that lies
      in the range of exactly one subscriber. */
  lemma PingAnsweredOnce(subs: seq<Filtering>, n: int, sends: seq<bool>, j: nat, m: Messages.Message,
                         now: int, i: nat, k: nat)
    requires 1 < n <= MAX_CFT_VALUE && DataSends(sends) <= TWO63 && j < |sends| && !sends[j]
    requires !Messages.IsControl(m.size) && m.latencyPing != -1 && AllListening(subs, m)
    requires i < |subs| && k < |subs|
    requires var turn := DataSends(sends[..j]) % n;
             forall h :: 0 <= h < |subs| ==> (subs[h].start <= turn <= subs[h].end <==> h == i)
    ensures Answers(subs[k], n, sends, j, m, now) <==> k == i
  {
    PingAnsweredByRange(subs[k], n, sends, j, m, now);
  }

  // ----- Without instances -----

  /** With one instance or none every data sample has key 0, whatever instance was named. */
  lemma SingleInstanceRun(n: int, instance: int, sends: seq<bool>, j: nat)
    requires n <= 1 && j < |sends|
    ensures Keys(n, instance, sends)[j] == if sends[j] then 65535 else 0
  {
    KeyAt(n, instance, sends, j);
  }
}
