/** The reliable latency test as a transition system: the publisher's send loop and
    its binary semaphore, the subscribers that echo pings, the pongs on their way
    back and the latency listener. Channels keep order per writer and lose nothing;
    moves interleave freely. The result is the exact condition under which no run
    gets stuck before its last sample. */
module PingPong {
  import opened Collections
  import opened Machine
  import opened Messages
  import opened SendLoop
  import LatencyListener
  import ThroughputListener

  /** A latency test: the loop's configuration, the payload size, the copy that
      runs, and how many initialization samples go out before the loop. */
  datatype Test = Test(c: Config, size: int, variant: LatencyListener.Variant, burst: nat) {
    predicate Valid() { c.Valid() && c.pubId == 0 }

    /** The length of the history array that this copy allocates. */
    function Capacity(): (m: nat)
      requires Valid()
    {
      match variant
      case Traditional => UInt32(TraditionalNumLatency(c))
      case CSharp => CSharpNumLatency(c)
    }
  }

  /** `loop` counts the samples sent. While `waiting`, the last of them is still
      waiting for its ping response. `answered` counts notifications. */
  datatype System = System(
    loop: nat,
    cursor: Cursor,
    waiting: bool,
    semaphore: nat,
    message: Message,
    inbox: seq<seq<Message>>,
    pongs: seq<seq<Message>>,
    listener: LatencyListener.Pongs,
    answered: nat,
    clock: nat)

  datatype Action = Send | Take | Receive(subscriber: nat) | Process(subscriber: nat)

  /** A move happens at a clock reading no earlier than the previous one. */
  datatype Move = Move(action: Action, now: nat)

  function Initial(t: Test): (s: System)
    requires t.Valid()
  {
    var init := Message(0, INITIALIZE_SIZE, 0, 0, 0, 0);
    System(0, START, false, 0, init,
           seq(t.c.numSubscribers, _ => seq(t.burst, _ => init)),
           seq(t.c.numSubscribers, _ => []),
           LatencyListener.Fresh(t.Capacity()), 0, 0)
  }

  predicate Enabled(t: Test, s: System, a: Action) {
    match a
    case Send => !s.waiting && s.loop < t.c.numIter
    case Take => s.waiting && s.semaphore > 0
    case Receive(j) => j < |s.inbox| && j < |s.pongs| && s.inbox[j] != []
    case Process(j) => j < |s.pongs| && s.pongs[j] != []
  }

  predicate Legal(t: Test, s: System, mv: Move) {
    Enabled(t, s, mv.action) && s.clock <= mv.now < TWO64
  }

  /** Whether the subscriber with id `j` writes `m` back. */
  predicate Echoes(j: int, m: Message) {
    m.size == INITIALIZE_SIZE
    || (m.size != FINISHED_SIZE && ThroughputListener.Answers(j, false, m))
  }

  /** That is what the subscriber's listener does with a known publisher's message. */
  lemma EchoesLikeTheListener(r: ThroughputListener.Reception, m: Message, now: int)
    requires r.Sized() && !r.useCft && 0 <= m.entityId < r.numPublishers
    ensures ThroughputListener.Process(r, m, now).echoed == Echoes(r.subId, m)
  {
  }

  /** The data message of this iteration, written into the one message object. */
  function NextMessage(t: Test, s: System, now: nat): (m: Message)
    requires t.Valid()
  {
    var sample := Iterate(t.c, s.cursor, s.loop).sample;
    var m := s.message.(size := t.size, seqNum := sample.seqNum, latencyPing := sample.latencyPing);
    if sample.latencyPing != NO_PING then Stamp(m, now) else m
  }

  function Step(t: Test, s: System, mv: Move): (s': System)
    requires t.Valid() && Enabled(t, s, mv.action)
  {
    var s := s.(clock := mv.now);
    match mv.action
    case Send =>
      var out := Iterate(t.c, s.cursor, s.loop);
      var m := NextMessage(t, s, mv.now);
      s.(loop := s.loop + 1, cursor := out.next, waiting := out.waits, message := m,
         inbox := AppendToAll(s.inbox, m))
    case Take =>
      s.(waiting := false, semaphore := s.semaphore - 1)
    case Receive(j) =>
      var m := s.inbox[j][0];
      s.(inbox := s.inbox[j := s.inbox[j][1..]],
         pongs := if Echoes(j, m) then s.pongs[j := s.pongs[j] + [m]] else s.pongs)
    case Process(j) =>
      var out := LatencyListener.Process(t.variant, s.listener, s.pongs[j][0], mv.now);
      s.(pongs := s.pongs[j := s.pongs[j][1..]],
         listener := out.pongs,
         semaphore := if out.notified then 1 else s.semaphore,
         answered := if out.notified then s.answered + 1 else s.answered)
  }

  ghost predicate IsRun(t: Test, states: seq<System>, moves: seq<Move>)
    requires t.Valid()
  {
    && |states| == |moves| + 1
    && states[0] == Initial(t)
    && forall i :: 0 <= i < |moves| ==>
         Legal(t, states[i], moves[i]) && states[i + 1] == Step(t, states[i], moves[i])
  }

  predicate Done(t: Test, s: System) { s.loop == t.c.numIter && !s.waiting }

  ghost predicate NoMoveLeft(t: Test, s: System) { forall a :: !Enabled(t, s, a) }

  ghost predicate Stuck(t: Test, s: System) { !Done(t, s) && NoMoveLeft(t, s) }

  // ----- When a test can finish -----

  /** Ping `k` comes back and is counted: it is data, it names a subscriber, and the
      listener does not find its history full. */
  predicate Good(t: Test, k: nat)
    requires t.Valid()
  {
    && !IsControl(t.size)
    && Target(t.c, k) >= 0
    && (t.Capacity() == 0 || k < t.Capacity() + LatencyListener.Swallowed(t.size))
  }

  /** Sample `i` either does not wait or waits for a ping of its own that comes back. */
  predicate SampleReturns(t: Test, i: nat)
    requires t.Valid()
  {
    !PingedInBatch(t.c, i) && (PingDue(t.c, i) ==> Good(t, PingsBefore(t.c, i)))
  }

  ghost predicate AllReturn(t: Test, n: nat)
    requires t.Valid()
  {
    forall i :: 0 <= i < n ==> SampleReturns(t, i)
  }

  /** The condition on a configuration: payload size, one sample per batch, a ping
      counter that has not gone negative, and room in the history array. */
  ghost predicate Answerable(t: Test)
    requires t.Valid()
  {
    var pings := PingsBefore(t.c, t.c.numIter);
    t.c.numIter > 0 ==>
      && !IsControl(t.size)
      && (t.c.samplesPerBatch == 1 || t.c.numIter == 1)
      && (t.Capacity() == 0 || pings <= t.Capacity() + LatencyListener.Swallowed(t.size))
      && TargetsNonNegative(t.c, pings)
  }

  lemma AnswerableMeansAllReturn(t: Test)
    requires t.Valid()
    ensures Answerable(t) <==> AllReturn(t, t.c.numIter)
  {
    TargetsNonNegativeIff(t.c, PingsBefore(t.c, t.c.numIter));
    if AllReturn(t, t.c.numIter) && t.c.numIter > 0 {
      AllReturnIsAnswerable(t);
    }
    if Answerable(t) {
      forall i | 0 <= i < t.c.numIter
        ensures SampleReturns(t, i)
      {
        NothingPinged(t.c, i);
        PingsBeforeCounts(t.c, PingsBefore(t.c, i), t.c.numIter);
      }
    }
  }

  lemma AllReturnIsAnswerable(t: Test)
    requires t.Valid() && AllReturn(t, t.c.numIter) && t.c.numIter > 0
    ensures Answerable(t)
  {
    FirstSamples(t.c);
    assert SampleReturns(t, 0);
    assert t.c.samplesPerBatch > 1 ==> !SampleReturns(t, 1);
    AllPingsGood(t);
    TargetsNonNegativeIff(t.c, PingsBefore(t.c, t.c.numIter));
  }

  lemma AllPingsGood(t: Test)
    requires t.Valid() && AllReturn(t, t.c.numIter)
    ensures var pings := PingsBefore(t.c, t.c.numIter);
            && (forall k :: 0 <= k < pings ==> Target(t.c, k) >= 0)
            && (pings > 0 && t.Capacity() > 0 ==> pings <= t.Capacity() + LatencyListener.Swallowed(t.size))
  {
    var pings := PingsBefore(t.c, t.c.numIter);
    forall k | 0 <= k < pings
      ensures Target(t.c, k) >= 0
    {
      PingReturns(t, k);
    }
    if pings > 0 {
      PingReturns(t, pings - 1);
    }
  }

  lemma PingReturns(t: Test, k: nat)
    requires t.Valid() && AllReturn(t, t.c.numIter) && k < PingsBefore(t.c, t.c.numIter)
    ensures Good(t, k)
  {
    PingsBeforeCounts(t.c, k, t.c.numIter);
    OnePingPerEligibleBatch(t.c, k);
    assert SampleReturns(t, PingIndex(t.c, k));
  }

  /** The first ping is sample 0's; with batches the flag is still up at sample 1. */
  lemma FirstSamples(c: Config)
    requires c.Valid()
    ensures PingDue(c, 0) && PingsBefore(c, 0) == 0
    ensures c.samplesPerBatch > 1 ==> PingedInBatch(c, 1)
  {
    var S, L := c.samplesPerBatch, c.latencyCount;
    DivModUnique(0, S, 0, 0);
    DivModUnique(0, L, 0, 0);
    if S > 1 {
      DivModUnique(1, S, 0, 1);
    }
  }

  lemma NothingPinged(c: Config, i: nat)
    requires c.Valid() && (c.samplesPerBatch == 1 || i == 0)
    ensures !PingedInBatch(c, i)
  {
    if c.samplesPerBatch == 1 {
      DivModUnique(i, 1, i, 0);
    } else {
      DivModUnique(0, c.samplesPerBatch, 0, 0);
    }
  }

  // ----- The invariant -----

  /** Subscriber `j` will answer this message with a pong that can notify. */
  predicate Asks(m: Message, j: int) { !IsControl(m.size) && m.latencyPing == j }

  ghost predicate Quiet(q: seq<Message>, j: int) { forall m :: m in q ==> !Asks(m, j) }

  /** Nothing but control messages. */
  ghost predicate Mute(q: seq<Message>) { forall m :: m in q ==> IsControl(m.size) }

  ghost predicate InboxesQuiet(s: System) {
    forall j :: 0 <= j < |s.inbox| ==> Quiet(s.inbox[j], j)
  }

  ghost predicate PongsMute(s: System) {
    forall j :: 0 <= j < |s.pongs| ==> Mute(s.pongs[j])
  }

  /** `q` ends in a stamped ping. */
  ghost predicate EndsInPing(t: Test, q: seq<Message>, clock: nat) {
    && q != []
    && var m := q[|q| - 1]; m.size == t.size && SentTime(m) <= clock
  }

  /** The ping of the last sample is the newest message for its subscriber. */
  ghost predicate PingInInbox(t: Test, s: System, j: nat) {
    && j < |s.inbox|
    && EndsInPing(t, s.inbox[j], s.clock)
    && Asks(s.inbox[j][|s.inbox[j]| - 1], j)
    && Quiet(s.inbox[j][..|s.inbox[j]| - 1], j)
    && (forall i :: 0 <= i < |s.inbox| && i != j ==> Quiet(s.inbox[i], i))
    && PongsMute(s)
  }

  /** Or it is the newest pong of its subscriber, who has nothing else to read. */
  ghost predicate PingInPongs(t: Test, s: System, j: nat) {
    && j < |s.pongs| && j < |s.inbox| && s.inbox[j] == []
    && EndsInPing(t, s.pongs[j], s.clock)
    && !IsControl(t.size)
    && Mute(s.pongs[j][..|s.pongs[j]| - 1])
    && (forall i :: 0 <= i < |s.pongs| && i != j ==> Mute(s.pongs[i]))
    && InboxesQuiet(s)
  }

  /** The listener after `n` notifications. */
  predicate ListenerAfter(t: Test, p: LatencyListener.Pongs, n: nat)
    requires t.Valid()
  {
    && p.capacity == t.Capacity()
    && p.lastDataLength == (if n == 0 then 0 else t.size)
    && |p.stored| == (if n == 0 then 0 else n - LatencyListener.Swallowed(t.size))
  }

  ghost predicate Inv(t: Test, s: System)
    requires t.Valid()
  {
    && |s.inbox| == |s.pongs| == t.c.numSubscribers
    && s.loop <= t.c.numIter
    && OnSchedule(t.c, s.loop, s.cursor)
    && s.clock < TWO64
    && ListenerAfter(t, s.listener, s.answered)
    && (!s.waiting ==> AtHead(t, s))
    && (s.waiting ==> s.loop > 0 && AtWait(t, s))
  }

  /** At the loop head nothing is in flight and every ping so far was answered. */
  ghost predicate AtHead(t: Test, s: System)
    requires t.Valid()
  {
    && InboxesQuiet(s) && PongsMute(s)
    && s.semaphore == 0
    && s.answered == PingsBefore(t.c, s.loop)
    && AllReturn(t, s.loop)
  }

  /** While waiting for sample `loop - 1`: its ping is in flight, or has released the
      semaphore, or no answer is to come. */
  ghost predicate AtWait(t: Test, s: System)
    requires t.Valid() && s.loop > 0
  {
    var i := s.loop - 1;
    && AllReturn(t, i)
    && (PingedInBatch(t.c, i) || PingDue(t.c, i))
    && (InFlight(t, s, i) || Landed(t, s, i) || Lost(t, s, i))
  }

  ghost predicate InFlight(t: Test, s: System, i: nat)
    requires t.Valid()
  {
    var k := PingsBefore(t.c, i);
    && s.semaphore == 0 && s.answered == k
    && !PingedInBatch(t.c, i) && PingDue(t.c, i)
    && !IsControl(t.size) && Target(t.c, k) >= 0
    && (PingInInbox(t, s, Target(t.c, k)) || PingInPongs(t, s, Target(t.c, k)))
  }

  ghost predicate Landed(t: Test, s: System, i: nat)
    requires t.Valid()
  {
    && s.semaphore == 1 && s.answered == PingsBefore(t.c, i) + 1
    && PingDue(t.c, i) && SampleReturns(t, i)
    && InboxesQuiet(s) && PongsMute(s)
  }

  ghost predicate Lost(t: Test, s: System, i: nat)
    requires t.Valid()
  {
    && s.semaphore == 0 && s.answered == PingsBefore(t.c, i)
    && !SampleReturns(t, i)
    && InboxesQuiet(s) && PongsMute(s)
  }

  // ----- Every move keeps it -----

  lemma InitialInv(t: Test)
    requires t.Valid()
    ensures Inv(t, Initial(t))
  {
    FirstSamples(t.c);
    assert OnSchedule(t.c, 0, START) by {
      NothingPinged(t.c, 0);
      DivModUnique(0, t.c.samplesPerBatch, 0, 0);
    }
  }

  lemma SendKeepsInv(t: Test, s: System, now: nat)
    requires t.Valid() && Inv(t, s) && Legal(t, s, Move(Send, now))
    ensures Inv(t, Step(t, s, Move(Send, now)))
  {
    var i := s.loop;
    var k := PingsBefore(t.c, i);
    var s' := Step(t, s, Move(Send, now));
    var m := NextMessage(t, s, now);
    IterateKeepsSchedule(t.c, i, s.cursor);
    PingDecision(t.c, i);
    PingsBeforeSuccessor(t.c, i);
    StampRoundTrip(s.message.(size := t.size, seqNum := UInt32(i), latencyPing := Target(t.c, k)), now);
    forall j | 0 <= j < |s.inbox|
      ensures s'.inbox[j][..|s'.inbox[j]| - 1] == s.inbox[j]
    {
    }
    if !PingedInBatch(t.c, i) && PingDue(t.c, i) && !IsControl(t.size) && Target(t.c, k) >= 0 {
      TargetBelow(t.c, k);
      assert PingInInbox(t, s', Target(t.c, k));
    } else {
      assert InboxesQuiet(s');
      if !s'.waiting {
        assert SampleReturns(t, i);
      }
    }
  }

  lemma TargetBelow(c: Config, k: nat)
    requires c.Valid()
    ensures Target(c, k) < c.numSubscribers
  {
  }

  lemma TakeKeepsInv(t: Test, s: System, now: nat)
    requires t.Valid() && Inv(t, s) && Legal(t, s, Move(Take, now))
    ensures Inv(t, Step(t, s, Move(Take, now)))
  {
    PingsBeforeSuccessor(t.c, s.loop - 1);
  }

  lemma ReceiveKeepsInv(t: Test, s: System, j: nat, now: nat)
    requires t.Valid() && Inv(t, s) && Legal(t, s, Move(Receive(j), now))
    ensures Inv(t, Step(t, s, Move(Receive(j), now)))
  {
    if s.waiting && InFlight(t, s, s.loop - 1) {
      ReceiveMovesPing(t, s, j, now);
    } else {
      ReceiveKeepsQuiet(t, s, j, now);
    }
  }

  /** Where nobody has anything to answer, reading a message gives rise to no pong
      that could notify. */
  lemma ReceiveKeepsQuiet(t: Test, s: System, j: nat, now: nat)
    requires t.Valid() && Enabled(t, s, Receive(j)) && |s.inbox| == |s.pongs|
    requires InboxesQuiet(s) && PongsMute(s)
    ensures var s' := Step(t, s, Move(Receive(j), now)); InboxesQuiet(s') && PongsMute(s')
  {
    var s' := Step(t, s, Move(Receive(j), now));
    var q := s.inbox[j];
    assert q == [q[0]] + q[1..];
    assert Quiet(q, j) && Mute(s.pongs[j]) && !Asks(q[0], j);
    assert Quiet(s'.inbox[j], j) && Mute(s'.pongs[j]);
  }

  /** A ping in flight stays in flight when a subscriber takes a message. */
  lemma ReceiveMovesPing(t: Test, s: System, j: nat, now: nat)
    requires t.Valid() && Inv(t, s) && Legal(t, s, Move(Receive(j), now))
    requires s.waiting && InFlight(t, s, s.loop - 1)
    ensures InFlight(t, Step(t, s, Move(Receive(j), now)), s.loop - 1)
  {
    var s' := Step(t, s, Move(Receive(j), now));
    var q, p, target := s.inbox[j], s.pongs[j], Target(t.c, PingsBefore(t.c, s.loop - 1));
    assert q == [q[0]] + q[1..];
    assert forall i :: 0 <= i < |s.inbox| && i != j ==> s'.inbox[i] == s.inbox[i] && s'.pongs[i] == s.pongs[i];
    if PingInInbox(t, s, target) && j == target && |q| == 1 {
      assert s'.pongs[j] == p + [q[0]] && s'.pongs[j][..|p|] == p;
      assert PingInPongs(t, s', target);
    } else if PingInInbox(t, s, target) {
      if j == target {
        assert q[..|q| - 1] == [q[0]] + q[1..|q| - 1];
        assert s'.inbox[j][..|q| - 2] == q[1..|q| - 1];
      }
      assert !Asks(q[0], j) && Mute(s'.pongs[j]);
      assert PingInInbox(t, s', target);
    } else {
      assert j != target && !Asks(q[0], j) && Mute(s'.pongs[j]);
      assert PingInPongs(t, s', target);
    }
  }

  lemma ProcessKeepsInv(t: Test, s: System, j: nat, now: nat)
    requires t.Valid() && Inv(t, s) && Legal(t, s, Move(Process(j), now))
    ensures Inv(t, Step(t, s, Move(Process(j), now)))
  {
    hide OnSchedule, Iterate, AllReturn, PingsBefore, PingDue;
  }

  lemma MoveKeepsInv(t: Test, s: System, mv: Move)
    requires t.Valid() && Inv(t, s) && Legal(t, s, mv)
    ensures Inv(t, Step(t, s, mv))
  {
    match mv.action
    case Send => SendKeepsInv(t, s, mv.now);
    case Take => TakeKeepsInv(t, s, mv.now);
    case Receive(j) => ReceiveKeepsInv(t, s, j, mv.now);
    case Process(j) => ProcessKeepsInv(t, s, j, mv.now);
  }

  lemma {:induction false} RunKeepsInv(t: Test, states: seq<System>, moves: seq<Move>, i: nat)
    requires t.Valid() && IsRun(t, states, moves) && i < |states|
    ensures Inv(t, states[i])
  {
    if i == 0 {
      InitialInv(t);
    } else {
      RunKeepsInv(t, states, moves, i - 1);
      MoveKeepsInv(t, states[i - 1], moves[i - 1]);
    }
  }

  // ----- What follows from the invariant -----

  /** If every ping comes back, some move is always possible before the end. */
  lemma Progress(t: Test, s: System)
    requires t.Valid() && Inv(t, s) && Answerable(t)
    ensures !Stuck(t, s)
  {
    AnswerableMeansAllReturn(t);
    if !Done(t, s) {
      if !s.waiting {
        assert Enabled(t, s, Send);
      } else {
        assert SampleReturns(t, s.loop - 1);
        if Landed(t, s, s.loop - 1) {
          assert Enabled(t, s, Take);
        } else {
          var j: nat := Target(t.c, PingsBefore(t.c, s.loop - 1));
          assert Enabled(t, s, Receive(j)) || Enabled(t, s, Process(j));
        }
      }
    }
  }

  /** A run gets to its end only if every ping came back. */
  lemma DoneNeedsAnswers(t: Test, s: System)
    requires t.Valid() && Inv(t, s) && Done(t, s)
    ensures Answerable(t)
  {
    AnswerableMeansAllReturn(t);
  }

  // ----- Runs are finite -----

  /** The moves a run has left: what is still to send, read and process. */
  function Work(t: Test, s: System): (n: int)
  {
    (t.c.numIter - s.loop) * (2 * t.c.numSubscribers + 2)
    + (if s.waiting then 1 else 0) + 2 * Total(s.inbox) + Total(s.pongs)
  }

  lemma MoveUsesWork(t: Test, s: System, mv: Move)
    requires t.Valid() && Inv(t, s) && Legal(t, s, mv)
    ensures 0 <= Work(t, Step(t, s, mv)) < Work(t, s)
  {
    MoveKeepsInv(t, s, mv);
    WorkNonNegative(t, Step(t, s, mv));
    match mv.action
    case Send => SendUsesWork(t, s, mv.now);
    case Take =>
    case Receive(j) => ReceiveUsesWork(t, s, j, mv.now);
    case Process(j) => TotalUpdate(s.pongs, j, s.pongs[j][1..]);
  }

  lemma WorkNonNegative(t: Test, s: System)
    requires s.loop <= t.c.numIter
    ensures 0 <= Work(t, s)
  {
    MulNonNegative(t.c.numIter - s.loop, 2 * t.c.numSubscribers + 2);
  }

  lemma SendUsesWork(t: Test, s: System, now: nat)
    requires t.Valid() && Inv(t, s) && Legal(t, s, Move(Send, now))
    ensures Work(t, Step(t, s, Move(Send, now))) < Work(t, s)
  {
    DecrementFactor(t.c.numIter - s.loop, 2 * t.c.numSubscribers + 2);
    TotalAppendToAll(s.inbox, NextMessage(t, s.(clock := now), now));
  }

  lemma ReceiveUsesWork(t: Test, s: System, j: nat, now: nat)
    requires t.Valid() && Enabled(t, s, Receive(j))
    ensures Work(t, Step(t, s, Move(Receive(j), now))) < Work(t, s)
  {
    TotalUpdate(s.inbox, j, s.inbox[j][1..]);
    TotalUpdate(s.pongs, j, s.pongs[j] + [s.inbox[j][0]]);
  }

  /** No run is longer than the work it starts with. */
  lemma {:induction false} RunsAreBounded(t: Test, states: seq<System>, moves: seq<Move>)
    requires t.Valid() && IsRun(t, states, moves)
    ensures |moves| + Work(t, states[|moves|]) <= Work(t, Initial(t))
    ensures 0 <= Work(t, states[|moves|])
  {
    var n := |moves|;
    RunKeepsInv(t, states, moves, n);
    WorkNonNegative(t, states[n]);
    if n > 0 {
      assert IsRun(t, states[..n], moves[..n - 1]);
      RunsAreBounded(t, states[..n], moves[..n - 1]);
      RunKeepsInv(t, states, moves, n - 1);
      MoveUsesWork(t, states[n - 1], moves[n - 1]);
    }
  }

  /** Every run can be continued until no move is left. */
  lemma {:induction false} RunToTheEnd(t: Test, states: seq<System>, moves: seq<Move>)
    returns (states': seq<System>, moves': seq<Move>)
    requires t.Valid() && IsRun(t, states, moves)
    ensures IsRun(t, states', moves') && NoMoveLeft(t, states'[|moves'|])
    decreases Work(t, states[|moves|])
  {
    var s := states[|moves|];
    RunKeepsInv(t, states, moves, |moves|);
    RunsAreBounded(t, states, moves);
    if NoMoveLeft(t, s) {
      states', moves' := states, moves;
    } else {
      var a :| Enabled(t, s, a);
      var mv := Move(a, s.clock);
      MoveUsesWork(t, s, mv);
      states', moves' := RunToTheEnd(t, states + [Step(t, s, mv)], moves + [mv]);
    }
  }

  // ----- The theorems -----

  /** The exact condition: no reachable state of a latency test is stuck before its
      last sample if and only if the configuration is answerable. */
  lemma NeverStuckIffAnswerable(t: Test)
    requires t.Valid()
    ensures (forall states, moves :: IsRun(t, states, moves) ==> !Stuck(t, states[|moves|]))
        <==> Answerable(t)
  {
    if Answerable(t) {
      forall states, moves | IsRun(t, states, moves)
        ensures !Stuck(t, states[|moves|])
      {
        RunKeepsInv(t, states, moves, |moves|);
        Progress(t, states[|moves|]);
      }
    } else {
      assert IsRun(t, [Initial(t)], []);
      var states, moves := RunToTheEnd(t, [Initial(t)], []);
      var s := states[|moves|];
      RunKeepsInv(t, states, moves, |moves|);
      if Done(t, s) {
        DoneNeedsAnswers(t, s);
      }
      assert Stuck(t, s);
    }
  }

  /** Configurations that are answerable: data payload, one sample per batch, and a
      history size that fits 31 bits; the C# copy also needs a nonempty payload,
      because only then is its first pong reset away. */
  lemma ConfiguredTestsAreAnswerable(t: Test)
    requires t.Valid() && !IsControl(t.size) && t.c.samplesPerBatch == 1
    requires t.c.numIter / t.c.latencyCount + 2 < TWO31
    requires t.variant.Traditional? || t.size != 0
    ensures Answerable(t)
  {
    hide PingsBefore, Test.Capacity;
    DivModUnique(t.c.numIter, 1, t.c.numIter, 0);
    CapacitySuffices(t);
    PingsBeforeWhole(t.c, t.c.numIter);
  }

  /** With or without batches, every pong of a run finds room in the history and notifies,
      while its size fits 32 bits; the C# copy needs the pong that its reset gives up. */
  lemma NoPongIsDropped(t: Test, arrivals: seq<LatencyListener.Arrival>, j: nat)
    requires t.Valid() && (t.variant.Traditional? || t.size != 0)
    requires t.c.numIter / t.c.samplesPerBatch / t.c.latencyCount + 2 < TWO32
    requires LatencyListener.SteadyRun(arrivals, t.size)
    requires j < |arrivals| <= PingsBefore(t.c, t.c.numIter)
    ensures LatencyListener.Notified(t.variant, LatencyListener.Fresh(t.Capacity()), arrivals, j)
  {
    hide LatencyListener.Notified;
    LatencyListener.DroppedPongs(t.variant, t.Capacity(), arrivals, t.size, j);
    CapacitySuffices(t);
  }

  /** The exact condition for that, for a data payload: every pong of every run notifies
      if and only if there is no bound or a slot for every ping but the one given up. */
  lemma NoPongIsDroppedIff(t: Test)
    requires t.Valid() && !IsControl(t.size)
    ensures (forall arrivals, j: nat ::
               LatencyListener.SteadyRun(arrivals, t.size) && j < |arrivals| <= PingsBefore(t.c, t.c.numIter) ==>
                 LatencyListener.Notified(t.variant, LatencyListener.Fresh(t.Capacity()), arrivals, j))
        <==> t.Capacity() == 0
             || PingsBefore(t.c, t.c.numIter) <= t.Capacity() + LatencyListener.Swallowed(t.size)
  {
    hide LatencyListener.Notified, PingsBefore, Test.Capacity;
    var pings := PingsBefore(t.c, t.c.numIter);
    forall arrivals, j: nat | LatencyListener.SteadyRun(arrivals, t.size) && j < |arrivals|
      ensures LatencyListener.Notified(t.variant, LatencyListener.Fresh(t.Capacity()), arrivals, j)
          <==> t.Capacity() == 0 || j < t.Capacity() + LatencyListener.Swallowed(t.size)
    {
      LatencyListener.DroppedPongs(t.variant, t.Capacity(), arrivals, t.size, j);
    }
    if pings > 0 {
      var pong := LatencyListener.Arrival(Message(0, t.size, 0, 0, 0, 0), 0);
      var arrivals := seq(pings, _ => pong);
      assert LatencyListener.SteadyRun(arrivals, t.size);
      LatencyListener.DroppedPongs(t.variant, t.Capacity(), arrivals, t.size, pings - 1);
    }
  }

  /** The final summary of equal-size pongs fails exactly when the history size was cut to
      0 and a pong was counted; 2^32 pings are enough for that in both copies. */
  lemma SummaryFailsIff(t: Test, arrivals: seq<LatencyListener.Arrival>)
    requires t.Valid() && LatencyListener.SteadyRun(arrivals, t.size)
    ensures var p := LatencyListener.Feed(t.variant, LatencyListener.Fresh(t.Capacity()), arrivals);
            p.capacity == 0 && p.stored != []
            <==> t.Capacity() == 0 && |arrivals| > LatencyListener.Swallowed(t.size)
    ensures Test(Config(TWO32, 1, 1, 1, 0), t.size, t.variant, t.burst).Capacity() == 0
  {
    LatencyListener.FeedKeepsCapacity(t.variant, LatencyListener.Fresh(t.Capacity()), arrivals);
    LatencyListener.SteadySummaryFailsIff(t.variant, t.Capacity(), arrivals, t.size);
  }

  lemma CapacitySuffices(t: Test)
    requires t.Valid() && (t.variant.Traditional? || t.size != 0)
    requires t.c.numIter / t.c.samplesPerBatch / t.c.latencyCount + 2 < TWO32
    ensures PingsBefore(t.c, t.c.numIter) <= t.Capacity() + LatencyListener.Swallowed(t.size)
  {
    TraditionalCapacityIsTight(t.c);
    CSharpCapacityWithinOne(t.c);
    PingsBeforeWhole(t.c, t.c.numIter);
    if t.variant.Traditional? {
      UInt32Fits(TraditionalNumLatency(t.c));
    }
  }

  /** With an empty payload the C# copy does get stuck: ten samples, a ping every
      three, and the fourth pong finds a history of three full. */
  lemma EmptyPayloadGetsStuck(burst: nat)
    ensures var t := Test(Config(10, 1, 3, 1, 0), 0, LatencyListener.CSharp, burst);
            t.Valid() && !Answerable(t)
  {
    CSharpCapacityFallsShort();
  }

  /** Every run of an answerable test that can go no further has sent all its samples
      and had all its pings answered. */
  lemma EveryMaximalRunCompletes(t: Test, states: seq<System>, moves: seq<Move>)
    requires t.Valid() && Answerable(t) && IsRun(t, states, moves)
    requires NoMoveLeft(t, states[|moves|])
    ensures var s := states[|moves|];
            Done(t, s) && s.answered == PingsBefore(t.c, t.c.numIter)
  {
    RunKeepsInv(t, states, moves, |moves|);
    Progress(t, states[|moves|]);
  }

  /** In every reachable state: at the loop head the answers processed are the pings
      sent, and while waiting at most one is outstanding. */
  lemma AnswersMatchPings(t: Test, states: seq<System>, moves: seq<Move>)
    requires t.Valid() && IsRun(t, states, moves)
    ensures var s := states[|moves|];
            && (!s.waiting ==> s.answered == PingsBefore(t.c, s.loop) && s.semaphore == 0)
            && s.answered <= PingsBefore(t.c, s.loop) <= s.answered + 1
            && s.semaphore <= 1
  {
    var s := states[|moves|];
    RunKeepsInv(t, states, moves, |moves|);
    if s.waiting {
      PingsBeforeSuccessor(t.c, s.loop - 1);
    }
  }

  /** A message that can still lead to a notification: where it is. */
  datatype Place = Inbox(subscriber: nat, index: nat) | Pong(subscriber: nat, index: nat)

  predicate LiveAt(s: System, p: Place) {
    match p
    case Inbox(j, i) => j < |s.inbox| && i < |s.inbox[j]| && Asks(s.inbox[j][i], j)
    case Pong(j, i) => j < |s.pongs| && i < |s.pongs[j]| && !IsControl(s.pongs[j][i].size)
  }

  /** In every reachable state at most one ping is in flight, in one place, and none
      is when the loop is at its head or the semaphore is up. */
  lemma OnePingInFlight(t: Test, states: seq<System>, moves: seq<Move>, p: Place, q: Place)
    requires t.Valid() && IsRun(t, states, moves)
    requires LiveAt(states[|moves|], p)
    ensures var s := states[|moves|];
            s.waiting && s.semaphore == 0 && (LiveAt(s, q) ==> p == q)
  {
    var s := states[|moves|];
    RunKeepsInv(t, states, moves, |moves|);
    assert !(InboxesQuiet(s) && PongsMute(s)) by {
      NotQuiet(s, p);
    }
    var j := Target(t.c, PingsBefore(t.c, s.loop - 1));
    OnlyPlace(t, s, j, p);
    if LiveAt(s, q) {
      OnlyPlace(t, s, j, q);
    }
  }

  lemma NotQuiet(s: System, p: Place)
    requires LiveAt(s, p)
    ensures !(InboxesQuiet(s) && PongsMute(s))
  {
    match p
    case Inbox(j, i) => assert s.inbox[j][i] in s.inbox[j];
    case Pong(j, i) => assert s.pongs[j][i] in s.pongs[j];
  }

  lemma OnlyPlace(t: Test, s: System, j: nat, p: Place)
    requires PingInInbox(t, s, j) || PingInPongs(t, s, j)
    requires LiveAt(s, p)
    ensures PingInInbox(t, s, j) ==> p == Inbox(j, |s.inbox[j]| - 1)
    ensures PingInPongs(t, s, j) ==> p == Pong(j, |s.pongs[j]| - 1)
  {
    match p
    case Inbox(k, i) => MembersAt(s.inbox[k]);
    case Pong(k, i) => MembersAt(s.pongs[k]);
  }

  lemma MembersAt(q: seq<Message>)
    ensures forall i :: 0 <= i < |q| ==> q[i] in q
    ensures forall i :: 0 <= i < |q| - 1 ==> q[i] in q[..|q| - 1]
  {
    if q != [] {
      var init := q[..|q| - 1];
      assert forall i :: 0 <= i < |init| ==> init[i] in init;
    }
  }
}
