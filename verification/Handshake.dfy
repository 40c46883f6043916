/** The start and finish handshake of a test with several publishers and several
    subscribers, as a transition system over any interleaving. Announcements travel
    on reliable channels that keep each writer's order; throughput samples may be
    delivered late, repeatedly, out of order or never. */
module Handshake {
  import opened Machine
  import opened Messages
  import opened Collections
  import opened AnnouncementListener
  import ThroughputListener
  import LossCounting

  /** How many FINISHED samples a publisher sends before it gives up. */
  const ANNOUNCEMENT_SAMPLE_COUNT: nat := 50

  /** `ids` are the subscribers' ids, `numSubscribers` what the publishers wait for,
      `sizes` the payload size that each publisher was started with. */
  datatype Setup = Setup(numPublishers: nat, ids: seq<int>, numSubscribers: nat, sizes: seq<int>) {
    predicate Valid() { |sizes| == numPublishers > 0 && numSubscribers > 0 }

    /** There are fewer distinct subscriber ids than the publishers wait for. */
    predicate TooFewIds() { |Members(ids)| < numSubscribers }
  }

  datatype PublisherPhase = Gate | Burst | Sending | Finishing | Exited

  /** `sent` is everything written to the throughput topic; `sawNone` whether the
      publisher left because its set of active subscribers was empty. */
  datatype Publisher = Publisher(
    phase: PublisherPhase, active: set<int>, sent: seq<Message>, tries: nat, sawNone: bool)

  datatype SubscriberPhase = Discovering | Running | Ended

  datatype Subscriber = Subscriber(phase: SubscriberPhase, reception: ThroughputListener.Reception)

  /** `announcements[j][p]` is what subscriber `j` announced and publisher `p` has yet to hear. */
  datatype System = System(
    pubs: seq<Publisher>, subs: seq<Subscriber>, announcements: seq<seq<seq<Message>>>)

  datatype Move =
    | Announce(sub: nat)
    | Hear(pub: nat, sub: nat)
    | OpenGate(pub: nat)
    | SendInit(pub: nat)
    | StartLoop(pub: nat)
    | SendData(pub: nat, data: Message)
    | EndLoop(pub: nat)
    | SendFinished(pub: nat, finished: Message)
    | Exit(pub: nat)
    | Deliver(sub: nat, pub: nat, index: nat, now: int)
    | AnnounceFinished(sub: nat)

  function Control(id: int, size: int): (m: Message) { Message(id, size, 0, 0, 0, -1) }

  function Initial(u: Setup): (s: System) {
    System(
      seq(u.numPublishers, _ => Publisher(Gate, {}, [], 0, false)),
      seq(|u.ids|, j requires 0 <= j < |u.ids| =>
        Subscriber(Discovering, ThroughputListener.Start(u.numPublishers, false, u.ids[j], 0))),
      seq(|u.ids|, _ => seq(u.numPublishers, _ => [])))
  }

  predicate Shaped(u: Setup, s: System) {
    && |s.pubs| == u.numPublishers && |s.subs| == |s.announcements| == |u.ids|
    && (forall j :: 0 <= j < |s.announcements| ==> |s.announcements[j]| == u.numPublishers)
    && (forall j :: 0 <= j < |s.subs| ==>
          s.subs[j].reception.Sized() && s.subs[j].reception.numPublishers == u.numPublishers)
  }

  predicate Enabled(u: Setup, s: System, mv: Move)
    requires Shaped(u, s)
  {
    match mv
    case Announce(j) => j < |u.ids| && s.subs[j].phase == Discovering
    case Hear(p, j) => p < u.numPublishers && j < |u.ids| && s.announcements[j][p] != []
    case OpenGate(p) => p < u.numPublishers && s.pubs[p].phase == Gate && |s.pubs[p].active| >= u.numSubscribers
    case SendInit(p) => p < u.numPublishers && s.pubs[p].phase == Burst
    case StartLoop(p) => p < u.numPublishers && s.pubs[p].phase == Burst
    case SendData(p, m) =>
      && p < u.numPublishers && s.pubs[p].phase == Sending && m.entityId == p
      && p < |u.sizes| && m.size == u.sizes[p]
    case EndLoop(p) => p < u.numPublishers && s.pubs[p].phase == Sending
    case SendFinished(p, m) =>
      && p < u.numPublishers && s.pubs[p].phase == Finishing && m.entityId == p && m.size == FINISHED_SIZE
      && |s.pubs[p].active| > 0 && s.pubs[p].tries < ANNOUNCEMENT_SAMPLE_COUNT
    case Exit(p) =>
      && p < u.numPublishers && s.pubs[p].phase == Finishing
      && (|s.pubs[p].active| == 0 || s.pubs[p].tries >= ANNOUNCEMENT_SAMPLE_COUNT)
    case Deliver(j, p, i, _) => j < |u.ids| && p < u.numPublishers && i < |s.pubs[p].sent|
    case AnnounceFinished(j) => j < |u.ids| && s.subs[j].phase == Running && s.subs[j].reception.endTest
  }

  function Step(u: Setup, s: System, mv: Move): (s': System)
    requires Shaped(u, s) && Enabled(u, s, mv)
    ensures Shaped(u, s')
  {
    match mv
    case Announce(j) =>
      s.(subs := s.subs[j := s.subs[j].(phase := Running)],
         announcements := s.announcements[j := AppendToAll(s.announcements[j], Control(u.ids[j], INITIALIZE_SIZE))])
    case Hear(p, j) =>
      var q := s.announcements[j][p];
      s.(pubs := s.pubs[p := s.pubs[p].(active := Announced(s.pubs[p].active, q[0]))],
         announcements := s.announcements[j := s.announcements[j][p := q[1..]]])
    case OpenGate(p) => s.(pubs := s.pubs[p := s.pubs[p].(phase := Burst)])
    case SendInit(p) => s.(pubs := s.pubs[p := Write(s.pubs[p], Control(p, INITIALIZE_SIZE))])
    case StartLoop(p) => s.(pubs := s.pubs[p := s.pubs[p].(phase := Sending)])
    case SendData(p, m) => s.(pubs := s.pubs[p := Write(s.pubs[p], m)])
    case EndLoop(p) => s.(pubs := s.pubs[p := s.pubs[p].(phase := Finishing)])
    case SendFinished(p, m) =>
      s.(pubs := s.pubs[p := Write(s.pubs[p], m).(tries := s.pubs[p].tries + 1)])
    case Exit(p) =>
      s.(pubs := s.pubs[p := s.pubs[p].(phase := Exited, sawNone := s.pubs[p].active == {})])
    case Deliver(j, p, i, now) =>
      var r := ThroughputListener.Process(s.subs[j].reception, s.pubs[p].sent[i], now).reception;
      s.(subs := s.subs[j := s.subs[j].(reception := r)])
    case AnnounceFinished(j) =>
      s.(subs := s.subs[j := s.subs[j].(phase := Ended)],
         announcements := s.announcements[j := AppendToAll(s.announcements[j], Control(u.ids[j], FINISHED_SIZE))])
  }

  function Write(p: Publisher, m: Message): (p': Publisher) { p.(sent := p.sent + [m]) }

  ghost predicate IsRun(u: Setup, states: seq<System>, moves: seq<Move>) {
    && |states| == |moves| + 1
    && states[0] == Initial(u)
    && forall i :: 0 <= i < |moves| ==>
         Shaped(u, states[i]) && Enabled(u, states[i], moves[i]) && states[i + 1] == Step(u, states[i], moves[i])
  }

  // ----- What the handshake is for -----

  /** The ids of the subscribers that have announced themselves. */
  function AnnouncedIds(u: Setup, s: System): (r: set<int>)
    requires Shaped(u, s)
  {
    set j | 0 <= j < |u.ids| && s.subs[j].phase != Discovering :: u.ids[j]
  }

  predicate LeftLoop(p: Publisher) { p.phase == Finishing || p.phase == Exited }

  /** Nothing is sent before enough distinct subscribers have announced. */
  ghost predicate GateHolds(u: Setup, s: System)
    requires Shaped(u, s)
  {
    forall p :: 0 <= p < u.numPublishers && (s.pubs[p].phase != Gate || s.pubs[p].sent != []) ==>
      |AnnouncedIds(u, s)| >= u.numSubscribers
  }

  /** A subscriber that has announced its end did so after every loop had ended. */
  ghost predicate EndsAfterLoops(u: Setup, s: System)
    requires Shaped(u, s)
  {
    forall j, p :: 0 <= j < |u.ids| && s.subs[j].phase == Ended && 0 <= p < u.numPublishers ==>
      LeftLoop(s.pubs[p])
  }

  predicate AllEnded(s: System) {
    forall j :: 0 <= j < |s.subs| ==> s.subs[j].phase == Ended
  }

  /** A publisher that left on an empty set of subscribers left after all had ended. */
  ghost predicate EmptySetMeansAllEnded(u: Setup, s: System)
    requires Shaped(u, s)
  {
    forall p :: 0 <= p < u.numPublishers && s.pubs[p].sawNone ==> AllEnded(s)
  }

  // ----- Invariants -----

  /** Announcing: what publishers know came from subscribers. */
  ghost predicate AnnounceInv(u: Setup, s: System)
    requires Shaped(u, s)
  {
    && (forall p :: 0 <= p < u.numPublishers ==> s.pubs[p].active <= AnnouncedIds(u, s))
    && (forall p :: 0 <= p < u.numPublishers ==>
          && (s.pubs[p].phase == Gate ==> s.pubs[p].sent == [])
          && (s.pubs[p].sawNone ==> s.pubs[p].phase == Exited))
    && QueuesInv(u, s)
    && GateHolds(u, s)
  }

  /** What a subscriber has out is its own, and nothing before it announces itself. */
  ghost predicate QueuesInv(u: Setup, s: System)
    requires Shaped(u, s)
  {
    forall j, p :: 0 <= j < |u.ids| && 0 <= p < u.numPublishers ==>
      && (s.subs[j].phase == Discovering ==> s.announcements[j][p] == [])
      && (forall m :: m in s.announcements[j][p] ==> m.entityId == u.ids[j])
  }

  /** Finishing: FINISHED samples come from publishers that left their loops. */
  ghost predicate FinishInv(u: Setup, s: System)
    requires Shaped(u, s)
  {
    && (forall p, i :: 0 <= p < u.numPublishers && 0 <= i < |s.pubs[p].sent| ==>
          && s.pubs[p].sent[i].entityId == p
          && (s.pubs[p].sent[i].size == FINISHED_SIZE ==> LeftLoop(s.pubs[p])))
    && (forall j :: 0 <= j < |u.ids| ==> HeardOnlyLeavers(u, s, s.subs[j]))
  }

  ghost predicate HeardOnlyLeavers(u: Setup, s: System, sub: Subscriber)
    requires Shaped(u, s)
  {
    var r := sub.reception;
    && Distinct(r.finished)
    && (forall x :: x in r.finished ==> 0 <= x < u.numPublishers && LeftLoop(s.pubs[x]))
    && (r.endTest ==> forall p :: 0 <= p < u.numPublishers ==> p in r.finished)
    && (sub.phase == Ended ==> r.endTest)
  }

  /** The channel from one subscriber to one publisher, with distinct ids: what is
      still to be heard decides whether the id is in the publisher's set. */
  predicate ChannelInv(id: int, phase: SubscriberPhase, q: seq<Message>, active: set<int>, open: bool) {
    var hello, bye := Control(id, INITIALIZE_SIZE), Control(id, FINISHED_SIZE);
    match phase
    case Discovering => q == [] && id !in active && !open
    case Running => (q == [hello] && id !in active && !open) || (q == [] && id in active)
    case Ended =>
      || (q == [hello, bye] && id !in active && !open)
      || (q == [bye] && id in active)
      || (q == [] && id !in active)
  }

  /** The channel of subscriber `j` to publisher `p` in state `s`. */
  ghost predicate ChannelAt(u: Setup, s: System, j: nat, p: nat)
    requires Shaped(u, s) && j < |u.ids| && p < u.numPublishers
  {
    ChannelInv(u.ids[j], s.subs[j].phase, s.announcements[j][p], s.pubs[p].active, s.pubs[p].phase != Gate)
  }

  ghost predicate ChannelsInv(u: Setup, s: System)
    requires Shaped(u, s)
  {
    && (forall j, p :: 0 <= j < |u.ids| && 0 <= p < u.numPublishers ==> ChannelAt(u, s, j, p))
    && EmptySetMeansAllEnded(u, s)
  }

  ghost predicate SomebodyEnded(s: System) {
    exists j :: 0 <= j < |s.subs| && s.subs[j].phase == Ended
  }

  /** Leaving: FINISHED announcements come from subscribers that have ended, and a publisher
      past its gate that knows nobody any more has heard one. */
  ghost predicate LeaveInv(u: Setup, s: System)
    requires Shaped(u, s)
  {
    && (forall j, p :: 0 <= j < |u.ids| && 0 <= p < u.numPublishers ==>
          HeardOnlyEnded(s.subs[j], s.announcements[j][p]))
    && (forall p :: 0 <= p < u.numPublishers ==> NobodyLeftMeansEnded(s, s.pubs[p]))
  }

  ghost predicate HeardOnlyEnded(sub: Subscriber, q: seq<Message>) {
    forall m :: m in q && m.size == FINISHED_SIZE ==> sub.phase == Ended
  }

  ghost predicate NobodyLeftMeansEnded(s: System, pub: Publisher) {
    (pub.phase != Gate && pub.active == {}) || pub.sawNone ==> SomebodyEnded(s)
  }

  lemma InitialInvs(u: Setup)
    requires u.Valid()
    ensures Shaped(u, Initial(u))
    ensures AnnounceInv(u, Initial(u)) && FinishInv(u, Initial(u)) && ChannelsInv(u, Initial(u))
    ensures LeaveInv(u, Initial(u))
  {
  }

  lemma StepKeepsAnnounceInv(u: Setup, s: System, mv: Move)
    requires u.Valid() && Shaped(u, s) && Enabled(u, s, mv) && AnnounceInv(u, s)
    ensures AnnounceInv(u, Step(u, s, mv))
  {
    hide ThroughputListener.Process, AnnouncedIds, QueuesInv;
    AnnouncedIdsGrow(u, s, mv);
    StepKeepsQueues(u, s, mv);
    match mv
    case Announce(j) =>
    case Hear(p, j) =>
      HeardIsAnnounced(u, s, p, j);
    case OpenGate(p) =>
      SubsetSize(s.pubs[p].active, AnnouncedIds(u, s));
    case _ =>
  }

  lemma StepKeepsQueues(u: Setup, s: System, mv: Move)
    requires Shaped(u, s) && Enabled(u, s, mv) && QueuesInv(u, s)
    ensures QueuesInv(u, Step(u, s, mv))
  {
    hide ThroughputListener.Process, Announced;
  }

  lemma HeardIsAnnounced(u: Setup, s: System, p: nat, j: nat)
    requires Shaped(u, s) && Enabled(u, s, Hear(p, j)) && AnnounceInv(u, s)
    ensures s.announcements[j][p][0].entityId in AnnouncedIds(u, s)
  {
    assert s.announcements[j][p][0] in s.announcements[j][p];
  }

  lemma AnnouncedIdsGrow(u: Setup, s: System, mv: Move)
    requires Shaped(u, s) && Enabled(u, s, mv)
    ensures AnnouncedIds(u, s) <= AnnouncedIds(u, Step(u, s, mv))
    ensures |AnnouncedIds(u, s)| <= |AnnouncedIds(u, Step(u, s, mv))|
  {
    SubsetSize(AnnouncedIds(u, s), AnnouncedIds(u, Step(u, s, mv)));
  }

  lemma DeliverKeepsFinishInv(u: Setup, s: System, j: nat, p: nat, i: nat, now: int)
    requires u.Valid() && Shaped(u, s) && Enabled(u, s, Deliver(j, p, i, now)) && FinishInv(u, s)
    ensures FinishInv(u, Step(u, s, Deliver(j, p, i, now)))
  {
    var r, m := s.subs[j].reception, s.pubs[p].sent[i];
    var s' := Step(u, s, Deliver(j, p, i, now));
    var r' := s'.subs[j].reception;
    assert HeardOnlyLeavers(u, s, s.subs[j]);
    LossCounting.ProcessFinished(r, m, now);
    assert forall x :: x in r'.finished ==> x in r.finished || (x == p && LeftLoop(s.pubs[p]));
    Pigeonhole(r'.finished, u.numPublishers);
    assert HeardOnlyLeavers(u, s', s'.subs[j]);
  }

  lemma StepKeepsFinishInv(u: Setup, s: System, mv: Move)
    requires u.Valid() && Shaped(u, s) && Enabled(u, s, mv) && FinishInv(u, s)
    requires mv.SendData? ==> mv.data.size != FINISHED_SIZE
    ensures FinishInv(u, Step(u, s, mv))
  {
    if mv.Deliver? {
      DeliverKeepsFinishInv(u, s, mv.sub, mv.pub, mv.index, mv.now);
    } else {
      var s' := Step(u, s, mv);
      forall p | 0 <= p < u.numPublishers
        ensures LeftLoop(s.pubs[p]) ==> LeftLoop(s'.pubs[p])
      {
      }
      forall j | 0 <= j < |u.ids|
        ensures HeardOnlyLeavers(u, s', s'.subs[j])
      {
        assert HeardOnlyLeavers(u, s, s.subs[j]);
      }
    }
  }

  lemma StepKeepsLeaveInv(u: Setup, s: System, mv: Move)
    requires u.Valid() && Shaped(u, s) && Enabled(u, s, mv) && LeaveInv(u, s)
    ensures LeaveInv(u, Step(u, s, mv))
  {
    hide ThroughputListener.Process;
    var s' := Step(u, s, mv);
    EndedStays(u, s, mv);
    forall j, p | 0 <= j < |u.ids| && 0 <= p < u.numPublishers
      ensures HeardOnlyEnded(s'.subs[j], s'.announcements[j][p])
    {
      assert HeardOnlyEnded(s.subs[j], s.announcements[j][p]);
    }
    forall p | 0 <= p < u.numPublishers
      ensures NobodyLeftMeansEnded(s', s'.pubs[p])
    {
      assert NobodyLeftMeansEnded(s, s.pubs[p]);
      if mv.Hear? && mv.pub == p {
        HearingTheLast(u, s, p, mv.sub);
      }
    }
  }

  lemma EndedStays(u: Setup, s: System, mv: Move)
    requires Shaped(u, s) && Enabled(u, s, mv)
    ensures forall j :: 0 <= j < |u.ids| && s.subs[j].phase == Ended ==> Step(u, s, mv).subs[j].phase == Ended
    ensures SomebodyEnded(s) ==> SomebodyEnded(Step(u, s, mv))
  {
    hide ThroughputListener.Process;
    var s' := Step(u, s, mv);
    if SomebodyEnded(s) {
      var j :| 0 <= j < |s.subs| && s.subs[j].phase == Ended;
      assert s'.subs[j].phase == Ended;
    }
  }

  /** A set that becomes empty does so on a FINISHED announcement. */
  lemma HearingTheLast(u: Setup, s: System, p: nat, j: nat)
    requires Shaped(u, s) && Enabled(u, s, Hear(p, j)) && HeardOnlyEnded(s.subs[j], s.announcements[j][p])
    ensures var active := Announced(s.pubs[p].active, s.announcements[j][p][0]);
            active == {} && s.pubs[p].active != {} ==> SomebodyEnded(s)
  {
    var q, before := s.announcements[j][p], s.pubs[p].active;
    assert q[0] in q;
    if q[0].size == INITIALIZE_SIZE {
      assert q[0].entityId in Announced(before, q[0]);
    }
    if q[0].size == FINISHED_SIZE {
      assert s.subs[j].phase == Ended;
    }
  }

  lemma StepKeepsChannel(u: Setup, s: System, mv: Move, j: nat, p: nat)
    requires u.Valid() && Shaped(u, s) && Enabled(u, s, mv) && AnnounceInv(u, s) && ChannelsInv(u, s)
    requires Distinct(u.ids) && |u.ids| == u.numSubscribers
    requires j < |u.ids| && p < u.numPublishers
    ensures ChannelAt(u, Step(u, s, mv), j, p)
  {
    hide ThroughputListener.Process, Announced, LeftLoop;
    assert ChannelAt(u, s, j, p);
    match mv
    case Announce(i) =>
    case Hear(r, i) => HearKeepsChannel(u, s, r, i, j, p);
    case OpenGate(r) => FullSet(u, s, s.pubs[r].active);
    case Deliver(i, r, k, now) =>
    case AnnounceFinished(i) =>
    case _ =>
  }

  lemma HearKeepsChannel(u: Setup, s: System, r: nat, i: nat, j: nat, p: nat)
    requires u.Valid() && Shaped(u, s) && Enabled(u, s, Hear(r, i)) && ChannelsInv(u, s)
    requires Distinct(u.ids) && j < |u.ids| && p < u.numPublishers
    ensures ChannelAt(u, Step(u, s, Hear(r, i)), j, p)
  {
    assert ChannelAt(u, s, j, p) && ChannelAt(u, s, i, r);
    var q, s' := s.announcements[i][r], Step(u, s, Hear(r, i));
    assert q[0].entityId == u.ids[i] && IsControl(q[0].size);
    if p == r && j != i {
      assert u.ids[j] != u.ids[i];
      assert u.ids[j] in s'.pubs[p].active <==> u.ids[j] in s.pubs[p].active;
    }
  }

  lemma StepKeepsChannelsInv(u: Setup, s: System, mv: Move)
    requires u.Valid() && Shaped(u, s) && Enabled(u, s, mv) && AnnounceInv(u, s) && ChannelsInv(u, s)
    requires Distinct(u.ids) && |u.ids| == u.numSubscribers
    ensures ChannelsInv(u, Step(u, s, mv))
  {
    var s' := Step(u, s, mv);
    forall j, p | 0 <= j < |u.ids| && 0 <= p < u.numPublishers
      ensures ChannelAt(u, s', j, p)
    {
      StepKeepsChannel(u, s, mv, j, p);
    }
    assert AllEnded(s) ==> AllEnded(s');
    if mv.Exit? && s.pubs[mv.pub].active == {} {
      forall j | 0 <= j < |u.ids|
        ensures s.subs[j].phase == Ended
      {
        assert ChannelAt(u, s, j, mv.pub);
      }
    }
  }

  /** With as many subscribers as are waited for, a full set holds every id. */
  lemma FullSet(u: Setup, s: System, active: set<int>)
    requires Shaped(u, s) && |u.ids| == u.numSubscribers
    requires active <= AnnouncedIds(u, s) && |active| >= u.numSubscribers
    ensures active == Members(u.ids) && Distinct(u.ids)
  {
    assert AnnouncedIds(u, s) <= Members(u.ids);
    SubsetSize(active, Members(u.ids));
    MembersSize(u.ids);
    EqualSizeSubset(active, Members(u.ids));
  }

  // ----- Safety over every run -----

  lemma {:induction false} RunInvs(u: Setup, states: seq<System>, moves: seq<Move>, i: nat)
    requires u.Valid() && IsRun(u, states, moves) && i < |states|
    ensures Shaped(u, states[i]) && AnnounceInv(u, states[i]) && LeaveInv(u, states[i])
    ensures FINISHED_SIZE !in u.sizes || u.TooFewIds() ==> FinishInv(u, states[i])
    ensures Distinct(u.ids) && |u.ids| == u.numSubscribers ==> ChannelsInv(u, states[i])
  {
    if i == 0 {
      InitialInvs(u);
    } else {
      var s, mv := states[i - 1], moves[i - 1];
      RunInvs(u, states, moves, i - 1);
      StepKeepsAnnounceInv(u, s, mv);
      StepKeepsLeaveInv(u, s, mv);
      if FINISHED_SIZE !in u.sizes || u.TooFewIds() {
        if mv.SendData? && u.TooFewIds() {
          ShutGate(u, s, mv.pub);
        }
        StepKeepsFinishInv(u, s, mv);
      }
      if Distinct(u.ids) && |u.ids| == u.numSubscribers {
        StepKeepsChannelsInv(u, s, mv);
      }
    }
  }

  /** No publisher sends anything before `numSubscribers` distinct ids have announced,
      whatever the subscribers' ids, the payload size and the lossy channel do. */
  lemma NothingSentBeforeTheGate(u: Setup, states: seq<System>, moves: seq<Move>, i: nat)
    requires u.Valid() && IsRun(u, states, moves) && i < |states|
    ensures Shaped(u, states[i]) && GateHolds(u, states[i])
  {
    RunInvs(u, states, moves, i);
  }

  /** With too few ids nobody gets past the gate. */
  lemma ShutGate(u: Setup, s: System, p: nat)
    requires Shaped(u, s) && AnnounceInv(u, s) && u.TooFewIds() && p < u.numPublishers
    ensures s.pubs[p].phase == Gate
  {
    assert AnnouncedIds(u, s) <= Members(u.ids);
    SubsetSize(AnnouncedIds(u, s), Members(u.ids));
  }

  /** When leaving on an empty set is safe: no more subscribers than are waited for, or too
      few ids for anybody to start. */
  predicate LeavesCleanly(u: Setup) { |u.ids| <= u.numSubscribers || u.TooFewIds() }

  /** Then a publisher that leaves on an empty set does so after every subscriber has
      announced its end. */
  lemma LeavingEmptyMeansAllEnded(u: Setup, states: seq<System>, moves: seq<Move>, i: nat)
    requires u.Valid() && IsRun(u, states, moves) && i < |states|
    requires LeavesCleanly(u)
    ensures Shaped(u, states[i]) && EmptySetMeansAllEnded(u, states[i])
  {
    RunInvs(u, states, moves, i);
    MembersSize(u.ids);
    if u.TooFewIds() {
      forall p | 0 <= p < u.numPublishers
        ensures !states[i].pubs[p].sawNone
      {
        ShutGate(u, states[i], p);
      }
    }
  }

  lemma FinishInvSuffices(u: Setup, s: System)
    requires Shaped(u, s) && FinishInv(u, s)
    ensures EndsAfterLoops(u, s)
  {
    forall j, p | 0 <= j < |u.ids| && s.subs[j].phase == Ended && 0 <= p < u.numPublishers
      ensures LeftLoop(s.pubs[p])
    {
      assert HeardOnlyLeavers(u, s, s.subs[j]);
    }
  }

  lemma Extend(u: Setup, states: seq<System>, moves: seq<Move>, mv: Move)
    returns (states': seq<System>, moves': seq<Move>)
    requires IsRun(u, states, moves)
    requires Shaped(u, states[|moves|]) && Enabled(u, states[|moves|], mv)
    ensures IsRun(u, states', moves') && |moves'| == |moves| + 1 && states <= states'
    ensures states'[|moves'|] == Step(u, states[|moves|], mv)
  {
    states', moves' := states + [Step(u, states[|moves|], mv)], moves + [mv];
  }

  // ----- Runs that reach a state -----

  ghost predicate Reachable(u: Setup, s: System) {
    exists states, moves :: IsRun(u, states, moves) && states[|moves|] == s
  }

  lemma Reach(u: Setup, s: System, mv: Move) returns (s': System)
    requires Reachable(u, s) && Shaped(u, s) && Enabled(u, s, mv)
    ensures s' == Step(u, s, mv) && Reachable(u, s')
  {
    var states, moves :| IsRun(u, states, moves) && states[|moves|] == s;
    var states', moves' := Extend(u, states, moves, mv);
    s' := Step(u, s, mv);
    assert states'[|moves'|] == s';
  }

  /** Indices of `m` subscribers with distinct ids. */
  ghost predicate Chosen(u: Setup, chosen: seq<nat>) {
    && (forall i :: 0 <= i < |chosen| ==> chosen[i] < |u.ids|)
    && forall i, k :: 0 <= i < k < |chosen| ==> u.ids[chosen[i]] != u.ids[chosen[k]]
  }

  lemma Choose(u: Setup, m: nat) returns (chosen: seq<nat>)
    requires m <= |Members(u.ids)|
    ensures |chosen| == m && Chosen(u, chosen)
  {
    var all := FirstOccurrences(u, u.ids);
    chosen := all[..m];
  }

  lemma {:induction false} FirstOccurrences(u: Setup, ids: seq<int>) returns (chosen: seq<nat>)
    requires ids <= u.ids
    ensures |chosen| == |Members(ids)| && Chosen(u, chosen)
    ensures forall k :: 0 <= k < |chosen| ==> chosen[k] < |ids|
  {
    if ids == [] {
      chosen := [];
    } else {
      var init, last := ids[..|ids| - 1], ids[|ids| - 1];
      var before := FirstOccurrences(u, init);
      if last in init {
        chosen := before;
        assert Members(ids) == Members(init);
      } else {
        chosen := before + [|ids| - 1];
        assert Members(ids) == Members(init) + {last};
        assert forall k :: 0 <= k < |before| ==> u.ids[before[k]] == init[before[k]] && init[before[k]] in init;
      }
    }
  }

  /** The ids of the chosen subscribers from number `i` on. */
  function IdsFrom(u: Setup, chosen: seq<nat>, i: nat): (ids: set<int>)
    requires i <= |chosen| && forall k :: 0 <= k < |chosen| ==> chosen[k] < |u.ids|
    decreases |chosen| - i
  {
    if i == |chosen| then {} else {u.ids[chosen[i]]} + IdsFrom(u, chosen, i + 1)
  }

  lemma {:induction false} IdsFromSize(u: Setup, chosen: seq<nat>, i: nat)
    requires i <= |chosen| && Chosen(u, chosen)
    ensures |IdsFrom(u, chosen, i)| == |chosen| - i
    decreases |chosen| - i
  {
    if i < |chosen| {
      IdsFromSize(u, chosen, i + 1);
      NotFrom(u, chosen, i + 1, u.ids[chosen[i]]);
    }
  }

  lemma {:induction false} NotFrom(u: Setup, chosen: seq<nat>, i: nat, id: int)
    requires i <= |chosen| && Chosen(u, chosen)
    requires forall k :: i <= k < |chosen| ==> u.ids[chosen[k]] != id
    ensures id !in IdsFrom(u, chosen, i)
    decreases |chosen| - i
  {
    if i < |chosen| {
      NotFrom(u, chosen, i + 1, id);
    }
  }

  function Unheard(u: Setup, j: nat, phase: SubscriberPhase): (sub: Subscriber)
    requires j < |u.ids|
  {
    Subscriber(phase, ThroughputListener.Start(u.numPublishers, false, u.ids[j], 0))
  }

  function Same(n: nat, q: seq<Message>): (qs: seq<seq<Message>>)
    ensures |qs| == n && forall p :: 0 <= p < n ==> qs[p] == q
  {
    seq(n, _ => q)
  }

  /** Every publisher hears the one announcement that subscriber `j` has out. */
  lemma HearAll(u: Setup, s: System, j: nat, m: Message) returns (s': System)
    requires u.Valid() && Reachable(u, s) && Shaped(u, s) && j < |u.ids|
    requires s.announcements[j] == Same(u.numPublishers, [m])
    ensures Reachable(u, s') && Shaped(u, s') && s'.subs == s.subs
    ensures s'.announcements == s.announcements[j := Same(u.numPublishers, [])]
    ensures forall p :: 0 <= p < u.numPublishers ==>
              s'.pubs[p] == s.pubs[p].(active := Announced(s.pubs[p].active, m))
  {
    s' := s;
    for p := 0 to u.numPublishers
      invariant Reachable(u, s') && Shaped(u, s') && s'.subs == s.subs
      invariant forall i :: 0 <= i < |u.ids| && i != j ==> s'.announcements[i] == s.announcements[i]
      invariant forall q :: 0 <= q < u.numPublishers ==> s'.announcements[j][q] == if q < p then [] else [m]
      invariant forall q :: 0 <= q < u.numPublishers ==>
                  s'.pubs[q] == if q < p then s.pubs[q].(active := Announced(s.pubs[q].active, m)) else s.pubs[q]
    {
      s' := Reach(u, s', Hear(p, j));
    }
    assert s'.announcements[j] == Same(u.numPublishers, []);
  }

  /** The chosen subscribers from number `i` on have announced themselves to everybody. */
  ghost predicate Welcomed(u: Setup, s: System, chosen: seq<nat>, i: nat)
    requires i <= |chosen| && Chosen(u, chosen)
  {
    && Shaped(u, s)
    && (forall p :: 0 <= p < u.numPublishers ==>
          s.pubs[p] == Publisher(Gate, IdsFrom(u, chosen, i), [], 0, false))
    && (forall j :: 0 <= j < |u.ids| ==>
          s.subs[j] == Unheard(u, j, if j in chosen[i..] then Running else Discovering))
    && (forall j :: 0 <= j < |u.ids| ==> s.announcements[j] == Same(u.numPublishers, []))
  }

  lemma {:induction false} WelcomeAll(u: Setup, chosen: seq<nat>, i: nat) returns (s: System)
    requires u.Valid() && Chosen(u, chosen) && i <= |chosen|
    ensures Reachable(u, s) && Welcomed(u, s, chosen, i)
    decreases |chosen| - i
  {
    if i == |chosen| {
      s := Initial(u);
      InitialInvs(u);
      var moves: seq<Move> := [];
      assert IsRun(u, [s], moves) && [s][|moves|] == s;
      assert chosen[i..] == [] && IdsFrom(u, chosen, i) == {};
    } else {
      var before := WelcomeAll(u, chosen, i + 1);
      s := WelcomeOne(u, before, chosen, i);
    }
  }

  lemma WelcomeOne(u: Setup, before: System, chosen: seq<nat>, i: nat) returns (s: System)
    requires u.Valid() && Chosen(u, chosen) && i < |chosen|
    requires Reachable(u, before) && Welcomed(u, before, chosen, i + 1)
    ensures Reachable(u, s) && Welcomed(u, s, chosen, i)
  {
    var j := chosen[i];
    assert j !in chosen[i + 1..];
    assert chosen[i..] == [j] + chosen[i + 1..];
    var announced := Reach(u, before, Announce(j));
    var hello := Control(u.ids[j], INITIALIZE_SIZE);
    assert [] + [hello] == [hello];
    assert announced.announcements[j] == Same(u.numPublishers, [hello]);
    s := HearAll(u, announced, j, hello);
  }

  /** What a publisher comes to that has written one message of 1235 bytes: publisher `late`
      as data, still in its loop, and any other as its FINISHED sample. */
  function Published(active: set<int>, p: nat, late: int): (pub: Publisher) {
    Publisher(if p == late then Sending else Finishing, active, [Control(p, FINISHED_SIZE)],
              if p == late then 0 else 1, false)
  }

  lemma PublishOne(u: Setup, s: System, p: nat, late: int) returns (s': System)
    requires u.Valid() && Reachable(u, s) && Shaped(u, s) && p < u.numPublishers
    requires s.pubs[p] == Publisher(Gate, s.pubs[p].active, [], 0, false)
    requires |s.pubs[p].active| >= u.numSubscribers && (p == late ==> u.sizes[p] == FINISHED_SIZE)
    ensures Reachable(u, s') && s' == s.(pubs := s.pubs[p := Published(s.pubs[p].active, p, late)])
  {
    var m := Control(p, FINISHED_SIZE);
    s' := Reach(u, s, OpenGate(p));
    s' := Reach(u, s', StartLoop(p));
    if p == late {
      s' := Reach(u, s', SendData(p, m));
    } else {
      s' := Reach(u, s', EndLoop(p));
      s' := Reach(u, s', SendFinished(p, m));
    }
    assert [] + [m] == [m];
  }

  lemma PublishAll(u: Setup, s: System, chosen: seq<nat>, late: int) returns (s': System)
    requires u.Valid() && Chosen(u, chosen) && |chosen| == u.numSubscribers
    requires Reachable(u, s) && Welcomed(u, s, chosen, 0)
    requires 0 <= late < u.numPublishers ==> u.sizes[late] == FINISHED_SIZE
    ensures Reachable(u, s') && Shaped(u, s') && s'.subs == s.subs && s'.announcements == s.announcements
    ensures forall p :: 0 <= p < u.numPublishers ==> s'.pubs[p] == Published(IdsFrom(u, chosen, 0), p, late)
  {
    IdsFromSize(u, chosen, 0);
    s' := s;
    for p := 0 to u.numPublishers
      invariant Reachable(u, s') && Shaped(u, s') && s'.subs == s.subs && s'.announcements == s.announcements
      invariant forall q :: 0 <= q < u.numPublishers ==>
                  s'.pubs[q] == if q < p then Published(IdsFrom(u, chosen, 0), q, late) else s.pubs[q]
    {
      s' := PublishOne(u, s', p, late);
    }
  }

  /** Subscriber `j` is handed the one message of every publisher and announces its end. */
  lemma EndSubscriber(u: Setup, s: System, j: nat) returns (s': System)
    requires u.Valid() && Reachable(u, s) && Shaped(u, s) && j < |u.ids|
    requires forall p :: 0 <= p < u.numPublishers ==> s.pubs[p].sent == [Control(p, FINISHED_SIZE)]
    requires s.subs[j] == Unheard(u, j, Running) && s.announcements[j] == Same(u.numPublishers, [])
    ensures Reachable(u, s') && Shaped(u, s') && s'.pubs == s.pubs
    ensures s'.subs[j].phase == Ended
    ensures forall i :: 0 <= i < |u.ids| && i != j ==>
              s'.subs[i] == s.subs[i] && s'.announcements[i] == s.announcements[i]
    ensures s'.announcements[j] == Same(u.numPublishers, [Control(u.ids[j], FINISHED_SIZE)])
  {
    s' := DeliverAll(u, s, j);
    s' := Reach(u, s', AnnounceFinished(j));
    var bye := Control(u.ids[j], FINISHED_SIZE);
    assert [] + [bye] == [bye];
    assert s'.announcements[j] == Same(u.numPublishers, [bye]);
  }

  lemma DeliverAll(u: Setup, s: System, j: nat) returns (s': System)
    requires u.Valid() && Reachable(u, s) && Shaped(u, s) && j < |u.ids|
    requires forall p :: 0 <= p < u.numPublishers ==> s.pubs[p].sent == [Control(p, FINISHED_SIZE)]
    requires s.subs[j] == Unheard(u, j, Running)
    ensures Reachable(u, s') && Shaped(u, s') && s'.pubs == s.pubs && s'.announcements == s.announcements
    ensures s'.subs[j].phase == Running && s'.subs[j].reception.endTest
    ensures forall i :: 0 <= i < |u.ids| && i != j ==> s'.subs[i] == s.subs[i]
  {
    hide ThroughputListener.Process;
    var r0 := ThroughputListener.Start(u.numPublishers, false, u.ids[j], 0);
    var ds := Finishes(u.numPublishers);
    s' := s;
    for p := 0 to u.numPublishers
      invariant Reachable(u, s') && Shaped(u, s') && s'.pubs == s.pubs && s'.announcements == s.announcements
      invariant forall i :: 0 <= i < |u.ids| && i != j ==> s'.subs[i] == s.subs[i]
      invariant s'.subs[j] == Subscriber(Running, LossCounting.Deliver(r0, ds[..p]))
    {
      s' := Reach(u, s', Deliver(j, p, 0, 0));
      assert ds[..p + 1][..p] == ds[..p];
    }
    assert ds[..u.numPublishers] == ds;
    AllFinishesEnd(r0, ds);
  }

  lemma AllFinishesEnd(r0: ThroughputListener.Reception, ds: seq<LossCounting.Delivery>)
    requires r0 == ThroughputListener.Start(r0.numPublishers, r0.useCft, r0.subId, r0.overhead)
    requires r0.numPublishers > 0 && ds == Finishes(r0.numPublishers)
    ensures LossCounting.Deliver(r0, ds).endTest
  {
    LossCounting.FinishedListIsExact(r0, ds);
    forall p | 0 <= p < r0.numPublishers
      ensures LossCounting.HeardFinish(ds, p)
    {
      assert LossCounting.FinishedFrom(ds[p], p);
    }
  }

  function Finishes(n: nat): (ds: seq<LossCounting.Delivery>)
    ensures |ds| == n
    ensures forall p :: 0 <= p < n ==> ds[p] == LossCounting.Delivery(Control(p, FINISHED_SIZE), 0)
  {
    seq(n, p => LossCounting.Delivery(Control(p, FINISHED_SIZE), 0))
  }

  /** The chosen subscribers up to number `i` have ended, and publisher `r` has heard it;
      publisher `late`, if there is one, is still in its loop. */
  ghost predicate Parted(u: Setup, s: System, chosen: seq<nat>, i: nat, r: nat, late: int)
    requires u.Valid() && i <= |chosen| && Chosen(u, chosen) && r < u.numPublishers
  {
    && Shaped(u, s)
    && s.pubs[r] == Published(IdsFrom(u, chosen, i), r, -1)
    && (0 <= late < u.numPublishers ==> s.pubs[late].phase == Sending)
    && (forall p :: 0 <= p < u.numPublishers ==> s.pubs[p].sent == [Control(p, FINISHED_SIZE)])
    && (forall j :: 0 <= j < |u.ids| && j !in chosen ==> s.subs[j].phase == Discovering)
    && forall k :: i <= k < |chosen| ==>
         && s.subs[chosen[k]] == Unheard(u, chosen[k], Running)
         && s.announcements[chosen[k]] == Same(u.numPublishers, [])
  }

  lemma PartOne(u: Setup, s: System, chosen: seq<nat>, i: nat, r: nat, late: int) returns (s': System)
    requires u.Valid() && i < |chosen| && Chosen(u, chosen) && r < u.numPublishers && r != late
    requires Reachable(u, s) && Parted(u, s, chosen, i, r, late)
    ensures Reachable(u, s') && Parted(u, s', chosen, i + 1, r, late)
  {
    var j := chosen[i];
    var ended := EndSubscriber(u, s, j);
    s' := Reach(u, ended, Hear(r, j));
    assert forall k :: i < k < |chosen| ==> chosen[k] != j && u.ids[chosen[k]] != u.ids[j];
    NotFrom(u, chosen, i + 1, u.ids[j]);
    assert IdsFrom(u, chosen, i) - {u.ids[j]} == IdsFrom(u, chosen, i + 1);
  }

  // ----- The exact conditions -----

  ghost predicate AllAtGate(u: Setup, s: System)
    requires Shaped(u, s)
  {
    forall p :: 0 <= p < u.numPublishers ==> s.pubs[p].phase == Gate
  }

  /** In every run nobody passes the gate, exactly when there are too few distinct ids. */
  lemma GateStaysShutIff(u: Setup)
    requires u.Valid()
    ensures (forall states, moves :: IsRun(u, states, moves) ==>
               Shaped(u, states[|moves|]) && AllAtGate(u, states[|moves|]))
        <==> u.TooFewIds()
  {
    if u.TooFewIds() {
      forall states, moves | IsRun(u, states, moves)
        ensures Shaped(u, states[|moves|]) && AllAtGate(u, states[|moves|])
      {
        RunInvs(u, states, moves, |moves|);
        var s: System := states[|moves|];
        forall p | 0 <= p < u.numPublishers
          ensures s.pubs[p].phase == Gate
        {
          ShutGate(u, s, p);
        }
      }
    } else {
      var chosen := Choose(u, u.numSubscribers);
      var s := WelcomeAll(u, chosen, 0);
      IdsFromSize(u, chosen, 0);
      s := PublishOne(u, s, 0, -1);
      assert s.pubs[0].phase != Gate;
      var states, moves :| IsRun(u, states, moves) && states[|moves|] == s;
      assert !AllAtGate(u, states[|moves|]);
    }
  }

  /** Subscribers announce their end only after every publisher has left its send loop, in
      every run of the setup, exactly when no publisher's payload has 1235 bytes or nobody
      can start. */
  lemma EndsAfterLoopsIff(u: Setup)
    requires u.Valid()
    ensures (forall states, moves :: IsRun(u, states, moves) ==>
               Shaped(u, states[|moves|]) && EndsAfterLoops(u, states[|moves|]))
        <==> FINISHED_SIZE !in u.sizes || u.TooFewIds()
  {
    if FINISHED_SIZE !in u.sizes || u.TooFewIds() {
      forall states, moves | IsRun(u, states, moves)
        ensures Shaped(u, states[|moves|]) && EndsAfterLoops(u, states[|moves|])
      {
        RunInvs(u, states, moves, |moves|);
        FinishInvSuffices(u, states[|moves|]);
      }
    } else {
      var s := DataTakenForFinished(u);
      var states, moves :| IsRun(u, states, moves) && states[|moves|] == s;
      assert !EndsAfterLoops(u, states[|moves|]);
    }
  }

  /** With enough ids and a payload of 1235 bytes a data sample can end a subscriber. */
  lemma DataTakenForFinished(u: Setup) returns (s: System)
    requires u.Valid() && FINISHED_SIZE in u.sizes && !u.TooFewIds()
    ensures Reachable(u, s) && Shaped(u, s) && !EndsAfterLoops(u, s)
  {
    var late :| 0 <= late < |u.sizes| && u.sizes[late] == FINISHED_SIZE;
    var chosen := Choose(u, u.numSubscribers);
    s := WelcomeAll(u, chosen, 0);
    s := PublishAll(u, s, chosen, late);
    assert chosen[0..] == chosen && chosen[0] in chosen;
    s := EndSubscriber(u, s, chosen[0]);
    assert s.subs[chosen[0]].phase == Ended && s.pubs[late].phase == Sending;
  }

  /** Leaving on an empty set means that all have ended, in every run of the setup, exactly
      under that condition. */
  lemma LeavesCleanlyIff(u: Setup)
    requires u.Valid()
    ensures (forall states, moves :: IsRun(u, states, moves) ==>
               Shaped(u, states[|moves|]) && EmptySetMeansAllEnded(u, states[|moves|]))
        <==> LeavesCleanly(u)
  {
    if LeavesCleanly(u) {
      forall states, moves | IsRun(u, states, moves)
        ensures Shaped(u, states[|moves|]) && EmptySetMeansAllEnded(u, states[|moves|])
      {
        LeavingEmptyMeansAllEnded(u, states, moves, |moves|);
      }
    } else {
      var s := ExtraSubscriberLeftBehind(u);
      var states, moves :| IsRun(u, states, moves) && states[|moves|] == s;
      assert !EmptySetMeansAllEnded(u, states[|moves|]);
    }
  }

  /** With more subscribers than are waited for, and enough distinct ids among them, a
      publisher can leave on an empty set while one has not even announced itself. */
  lemma ExtraSubscriberLeftBehind(u: Setup) returns (s: System)
    requires u.Valid() && !LeavesCleanly(u)
    ensures Reachable(u, s) && Shaped(u, s) && !EmptySetMeansAllEnded(u, s)
  {
    var chosen := Choose(u, u.numSubscribers);
    s := WelcomeAll(u, chosen, 0);
    assert chosen[0..] == chosen;
    s := PublishAll(u, s, chosen, -1);
    s := PartAll(u, s, chosen, 0, -1);
    var left := SomebodyLeft(u, chosen);
    assert s.subs[left].phase == Discovering;
    s := Reach(u, s, Exit(0));
    assert s.pubs[0].sawNone && s.subs[left].phase == Discovering;
  }

  lemma PartAll(u: Setup, s: System, chosen: seq<nat>, r: nat, late: int) returns (s': System)
    requires u.Valid() && Chosen(u, chosen) && r < u.numPublishers && r != late
    requires Reachable(u, s) && Parted(u, s, chosen, 0, r, late)
    ensures Reachable(u, s') && Parted(u, s', chosen, |chosen|, r, late)
  {
    hide Parted;
    s' := s;
    for i := 0 to |chosen|
      invariant Reachable(u, s') && Parted(u, s', chosen, i, r, late)
    {
      s' := PartOne(u, s', chosen, i, r, late);
    }
  }

  lemma SomebodyLeft(u: Setup, chosen: seq<nat>) returns (j: nat)
    requires |chosen| < |u.ids|
    ensures j < |u.ids| && j !in chosen
  {
    if forall i: nat :: i < |u.ids| ==> i in chosen {
      var all := Range(|u.ids|);
      assert all <= Members(chosen);
      SubsetSize(all, Members(chosen));
      MembersSize(chosen);
    }
    j :| j < |u.ids| && j !in chosen;
  }

  // ----- No data after leaving on an empty set -----

  /** Once a publisher has left on an empty set, every publisher has left its send loop. */
  ghost predicate EmptySetMeansAllLeft(u: Setup, s: System)
    requires Shaped(u, s)
  {
    forall p, r :: 0 <= p < u.numPublishers && 0 <= r < u.numPublishers && s.pubs[p].sawNone ==>
      LeftLoop(s.pubs[r])
  }

  /** When that is safe: no other publisher's data can pass for its end. */
  predicate LeavesAfterAll(u: Setup) {
    FINISHED_SIZE !in u.sizes || u.TooFewIds() || u.numPublishers == 1
  }

  lemma LeavingEmptyMeansAllLeft(u: Setup, states: seq<System>, moves: seq<Move>, i: nat)
    requires u.Valid() && IsRun(u, states, moves) && i < |states|
    requires LeavesAfterAll(u)
    ensures Shaped(u, states[i]) && EmptySetMeansAllLeft(u, states[i])
  {
    RunInvs(u, states, moves, i);
    var s: System := states[i];
    forall p, r | 0 <= p < u.numPublishers && 0 <= r < u.numPublishers && s.pubs[p].sawNone
      ensures LeftLoop(s.pubs[r])
    {
      if FINISHED_SIZE !in u.sizes || u.TooFewIds() {
        FinishInvSuffices(u, s);
        assert NobodyLeftMeansEnded(s, s.pubs[p]);
      }
    }
  }

  /** In every run of the setup, exactly under that condition. */
  lemma LeavesAfterAllIff(u: Setup)
    requires u.Valid()
    ensures (forall states, moves :: IsRun(u, states, moves) ==>
               Shaped(u, states[|moves|]) && EmptySetMeansAllLeft(u, states[|moves|]))
        <==> LeavesAfterAll(u)
  {
    if LeavesAfterAll(u) {
      forall states, moves | IsRun(u, states, moves)
        ensures Shaped(u, states[|moves|]) && EmptySetMeansAllLeft(u, states[|moves|])
      {
        LeavingEmptyMeansAllLeft(u, states, moves, |moves|);
      }
    } else {
      var s := LeavesBeforeLate(u);
      var states, moves :| IsRun(u, states, moves) && states[|moves|] == s;
      assert !EmptySetMeansAllLeft(u, states[|moves|]);
    }
  }

  /** One publisher's data of 1235 bytes and the ends of the others part all subscribers
      while it is still sending. */
  lemma LeavesBeforeLate(u: Setup) returns (s: System)
    requires u.Valid() && !LeavesAfterAll(u)
    ensures Reachable(u, s) && Shaped(u, s) && !EmptySetMeansAllLeft(u, s)
  {
    var late :| 0 <= late < |u.sizes| && u.sizes[late] == FINISHED_SIZE;
    var r := if late == 0 then 1 else 0;
    var chosen := Choose(u, u.numSubscribers);
    s := WelcomeAll(u, chosen, 0);
    assert chosen[0..] == chosen;
    s := PublishAll(u, s, chosen, late);
    s := PartAll(u, s, chosen, r, late);
    s := Reach(u, s, Exit(r));
    assert s.pubs[r].sawNone && !LeftLoop(s.pubs[late]);
  }

  /** From the moment one publisher has left on an empty set, no publisher writes
      anything but FINISHED samples, for the rest of the run. */
  lemma {:induction false} NoDataAfterLeavingEmpty(u: Setup, states: seq<System>, moves: seq<Move>,
                                                   a: nat, b: nat, p: nat)
    requires u.Valid() && IsRun(u, states, moves) && a <= b < |states|
    requires LeavesAfterAll(u)
    requires Shaped(u, states[a]) && p < u.numPublishers && states[a].pubs[p].sawNone
    ensures Shaped(u, states[b])
    ensures forall r :: 0 <= r < u.numPublishers ==>
              LeftLoop(states[b].pubs[r]) && OnlyFinishedSince(states[a].pubs[r].sent, states[b].pubs[r].sent)
  {
    if a == b {
      LeavingEmptyMeansAllLeft(u, states, moves, a);
    } else {
      hide Step, Enabled, EmptySetMeansAllLeft, LeavesAfterAll, LeftLoop;
      NoDataAfterLeavingEmpty(u, states, moves, a, b - 1, p);
      OnlyFinishedIsWritten(u, states[b - 1], moves[b - 1]);
    }
  }

  /** Publishers that have left their loops write FINISHED samples only, and stay out. */
  lemma OnlyFinishedIsWritten(u: Setup, s: System, mv: Move)
    requires u.Valid() && Shaped(u, s) && Enabled(u, s, mv)
    requires forall r :: 0 <= r < u.numPublishers ==> LeftLoop(s.pubs[r])
    ensures var s' := Step(u, s, mv);
            && Shaped(u, s')
            && forall r :: 0 <= r < u.numPublishers ==>
                 LeftLoop(s'.pubs[r]) && OnlyFinishedSince(s.pubs[r].sent, s'.pubs[r].sent)
  {
  }

  ghost predicate OnlyFinishedSince(before: seq<Message>, after: seq<Message>) {
    before <= after && forall i :: |before| <= i < |after| ==> after[i].size == FINISHED_SIZE
  }
}
