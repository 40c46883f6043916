/** That the handshake can always be brought to its end: from every state of every run
    there is a way on to a state in which all subscribers have ended and all publishers
    have left, exactly when there are enough subscriber ids for anybody to start. */
module HandshakeProgress {
  import opened AnnouncementListener
  import opened Collections
  import opened Handshake
  import opened Machine
  import opened Messages
  import LossCounting
  import ThroughputListener

  ghost predicate Over(u: Setup, s: System)
    requires Shaped(u, s)
  {
    AllEnded(s) && forall p :: 0 <= p < u.numPublishers ==> s.pubs[p].phase == Exited
  }

  // ----- What keeps a way open -----

  /** The publisher has written something that ends a test, as data or at its end. */
  ghost predicate Said(pub: Publisher) {
    exists i :: 0 <= i < |pub.sent| && pub.sent[i].size == FINISHED_SIZE
  }

  ghost predicate PublisherFits(pub: Publisher, p: nat) {
    && (forall i :: 0 <= i < |pub.sent| ==> pub.sent[i].entityId == p)
    && (pub.phase == Gate ==> pub.sent == [])
    && (pub.phase == Gate || pub.phase == Burst || pub.phase == Sending ==> pub.tries == 0)
    && (pub.tries > 0 ==> Said(pub))
    && (pub.phase == Exited ==> pub.tries > 0 || pub.sawNone)
  }

  ghost predicate SubscriberFits(u: Setup, s: System, sub: Subscriber)
    requires Shaped(u, s)
  {
    var r := sub.reception;
    && Distinct(r.finished)
    && (forall x :: x in r.finished ==> 0 <= x < u.numPublishers && Said(s.pubs[x]))
    && (r.endTest <==> |r.finished| == u.numPublishers)
    && (sub.phase == Ended ==> r.endTest)
  }

  /** What can be queued from a subscriber. */
  predicate QueueFits(id: int, phase: SubscriberPhase, q: seq<Message>) {
    var hello, bye := Control(id, INITIALIZE_SIZE), Control(id, FINISHED_SIZE);
    match phase
    case Discovering => q == []
    case Running => q == [hello] || q == []
    case Ended => q == [hello, bye] || q == [bye] || q == []
  }

  /** Until somebody ends, who has announced itself is known as soon as it is heard. */
  ghost predicate HelloCounts(u: Setup, s: System, j: nat, p: nat)
    requires Shaped(u, s) && j < |u.ids| && p < u.numPublishers
  {
    !SomebodyEnded(s) && s.subs[j].phase == Running && s.announcements[j][p] == [] ==>
      u.ids[j] in s.pubs[p].active
  }

  /** Publisher `p` has yet to hear subscriber `j` end. */
  predicate StillHere(u: Setup, s: System, p: nat, j: nat)
    requires Shaped(u, s) && p < u.numPublishers && j < |u.ids|
  {
    s.subs[j].phase == Running || (s.subs[j].phase == Ended && s.announcements[j][p] != [])
  }

  function IdsHere(u: Setup, s: System, p: nat): (ids: set<int>)
    requires Shaped(u, s) && p < u.numPublishers
  {
    set j | 0 <= j < |u.ids| && StillHere(u, s, p, j) :: u.ids[j]
  }

  ghost predicate KnownStillHere(u: Setup, s: System, p: nat)
    requires Shaped(u, s) && p < u.numPublishers
  {
    s.pubs[p].active <= IdsHere(u, s, p)
  }

  ghost predicate QueuesFit(u: Setup, s: System)
    requires Shaped(u, s)
  {
    forall j, p :: 0 <= j < |u.ids| && 0 <= p < u.numPublishers ==>
      QueueFits(u.ids[j], s.subs[j].phase, s.announcements[j][p])
  }

  ghost predicate WayOpen(u: Setup, s: System)
    requires Shaped(u, s)
  {
    && (forall p :: 0 <= p < u.numPublishers ==> PublisherFits(s.pubs[p], p))
    && (forall j :: 0 <= j < |u.ids| ==> SubscriberFits(u, s, s.subs[j]))
    && QueuesFit(u, s)
    && (forall j, p :: 0 <= j < |u.ids| && 0 <= p < u.numPublishers ==> HelloCounts(u, s, j, p))
    && (forall p :: 0 <= p < u.numPublishers ==> KnownStillHere(u, s, p))
  }

  lemma InitialWayOpen(u: Setup)
    requires u.Valid() && Shaped(u, Initial(u))
    ensures WayOpen(u, Initial(u))
  {
  }

  // ----- Every move keeps it -----

  lemma StepKeepsPublisher(u: Setup, s: System, mv: Move, p: nat)
    requires Shaped(u, s) && Enabled(u, s, mv) && p < u.numPublishers
    requires PublisherFits(s.pubs[p], p)
    ensures PublisherFits(Step(u, s, mv).pubs[p], p)
    ensures Said(s.pubs[p]) ==> Said(Step(u, s, mv).pubs[p])
  {
    hide ThroughputListener.Process;
    var pub, pub' := s.pubs[p], Step(u, s, mv).pubs[p];
    if Said(pub) {
      var i :| 0 <= i < |pub.sent| && pub.sent[i].size == FINISHED_SIZE;
      assert pub'.sent[i].size == FINISHED_SIZE;
    }
    if mv.SendFinished? && mv.pub == p {
      assert pub'.sent[|pub.sent|].size == FINISHED_SIZE;
    }
  }

  lemma StepKeepsSubscriber(u: Setup, s: System, mv: Move, j: nat)
    requires u.Valid() && Shaped(u, s) && Enabled(u, s, mv) && j < |u.ids|
    requires forall p :: 0 <= p < u.numPublishers ==> PublisherFits(s.pubs[p], p)
    requires SubscriberFits(u, s, s.subs[j])
    ensures SubscriberFits(u, Step(u, s, mv), Step(u, s, mv).subs[j])
  {
    hide ThroughputListener.Process, PublisherFits;
    var s' := Step(u, s, mv);
    forall x | 0 <= x < u.numPublishers && Said(s.pubs[x])
      ensures Said(s'.pubs[x])
    {
      StepKeepsPublisher(u, s, mv, x);
    }
    if mv.Deliver? && mv.sub == j {
      DeliverKeepsSubscriber(u, s, j, mv.pub, mv.index, mv.now);
    }
  }

  lemma DeliverKeepsSubscriber(u: Setup, s: System, j: nat, p: nat, i: nat, now: int)
    requires u.Valid() && Shaped(u, s) && Enabled(u, s, Deliver(j, p, i, now))
    requires PublisherFits(s.pubs[p], p) && SubscriberFits(u, s, s.subs[j])
    ensures SubscriberFits(u, s, Step(u, s, Deliver(j, p, i, now)).subs[j])
  {
    hide ThroughputListener.Process;
    var r, m := s.subs[j].reception, s.pubs[p].sent[i];
    var r' := Step(u, s, Deliver(j, p, i, now)).subs[j].reception;
    Pigeonhole(r.finished, u.numPublishers);
    LossCounting.ProcessFinished(r, m, now);
    assert m.entityId == p;
    Pigeonhole(r'.finished, u.numPublishers);
  }

  lemma StepKeepsQueuesFit(u: Setup, s: System, mv: Move)
    requires Shaped(u, s) && Enabled(u, s, mv) && QueuesFit(u, s)
    ensures QueuesFit(u, Step(u, s, mv))
  {
    hide ThroughputListener.Process;
    var s' := Step(u, s, mv);
    forall j, p | 0 <= j < |u.ids| && 0 <= p < u.numPublishers
      ensures QueueFits(u.ids[j], s'.subs[j].phase, s'.announcements[j][p])
    {
      assert QueueFits(u.ids[j], s.subs[j].phase, s.announcements[j][p]);
    }
  }

  lemma StepKeepsHello(u: Setup, s: System, mv: Move, j: nat, p: nat)
    requires Shaped(u, s) && Enabled(u, s, mv) && j < |u.ids| && p < u.numPublishers
    requires QueuesFit(u, s) && HelloCounts(u, s, j, p)
    ensures HelloCounts(u, Step(u, s, mv), j, p)
  {
    hide ThroughputListener.Process, SomebodyEnded;
    EndedStays(u, s, mv);
    var s' := Step(u, s, mv);
    if mv.Hear? && mv.pub == p && !SomebodyEnded(s) {
      var q := s.announcements[mv.sub][p];
      NobodyEnded(s, mv.sub);
      assert QueueFits(u.ids[mv.sub], s.subs[mv.sub].phase, q);
      assert q[0] == Control(u.ids[mv.sub], INITIALIZE_SIZE);
      assert s'.pubs[p].active == s.pubs[p].active + {u.ids[mv.sub]};
    }
  }

  lemma NobodyEnded(s: System, j: nat)
    requires j < |s.subs| && !SomebodyEnded(s)
    ensures s.subs[j].phase != Ended
  {
  }

  lemma StepKeepsKnown(u: Setup, s: System, mv: Move, p: nat)
    requires Shaped(u, s) && Enabled(u, s, mv) && p < u.numPublishers
    requires QueuesFit(u, s) && KnownStillHere(u, s, p)
    ensures KnownStillHere(u, Step(u, s, mv), p)
  {
    if mv.Hear? && mv.pub == p {
      HearKeepsKnown(u, s, p, mv.sub);
    } else {
      hide ThroughputListener.Process, QueuesFit, IdsHere;
      forall j | 0 <= j < |u.ids| && StillHere(u, s, p, j)
        ensures StillHere(u, Step(u, s, mv), p, j)
      {
      }
      HereStays(u, s, Step(u, s, mv), p, {});
    }
  }

  lemma HereStays(u: Setup, s: System, s': System, p: nat, heardToEnd: set<int>)
    requires Shaped(u, s) && Shaped(u, s') && p < u.numPublishers
    requires forall j :: 0 <= j < |u.ids| && StillHere(u, s, p, j) ==>
               StillHere(u, s', p, j) || u.ids[j] in heardToEnd
    ensures IdsHere(u, s, p) - heardToEnd <= IdsHere(u, s', p)
  {
    hide StillHere;
  }

  lemma HearKeepsKnown(u: Setup, s: System, p: nat, j: nat)
    requires Shaped(u, s) && Enabled(u, s, Hear(p, j)) && QueuesFit(u, s) && KnownStillHere(u, s, p)
    ensures KnownStillHere(u, Step(u, s, Hear(p, j)), p)
  {
    hide IdsHere;
    var s', q := Step(u, s, Hear(p, j)), s.announcements[j][p];
    assert QueueFits(u.ids[j], s.subs[j].phase, q);
    var gone := if q[0].size == INITIALIZE_SIZE then {} else {u.ids[j]};
    HereStays(u, s, s', p, gone);
    if q[0].size == INITIALIZE_SIZE {
      assert StillHere(u, s', p, j);
      HereHolds(u, s', p, j);
    }
  }

  lemma HereHolds(u: Setup, s: System, p: nat, j: nat)
    requires Shaped(u, s) && p < u.numPublishers && j < |u.ids| && StillHere(u, s, p, j)
    ensures u.ids[j] in IdsHere(u, s, p)
  {
  }

  lemma StepKeepsWayOpen(u: Setup, s: System, mv: Move)
    requires u.Valid() && Shaped(u, s) && Enabled(u, s, mv) && WayOpen(u, s)
    ensures WayOpen(u, Step(u, s, mv))
  {
    hide Enabled, Step, PublisherFits, SubscriberFits, QueuesFit, HelloCounts, KnownStillHere;
    var s' := Step(u, s, mv);
    StepKeepsQueuesFit(u, s, mv);
    forall p | 0 <= p < u.numPublishers
      ensures PublisherFits(s'.pubs[p], p) && KnownStillHere(u, s', p)
    {
      StepKeepsPublisher(u, s, mv, p);
      StepKeepsKnown(u, s, mv, p);
    }
    forall j | 0 <= j < |u.ids|
      ensures SubscriberFits(u, s', s'.subs[j])
    {
      StepKeepsSubscriber(u, s, mv, j);
    }
    forall j, p | 0 <= j < |u.ids| && 0 <= p < u.numPublishers
      ensures HelloCounts(u, s', j, p)
    {
      StepKeepsHello(u, s, mv, j, p);
    }
  }

  lemma {:induction false} RunKeepsWayOpen(u: Setup, states: seq<System>, moves: seq<Move>, i: nat)
    requires u.Valid() && IsRun(u, states, moves) && i < |states|
    ensures Shaped(u, states[i]) && WayOpen(u, states[i])
  {
    if i == 0 {
      InitialInvs(u);
      InitialWayOpen(u);
    } else {
      RunKeepsWayOpen(u, states, moves, i - 1);
      StepKeepsWayOpen(u, states[i - 1], moves[i - 1]);
    }
  }

  // ----- How far there is to go -----

  function SubscriberRank(u: Setup, s: System, j: nat): (n: nat)
    requires Shaped(u, s) && j < |u.ids|
  {
    var announcing := match s.subs[j].phase
      case Discovering => 2 * (u.numPublishers + 1)
      case Running => u.numPublishers + 1
      case Ended => 0;
    announcing + Total(s.announcements[j])
    + (u.numPublishers - Min(|s.subs[j].reception.finished|, u.numPublishers))
  }

  function PublisherRank(pub: Publisher): (n: nat) {
    match pub.phase
    case Gate => 5
    case Burst => 4
    case Sending => 3
    case Finishing => if pub.tries == 0 then 2 else 1
    case Exited => 0
  }

  function SubscribersRank(u: Setup, s: System, n: nat): (sum: nat)
    requires Shaped(u, s) && n <= |u.ids|
  {
    if n == 0 then 0 else SubscribersRank(u, s, n - 1) + SubscriberRank(u, s, n - 1)
  }

  function PublishersRank(u: Setup, s: System, n: nat): (sum: nat)
    requires Shaped(u, s) && n <= u.numPublishers
  {
    if n == 0 then 0 else PublishersRank(u, s, n - 1) + PublisherRank(s.pubs[n - 1])
  }

  function Rank(u: Setup, s: System): (n: nat)
    requires Shaped(u, s)
  {
    SubscribersRank(u, s, |u.ids|) + PublishersRank(u, s, u.numPublishers)
  }

  lemma {:induction false} SubscriberMoves(u: Setup, s: System, s': System, j: nat, n: nat)
    requires Shaped(u, s) && Shaped(u, s') && j < |u.ids| && n <= |u.ids|
    requires forall i :: 0 <= i < |u.ids| && i != j ==> SubscriberRank(u, s', i) == SubscriberRank(u, s, i)
    requires SubscriberRank(u, s', j) < SubscriberRank(u, s, j)
    ensures SubscribersRank(u, s', n) <= SubscribersRank(u, s, n)
    ensures j < n ==> SubscribersRank(u, s', n) < SubscribersRank(u, s, n)
  {
    hide SubscriberRank;
    if n > 0 {
      SubscriberMoves(u, s, s', j, n - 1);
    }
  }

  lemma {:induction false} SubscribersStay(u: Setup, s: System, s': System, n: nat)
    requires Shaped(u, s) && Shaped(u, s') && n <= |u.ids|
    requires s'.subs == s.subs && s'.announcements == s.announcements
    ensures SubscribersRank(u, s', n) == SubscribersRank(u, s, n)
  {
    if n > 0 {
      SubscribersStay(u, s, s', n - 1);
    }
  }

  lemma {:induction false} PublisherMoves(u: Setup, s: System, s': System, p: nat, n: nat)
    requires Shaped(u, s) && Shaped(u, s') && p < u.numPublishers && n <= u.numPublishers
    requires forall i :: 0 <= i < u.numPublishers && i != p ==> s'.pubs[i] == s.pubs[i]
    requires PublisherRank(s'.pubs[p]) < PublisherRank(s.pubs[p])
    ensures PublishersRank(u, s', n) <= PublishersRank(u, s, n)
    ensures p < n ==> PublishersRank(u, s', n) < PublishersRank(u, s, n)
  {
    hide PublisherRank;
    if n > 0 {
      PublisherMoves(u, s, s', p, n - 1);
    }
  }

  lemma {:induction false} PublishersStay(u: Setup, s: System, s': System, n: nat)
    requires Shaped(u, s) && Shaped(u, s') && n <= u.numPublishers
    requires forall i :: 0 <= i < u.numPublishers ==> PublisherRank(s'.pubs[i]) == PublisherRank(s.pubs[i])
    ensures PublishersRank(u, s', n) == PublishersRank(u, s, n)
  {
    hide PublisherRank;
    if n > 0 {
      PublishersStay(u, s, s', n - 1);
    }
  }

  /** A move of one subscriber, or of what is queued from it. */
  lemma SubscriberProgress(u: Setup, s: System, mv: Move, j: nat)
    requires Shaped(u, s) && Enabled(u, s, mv) && j < |u.ids|
    requires mv == Announce(j) || mv == AnnounceFinished(j) || (mv.Hear? && mv.sub == j)
    ensures Rank(u, Step(u, s, mv)) < Rank(u, s)
  {
    hide ThroughputListener.Process;
    var s' := Step(u, s, mv);
    if mv.Hear? {
      TotalUpdate(s.announcements[j], mv.pub, s.announcements[j][mv.pub][1..]);
    } else {
      var size := if mv.Announce? then INITIALIZE_SIZE else FINISHED_SIZE;
      TotalAppendToAll(s.announcements[j], Control(u.ids[j], size));
    }
    assert SubscriberRank(u, s', j) < SubscriberRank(u, s, j);
    SubscriberMoves(u, s, s', j, |u.ids|);
    PublishersStay(u, s, s', u.numPublishers);
  }

  lemma DeliverProgress(u: Setup, s: System, j: nat, p: nat, i: nat)
    requires u.Valid() && Shaped(u, s) && Enabled(u, s, Deliver(j, p, i, 0))
    requires SubscriberFits(u, s, s.subs[j]) && !s.subs[j].reception.endTest
    requires p !in s.subs[j].reception.finished
    requires s.pubs[p].sent[i].size == FINISHED_SIZE && s.pubs[p].sent[i].entityId == p
    ensures Rank(u, Step(u, s, Deliver(j, p, i, 0))) < Rank(u, s)
  {
    hide ThroughputListener.Process;
    var s', r := Step(u, s, Deliver(j, p, i, 0)), s.subs[j].reception;
    Pigeonhole(r.finished, u.numPublishers);
    LossCounting.ProcessFinished(r, s.pubs[p].sent[i], 0);
    assert |s'.subs[j].reception.finished| == |r.finished| + 1;
    assert SubscriberRank(u, s', j) < SubscriberRank(u, s, j);
    SubscriberMoves(u, s, s', j, |u.ids|);
    PublishersStay(u, s, s', u.numPublishers);
  }

  lemma PublisherProgress(u: Setup, s: System, mv: Move, p: nat)
    requires Shaped(u, s) && Enabled(u, s, mv) && p < u.numPublishers && PublisherFits(s.pubs[p], p)
    requires mv == OpenGate(p) || mv == StartLoop(p) || mv == EndLoop(p) || mv == Exit(p)
             || (mv.SendFinished? && mv.pub == p && s.pubs[p].tries == 0)
    ensures Rank(u, Step(u, s, mv)) < Rank(u, s)
  {
    hide ThroughputListener.Process;
    var s' := Step(u, s, mv);
    assert PublisherRank(s'.pubs[p]) < PublisherRank(s.pubs[p]);
    PublisherMoves(u, s, s', p, u.numPublishers);
    SubscribersStay(u, s, s', |u.ids|);
  }

  // ----- There is always a next move -----

  /** Everybody has announced itself and everything announced has been heard. */
  ghost predicate AllHeard(u: Setup, s: System)
    requires Shaped(u, s)
  {
    && (forall j :: 0 <= j < |u.ids| ==> s.subs[j].phase != Discovering)
    && forall j, p :: 0 <= j < |u.ids| && 0 <= p < u.numPublishers ==> s.announcements[j][p] == []
  }

  lemma HearingMove(u: Setup, s: System) returns (mv: Move)
    requires Shaped(u, s) && !AllHeard(u, s)
    ensures Enabled(u, s, mv) && Rank(u, Step(u, s, mv)) < Rank(u, s)
  {
    if j :| 0 <= j < |u.ids| && s.subs[j].phase == Discovering {
      mv := Announce(j);
      SubscriberProgress(u, s, mv, j);
    } else {
      var j, p :| 0 <= j < |u.ids| && 0 <= p < u.numPublishers && s.announcements[j][p] != [];
      mv := Hear(p, j);
      SubscriberProgress(u, s, mv, j);
    }
  }

  /** An ended subscriber has had something from every publisher. */
  lemma EndedHeardAll(u: Setup, s: System, j: nat, p: nat)
    requires Shaped(u, s) && WayOpen(u, s) && j < |u.ids| && p < u.numPublishers && s.subs[j].phase == Ended
    ensures Said(s.pubs[p])
  {
    assert SubscriberFits(u, s, s.subs[j]);
    Pigeonhole(s.subs[j].reception.finished, u.numPublishers);
  }

  /** At a gate when everything has been heard, everybody is known. */
  lemma GateOpens(u: Setup, s: System, p: nat)
    requires u.Valid() && Shaped(u, s) && WayOpen(u, s) && AllHeard(u, s) && !u.TooFewIds()
    requires p < u.numPublishers && s.pubs[p].phase == Gate
    ensures Enabled(u, s, OpenGate(p))
  {
    assert PublisherFits(s.pubs[p], p);
    if SomebodyEnded(s) {
      var j: nat :| j < |s.subs| && s.subs[j].phase == Ended;
      EndedHeardAll(u, s, j, p);
    }
    forall id | id in Members(u.ids)
      ensures id in s.pubs[p].active
    {
      var j :| 0 <= j < |u.ids| && u.ids[j] == id;
      assert HelloCounts(u, s, j, p);
    }
    SubsetSize(Members(u.ids), s.pubs[p].active);
  }

  lemma PublishingMove(u: Setup, s: System, p: nat) returns (mv: Move)
    requires u.Valid() && Shaped(u, s) && WayOpen(u, s) && AllHeard(u, s) && !u.TooFewIds()
    requires p < u.numPublishers && PublisherRank(s.pubs[p]) > 1
    ensures Enabled(u, s, mv) && Rank(u, Step(u, s, mv)) < Rank(u, s)
  {
    assert PublisherFits(s.pubs[p], p);
    match s.pubs[p].phase {
      case Gate =>
        GateOpens(u, s, p);
        mv := OpenGate(p);
      case Burst => mv := StartLoop(p);
      case Sending => mv := EndLoop(p);
      case Finishing =>
        if |s.pubs[p].active| > 0 {
          mv := SendFinished(p, Control(p, FINISHED_SIZE));
        } else {
          mv := Exit(p);
        }
    }
    PublisherProgress(u, s, mv, p);
  }

  /** When every publisher has come to its last samples, each has said something final. */
  lemma AllSaid(u: Setup, s: System, p: nat)
    requires Shaped(u, s) && WayOpen(u, s) && LeaveInv(u, s)
    requires p < u.numPublishers && PublisherRank(s.pubs[p]) <= 1
    ensures Said(s.pubs[p])
  {
    assert PublisherFits(s.pubs[p], p) && NobodyLeftMeansEnded(s, s.pubs[p]);
    if s.pubs[p].tries == 0 {
      var j: nat :| j < |s.subs| && s.subs[j].phase == Ended;
      EndedHeardAll(u, s, j, p);
    }
  }

  lemma EndingMove(u: Setup, s: System, j: nat) returns (mv: Move)
    requires u.Valid() && Shaped(u, s) && WayOpen(u, s) && LeaveInv(u, s)
    requires forall p :: 0 <= p < u.numPublishers ==> PublisherRank(s.pubs[p]) <= 1
    requires j < |u.ids| && s.subs[j].phase == Running
    ensures Enabled(u, s, mv) && Rank(u, Step(u, s, mv)) < Rank(u, s)
  {
    var r := s.subs[j].reception;
    assert SubscriberFits(u, s, s.subs[j]);
    if r.endTest {
      mv := AnnounceFinished(j);
      SubscriberProgress(u, s, mv, j);
    } else {
      Pigeonhole(r.finished, u.numPublishers);
      var p :| 0 <= p < u.numPublishers && p !in r.finished;
      AllSaid(u, s, p);
      var i :| 0 <= i < |s.pubs[p].sent| && s.pubs[p].sent[i].size == FINISHED_SIZE;
      assert PublisherFits(s.pubs[p], p);
      mv := Deliver(j, p, i, 0);
      DeliverProgress(u, s, j, p, i);
    }
  }

  /** When all have ended and been heard, nobody knows anybody any more. */
  lemma LeavingMove(u: Setup, s: System, p: nat) returns (mv: Move)
    requires Shaped(u, s) && WayOpen(u, s) && AllHeard(u, s) && AllEnded(s)
    requires p < u.numPublishers && s.pubs[p].phase == Finishing
    ensures Enabled(u, s, mv) && Rank(u, Step(u, s, mv)) < Rank(u, s)
  {
    assert PublisherFits(s.pubs[p], p) && KnownStillHere(u, s, p);
    assert IdsHere(u, s, p) == {};
    assert s.pubs[p].active == {};
    mv := Exit(p);
    PublisherProgress(u, s, mv, p);
  }

  lemma NextMove(u: Setup, s: System) returns (mv: Move)
    requires u.Valid() && Shaped(u, s) && WayOpen(u, s) && LeaveInv(u, s)
    requires !u.TooFewIds() && !Over(u, s)
    ensures Enabled(u, s, mv) && Rank(u, Step(u, s, mv)) < Rank(u, s)
  {
    hide Enabled, Step, Rank, WayOpen, LeaveInv;
    if !AllHeard(u, s) {
      mv := HearingMove(u, s);
    } else if p :| 0 <= p < u.numPublishers && PublisherRank(s.pubs[p]) > 1 {
      mv := PublishingMove(u, s, p);
    } else if j :| 0 <= j < |u.ids| && s.subs[j].phase == Running {
      mv := EndingMove(u, s, j);
    } else {
      assert AllEnded(s);
      var p :| 0 <= p < u.numPublishers && s.pubs[p].phase != Exited;
      assert s.pubs[p].phase == Finishing;
      mv := LeavingMove(u, s, p);
    }
  }

  // ----- The theorem -----

  /** Some run goes on from this one and comes to the end. */
  ghost predicate CanEnd(u: Setup, states: seq<System>) {
    exists states', moves' ::
      IsRun(u, states', moves') && states <= states'
      && Shaped(u, states'[|moves'|]) && Over(u, states'[|moves'|])
  }

  lemma {:induction false} BringToEnd(u: Setup, states: seq<System>, moves: seq<Move>)
    requires u.Valid() && IsRun(u, states, moves) && !u.TooFewIds() && Shaped(u, states[|moves|])
    ensures CanEnd(u, states)
    decreases Rank(u, states[|moves|])
  {
    hide Enabled, Step, Rank, WayOpen, LeaveInv, Over;
    RunInvs(u, states, moves, |moves|);
    RunKeepsWayOpen(u, states, moves, |moves|);
    if !Over(u, states[|moves|]) {
      var mv := NextMove(u, states[|moves|]);
      var states', moves' := Extend(u, states, moves, mv);
      RunKeepsWayOpen(u, states', moves', |moves'|);
      BringToEnd(u, states', moves');
      var states'', moves'' :|
        IsRun(u, states'', moves'') && states' <= states''
        && Shaped(u, states''[|moves''|]) && Over(u, states''[|moves''|]);
      assert states <= states'';
    }
  }

  /** Every run of a setup can be brought to its end, whatever was lost and repeated before
      and whatever the payload sizes, if and only if there are enough distinct ids. */
  lemma EveryRunCanEndIff(u: Setup)
    requires u.Valid()
    ensures (forall states, moves :: IsRun(u, states, moves) ==> CanEnd(u, states)) <==> !u.TooFewIds()
  {
    if u.TooFewIds() {
      var states, moves: seq<Move> := [Initial(u)], [];
      InitialInvs(u);
      assert IsRun(u, states, moves);
      if CanEnd(u, states) {
        var states', moves' :|
          IsRun(u, states', moves') && states <= states'
          && Shaped(u, states'[|moves'|]) && Over(u, states'[|moves'|]);
        RunInvs(u, states', moves', |moves'|);
        ShutGate(u, states'[|moves'|], 0);
      }
    } else {
      forall states, moves | IsRun(u, states, moves)
        ensures CanEnd(u, states)
      {
        RunKeepsWayOpen(u, states, moves, |moves|);
        BringToEnd(u, states, moves);
      }
    }
  }
}
