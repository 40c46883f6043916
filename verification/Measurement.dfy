/** What a latency test measures: in every run each stored value is half the time from the
    sending of one ping to the processing of its pong. */
module Measurement {
  import opened Machine
  import opened Messages
  import opened SendLoop
  import opened PingPong
  import LatencyListener

  /** A message that can still lead to a notification. */
  ghost predicate Live(s: System, m: Message) {
    || (exists j :: 0 <= j < |s.inbox| && m in s.inbox[j] && Asks(m, j))
    || (exists j :: 0 <= j < |s.pongs| && m in s.pongs[j] && !IsControl(m.size))
  }

  /** The last send before state `n` was move `e`, and `m` carries the time of it. */
  ghost predicate SentLast(states: seq<System>, moves: seq<Move>, n: nat, e: nat, m: Message)
    requires n <= |moves| < |states|
  {
    e < n && moves[e].action == Send && states[e].loop + 1 == states[n].loop && SentTime(m) == moves[e].now
  }

  lemma QuietMeansNoneLive(s: System, m: Message)
    requires InboxesQuiet(s) && PongsMute(s)
    ensures !Live(s, m)
  {
  }

  /** A message that is live after a move was live before, or has just been sent and stamped. */
  lemma LiveSources(t: Test, s: System, mv: Move, m: Message)
    requires t.Valid() && Legal(t, s, mv) && |s.inbox| == |s.pongs|
    requires Live(Step(t, s, mv), m)
    ensures Live(s, m) || (mv.action == Send && SentTime(m) == mv.now)
  {
    hide Iterate, LatencyListener.Process, SentTime;
    var s' := Step(t, s, mv);
    match mv.action
    case Send => SentIsStamped(t, s, mv.now, m);
    case Take =>
    case Receive(j) =>
      assert s.inbox[j] == [s.inbox[j][0]] + s.inbox[j][1..];
      assert s.inbox[j][0] in s.inbox[j];
    case Process(j) =>
      assert s.pongs[j] == [s.pongs[j][0]] + s.pongs[j][1..];
  }

  lemma SentIsStamped(t: Test, s: System, now: nat, m: Message)
    requires t.Valid() && Legal(t, s, Move(Send, now)) && |s.inbox| == |s.pongs|
    requires Live(Step(t, s, Move(Send, now)), m)
    ensures Live(s, m) || SentTime(m) == now
  {
    hide Iterate, SentTime;
    var s' := Step(t, s, Move(Send, now));
    var sent := NextMessage(t, s.(clock := now), now);
    StampRoundTrip(s.message.(size := t.size, seqNum := sent.seqNum, latencyPing := sent.latencyPing), now);
    if !Live(s, m) {
      var j :| 0 <= j < |s'.inbox| && m in s'.inbox[j] && Asks(m, j);
      assert s'.inbox[j] == s.inbox[j] + [sent];
    }
  }

  /** In every reachable state the live message, if there is one, is the last one sent. */
  lemma {:induction false} LiveIsLast(t: Test, states: seq<System>, moves: seq<Move>, n: nat, m: Message)
    requires t.Valid() && IsRun(t, states, moves) && n <= |moves| && Live(states[n], m)
    ensures exists e :: SentLast(states, moves, n, e, m)
  {
    hide Step, Live, Inv, SentTime;
    if n == 0 {
      NothingLiveAtFirst(t, m);
    } else {
      var s, mv := states[n - 1], moves[n - 1];
      RunKeepsInv(t, states, moves, n - 1);
      Sizes(t, s);
      LiveSources(t, s, mv, m);
      SendsCount(t, s, mv);
      if mv.action == Send {
        HeadIsQuiet(t, s, mv, m);
        assert SentLast(states, moves, n, n - 1, m);
      } else {
        LiveIsLast(t, states, moves, n - 1, m);
        var e: nat :| SentLast(states, moves, n - 1, e, m);
        assert SentLast(states, moves, n, e, m);
      }
    }
  }

  lemma NothingLiveAtFirst(t: Test, m: Message)
    requires t.Valid()
    ensures !Live(Initial(t), m)
  {
  }

  lemma Sizes(t: Test, s: System)
    requires t.Valid() && Inv(t, s)
    ensures |s.inbox| == |s.pongs|
  {
  }

  lemma SendsCount(t: Test, s: System, mv: Move)
    requires t.Valid() && Legal(t, s, mv)
    ensures Step(t, s, mv).loop == s.loop + if mv.action == Send then 1 else 0
  {
  }

  lemma HeadIsQuiet(t: Test, s: System, mv: Move, m: Message)
    requires t.Valid() && Inv(t, s) && Legal(t, s, mv) && mv.action == Send
    ensures !Live(s, m)
  {
    QuietMeansNoneLive(s, m);
  }

  /** While a pong that can notify is there to process, the sample waited for is ping
      number `answered`. */
  lemma PongOfPing(t: Test, s: System, j: nat)
    requires t.Valid() && Inv(t, s) && j < |s.pongs| && s.pongs[j] != [] && !IsControl(s.pongs[j][0].size)
    ensures s.loop > 0 && s.loop - 1 == PingIndex(t.c, s.answered)
    ensures |s.listener.stored| == if s.answered == 0 then 0 else s.answered - LatencyListener.Swallowed(t.size)
  {
    hide OnSchedule, AllReturn;
    assert s.pongs[j][0] in s.pongs[j];
    assert !PongsMute(s);
  }

  /** Whatever the interleaving: a value that is stored when pong number `k` is processed is
      half the time since ping `k` was sent, and it stands at place `k`, less one if the first
      pong went to the reset. */
  lemma StoredLatencyIsMeasured(t: Test, states: seq<System>, moves: seq<Move>, i: nat)
    requires t.Valid() && IsRun(t, states, moves) && i < |moves|
    requires |states[i + 1].listener.stored| > |states[i].listener.stored|
    ensures var k, stored := states[i].answered, states[i + 1].listener.stored;
            var place := if k == 0 then 0 else k - LatencyListener.Swallowed(t.size);
            && states[i + 1].answered == k + 1
            && |stored| == place + 1 && stored[..place] == states[i].listener.stored
            && exists e: nat ::
                 && e < i && moves[e].action == Send && states[e].loop == PingIndex(t.c, k)
                 && moves[e].now <= moves[i].now
                 && LatencyListener.HalfRoundTrip(t.variant, stored[place], moves[i].now - moves[e].now)
  {
    hide Inv, Iterate, SentTime, PingIndex, LatencyListener.Process, LatencyListener.HalfRoundTrip;
    var s, mv := states[i], moves[i];
    RunKeepsInv(t, states, moves, i);
    assert mv.action.Process?;
    var j := mv.action.subscriber;
    var m := s.pongs[j][0];
    LatencyListener.GrowthMeasures(t.variant, s.listener, m, mv.now);
    PongOfPing(t, s, j);
    assert Live(s, m);
    LiveIsLast(t, states, moves, i, m);
    var e: nat :| SentLast(states, moves, i, e, m);
  }
}
