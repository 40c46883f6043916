/** The publisher's listener for announcements: the set of subscribers that have
    announced themselves and not yet said that they are finished. */
module AnnouncementListener {
  import opened Messages
  import opened Collections

  function Announced(active: set<int>, m: Message): (r: set<int>) {
    if m.size == INITIALIZE_SIZE then active + {m.entityId}
    else if m.size == FINISHED_SIZE then active - {m.entityId}
    else active
  }

  /** The set after a run of messages. */
  function Active(ms: seq<Message>): (active: set<int>) {
    if ms == [] then {} else Announced(Active(ms[..|ms| - 1]), ms[|ms| - 1])
  }

  /** Message `i` announces `id`, and `id` does not say that it is finished afterwards. */
  ghost predicate LastAnnouncedAt(ms: seq<Message>, id: int, i: nat) {
    && i < |ms| && ms[i].entityId == id && ms[i].size == INITIALIZE_SIZE
    && forall j :: i < j < |ms| && ms[j].entityId == id ==> ms[j].size != FINISHED_SIZE
  }

  /** Whatever the messages, exactly the ids are active whose last word is an announcement. */
  lemma {:induction false} ActiveIffAnnounced(ms: seq<Message>, id: int)
    ensures id in Active(ms) <==> exists i: nat :: LastAnnouncedAt(ms, id, i)
  {
    if ms != [] {
      var init, m := ms[..|ms| - 1], ms[|ms| - 1];
      ActiveIffAnnounced(init, id);
      if m.entityId == id && m.size == INITIALIZE_SIZE {
        assert LastAnnouncedAt(ms, id, |init|);
      } else if m.entityId == id && m.size == FINISHED_SIZE {
        assert forall i: nat :: !LastAnnouncedAt(ms, id, i);
      } else {
        assert forall i: nat :: LastAnnouncedAt(ms, id, i) <==> LastAnnouncedAt(init, id, i);
      }
    }
  }

  class Listener {
    var activeSubscribers: set<int>

    constructor ()
      ensures activeSubscribers == {}
    {
      activeSubscribers := {};
    }

    method ProcessMessage(m: Message)
      modifies this
      ensures activeSubscribers == Announced(old(activeSubscribers), m)
    {
      if m.size == INITIALIZE_SIZE {
        activeSubscribers := activeSubscribers + {m.entityId};
      } else if m.size == FINISHED_SIZE {
        activeSubscribers := activeSubscribers - {m.entityId};
      }
    }
  }

  // ----- The C++ copies keep a list -----

  /** A list without duplicates, appended to and erased from, is the same set, and its
      length is the set's size. */
  class ListListener {
    var subscriberList: seq<int>

    ghost predicate Valid()
      reads this
    {
      Distinct(subscriberList)
    }

    constructor ()
      ensures Valid() && subscriberList == []
    {
      subscriberList := [];
    }

    method ProcessMessage(m: Message)
      requires Valid()
      modifies this
      ensures Valid()
      ensures Members(subscriberList) == Announced(Members(old(subscriberList)), m)
      ensures |subscriberList| == |Members(subscriberList)|
    {
      if m.size == INITIALIZE_SIZE && m.entityId !in subscriberList {
        subscriberList := subscriberList + [m.entityId];
      } else if m.size == FINISHED_SIZE {
        var i := 0;
        while i < |subscriberList| && subscriberList[i] != m.entityId
          invariant 0 <= i <= |subscriberList|
          invariant m.entityId !in subscriberList[..i]
        {
          i := i + 1;
        }
        if i < |subscriberList| {
          ErasedMembers(subscriberList, i);
          subscriberList := subscriberList[..i] + subscriberList[i + 1..];
        }
      }
      DistinctSize(subscriberList);
    }
  }

  lemma ErasedMembers(s: seq<int>, i: nat)
    requires Distinct(s) && i < |s|
    ensures Distinct(s[..i] + s[i + 1..])
    ensures Members(s[..i] + s[i + 1..]) == Members(s) - {s[i]}
  {
    var t := s[..i] + s[i + 1..];
    forall x | x in Members(s) - {s[i]}
      ensures x in t
    {
      var k :| 0 <= k < |s| && s[k] == x;
      assert t[if k < i then k else k - 1] == x;
    }
  }
}
