/** Sequences of ids without repetition, and counting them. */
module Collections {

  function Members(s: seq<int>): (r: set<int>) { set x | x in s }

  ghost predicate Distinct(s: seq<int>) {
    forall i, j :: 0 <= i < j < |s| ==> s[i] != s[j]
  }

  /** Distinct ids below `n` are at most `n` many, and `n` many only if all are there. */
  lemma Pigeonhole(s: seq<int>, n: nat)
    requires Distinct(s) && forall x :: x in s ==> 0 <= x < n
    ensures |s| <= n
    ensures |s| == n <==> forall p :: 0 <= p < n ==> p in s
  {
    var members := Members(s);
    var all := Range(n);
    DistinctSize(s);
    assert members <= all;
    SubsetSize(members, all);
    if |s| == n {
      EqualSizeSubset(members, all);
      forall p | 0 <= p < n
        ensures p in s
      {
        assert p in all && p in members;
      }
    }
    if forall p :: 0 <= p < n ==> p in s {
      assert members == all;
    }
  }

  function Range(n: nat): (r: set<int>)
    ensures |r| == n && forall p :: p in r <==> 0 <= p < n
  {
    if n == 0 then {} else Range(n - 1) + {n - 1}
  }

  lemma {:induction false} DistinctSize(s: seq<int>)
    requires Distinct(s)
    ensures |Members(s)| == |s|
  {
    if s != [] {
      var t, y := s[..|s| - 1], s[|s| - 1];
      DistinctSize(t);
      assert Members(s) == Members(t) + {y};
    }
  }

  /** A sequence has no more members than places, and as many only without repetition. */
  lemma {:induction false} MembersSize(s: seq<int>)
    ensures |Members(s)| <= |s|
    ensures |Members(s)| == |s| <==> Distinct(s)
  {
    if s != [] {
      var t, y := s[..|s| - 1], s[|s| - 1];
      MembersSize(t);
      assert Members(s) == Members(t) + {y};
      if y in t {
        var i :| 0 <= i < |t| && t[i] == y;
        assert s[i] == s[|s| - 1] && Members(s) == Members(t);
      } else {
        assert Distinct(s) <==> Distinct(t);
      }
    }
  }

  lemma {:induction false} SubsetSize(a: set<int>, b: set<int>)
    requires a <= b
    ensures |a| <= |b|
  {
    assert b == a + (b - a);
  }

  lemma EqualSizeSubset(a: set<int>, b: set<int>)
    requires a <= b && |a| == |b|
    ensures a == b
  {
    assert b == a + (b - a);
  }

  // ----- Queues -----

  function AppendToAll<T>(qs: seq<seq<T>>, m: T): (r: seq<seq<T>>)
    ensures |r| == |qs| && forall j :: 0 <= j < |qs| ==> r[j] == qs[j] + [m]
  {
    seq(|qs|, j requires 0 <= j < |qs| => qs[j] + [m])
  }

  /** How much is queued in all. */
  function Total<T>(qs: seq<seq<T>>): (n: nat) {
    if qs == [] then 0 else Total(qs[..|qs| - 1]) + |qs[|qs| - 1]|
  }

  lemma {:induction false} TotalUpdate<T>(qs: seq<seq<T>>, j: nat, q: seq<T>)
    requires j < |qs|
    ensures Total(qs[j := q]) == Total(qs) - |qs[j]| + |q|
  {
    var n := |qs| - 1;
    if j == n {
      assert qs[j := q][..n] == qs[..n];
    } else {
      TotalUpdate(qs[..n], j, q);
      assert qs[j := q][..n] == qs[..n][j := q];
    }
  }

  lemma {:induction false} TotalAppendToAll<T>(qs: seq<seq<T>>, m: T)
    ensures Total(AppendToAll(qs, m)) == Total(qs) + |qs|
  {
    if qs != [] {
      var n := |qs| - 1;
      TotalAppendToAll(qs[..n], m);
      assert AppendToAll(qs, m)[..n] == AppendToAll(qs[..n], m);
    }
  }
}
