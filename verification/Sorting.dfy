/** The result of sorting a vector, over any order, and the order of strings. */
module Sorting {

  ghost predicate TotalOrder<T(!new)>(leq: (T, T) -> bool) {
    && (forall a, b :: leq(a, b) || leq(b, a))
    && (forall a, b, c :: leq(a, b) && leq(b, c) ==> leq(a, c))
  }

  ghost predicate Ordered<T>(s: seq<T>, leq: (T, T) -> bool) {
    forall i, j :: 0 <= i < j < |s| ==> leq(s[i], s[j])
  }

  function Insert<T>(s: seq<T>, x: T, leq: (T, T) -> bool): (r: seq<T>) {
    if s == [] || leq(x, s[0]) then [x] + s else [s[0]] + Insert(s[1..], x, leq)
  }

  function Sort<T>(s: seq<T>, leq: (T, T) -> bool): (r: seq<T>) {
    if s == [] then [] else Insert(Sort(s[..|s| - 1], leq), s[|s| - 1], leq)
  }

  lemma {:induction false} InsertKeepsAll<T(!new)>(s: seq<T>, x: T, leq: (T, T) -> bool)
    ensures multiset(Insert(s, x, leq)) == multiset(s) + multiset{x}
  {
    if s != [] && !leq(x, s[0]) {
      InsertKeepsAll(s[1..], x, leq);
      assert s == [s[0]] + s[1..];
    }
  }

  lemma Transitive<T(!new)>(leq: (T, T) -> bool, a: T, b: T, c: T)
    requires TotalOrder(leq) && leq(a, b) && leq(b, c)
    ensures leq(a, c)
  {
  }

  lemma Total<T(!new)>(leq: (T, T) -> bool, a: T, b: T)
    requires TotalOrder(leq) && !leq(a, b)
    ensures leq(b, a)
  {
  }

  lemma {:induction false} InsertOrdered<T(!new)>(s: seq<T>, x: T, leq: (T, T) -> bool)
    requires TotalOrder(leq) && Ordered(s, leq)
    ensures Ordered(Insert(s, x, leq), leq)
  {
    hide TotalOrder;
    if s == [] {
    } else if leq(x, s[0]) {
      forall j | 0 < j < |s|
        ensures leq(x, s[j])
      {
        Transitive(leq, x, s[0], s[j]);
      }
    } else {
      var tail := Insert(s[1..], x, leq);
      InsertOrdered(s[1..], x, leq);
      InsertKeepsAll(s[1..], x, leq);
      Total(leq, x, s[0]);
      forall i | 0 <= i < |tail|
        ensures leq(s[0], tail[i])
      {
        assert tail[i] in multiset(s[1..]) + multiset{x};
      }
    }
  }

  /** Sorting orders the elements and keeps them all. */
  lemma {:induction false} SortOrders<T(!new)>(s: seq<T>, leq: (T, T) -> bool)
    requires TotalOrder(leq)
    ensures Ordered(Sort(s, leq), leq)
    ensures multiset(Sort(s, leq)) == multiset(s)
  {
    hide TotalOrder;
    if s != [] {
      hide Ordered, Insert;
      SortOrders(s[..|s| - 1], leq);
      InsertOrdered(Sort(s[..|s| - 1], leq), s[|s| - 1], leq);
      InsertKeepsAll(Sort(s[..|s| - 1], leq), s[|s| - 1], leq);
      assert s == s[..|s| - 1] + [s[|s| - 1]];
    }
  }

  lemma {:induction false} SortKeepsLength<T>(s: seq<T>, leq: (T, T) -> bool)
    ensures |Sort(s, leq)| == |s|
  {
    if s != [] {
      SortKeepsLength(s[..|s| - 1], leq);
      InsertLength(Sort(s[..|s| - 1], leq), s[|s| - 1], leq);
    }
  }

  lemma {:induction false} InsertLength<T>(s: seq<T>, x: T, leq: (T, T) -> bool)
    ensures |Insert(s, x, leq)| == |s| + 1
  {
    if s != [] && !leq(x, s[0]) {
      InsertLength(s[1..], x, leq);
    }
  }

  const BY_NUMBER: (nat, nat) -> bool := (a: nat, b: nat) => a <= b

  /** Strings in the order of their characters. */
  predicate Precedes(a: string, b: string) {
    a == [] || (b != [] && (a[0] < b[0] || (a[0] == b[0] && Precedes(a[1..], b[1..]))))
  }

  const BY_TEXT: (string, string) -> bool := (a: string, b: string) => Precedes(a, b)

  lemma OrdersAreTotal()
    ensures TotalOrder(BY_NUMBER) && TotalOrder(BY_TEXT)
  {
    forall a: string, b: string
      ensures Precedes(a, b) || Precedes(b, a)
    {
      PrecedesTotal(a, b);
    }
    forall a: string, b: string, c: string | Precedes(a, b) && Precedes(b, c)
      ensures Precedes(a, c)
    {
      PrecedesTransitive(a, b, c);
    }
  }

  lemma {:induction false} PrecedesTotal(a: string, b: string)
    ensures Precedes(a, b) || Precedes(b, a)
  {
    if a != [] && b != [] {
      PrecedesTotal(a[1..], b[1..]);
    }
  }

  lemma {:induction false} PrecedesTransitive(a: string, b: string, c: string)
    requires Precedes(a, b) && Precedes(b, c)
    ensures Precedes(a, c)
  {
    if a != [] && a[0] == b[0] == c[0] {
      PrecedesTransitive(a[1..], b[1..], c[1..]);
    }
  }
}
