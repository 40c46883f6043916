/** What the latency accumulators are meant to be, as functions of the stored
    values, and the inequalities that make the printed statistics meaningful. */
module Statistics {
  import opened Machine
  import opened Sorting

  function Sum(s: seq<nat>): (r: nat) {
    if s == [] then 0 else Sum(s[..|s| - 1]) + s[|s| - 1]
  }

  function SumSquares(s: seq<nat>): (r: nat) {
    if s == [] then 0 else SumSquares(s[..|s| - 1]) + s[|s| - 1] * s[|s| - 1]
  }

  ghost predicate IsMin(s: seq<nat>, m: nat) {
    m in s && forall x :: x in s ==> m <= x
  }

  ghost predicate IsMax(s: seq<nat>, m: nat) {
    m in s && forall x :: x in s ==> x <= m
  }

  lemma SumsSnoc(s: seq<nat>, x: nat)
    ensures Sum(s + [x]) == Sum(s) + x
    ensures SumSquares(s + [x]) == SumSquares(s) + x * x
  {
    assert (s + [x])[..|s|] == s;
  }

  /** Squared distances from any `x` cannot sum to a negative number. */
  lemma {:induction false} SpreadAround(s: seq<nat>, x: int)
    ensures SumSquares(s) + |s| * (x * x) >= 2 * x * Sum(s)
  {
    if s == [] {
      assert Sum(s) == 0 && 2 * x * 0 == 0;
    } else {
      var t, y := s[..|s| - 1], s[|s| - 1];
      SpreadAround(t, x);
      SquareNonNegative(y - x);
      assert (y - x) * (y - x) == y * y - 2 * x * y + x * x;
      assert |s| * (x * x) == |t| * (x * x) + x * x;
      assert 2 * x * Sum(s) == 2 * x * Sum(t) + 2 * x * y;
    }
  }

  lemma SquareNonNegative(a: int)
    ensures a * a >= 0
  {
  }

  /** The variance argument is never negative (Cauchy and Schwarz). */
  lemma {:induction false} VarianceNonNegative(s: seq<nat>)
    ensures |s| * SumSquares(s) >= Sum(s) * Sum(s)
  {
    if s != [] {
      var t, y := s[..|s| - 1], s[|s| - 1];
      var n, Q, S := |t|, SumSquares(t), Sum(t);
      VarianceNonNegative(t);
      SpreadAround(t, y);
      assert (n + 1) * (Q + y * y) == n * Q + n * (y * y) + Q + y * y;
      assert (S + y) * (S + y) == S * S + 2 * y * S + y * y;
    }
  }

  /** Nor does it turn negative when both divisions drop their fractions. */
  lemma TruncatedVarianceNonNegative(s: seq<nat>)
    requires s != []
    ensures SumSquares(s) / |s| >= (Sum(s) / |s|) * (Sum(s) / |s|)
  {
    VarianceNonNegative(s);
    TruncatedSquare(|s|, SumSquares(s), Sum(s));
  }

  lemma TruncatedSquare(n: nat, Q: nat, S: nat)
    requires n > 0 && n * Q >= S * S
    ensures Q / n >= (S / n) * (S / n)
  {
    var a: nat := S / n;
    var na: nat := n * a;
    SquareMonotone(na, S);
    SquareOfProduct(n, a);
    CancelFactor(n, n * (a * a), Q);
    DivMonotone(n * (a * a), Q, n);
    DivModUnique(n * (a * a), n, a * a, 0);
  }

  lemma SquareMonotone(x: nat, y: nat)
    requires x <= y
    ensures x * x <= y * y
  {
    MulMonotone(x, y, x);
    MulMonotone(x, y, y);
  }

  lemma SquareOfProduct(n: int, a: int)
    ensures n * a * (n * a) == n * (n * (a * a))
  {
    assert n * a * (n * a) == n * (a * (n * a));
    assert a * (n * a) == n * (a * a);
  }

  lemma CancelFactor(n: nat, x: int, y: int)
    requires n > 0 && n * x <= n * y
    ensures x <= y
  {
    assert (x - y) * n == n * x - n * y;
    SmallMultiple(x - y, n);
  }

  // ----- Percentiles of the sorted history -----

  datatype Percentiles = Percentiles(p50: nat, p90: nat, p99: nat, p9999: nat, p999999: nat)

  /** The five reads that every printer makes of the sorted array. */
  function PercentilesOf(sorted: seq<nat>): (p: Percentiles)
    requires sorted != []
  {
    var count := |sorted|;
    Percentiles(
      sorted[count * 50 / 100],
      sorted[count * 90 / 100],
      sorted[count * 99 / 100],
      sorted[count * 9999 / 10000],
      sorted[count * 999999 / 1000000])
  }

  /** How many values lie below `v`, and how many at most at `v`. */
  function Below(s: seq<nat>, v: nat): (n: nat) {
    if s == [] then 0 else Below(s[..|s| - 1], v) + if s[|s| - 1] < v then 1 else 0
  }

  function AtMost(s: seq<nat>, v: nat): (n: nat) {
    if s == [] then 0 else AtMost(s[..|s| - 1], v) + if s[|s| - 1] <= v then 1 else 0
  }

  /** What the figure for the fraction `a / b` means, whatever the order of the values: at
      most that many of them, rounded down, lie below it, and more than that up to it. */
  predicate IsPercentile(s: seq<nat>, a: nat, b: nat, v: nat)
    requires b > 0
  {
    Below(s, v) <= |s| * a / b < AtMost(s, v)
  }

  predicate ArePercentiles(s: seq<nat>, p: Percentiles) {
    && IsPercentile(s, 50, 100, p.p50)
    && IsPercentile(s, 90, 100, p.p90)
    && IsPercentile(s, 99, 100, p.p99)
    && IsPercentile(s, 9999, 10000, p.p9999)
    && IsPercentile(s, 999999, 1000000, p.p999999)
  }

  /** The five reads of the sorted history are the percentiles of the stored values. */
  lemma ReadsArePercentiles(stored: seq<nat>)
    requires stored != []
    ensures |Sort(stored, BY_NUMBER)| == |stored|
    ensures ArePercentiles(stored, PercentilesOf(Sort(stored, BY_NUMBER)))
  {
    var n, sorted := |stored|, Sort(stored, BY_NUMBER);
    OrdersAreTotal();
    SortOrders(stored, BY_NUMBER);
    SortKeepsLength(stored, BY_NUMBER);
    PercentileIndices(n);
    ReadIsPercentile(stored, n * 50 / 100);
    ReadIsPercentile(stored, n * 90 / 100);
    ReadIsPercentile(stored, n * 99 / 100);
    ReadIsPercentile(stored, n * 9999 / 10000);
    ReadIsPercentile(stored, n * 999999 / 1000000);
  }

  lemma ReadIsPercentile(stored: seq<nat>, i: nat)
    requires i < |stored| == |Sort(stored, BY_NUMBER)| && Ordered(Sort(stored, BY_NUMBER), BY_NUMBER)
    ensures var v := Sort(stored, BY_NUMBER)[i]; Below(stored, v) <= i < AtMost(stored, v)
  {
    var sorted := Sort(stored, BY_NUMBER);
    SortKeepsCounts(stored, sorted[i]);
    CountsAt(sorted, i, |sorted|);
  }

  /** The counts of a sorted sequence around its element `i`. */
  lemma {:induction false} CountsAt(sorted: seq<nat>, i: nat, n: nat)
    requires i < |sorted| && n <= |sorted| && Ordered(sorted, BY_NUMBER)
    ensures Below(sorted[..n], sorted[i]) <= i
    ensures n <= i + 1 ==> AtMost(sorted[..n], sorted[i]) == n
    ensures n > i ==> AtMost(sorted[..n], sorted[i]) > i
    ensures n == |sorted| ==> Below(sorted, sorted[i]) <= i < AtMost(sorted, sorted[i])
    ensures n <= i ==> Below(sorted[..n], sorted[i]) <= n
  {
    assert sorted[..|sorted|] == sorted;
    if n > 0 {
      CountsAt(sorted, i, n - 1);
      assert sorted[..n][..n - 1] == sorted[..n - 1];
      if n - 1 < i {
        SortedAt(sorted, n - 1, i);
      } else {
        SortedAt(sorted, i, n - 1);
      }
    }
  }

  lemma {:induction false} SortKeepsCounts(s: seq<nat>, v: nat)
    ensures Below(Sort(s, BY_NUMBER), v) == Below(s, v) && AtMost(Sort(s, BY_NUMBER), v) == AtMost(s, v)
  {
    if s != [] {
      SortKeepsCounts(s[..|s| - 1], v);
      InsertCounts(Sort(s[..|s| - 1], BY_NUMBER), s[|s| - 1], v);
    }
  }

  lemma {:induction false} InsertCounts(s: seq<nat>, x: nat, v: nat)
    ensures Below(Insert(s, x, BY_NUMBER), v) == Below(s, v) + if x < v then 1 else 0
    ensures AtMost(Insert(s, x, BY_NUMBER), v) == AtMost(s, v) + if x <= v then 1 else 0
  {
    if s == [] || BY_NUMBER(x, s[0]) {
      CountsFromFront(x, s, v);
    } else {
      InsertCounts(s[1..], x, v);
      CountsFromFront(s[0], Insert(s[1..], x, BY_NUMBER), v);
      CountsFromFront(s[0], s[1..], v);
      assert s == [s[0]] + s[1..];
    }
  }

  lemma {:induction false} CountsFromFront(x: nat, s: seq<nat>, v: nat)
    ensures Below([x] + s, v) == Below(s, v) + if x < v then 1 else 0
    ensures AtMost([x] + s, v) == AtMost(s, v) + if x <= v then 1 else 0
  {
    var t := [x] + s;
    if s == [] {
      assert t[..0] == [];
    } else {
      CountsFromFront(x, s[..|s| - 1], v);
      assert t[..|t| - 1] == [x] + s[..|s| - 1];
    }
  }

  /** The percentiles lie in order between the smallest and largest stored value. */
  lemma PercentilesInOrder(stored: seq<nat>, sorted: seq<nat>, lo: nat, hi: nat)
    requires sorted != [] && Ordered(sorted, BY_NUMBER) && multiset(sorted) == multiset(stored)
    requires IsMin(stored, lo) && IsMax(stored, hi)
    ensures var p := PercentilesOf(sorted);
            lo <= p.p50 <= p.p90 <= p.p99 <= p.p9999 <= p.p999999 <= hi
    ensures sorted[0] == lo && sorted[|sorted| - 1] == hi
  {
    var n := |sorted|;
    SortedExtremes(stored, sorted, lo, hi);
    PercentileIndices(n);
    SortedAt(sorted, 0, n * 50 / 100);
    SortedAt(sorted, n * 50 / 100, n * 90 / 100);
    SortedAt(sorted, n * 90 / 100, n * 99 / 100);
    SortedAt(sorted, n * 99 / 100, n * 9999 / 10000);
    SortedAt(sorted, n * 9999 / 10000, n * 999999 / 1000000);
    SortedAt(sorted, n * 999999 / 1000000, n - 1);
  }

  lemma SortedAt(s: seq<nat>, i: nat, j: nat)
    requires Ordered(s, BY_NUMBER) && i <= j < |s|
    ensures s[i] <= s[j]
  {
  }

  lemma SortedExtremes(stored: seq<nat>, sorted: seq<nat>, lo: nat, hi: nat)
    requires sorted != [] && Ordered(sorted, BY_NUMBER) && multiset(sorted) == multiset(stored)
    requires IsMin(stored, lo) && IsMax(stored, hi)
    ensures sorted[0] == lo && sorted[|sorted| - 1] == hi
  {
    SameMembers(stored, sorted);
    var i :| 0 <= i < |sorted| && sorted[i] == lo;
    var j :| 0 <= j < |sorted| && sorted[j] == hi;
    SortedAt(sorted, 0, i);
    SortedAt(sorted, j, |sorted| - 1);
    assert sorted[0] in sorted && sorted[|sorted| - 1] in sorted;
  }

  lemma SameMembers(s: seq<nat>, t: seq<nat>)
    requires multiset(s) == multiset(t)
    ensures forall x :: x in s <==> x in t
  {
    assert forall x :: x in s <==> x in multiset(s);
    assert forall x :: x in t <==> x in multiset(t);
  }

  lemma PercentileIndices(n: nat)
    requires n > 0
    ensures n * 50 / 100 <= n * 90 / 100 <= n * 99 / 100 <= n * 9999 / 10000 <= n * 999999 / 1000000 < n
  {
  }

  /** How the extremes move when a value is appended. */
  lemma ExtremesSnoc(s: seq<nat>, lo: nat, hi: nat, x: nat)
    ensures s == [] ==> IsMin(s + [x], x) && IsMax(s + [x], x)
    ensures s != [] && IsMin(s, lo) ==> IsMin(s + [x], Min(lo, x))
    ensures s != [] && IsMax(s, hi) ==> IsMax(s + [x], Max(hi, x))
  {
    assert forall y :: y in s + [x] <==> y in s || y == x;
  }

  lemma MinAtMostMax(s: seq<nat>, lo: nat, hi: nat)
    requires IsMin(s, lo) && IsMax(s, hi)
    ensures lo <= hi
  {
  }
}
