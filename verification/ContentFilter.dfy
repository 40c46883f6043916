/** Instance keys as little-endian bytes, the content filter that a subscriber builds
    from `-cft`, and how it meets the publisher's choice of instances. */
module ContentFilter {
  import opened Bytes
  import opened Machine

  const KEY_SIZE: nat := 4

  /** The key that passes every filter; it marks control messages. */
  const MAX_CFT_VALUE: nat := 65535

  // ----- Keys -----

  /** `width` bytes of `value`, least significant first: byte `c` is the cast of
      `value >> 8 * c`. */
  function Encode(value: nat, width: nat): (key: seq<Byte>)
    ensures |key| == width
  {
    if width == 0 then [] else [value % 256] + Encode(value / 256, width - 1)
  }

  function Decode(key: seq<Byte>): (value: nat) {
    if key == [] then 0 else key[0] + 256 * Decode(key[1..])
  }

  /** Dividing by 256 and then by `p` is dividing by `256 * p`. */
  lemma NestedDivision(x: nat, p: nat)
    requires p > 0
    ensures x / 256 / p == x / (256 * p)
    ensures x % (256 * p) == x % 256 + 256 * (x / 256 % p)
  {
    var q, r := x / 256 / p, x / 256 % p;
    DivModIdentity(x / 256, p);
    ScaleQuotient(q, r, p);
    DivModUnique(x, 256 * p, q, x % 256 + 256 * r);
  }

  lemma ScaleQuotient(q: int, r: int, p: int)
    ensures 256 * (q * p + r) == q * (256 * p) + 256 * r
  {
  }

  /** Encoding loses nothing but what does not fit the width. */
  lemma {:induction false} DecodeEncode(value: nat, width: nat)
    ensures Decode(Encode(value, width)) == value % Pow256(width)
  {
    if width > 0 {
      var p := Pow256(width - 1);
      DecodeEncode(value / 256, width - 1);
      assert Encode(value, width)[1..] == Encode(value / 256, width - 1);
      NestedDivision(value, p);
    }
  }

  lemma {:induction false} EncodeDecode(key: seq<Byte>)
    ensures Encode(Decode(key), |key|) == key
    ensures Decode(key) < Pow256(|key|)
  {
    if key != [] {
      EncodeDecode(key[1..]);
      var d := Decode(key[1..]);
      assert (key[0] + 256 * d) % 256 == key[0] && (key[0] + 256 * d) / 256 == d;
      assert key == [key[0]] + key[1..];
    }
  }

  /** Each byte of a key is the byte cast of the shifted value. */
  lemma {:induction false} EncodedByte(value: nat, width: nat, c: nat)
    requires c < width
    ensures Encode(value, width)[c] == value / Pow256(c) % 256
  {
    if c > 0 {
      EncodedByte(value / 256, width - 1, c - 1);
      var p := Pow256(c - 1);
      NestedDivision(value, p);
    }
  }

  // ----- The range filter -----

  /** The lower half of the range condition, from byte `n - 1` down: each line repeats
      the non-strict comparisons of the bytes above and compares its own byte strictly,
      except the last. `above` is the conjunction of those repeated comparisons. */
  predicate AtLeast(lo: seq<Byte>, key: seq<Byte>, n: nat, above: bool)
    requires |lo| == |key| && n <= |key|
  {
    if n == 0 then above
    else if n == 1 then above && lo[0] <= key[0]
    else (above && lo[n - 1] < key[n - 1]) || AtLeast(lo, key, n - 1, above && lo[n - 1] <= key[n - 1])
  }

  /** The upper half, with the comparisons turned round. */
  predicate AtMost(hi: seq<Byte>, key: seq<Byte>, n: nat, above: bool)
    requires |hi| == |key| && n <= |key|
  {
    if n == 0 then above
    else if n == 1 then above && hi[0] >= key[0]
    else (above && hi[n - 1] > key[n - 1]) || AtMost(hi, key, n - 1, above && hi[n - 1] >= key[n - 1])
  }

  /** The condition for a range, at any key width. AND binds tighter than OR. */
  predicate RangeCondition(lo: seq<Byte>, hi: seq<Byte>, key: seq<Byte>, wildcard: seq<Byte>)
    requires |lo| == |hi| == |key|
  {
    (AtLeast(lo, key, |key|, true) && AtMost(hi, key, |key|, true)) || key == wildcard
  }

  /** The condition text of the source for a range, at its width of four bytes, with
      parameters %0 to %7 and the wildcard key spelled out. */
  predicate RangeConditionText(p: seq<Byte>, key: seq<Byte>)
    requires |p| == 8 && |key| == 4
  {
    (((p[3] < key[3])
       || (p[3] <= key[3] && p[2] < key[2])
       || (p[3] <= key[3] && p[2] <= key[2] && p[1] < key[1])
       || (p[3] <= key[3] && p[2] <= key[2] && p[1] <= key[1] && p[0] <= key[0]))
     && ((p[7] > key[3])
         || (p[7] >= key[3] && p[6] > key[2])
         || (p[7] >= key[3] && p[6] >= key[2] && p[5] > key[1])
         || (p[7] >= key[3] && p[6] >= key[2] && p[5] >= key[1] && p[4] >= key[0])))
    || (255 == key[0] && 255 == key[1] && 0 == key[2] && 0 == key[3])
  }

  /** The condition text for a single instance. */
  predicate InstanceConditionText(p: seq<Byte>, key: seq<Byte>)
    requires |p| == 4 && |key| == 4
  {
    (p[0] == key[0] && p[1] == key[1] && p[2] == key[2] && p[3] == key[3])
    || (255 == key[0] && 255 == key[1] && 0 == key[2] && 0 == key[3])
  }

  /** The cascade of byte comparisons is the comparison of the numbers, whatever the width. */
  lemma {:induction false} CascadeIsOrder(lo: seq<Byte>, key: seq<Byte>, n: nat)
    requires |lo| == |key| && n <= |key|
    ensures AtLeast(lo, key, n, true) <==> Decode(lo[..n]) <= Decode(key[..n])
    ensures AtMost(lo, key, n, true) <==> Decode(lo[..n]) >= Decode(key[..n])
    ensures !AtLeast(lo, key, n, false) && !AtMost(lo, key, n, false)
  {
    if n > 0 {
      CascadeIsOrder(lo, key, n - 1);
      TopByteDecides(lo[..n], key[..n]);
      assert lo[..n][..n - 1] == lo[..n - 1] && key[..n][..n - 1] == key[..n - 1];
      if n == 1 {
        assert lo[..0] == [] && key[..0] == [];
      }
    }
  }

  /** Numbers of equal width are ordered by their top byte first. */
  lemma TopByteDecides(a: seq<Byte>, b: seq<Byte>)
    requires |a| == |b| > 0
    ensures var n := |a| - 1;
            && (a[n] < b[n] ==> Decode(a) < Decode(b))
            && (a[n] == b[n] ==> Decode(a) - Decode(b) == Decode(a[..n]) - Decode(b[..n]))
            && (a[n] > b[n] ==> Decode(a) > Decode(b))
  {
    var n := |a| - 1;
    SplitTop(a);
    SplitTop(b);
    EncodeDecode(a[..n]);
    EncodeDecode(b[..n]);
    if a[n] < b[n] {
      LexicographicOrder(a[n], b[n], Decode(a[..n]), Decode(b[..n]), Pow256(n));
    } else if a[n] > b[n] {
      LexicographicOrder(b[n], a[n], Decode(b[..n]), Decode(a[..n]), Pow256(n));
    }
  }

  lemma LexicographicOrder(x: nat, y: nat, s: nat, t: nat, p: nat)
    requires x < y && s < p
    ensures s + x * p < t + y * p
  {
    MulMonotone(x + 1, y, p);
    DecrementFactor(x + 1, p);
  }

  lemma {:induction false} SplitTop(a: seq<Byte>)
    requires a != []
    ensures Decode(a) == Decode(a[..|a| - 1]) + a[|a| - 1] * Pow256(|a| - 1)
  {
    var n := |a| - 1;
    if n > 0 {
      var t := a[1..];
      SplitTop(t);
      assert t[..n - 1] == a[..n][1..] && t[n - 1] == a[n];
      assert Decode(a[..n]) == a[0] + 256 * Decode(t[..n - 1]);
      assert 256 * (t[n - 1] * Pow256(n - 1)) == t[n - 1] * (256 * Pow256(n - 1));
    } else {
      assert a[..0] == [] && Decode(a[1..]) == 0;
    }
  }

  /** At any width: the range condition on the encoding of `i` means the interval or the wildcard. */
  lemma RangeConditionMeansInterval(start: nat, end: nat, i: nat, wildcard: nat, width: nat)
    requires start < Pow256(width) && end < Pow256(width) && i < Pow256(width) && wildcard < Pow256(width)
    ensures RangeCondition(Encode(start, width), Encode(end, width), Encode(i, width), Encode(wildcard, width))
        <==> start <= i <= end || i == wildcard
  {
    EncodedOrder(start, i, width);
    EncodedOrder(end, i, width);
    if Encode(i, width) == Encode(wildcard, width) {
      Fits(i, width);
      Fits(wildcard, width);
    }
  }

  /** On encodings the two cascades are the order of the encoded numbers. */
  lemma EncodedOrder(bound: nat, i: nat, width: nat)
    requires bound < Pow256(width) && i < Pow256(width)
    ensures AtLeast(Encode(bound, width), Encode(i, width), width, true) <==> bound <= i
    ensures AtMost(Encode(bound, width), Encode(i, width), width, true) <==> bound >= i
  {
    var b, key := Encode(bound, width), Encode(i, width);
    Fits(bound, width);
    Fits(i, width);
    CascadeIsOrder(b, key, width);
    assert b[..width] == b && key[..width] == key;
  }

  lemma Fits(value: nat, width: nat)
    requires value < Pow256(width)
    ensures Decode(Encode(value, width)) == value
  {
    DecodeEncode(value, width);
    DivModUnique(value, Pow256(width), 0, value);
  }

  // ----- The filter that a subscriber installs -----

  /** The parameters %0.. of the condition. */
  function RangeParameters(start: nat, end: nat): (p: seq<Byte>)
    ensures |p| == 2 * KEY_SIZE
  {
    Encode(start, KEY_SIZE) + Encode(end, KEY_SIZE)
  }

  /** Whether the installed filter lets a key through. One value, or a range that the
      C# copy finds to have equal ends, gets the short condition. */
  predicate Passes(start: nat, end: nat, key: seq<Byte>)
    requires |key| == KEY_SIZE
  {
    if start == end then InstanceConditionText(Encode(start, KEY_SIZE), key)
    else RangeConditionText(RangeParameters(start, end), key)
  }

  /** For every pair of 32-bit bounds and every 32-bit instance the installed filter
      accepts exactly the interval and the wildcard. */
  lemma FilterAcceptsInterval(start: nat, end: nat, i: nat)
    requires start < TWO32 && end < TWO32 && i < TWO32
    ensures Passes(start, end, Encode(i, KEY_SIZE)) <==> start <= i <= end || i == MAX_CFT_VALUE
  {
    assert Pow256(4) == TWO32 by {
      assert Pow256(4) == 256 * Pow256(3) == 256 * (256 * Pow256(2));
    }
    var key, p := Encode(i, 4), RangeParameters(start, end);
    var lo, hi := Encode(start, 4), Encode(end, 4);
    WildcardKey();
    RangeConditionMeansInterval(start, end, i, MAX_CFT_VALUE, 4);
    assert p[..4] == lo && p[4..] == hi;
    RangeTextIsCascade(lo, hi, key);
    assert p == lo + hi;
    if start == end {
      Fits(start, 4);
      Fits(i, 4);
      Fits(MAX_CFT_VALUE, 4);
    }
  }

  lemma WildcardKey()
    ensures Encode(MAX_CFT_VALUE, 4) == [255, 255, 0, 0]
  {
    assert MAX_CFT_VALUE / 256 == 255 && MAX_CFT_VALUE % 256 == 255;
    assert Encode(MAX_CFT_VALUE, 4) == [255] + Encode(255, 3);
    assert Encode(255, 3) == [255] + Encode(0, 2);
    assert Encode(0, 2) == [0] + Encode(0, 1) && Encode(0, 1) == [0] + Encode(0, 0);
  }

  /** The written-out condition is the cascade at width four. */
  lemma RangeTextIsCascade(lo: seq<Byte>, hi: seq<Byte>, key: seq<Byte>)
    requires |lo| == |hi| == |key| == 4
    ensures RangeConditionText(lo + hi, key) <==> RangeCondition(lo, hi, key, [255, 255, 0, 0])
  {
    var p := lo + hi;
    assert p[0] == lo[0] && p[1] == lo[1] && p[2] == lo[2] && p[3] == lo[3];
    assert p[4] == hi[0] && p[5] == hi[1] && p[6] == hi[2] && p[7] == hi[3];
    LowerCascade(lo, key);
    UpperCascade(hi, key);
    assert key == [key[0], key[1], key[2], key[3]];
  }

  lemma LowerCascade(lo: seq<Byte>, key: seq<Byte>)
    requires |lo| == |key| == 4
    ensures AtLeast(lo, key, 4, true)
        <==> (lo[3] < key[3])
             || (lo[3] <= key[3] && lo[2] < key[2])
             || (lo[3] <= key[3] && lo[2] <= key[2] && lo[1] < key[1])
             || (lo[3] <= key[3] && lo[2] <= key[2] && lo[1] <= key[1] && lo[0] <= key[0])
  {
    assert forall b :: AtLeast(lo, key, 1, b) == (b && lo[0] <= key[0]);
    assert forall b :: AtLeast(lo, key, 2, b)
                    == ((b && lo[1] < key[1]) || AtLeast(lo, key, 1, b && lo[1] <= key[1]));
    assert forall b :: AtLeast(lo, key, 3, b)
                    == ((b && lo[2] < key[2]) || AtLeast(lo, key, 2, b && lo[2] <= key[2]));
  }

  lemma UpperCascade(hi: seq<Byte>, key: seq<Byte>)
    requires |hi| == |key| == 4
    ensures AtMost(hi, key, 4, true)
        <==> (hi[3] > key[3])
             || (hi[3] >= key[3] && hi[2] > key[2])
             || (hi[3] >= key[3] && hi[2] >= key[2] && hi[1] > key[1])
             || (hi[3] >= key[3] && hi[2] >= key[2] && hi[1] >= key[1] && hi[0] >= key[0])
  {
    assert forall b :: AtMost(hi, key, 1, b) == (b && hi[0] >= key[0]);
    assert forall b :: AtMost(hi, key, 2, b)
                    == ((b && hi[1] > key[1]) || AtMost(hi, key, 1, b && hi[1] >= key[1]));
    assert forall b :: AtMost(hi, key, 3, b)
                    == ((b && hi[2] > key[2]) || AtMost(hi, key, 2, b && hi[2] >= key[2]));
  }
}
