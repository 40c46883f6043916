/** Fixed-width integer behaviour of the C# and C++ sources, and the few facts
    about division that the other modules share. */
module Machine {

  const TWO31: nat := 0x8000_0000
  const TWO32: nat := 0x1_0000_0000
  const TWO63: nat := 0x8000_0000_0000_0000
  const TWO64: nat := 0x1_0000_0000_0000_0000

  datatype Option<+T> = None | Some(value: T)

  /** Conversion to an unsigned 32-bit value. */
  function UInt32(x: int): (r: nat) { x % TWO32 }

  /** Conversion to an unsigned 64-bit value. */
  function UInt64(x: int): (r: nat) { x % TWO64 }

  /** Conversion to a signed 32-bit value. */
  function Int32(x: int): (r: int) {
    var u := x % TWO32;
    if u < TWO31 then u else u - TWO32
  }

  /** Conversion to a signed 64-bit value. */
  function Int64(x: int): (r: int) {
    var u := x % TWO64;
    if u < TWO63 then u else u - TWO64
  }

  /** The remainder of C# and C++, whose sign follows the dividend. */
  function Rem(a: int, b: int): (r: int)
    requires b > 0
  {
    if a >= 0 then a % b else -((-a) % b)
  }

  function Min(a: int, b: int): (r: int) { if a <= b then a else b }

  function Max(a: int, b: int): (r: int) { if a <= b then b else a }

  function Abs(a: int): (r: int) { if a < 0 then -a else a }

  /** Quotient and remainder are determined by their defining equation. */
  lemma DivModUnique(x: int, d: int, q: int, r: int)
    requires 0 < d && 0 <= r < d && x == q * d + r
    ensures x / d == q && x % d == r
  {
    var q', r' := x / d, x % d;
    assert (q - q') * d == r' - r by { assert x == q' * d + r'; }
    NoMultipleBetween(q - q', d);
  }

  /** Zero is the only multiple of `d` strictly between `-d` and `d`. */
  lemma NoMultipleBetween(k: int, d: int)
    requires -d < k * d < d
    ensures k == 0
  {
    if k >= 1 {
      MulAtLeast(k, d);
    } else if k <= -1 {
      MulAtLeast(-k, d);
    }
  }

  lemma MulAtLeast(k: int, d: int)
    requires k >= 1 && d >= 0
    ensures k * d >= d
  {
    assert k * d == (k - 1) * d + d;
    MulNonNegative(k - 1, d);
  }

  lemma DivNonNegative(x: nat, d: nat)
    requires d > 0
    ensures 0 <= x / d
  {
  }

  lemma DivModIdentity(x: int, d: int)
    requires d > 0
    ensures x == x / d * d + x % d && 0 <= x % d < d
  {
  }

  lemma DecrementFactor(a: int, b: int)
    ensures (a - 1) * b == a * b - b
  {
  }

  lemma UInt32Fits(x: nat)
    requires x < TWO32
    ensures UInt32(x) == x
  {
  }

  lemma MulNonNegative(a: int, b: int)
    requires a >= 0 && b >= 0
    ensures a * b >= 0
  {
  }

  lemma MulMonotone(a: int, b: int, c: int)
    requires a <= b && c >= 0
    ensures a * c <= b * c
  {
    MulNonNegative(b - a, c);
    assert b * c == a * c + (b - a) * c;
  }

  /** How quotient and remainder move when the dividend grows by one. */
  lemma DivModSuccessor(x: nat, d: nat)
    requires d > 0
    ensures x % d + 1 < d ==> (x + 1) / d == x / d && (x + 1) % d == x % d + 1
    ensures x % d + 1 == d ==> (x + 1) / d == x / d + 1 && (x + 1) % d == 0
  {
    var q, r := x / d, x % d;
    assert x == q * d + r;
    if r + 1 < d {
      DivModUnique(x + 1, d, q, r + 1);
    } else {
      assert (q + 1) * d == q * d + d;
      DivModUnique(x + 1, d, q + 1, 0);
    }
  }

  lemma MulAssociative(a: int, b: int, c: int)
    ensures a * b * c == a * (b * c)
  {
  }

  lemma Distribute(e: int, L: int, q: int, S: int)
    ensures (e * L + q) * S == e * (L * S) + q * S
  {
    assert (e * L + q) * S == e * L * S + q * S;
    MulAssociative(e, L, S);
  }

  /** A wrapped counter stays the wrapped count. */
  lemma Int32Successor(x: int)
    ensures Int32(Int32(x) + 1) == Int32(x + 1)
  {
  }

  lemma UInt64Fits(x: nat)
    requires x < TWO64
    ensures UInt64(x) == x
  {
  }

  lemma Int32Fits(x: nat)
    requires x < TWO31
    ensures Int32(x) == x
  {
  }

  lemma Int64Fits(x: nat)
    requires x < TWO63
    ensures Int64(x) == x
  {
  }

  lemma Int64Successor(x: int)
    ensures Int64(Int64(x) + 1) == Int64(x + 1)
  {
  }

  /** A wrapped sum stays the wrapped sum. */
  lemma UInt64Add(a: int, b: int)
    ensures UInt64(UInt64(a) + b) == UInt64(a + b)
  {
  }

  lemma ModSuccessor(x: nat, d: nat)
    requires d > 0
    ensures (x + 1) % d == (x % d + 1) % d
  {
    DivModSuccessor(x, d);
    if x % d + 1 == d {
      DivModUnique(d, d, 1, 0);
    } else {
      DivModUnique(x % d + 1, d, 0, x % d + 1);
    }
  }

  /** Quotients are monotone. */
  lemma DivMonotone(x: int, y: int, d: int)
    requires x <= y && d > 0
    ensures x / d <= y / d
  {
    var k := x / d - y / d;
    assert k * d < d by {
      assert x == (x / d) * d + x % d && y == (y / d) * d + y % d;
      assert k * d == (x / d) * d - (y / d) * d;
    }
    SmallMultiple(k, d);
  }

  lemma SmallMultiple(k: int, d: int)
    requires d > 0 && k * d < d
    ensures k <= 0
  {
    if k >= 1 {
      MulAtLeast(k, d);
    }
  }
}
