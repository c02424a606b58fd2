/**
 * Integer helpers shared by the NTP engine and the vmemmap allocator: powers
 * of two, the shifts of fixed-point arithmetic, C's truncating division and
 * the clamp/min/max macros. All arithmetic is on mathematical integers; the
 * 64-bit widths of the kernel are not modelled.
 */
module FixedPoint {

  type Positive = n: int | n > 0 witness 1

  /** 2^n. */
  function Pow2(n: nat): (r: nat)
    ensures r >= 1
  {
    if n == 0 then 1 else 2 * Pow2(n - 1)
  }

  /** `x << n` on a signed value, with no overflow. */
  function ShiftLeft(x: int, n: nat): (r: int)
    ensures (x < 0 <==> r < 0) && (x == 0 <==> r == 0)
    ensures x >= 0 ==> r >= x
  {
    x * Pow2(n)
  }

  /** `x >> n` on an unsigned value: floor division by 2^n. */
  function UnsignedShiftRight(x: int, n: nat): (r: int)
    ensures 0 <= x ==> 0 <= r <= x
    ensures r * Pow2(n) <= x < r * Pow2(n) + Pow2(n)
    ensures r == 0 <==> 0 <= x < Pow2(n)
  {
    FloorDivBounds(x, Pow2(n));
    FloorDivZero(x, Pow2(n));
    x / Pow2(n)
  }

  /**
   * The kernel's shift_right(x, n): a negative value is shifted as its
   * magnitude and negated back, so the result rounds toward zero.
   */
  function ShiftRight(x: int, n: nat): (r: int)
    ensures 0 <= x ==> 0 <= r <= x
    ensures x < 0 ==> x <= r <= 0
    // |r| is the whole number of 2^n in |x|
    ensures Abs(r) * Pow2(n) <= Abs(x) < (Abs(r) + 1) * Pow2(n)
    ensures r == 0 <==> Abs(x) < Pow2(n)
  {
    if x < 0 then -UnsignedShiftRight(-x, n) else UnsignedShiftRight(x, n)
  }

  /** shift_right is symmetric: shifting -x gives minus the shift of x. */
  lemma ShiftRightOdd(x: int, n: nat)
    ensures ShiftRight(-x, n) == -ShiftRight(x, n)
  {
  }

  /** The floor quotient is zero exactly for a dividend in [0, p). */
  lemma FloorDivZero(x: int, p: int)
    requires p >= 1
    ensures x / p == 0 <==> 0 <= x < p
  {
    FloorDivBounds(x, p);
    var q := x / p;
    if q >= 1 {
      MulNonneg(q - 1, p);
      assert q * p == (q - 1) * p + p;
    }
  }

  /** Floor division by a positive divisor stays between the dividend and zero. */
  lemma FloorDivBounds(x: int, p: int)
    requires p >= 1
    ensures 0 <= x ==> 0 <= x / p <= x
    ensures x < 0 ==> x <= x / p < 0
    ensures (x / p) * p <= x < (x / p) * p + p
  {
    var q := x / p;
    assert q * p <= x < (q + 1) * p;
    if x < 0 {
      if q >= 0 { MulNonneg(q, p); }
      if q < x { MulNonpos(q + 1, p); }
    } else {
      if q < 0 { MulNonpos(q + 1, p); }
      if q > x { MulNonneg(q, p - 1); }
    }
  }

  lemma MulNonneg(a: int, b: int)
    requires a >= 0 && b >= 0
    ensures a * b >= 0
  {}

  /** The sign of a product with a non-negative factor. */
  lemma MulSign(a: int, b: int)
    ensures b >= 0 && a >= 0 ==> a * b >= 0
    ensures b >= 0 && a <= 0 ==> a * b <= 0
    ensures b == 0 || a == 0 ==> a * b == 0
  {
    if b >= 0 && a <= 0 { MulNonneg(-a, b); }
  }

  /** A non-positive factor times a factor of at least one is no larger than itself. */
  lemma MulNonpos(a: int, p: int)
    requires a <= 0 && p >= 1
    ensures a * p <= a
  {
    MulNonneg(-a, p - 1);
  }

  function Abs(x: int): (r: nat)
    ensures r == x || r == -x
  {
    if x < 0 then -x else x
  }

  /** C's `/` on signed integers (and div_s64, div64_long): truncates toward zero. */
  function CDiv(a: int, b: int): (q: int)
    requires b != 0
    ensures Abs(q) == Abs(a) / Abs(b)
    ensures q > 0 ==> (a < 0) == (b < 0)
    ensures q < 0 ==> (a < 0) != (b < 0)
    ensures 0 <= a && 0 < b ==> q == a / b
  {
    var m := Abs(a) / Abs(b);
    FloorDivBounds(Abs(a), Abs(b));
    if (a < 0) == (b < 0) then m else -m
  }

  /** C's `%` on signed integers (and div_s64_rem): the sign follows the dividend. */
  function CRem(a: int, b: int): (r: int)
    requires b != 0
    ensures 0 <= a && 0 < b ==> r == a % b
  {
    a - b * CDiv(a, b)
  }

  /** Storing a C `long` into an `s32`: the low 32 bits, read as two's complement. */
  function TruncS32(x: int): (r: int)
    ensures -0x8000_0000 <= r < 0x8000_0000
    ensures (x - r) % 0x1_0000_0000 == 0
    ensures -0x8000_0000 <= x < 0x8000_0000 ==> r == x
  {
    var low := (x + 0x8000_0000) % 0x1_0000_0000;
    low - 0x8000_0000
  }

  /** The kernel's clamp(x, lo, hi). */
  function Clamp(x: int, lo: int, hi: int): (r: int)
    requires lo <= hi
    ensures lo <= r <= hi
    ensures lo <= x <= hi ==> r == x
    ensures x < lo ==> r == lo
    ensures hi < x ==> r == hi
  {
    if x < lo then lo else if hi < x then hi else x
  }

  /** clamp(x, -bound, bound), as the kernel bounds a signed register symmetrically. */
  function ClampAbs(x: int, bound: nat): (r: int)
    ensures Abs(r) <= bound
    ensures Abs(x) <= bound ==> r == x
    ensures x > bound ==> r == bound
    ensures x < 0 && Abs(x) > bound ==> r == -(bound as int)
  {
    Clamp(x, -(bound as int), bound)
  }

  function Min(a: int, b: int): (m: int) { if a < b then a else b }

  function Max(a: int, b: int): (m: int) { if a < b then b else a }
}
