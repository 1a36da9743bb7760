/** The C integer operations the drivers use, on unbounded integers.
    Truncation and wrap-around appear only where they are written out here. */
module CInt {
  const INT_MAX: int := 0x7FFF_FFFF
  const TWO_32: int := 0x1_0000_0000
  const TWO_64: int := 0x1_0000_0000_0000_0000

  // error numbers of the kernel
  const EIO: int := 5
  const EBUSY: int := 16
  const EINVAL: int := 22
  const ERANGE: int := 34
  const ETIMEDOUT: int := 110

  function Min(a: int, b: int): int { if a <= b then a else b }

  function Max(a: int, b: int): int { if a >= b then a else b }

  /** Conversion of any integer value to a 32-bit `int`: the low 32 bits, in two's complement. */
  function ToInt32(x: int): int {
    var low := x % TWO_32;
    if low > INT_MAX then low - TWO_32 else low
  }

  /** `/` of C: truncates toward zero, where Dafny's `/` is Euclidean. */
  function TruncDiv(a: int, b: int): int
    requires b > 0
  {
    if a >= 0 then a / b else -((-a) / b)
  }

  /** `CPR3_ROUND(n, d)`, which is `DIV_ROUND_UP(n, d) * d`, on signed operands. */
  function RoundUp(n: int, d: int): int
    requires d > 0
  {
    TruncDiv(n + d - 1, d) * d
  }

  /** v is a set point of a supply that moves in steps of `step`. */
  ghost predicate Aligned(v: int, step: int)
    requires step > 0
  {
    v % step == 0
  }

  lemma MulStep(x: int, d: int)
    requires d > 0
    ensures x >= 1 ==> d <= x * d
    ensures x <= -1 ==> x * d <= -d
  {
    if x >= 1 {
      assert x * d == d + (x - 1) * d;
    } else if x <= -1 {
      assert x * d == -d + (x + 1) * d;
    }
  }

  lemma MulLe(x: int, y: int, d: int)
    requires x <= y && 0 <= d
    ensures x * d <= y * d && d * x <= d * y
  {}

  lemma MulMonotone(a: nat, b: nat, x: nat, y: nat)
    requires a <= x && b <= y
    ensures a * b <= x * y
  {
    MulLe(a, x, b);
    MulLe(b, y, x);
  }

  /** Division with remainder is unique. */
  lemma DivUnique(p: int, d: int, q: int, r: int)
    requires d > 0 && p == q * d + r && 0 <= r < d
    ensures p / d == q && p % d == r
  {
    assert (p / d - q) * d == r - p % d;
    MulStep(p / d - q, d);
  }

  lemma DivBounds(n: int, d: int)
    requires d > 0
    ensures n / d * d <= n < n / d * d + d
  {
    assert n == d * (n / d) + n % d;
  }

  lemma DivMonotone(x: nat, y: nat, d: nat)
    requires d > 0 && x <= y
    ensures x / d <= y / d
  {
    DivBounds(x, d);
    DivBounds(y, d);
    MulStep(x / d - y / d, d);
    assert (x / d - y / d) * d == x / d * d - y / d * d;
  }

  lemma DivAtMost(n: nat, d: nat, q: nat)
    requires d > 0 && n <= q * d
    ensures 0 <= n / d <= q
  {
    DivBounds(n, d);
    MulStep(n / d - q, d);
    assert (n / d - q) * d == n / d * d - q * d;
  }

  lemma DivAtLeast(n: nat, d: nat, q: int)
    requires d > 0 && d * q <= n
    ensures q <= n / d
  {
    DivBounds(n, d);
    MulStep(q - n / d, d);
    assert (q - n / d) * d == d * q - n / d * d;
  }

  /** Numbers that fit are not cut off. */
  lemma Small32(x: nat)
    requires x < TWO_32
    ensures x % TWO_32 == x
  {}

  lemma Small64(x: nat)
    requires x < TWO_64
    ensures x % TWO_64 == x
  {}

  lemma ToInt32Small(x: int)
    requires 0 <= x <= INT_MAX
    ensures ToInt32(x) == x
  {}

  lemma ToInt32Large(x: int)
    requires INT_MAX < x < TWO_32
    ensures ToInt32(x) == x - TWO_32
  {}

  /** The product of two 32-bit numbers fits 64 bits. */
  lemma ProductFits64(a: nat, b: nat)
    requires a < TWO_32 && b < TWO_32
    ensures 0 <= a * b < TWO_64
  {
    MulLe(a, 0xFFFF_FFFF, b);
    MulLe(0, a, b);
  }

  lemma MulMod(q: int, d: int)
    requires d > 0
    ensures (q * d) % d == 0
  {
    DivUnique(q * d, d, q, 0);
  }

  /** For a non-negative n, RoundUp gives the least set point not below n. */
  lemma RoundUpLeast(n: int, d: int)
    requires n >= 0 && d > 0
    ensures Aligned(RoundUp(n, d), d)
    ensures n <= RoundUp(n, d) < n + d
  {
    MulMod((n + d - 1) / d, d);
  }

  /** Two set points closer than one step are the same set point. */
  lemma AlignedGap(a: int, b: int, d: int)
    requires d > 0 && Aligned(a, d) && Aligned(b, d)
    requires a - d < b < a + d
    ensures a == b
  {
    var i, j := a / d, b / d;
    assert a == i * d && b == j * d;
    assert (i - j) * d == a - b;
    MulStep(i - j, d);
  }

  /** A set point below another one is at least one step below it. */
  lemma AlignedBelow(a: int, b: int, d: int)
    requires d > 0 && Aligned(a, d) && Aligned(b, d)
    requires a < b
    ensures a <= b - d
  {
    if a > b - d {
      AlignedGap(a, b, d);
    }
  }

  lemma AlignedShift(a: int, d: int)
    requires d > 0 && Aligned(a, d)
    ensures Aligned(a + d, d) && Aligned(a - d, d)
  {
    var i := a / d;
    assert a == i * d;
    MulMod(i + 1, d);
    MulMod(i - 1, d);
    assert (i + 1) * d == a + d && (i - 1) * d == a - d;
  }

  lemma AlignedSum(a: int, b: int, d: int)
    requires d > 0 && Aligned(a, d) && Aligned(b, d)
    ensures Aligned(a + b, d)
  {
    var i, j := a / d, b / d;
    assert a == i * d && b == j * d;
    MulMod(i + j, d);
    assert (i + j) * d == a + b;
  }

  /** Rounding leaves a set point alone. */
  lemma RoundUpFixes(a: int, d: int)
    requires d > 0 && a >= 0 && Aligned(a, d)
    ensures RoundUp(a, d) == a
  {
    RoundUpLeast(a, d);
    AlignedGap(a, RoundUp(a, d), d);
  }
}
