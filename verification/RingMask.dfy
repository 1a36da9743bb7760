/** The `& (size - 1)` with which the ring indices wrap. */
module RingMask {
  import opened CInt

  /** `&` on non-negative integers, bit by bit. */
  function BitAnd(x: nat, y: nat): nat
    decreases x + y
  {
    if x == 0 || y == 0 then 0
    else (if x % 2 == 1 && y % 2 == 1 then 1 else 0) + 2 * BitAnd(x / 2, y / 2)
  }

  function Pow2(n: nat): nat {
    if n == 0 then 1 else 2 * Pow2(n - 1)
  }

  lemma Pow2Positive(n: nat)
    ensures Pow2(n) >= 1
  {}

  lemma HalfMod(x: nat, m: nat)
    requires m > 0
    ensures x % (2 * m) == 2 * (x / 2 % m) + x % 2
  {
    var h := x / 2;
    var q, r := h / m, h % m;
    assert h == m * q + r;
    assert x == q * (2 * m) + (2 * r + x % 2) by {
      assert 2 * (m * q) == q * (2 * m);
    }
    DivUnique(x, 2 * m, q, 2 * r + x % 2);
  }

  /** Masking with a power of two less one is the remainder by that power. */
  lemma {:induction false} MaskIsMod(x: nat, n: nat)
    ensures Pow2(n) >= 1 && BitAnd(x, Pow2(n) - 1) == x % Pow2(n)
  {
    Pow2Positive(n);
    if n > 0 {
      Pow2Positive(n - 1);
      HalfMod(x, Pow2(n - 1));
      MaskIsMod(x / 2, n - 1);
      assert (Pow2(n) - 1) / 2 == Pow2(n - 1) - 1;
    }
  }

  /** The index after i in a ring of `size` slots. */
  function Succ(i: nat, size: nat): nat {
    if i + 1 == size then 0 else i + 1
  }

  /** The masked increment of an index visits the slots in turn. */
  lemma MaskedIncrement(i: nat, n: nat)
    requires i < Pow2(n)
    ensures Pow2(n) >= 1 && BitAnd(i + 1, Pow2(n) - 1) == Succ(i, Pow2(n))
  {
    MaskIsMod(i + 1, n);
    var size := Pow2(n);
    DivUnique(i + 1, size, if i + 1 == size then 1 else 0, Succ(i, size));
  }
}
