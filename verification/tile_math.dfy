/** Exact integer arithmetic behind the tile pyramid: powers of two (the per-level
    scale factor), ceiling division (the grid size per axis) and the bit length
    (the automatic level count). */
module TileMath {

  /** 2^k, the scale factor of zoom level k. */
  function Pow2(k: nat): (r: nat)
    ensures r >= 1
  {
    if k == 0 then 1 else 2 * Pow2(k - 1)
  }

  function Max(a: int, b: int): int
  {
    if a < b then b else a
  }

  function Min(a: int, b: int): int
  {
    if a < b then a else b
  }

  /** Math.ceil(a / d) for a non-negative numerator and a positive divisor:
      the least r with a <= r * d. */
  function CeilDiv(a: int, d: int): (r: int)
    requires a >= 0 && d >= 1
    ensures r >= 0
    ensures (r - 1) * d < a <= r * d
  {
    var q := (a + d - 1) / d;
    assert a + d - 1 == q * d + (a + d - 1) % d;
    q
  }

  /** Number of binary digits of t, and 0 when t <= 0: floor(log2 t) + 1 for t >= 1. */
  function BitLength(t: int): nat
    decreases if t <= 0 then 0 else t
  {
    if t <= 0 then 0 else 1 + BitLength(t / 2)
  }

  /** The start i * d of cell i lies below a exactly when i is one of the
      CeilDiv(a, d) cells that cover [0, a). */
  lemma CeilDivCounts(a: int, d: int, i: int)
    requires a >= 0 && d >= 1 && i >= 0
    ensures i * d < a <==> i < CeilDiv(a, d)
  {
    var r := CeilDiv(a, d);
    if i < r {
      MulMonotone(i, r - 1, d);
    } else {
      MulMonotone(r, i, d);
    }
  }

  /** Integer division rounds down: a / d whole cells of size d fit in a, one more does not. */
  lemma DivBounds(a: int, d: int)
    requires a >= 0 && d >= 1
    ensures (a / d) * d <= a < (a / d + 1) * d
  {
    assert a == (a / d) * d + a % d;
  }

  lemma MulMonotone(x: int, y: int, d: int)
    requires x <= y && d >= 0
    ensures x * d <= y * d
  {
    assert y * d - x * d == (y - x) * d;
  }

  lemma MulAssoc(a: int, b: int, c: int)
    ensures a * b * c == a * (b * c)
  {
  }

  /** m whole rows of r cells and one more row make m + 1 rows. */
  lemma MulSucc(m: int, r: int)
    ensures m * r + r == (m + 1) * r
  {
  }

  /** Scaling a non-negative offset by a level factor never makes it smaller. */
  lemma ScaledAtLeast(x: int, k: nat)
    requires x >= 0
    ensures x <= x * Pow2(k)
  {
    MulMonotone(1, Pow2(k), x);
  }

  /** BitLength(t) is the least k >= 0 with 2^k > t: 2^(k-1) <= t < 2^k when t >= 1. */
  lemma {:induction false} BitLengthIsLeastExponent(t: int)
    ensures Pow2(BitLength(t)) > t
    ensures forall k :: 0 <= k < BitLength(t) ==> Pow2(k) <= t
  {
    if t > 0 {
      var h := t / 2;
      BitLengthIsLeastExponent(h);
      assert Pow2(BitLength(t)) == 2 * Pow2(BitLength(h));
      forall k | 0 <= k < BitLength(t)
        ensures Pow2(k) <= t
      {
        if k > 0 {
          assert Pow2(k - 1) <= h;
        }
      }
    }
  }

  /** Any k that is a least exponent with 2^k > t is the bit length of t. */
  lemma LeastExponentIsBitLength(t: int, k: nat)
    requires Pow2(k) > t
    requires forall k' :: 0 <= k' < k ==> Pow2(k') <= t
    ensures k == BitLength(t)
  {
    BitLengthIsLeastExponent(t);
  }

  /** Powers of two grow with the exponent. */
  lemma {:induction false} Pow2Monotone(j: nat, k: nat)
    requires j <= k
    ensures Pow2(j) <= Pow2(k)
  {
    if j < k {
      Pow2Monotone(j, k - 1);
    }
  }
}
