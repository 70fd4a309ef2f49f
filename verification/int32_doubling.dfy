/** The doubling loop of getZoom in Java `int` arithmetic, where `tmp *= 2` wraps around
    modulo 2^32 into [-2^31, 2^31). The rest of the model uses unbounded integers; this
    module shows what the 32-bit loop does once tmp passes 2^30. */
module Int32Doubling {
  import opened TileMath

  const TwoTo30: int := 0x4000_0000
  const TwoTo31: int := 0x8000_0000
  const TwoTo32: int := 0x1_0000_0000

  /** A value of Java's `int` type. */
  predicate IsInt32(x: int)
  {
    -TwoTo31 <= x < TwoTo31
  }

  /** `x * 2` on a Java `int`: the product wrapped into the 32-bit range, congruent to it
      modulo 2^32. */
  function Double32(x: int): (r: int)
    requires IsInt32(x)
    ensures IsInt32(r)
    ensures (r - 2 * x) % TwoTo32 == 0
    ensures IsInt32(2 * x) ==> r == 2 * x
  {
    var w := (2 * x + TwoTo31) % TwoTo32;
    assert 2 * x + TwoTo31 == ((2 * x + TwoTo31) / TwoTo32) * TwoTo32 + w;
    w - TwoTo31
  }

  /** The value of tmp after k passes of getZoom's loop body, as the `int` code computes it. */
  function Tmp32(k: nat): (r: int)
    ensures IsInt32(r)
  {
    if k == 0 then 1 else Double32(Tmp32(k - 1))
  }

  lemma Pow2Thirty()
    ensures Pow2(30) == TwoTo30
  {
    assert Pow2(10) == 1024;
    assert Pow2(20) == 1024 * Pow2(10) by { Pow2Split(10, 10); }
    Pow2Split(20, 10);
  }

  /** 2^(a + b) == 2^a * 2^b. */
  lemma {:induction false} Pow2Split(a: nat, b: nat)
    ensures Pow2(a + b) == Pow2(a) * Pow2(b)
  {
    if b > 0 {
      Pow2Split(a, b - 1);
      assert Pow2(a + b) == 2 * Pow2(a + b - 1);
    }
  }

  /** tmp runs through 1, 2, 4, ..., 2^30 exactly as in unbounded arithmetic, then wraps to
      -2^31 at the 31st pass and to 0 at the 32nd, where doubling keeps it. */
  lemma {:induction false} Tmp32Values(k: nat)
    ensures k <= 30 ==> Tmp32(k) == Pow2(k)
    ensures k == 31 ==> Tmp32(k) == -TwoTo31
    ensures k >= 32 ==> Tmp32(k) == 0
  {
    if 0 < k <= 30 {
      Tmp32Values(k - 1);
      Pow2Monotone(k, 30);
      Pow2Thirty();
      assert Tmp32(k) == Double32(Pow2(k - 1));
      assert IsInt32(2 * Pow2(k - 1));
    } else if k == 31 {
      Tmp32Values(30);
      Pow2Thirty();
      assert Tmp32(k) == Double32(TwoTo30);
      DoubleWraps(TwoTo30);
    } else if k > 31 {
      Tmp32Values(k - 1);
      assert Tmp32(k) == Double32(Tmp32(k - 1));
      DoubleWraps(Tmp32(k - 1));
    }
  }

  /** The two wrap-arounds of the loop: 2^30 doubles to -2^31, and -2^31 and 0 double to 0. */
  lemma DoubleWraps(x: int)
    requires x == TwoTo30 || x == -TwoTo31 || x == 0
    ensures x == TwoTo30 ==> Double32(x) == -TwoTo31
    ensures x != TwoTo30 ==> Double32(x) == 0
  {
  }

  /** For every tiles >= 2^30 (an image at least 2^30 tile widths wide or high) the guard
      `tmp <= tiles` holds after any number of passes, so the `int` loop never ends. */
  lemma GuardNeverFails(tiles: int, k: nat)
    requires TwoTo30 <= tiles < TwoTo31
    ensures Tmp32(k) <= tiles
  {
    Tmp32Values(k);
    if k <= 30 {
      Pow2Monotone(k, 30);
      Pow2Thirty();
    }
  }

  /** With tmp kept wide enough (a `long`, or the unbounded doubling of TileUp.GetZoom) every
      value tmp takes for an `int` count of tiles stays below 2^32: the loop stops at
      2^BitLength(tiles) <= 2 * tiles, well inside a 64-bit range. */
  lemma {:induction false} WideTmpBound(tiles: int)
    requires 0 <= tiles < TwoTo31
    ensures Pow2(BitLength(tiles)) <= Max(1, 2 * tiles)
    ensures Pow2(BitLength(tiles)) < TwoTo32
  {
    BitLengthIsLeastExponent(tiles);
    var n := BitLength(tiles);
    if n > 0 {
      assert Pow2(n - 1) <= tiles;
    }
  }
}
