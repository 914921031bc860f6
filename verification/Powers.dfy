/** Powers of two and the index arithmetic of naturally aligned blocks.  The bit operations
    of the C code are written one bit at a time, so that they need division by two only. */
module Powers {

  /** `1 << k` */
  function Pow2(k: nat): (r: nat)
    ensures r >= 1
  {
    if k == 0 then 1 else 2 * Pow2(k - 1)
  }

  /** The low k bits of x are clear. */
  predicate Aligned(x: nat, k: nat) {
    k == 0 || (x % 2 == 0 && Aligned(x / 2, k - 1))
  }

  /** `i ^ (1 << k)` */
  function Flip(i: nat, k: nat): nat {
    if k == 0 then (if i % 2 == 0 then i + 1 else i - 1) else 2 * Flip(i / 2, k - 1) + i % 2
  }

  /** `i & (~0 << k)` */
  function MaskLow(i: nat, k: nat): nat {
    if k == 0 then i else 2 * MaskLow(i / 2, k - 1)
  }

  lemma {:induction false} LowerAlignment(x: nat, k: nat)
    requires Aligned(x, k + 1)
    ensures Aligned(x, k)
  {
    if k > 0 { LowerAlignment(x / 2, k - 1); }
  }

  /** Two aligned indices closer than the alignment are equal. */
  lemma {:induction false} AlignedApart(a: nat, b: nat, k: nat)
    requires Aligned(a, k) && Aligned(b, k)
    requires a <= b < a + Pow2(k)
    ensures a == b
  {
    if k > 0 { AlignedApart(a / 2, b / 2, k - 1); }
  }

  /** An aligned index either starts its parent block or is the upper half of it; flipping
      the bit moves to the other half and masking moves to the parent. */
  lemma {:induction false} HalfOfParent(i: nat, k: nat)
    requires Aligned(i, k)
    ensures Aligned(i, k + 1) ==>
              Flip(i, k) == i + Pow2(k) && MaskLow(i, k + 1) == i
              && Aligned(i + Pow2(k), k) && !Aligned(i + Pow2(k), k + 1)
    ensures !Aligned(i, k + 1) ==>
              i >= Pow2(k) && Flip(i, k) == i - Pow2(k) && MaskLow(i, k + 1) == i - Pow2(k)
              && Aligned(i - Pow2(k), k + 1) && Aligned(i - Pow2(k), k)
  {
    assert Aligned(i / 2, 0);
    if k > 0 {
      HalfOfParent(i / 2, k - 1);
      assert Aligned(i, k + 1) == Aligned(i / 2, k);
      assert (i + Pow2(k)) / 2 == i / 2 + Pow2(k - 1);
      if !Aligned(i, k + 1) { assert (i - Pow2(k)) / 2 == i / 2 - Pow2(k - 1); }
    }
  }

  lemma FlipTwice(i: nat, k: nat)
    requires Aligned(i, k)
    ensures Flip(Flip(i, k), k) == i && Aligned(Flip(i, k), k)
  {
    HalfOfParent(i, k);
    HalfOfParent(Flip(i, k), k);
  }

  /** Aligned blocks are nested or disjoint. */
  lemma {:induction false} NestedOrDisjoint(h1: nat, k1: nat, h2: nat, k2: nat)
    requires k1 <= k2 && Aligned(h1, k1) && Aligned(h2, k2)
    ensures (h2 <= h1 && h1 + Pow2(k1) <= h2 + Pow2(k2))
         || h1 + Pow2(k1) <= h2 || h2 + Pow2(k2) <= h1
    decreases k2 - k1
  {
    if k1 == k2 {
      if h1 <= h2 < h1 + Pow2(k1) { AlignedApart(h1, h2, k1); }
      if h2 <= h1 < h2 + Pow2(k1) { AlignedApart(h2, h1, k1); }
    } else {
      HalfOfParent(h1, k1);
      NestedOrDisjoint(MaskLow(h1, k1 + 1), k1 + 1, h2, k2);
    }
  }

  lemma {:induction false} Pow2Monotone(a: nat, b: nat)
    requires a <= b
    ensures Pow2(a) <= Pow2(b)
    decreases b - a
  {
    if a < b { Pow2Monotone(a, b - 1); }
  }

  lemma {:induction false} Pow2Adds(a: nat, b: nat)
    ensures Pow2(a + b) == Pow2(a) * Pow2(b)
  {
    if a > 0 {
      Pow2Adds(a - 1, b);
      assert Pow2(a) * Pow2(b) == 2 * (Pow2(a - 1) * Pow2(b));
    }
  }

  lemma HalfThenPart(x: nat, m: nat)
    requires m > 0
    ensures (x / 2) / m == x / (2 * m) && (x % (2 * m) == 0 <==> x % 2 == 0 && (x / 2) % m == 0)
  {
    var q, r := (x / 2) / m, (x / 2) % m;
    assert x / 2 == m * q + r;
    assert x == 2 * (x / 2) + x % 2;
    assert x == (2 * m) * q + (2 * r + x % 2);
    Quotient(x, 2 * m, q, 2 * r + x % 2);
  }

  lemma Quotient(x: nat, m: nat, q: nat, r: nat)
    requires r < m && x == m * q + r
    ensures x / m == q && x % m == r
  {
    var a, b := x / m, x % m;
    assert x == m * a + b;
    if a > q { More(m, q, a); }
    if a < q { More(m, a, q); }
  }

  lemma More(m: nat, q: nat, a: nat)
    requires q < a
    ensures m * q + m <= m * a
  {
    var d: nat := a - q - 1;
    assert m * a == m * (q + 1 + d) == m * q + m + m * d;
    assert 0 <= m * d;
  }

  /** Clear low bits as a number. */
  lemma {:induction false} AlignedIs(x: nat, k: nat)
    ensures Aligned(x, k) <==> x % Pow2(k) == 0
  {
    if k > 0 {
      AlignedIs(x / 2, k - 1);
      HalfThenPart(x, Pow2(k - 1));
    }
  }
}
