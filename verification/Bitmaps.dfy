/** Bit maps in arrays of words, and the halving searches for their first and last bits. */
module Bitmaps {
  import opened Powers

  predicate Bit(w: nat, k: nat) {
    if k == 0 then w % 2 == 1 else Bit(w / 2, k - 1)
  }

  /** `w >> b` */
  function Right(w: nat, b: nat): nat {
    if b == 0 then w else Right(w / 2, b - 1)
  }

  /** `w << b`, where no bit is lost */
  function Left(w: nat, b: nat): nat
    decreases b
  {
    if b == 0 then w else Left(2 * w, b - 1)
  }

  /** `w | (1 << k)` */
  function SetBit(w: nat, k: nat): nat {
    if k == 0 then (if w % 2 == 0 then w + 1 else w) else 2 * SetBit(w / 2, k - 1) + w % 2
  }

  /** `w & ~(1 << k)` */
  function ClearBit(w: nat, k: nat): nat {
    if k == 0 then w - w % 2 else 2 * ClearBit(w / 2, k - 1) + w % 2
  }

  /** The bits and shifts as numbers. */
  lemma {:induction false} BitIs(w: nat, k: nat)
    ensures Bit(w, k) <==> w / Pow2(k) % 2 == 1
    ensures Right(w, k) == w / Pow2(k)
  {
    if k > 0 {
      BitIs(w / 2, k - 1);
      HalfThenPart(w, Pow2(k - 1));
    }
  }

  lemma {:induction false} LeftIs(w: nat, k: nat)
    ensures Left(w, k) == w * Pow2(k)
    decreases k
  {
    if k > 0 {
      LeftIs(2 * w, k - 1);
      assert (2 * w) * Pow2(k - 1) == w * (2 * Pow2(k - 1));
    }
  }

  lemma {:induction false} BitSet(w: nat, k: nat, j: nat)
    ensures Bit(SetBit(w, k), j) <==> j == k || Bit(w, j)
  {
    if k > 0 && j > 0 { BitSet(w / 2, k - 1, j - 1); }
  }

  lemma {:induction false} BitCleared(w: nat, k: nat, j: nat)
    ensures Bit(ClearBit(w, k), j) <==> j != k && Bit(w, j)
  {
    if k > 0 && j > 0 { BitCleared(w / 2, k - 1, j - 1); }
  }

  lemma {:induction false} SetInWord(w: nat, k: nat, n: nat)
    requires w < Pow2(n) && k < n
    ensures SetBit(w, k) < Pow2(n) && ClearBit(w, k) < Pow2(n)
  {
    if k > 0 { SetInWord(w / 2, k - 1, n - 1); }
  }

  lemma {:induction false} NoBits(j: nat)
    ensures !Bit(0, j)
  {
    if j > 0 { NoBits(j - 1); }
  }

  // ---- The first bit ----

  /** The number of the lowest bit set. */
  function Lowest(w: nat): nat
    requires w > 0
  {
    if w % 2 == 1 then 0 else 1 + Lowest(w / 2)
  }

  lemma {:induction false} LowestIs(w: nat, j: nat)
    requires w > 0
    ensures Bit(w, Lowest(w)) && (j < Lowest(w) ==> !Bit(w, j))
  {
    if w % 2 == 0 {
      if j > 0 { LowestIs(w / 2, j - 1); } else { LowestIs(w / 2, 0); }
    }
  }

  /** Halving: the low b bits are clear exactly when the lowest bit lies above them, and then the
      search goes on there. */
  lemma {:induction false} Halve(w: nat, b: nat)
    requires w > 0
    ensures Aligned(w, b) <==> Lowest(w) >= b
    ensures Aligned(w, b) ==> Right(w, b) > 0 && Lowest(Right(w, b)) == Lowest(w) - b
  {
    if b > 0 && w % 2 == 0 { Halve(w / 2, b - 1); }
  }

  /** The lowest bit as the largest power of two that divides the number. */
  lemma LowestDivides(w: nat)
    requires w > 0
    ensures w % Pow2(Lowest(w)) == 0 && w / Pow2(Lowest(w)) % 2 == 1
  {
    Halve(w, Lowest(w));
    AlignedIs(w, Lowest(w));
    LowestIs(w, 0);
    BitIs(w, Lowest(w));
  }

  lemma {:induction false} LowestBelow(w: nat, n: nat)
    requires 0 < w < Pow2(n)
    ensures Lowest(w) < n
  {
    if w % 2 == 0 { LowestBelow(w / 2, n - 1); }
  }

  /** `bitops_ffs16`, `bitops_ffs32`, `bitops_ffs64`: the position of the lowest bit, from 1. */
  method FirstSet(n: nat, ghost k: nat, width: nat) returns (v: nat)
    requires width == Pow2(k) && k > 0 && n < Pow2(width)
    ensures v == 0 <==> n == 0
    ensures v > 0 ==> n > 0 && v - 1 == Lowest(n) < width
    ensures v > 0 ==> n % Pow2(v - 1) == 0 && n / Pow2(v - 1) % 2 == 1
  {
    if n == 0 { return 0; }
    LowestDivides(n);
    LowestBelow(n, width);
    v := 1;
    var m: nat, b: nat := n, width / 2;
    ghost var j: nat := k;
    while b > 0
      invariant m > 0 && v > 0 && v - 1 + Lowest(m) == Lowest(n)
      invariant (b == 0 ==> j == 0) && (b > 0 ==> j > 0 && b == Pow2(j - 1)) && Lowest(m) < Pow2(j)
      decreases b
    {
      Halve(m, b);
      if Aligned(m, b) {
        m := Right(m, b);
        v := v + b;
      }
      j := j - 1;
      b := b / 2;
    }
  }

  // ---- The last bit ----

  /** The number of the highest bit set. */
  function Highest(w: nat): nat
    requires w > 0
  {
    if w == 1 then 0 else 1 + Highest(w / 2)
  }

  lemma {:induction false} HighestIs(w: nat, j: nat)
    requires w > 0
    ensures Bit(w, Highest(w)) && (j > Highest(w) ==> !Bit(w, j))
  {
    if w == 1 {
      if j > 0 { NoBits(j - 1); }
    } else {
      if j > 0 { HighestIs(w / 2, j - 1); } else { HighestIs(w / 2, 0); }
    }
  }

  lemma {:induction false} HighestBelow(w: nat, n: nat)
    requires w > 0
    ensures w < Pow2(n) <==> Highest(w) < n
  {
    if n > 0 && w > 1 { HighestBelow(w / 2, n - 1); }
  }

  lemma {:induction false} HighestLeft(w: nat, b: nat)
    requires w > 0
    ensures Left(w, b) > 0 && Highest(Left(w, b)) == Highest(w) + b
    decreases b
  {
    if b > 0 { HighestLeft(2 * w, b - 1); }
  }

  /** `bitops_fls16`, `bitops_fls32`, `bitops_fls64`: the position of the highest bit, from 1. */
  method LastSet(n: nat, ghost k: nat, width: nat) returns (v: nat)
    requires width == Pow2(k) && k > 0 && n < Pow2(width)
    ensures v == 0 <==> n == 0
    ensures v > 0 ==> n > 0 && v - 1 == Highest(n) < width
    ensures v > 0 ==> Pow2(v - 1) <= n < Pow2(v)
  {
    if n == 0 { return 0; }
    HighestBelow(n, width);
    HighestBelow(n, Highest(n));
    HighestBelow(n, Highest(n) + 1);
    v := width;
    var m: nat, b: nat := n, width / 2;
    ghost var j: nat := k;
    while b > 0
      invariant m > 0 && v - 1 - (width - 1 - Highest(m)) == Highest(n) && Highest(m) < width
      invariant (b == 0 ==> j == 0) && (b > 0 ==> j > 0 && b == Pow2(j - 1)) && width - 1 - Highest(m) < Pow2(j)
      invariant b < width
      decreases b
    {
      HighestBelow(m, width - b);
      if m < Pow2(width - b) {
        HighestLeft(m, b);
        m := Left(m, b);
        v := v - b;
      }
      j := j - 1;
      b := b / 2;
    }
  }

  // ---- Word arrays ----

  /** Bit p of a bit map of words of b bits. */
  predicate BitOf(v: seq<nat>, b: nat, p: nat)
    requires b > 0
  {
    p / b < |v| && Bit(v[p / b], p % b)
  }

  ghost predicate Words(v: seq<nat>, b: nat) {
    forall i | 0 <= i < |v| :: v[i] < Pow2(b)
  }

  /** `sizeof` of an element, in bits: the three sizes for which the array searches are made. */
  ghost predicate WordSize(k: nat, b: nat) {
    (k == 4 && b == 16) || (k == 5 && b == 32) || (k == 6 && b == 64)
  }

  lemma WordBits(v: seq<nat>, k: nat, b: nat, i: nat)
    requires Words(v, b) && WordSize(k, b) && i < |v|
    ensures v[i] == 0 ==> forall p: nat | p / b == i :: !BitOf(v, b, p)
    ensures v[i] > 0 ==> Lowest(v[i]) < b && BitOf(v, b, b * i + Lowest(v[i]))
    ensures v[i] > 0 ==>
              forall p: nat | p / b == i && BitOf(v, b, p) :: b * i + Lowest(v[i]) <= p <= b * i + Highest(v[i])
    ensures v[i] > 0 ==> Highest(v[i]) < b && BitOf(v, b, b * i + Highest(v[i]))
  {
    hide Bit, Lowest, Highest, Pow2;
    if v[i] == 0 {
      forall p: nat | p / b == i ensures !BitOf(v, b, p) { NoBits(p % b); }
    } else {
      LowestBelow(v[i], b);
      HighestBelow(v[i], b);
      LowestIs(v[i], 0);
      HighestIs(v[i], 0);
      Position(k, b, i, Lowest(v[i]));
      Position(k, b, i, Highest(v[i]));
      forall p: nat | p / b == i && BitOf(v, b, p)
        ensures b * i + Lowest(v[i]) <= p <= b * i + Highest(v[i])
      {
        LowestIs(v[i], p % b);
        HighestIs(v[i], p % b);
        Position(k, b, i, p % b);
        assert p == b * i + p % b;
      }
    }
  }

  /** The place of bit j of word i. */
  lemma Position(k: nat, b: nat, i: nat, j: nat)
    requires WordSize(k, b) && j < b
    ensures (b * i + j) / b == i && (b * i + j) % b == j
  {
    assert b == 16 ==> (16 * i + j) / 16 == i && (16 * i + j) % 16 == j;
    assert b == 32 ==> (32 * i + j) / 32 == i && (32 * i + j) % 32 == j;
    assert b == 64 ==> (64 * i + j) / 64 == i && (64 * i + j) % 64 == j;
  }

  /** Where no word before word i has a bit, its lowest one is the first of all. */
  lemma FirstOf(v: seq<nat>, k: nat, b: nat, i: nat)
    requires Words(v, b) && WordSize(k, b) && i < |v| && forall p: nat | p / b < i :: !BitOf(v, b, p)
    ensures v[i] == 0 ==> forall p: nat | p / b < i + 1 :: !BitOf(v, b, p)
    ensures v[i] > 0 ==> var e := b * i + Lowest(v[i]); BitOf(v, b, e) && forall p: nat | BitOf(v, b, p) :: e <= p
  {
    hide BitOf, Lowest, Highest, Pow2, WordSize;
    WordBits(v, k, b, i);
    Later(k, b, i);
  }

  /** Where no word after word i has a bit, its highest one is the last of all. */
  lemma LastOf(v: seq<nat>, k: nat, b: nat, i: nat)
    requires Words(v, b) && WordSize(k, b) && i < |v| && forall p: nat | p / b >= i + 1 :: !BitOf(v, b, p)
    ensures v[i] == 0 ==> forall p: nat | p / b >= i :: !BitOf(v, b, p)
    ensures v[i] > 0 ==> var e := b * i + Highest(v[i]); BitOf(v, b, e) && forall p: nat | BitOf(v, b, p) :: p <= e
  {
    hide BitOf, Lowest, Highest, Pow2, WordSize;
    WordBits(v, k, b, i);
    Earlier(k, b, i);
  }

  /** `__bitops_ffs`: the position of the first bit of the map, from 1, or 0. */
  method FindFirst(v: seq<nat>, ghost k: nat, b: nat) returns (pos: nat)
    requires WordSize(k, b) && Words(v, b)
    ensures pos == 0 <==> forall p: nat :: !BitOf(v, b, p)
    ensures pos > 0 ==> BitOf(v, b, pos - 1) && forall p: nat | BitOf(v, b, p) :: pos - 1 <= p
  {
    hide BitOf, Lowest, Highest, WordSize, Pow2;
    pos := 0;
    Sizes(k, b);
    NoneBeyond(v, b);
    for i := 0 to |v|
      invariant forall p: nat | p / b < i :: !BitOf(v, b, p)
    {
      var off := FirstSet(v[i], k, b);
      FirstOf(v, k, b, i);
      if off != 0 {
        pos := b * i + off;
        return;
      }
    }
  }

  /** `__bitops_fls`: the position of the last bit of the map, from 1, or 0. */
  method FindLast(v: seq<nat>, ghost k: nat, b: nat) returns (pos: nat)
    requires WordSize(k, b) && Words(v, b)
    ensures pos == 0 <==> forall p: nat :: !BitOf(v, b, p)
    ensures pos > 0 ==> BitOf(v, b, pos - 1) && forall p: nat | BitOf(v, b, p) :: p <= pos - 1
  {
    hide BitOf, Lowest, Highest, WordSize, Pow2;
    pos := 0;
    Sizes(k, b);
    NoneBeyond(v, b);
    for i := 0 to |v|
      invariant forall p: nat | p / b >= |v| - i :: !BitOf(v, b, p)
    {
      var idx := |v| - i - 1;
      var off := LastSet(v[idx], k, b);
      LastOf(v, k, b, idx);
      if off != 0 {
        pos := b * idx + off;
        return;
      }
    }
  }

  /** `~w` */
  function Not(w: nat, b: nat): nat
    requires w < Pow2(b)
  {
    Pow2(b) - 1 - w
  }

  lemma {:induction false} BitNot(w: nat, b: nat, j: nat)
    requires w < Pow2(b) && j < b
    ensures Bit(Not(w, b), j) <==> !Bit(w, j)
  {
    if j > 0 {
      assert Not(w, b) / 2 == Not(w / 2, b - 1);
      BitNot(w / 2, b - 1, j - 1);
    }
  }

  ghost function Inverted(v: seq<nat>, b: nat): (u: seq<nat>)
    requires Words(v, b)
    ensures Words(u, b)
  {
    seq(|v|, i requires 0 <= i < |v| => Not(v[i], b))
  }

  lemma InvertedBits(v: seq<nat>, k: nat, b: nat)
    requires WordSize(k, b) && Words(v, b)
    ensures forall p: nat :: BitOf(Inverted(v, b), b, p) <==> p / b < |v| && !BitOf(v, b, p)
  {
    hide Pow2, Bit, Not;
    forall p: nat ensures BitOf(Inverted(v, b), b, p) <==> p / b < |v| && !BitOf(v, b, p) {
      if p / b < |v| { BitNot(v[p / b], b, p % b); }
    }
  }

  /** `__bitops_ffc`: the position of the first bit of the map that is clear, from 1, or 0. */
  method FindFirstClear(v: seq<nat>, ghost k: nat, b: nat) returns (pos: nat)
    requires WordSize(k, b) && Words(v, b)
    ensures pos == 0 <==> forall p: nat | p / b < |v| :: BitOf(v, b, p)
    ensures pos > 0 ==> (pos - 1) / b < |v| && !BitOf(v, b, pos - 1) && forall p: nat | p < pos - 1 :: BitOf(v, b, p)
  {
    hide BitOf, Lowest, Highest, WordSize, Pow2;
    pos := 0;
    Sizes(k, b);
    InvertedBits(v, k, b);
    ghost var u := Inverted(v, b);
    for i := 0 to |v|
      invariant forall p: nat | p / b < i :: !BitOf(u, b, p)
    {
      var off := FirstSet(Not(v[i], b), k, b);
      FirstOf(u, k, b, i);
      if off != 0 {
        pos := b * i + off;
        Before(k, b, pos - 1);
        return;
      }
    }
  }

  /** `__bitops_flc`: the position of the last bit of the map that is clear, from 1, or 0. */
  method FindLastClear(v: seq<nat>, ghost k: nat, b: nat) returns (pos: nat)
    requires WordSize(k, b) && Words(v, b)
    ensures pos == 0 <==> forall p: nat | p / b < |v| :: BitOf(v, b, p)
    ensures pos > 0 ==> (pos - 1) / b < |v| && !BitOf(v, b, pos - 1)
    ensures pos > 0 ==> forall p: nat | p >= pos && p / b < |v| :: BitOf(v, b, p)
  {
    hide BitOf, Lowest, Highest, WordSize, Pow2;
    pos := 0;
    Sizes(k, b);
    InvertedBits(v, k, b);
    ghost var u := Inverted(v, b);
    NoneBeyond(u, b);
    for i := 0 to |v|
      invariant forall p: nat | p / b >= |v| - i :: !BitOf(u, b, p)
    {
      var idx := |v| - i - 1;
      var off := LastSet(Not(v[idx], b), k, b);
      LastOf(u, k, b, idx);
      if off != 0 {
        pos := b * idx + off;
        return;
      }
    }
  }

  lemma Sizes(k: nat, b: nat)
    requires WordSize(k, b)
    ensures b == Pow2(k) && b > 0 && k > 0
  {
    assert Pow2(2) == 4;
    Pow2Adds(2, 2);
    Pow2Adds(2, 3);
    Pow2Adds(3, 3);
  }

  lemma NoneBeyond(v: seq<nat>, b: nat)
    requires b > 0
    ensures forall p: nat | p / b >= |v| :: !BitOf(v, b, p)
  {
  }

  lemma Later(k: nat, b: nat, i: nat)
    requires WordSize(k, b)
    ensures forall p: nat | p / b > i :: p >= b * i + b
  {
    forall p: nat | p / b > i ensures p >= b * i + b { Quotient(k, b, p, i); }
  }

  lemma Earlier(k: nat, b: nat, i: nat)
    requires WordSize(k, b)
    ensures forall p: nat | p / b < i :: p < b * i
  {
    forall p: nat | p / b < i ensures p < b * i { Quotient(k, b, p, i); }
  }

  lemma Before(k: nat, b: nat, e: nat)
    requires WordSize(k, b)
    ensures forall p: nat | p <= e :: p / b <= e / b
  {
    forall p: nat | p <= e ensures p / b <= e / b { Quotient(k, b, p, e / b); Quotient(k, b, e, e / b); }
  }

  lemma Quotient(k: nat, b: nat, p: nat, i: nat)
    requires WordSize(k, b)
    ensures p / b > i <==> p >= b * i + b
    ensures p / b < i <==> p < b * i
  {
    assert b == 16 ==> (p / 16 > i <==> p >= 16 * i + 16) && (p / 16 < i <==> p < 16 * i);
    assert b == 32 ==> (p / 32 > i <==> p >= 32 * i + 32) && (p / 32 < i <==> p < 32 * i);
    assert b == 64 ==> (p / 64 > i <==> p >= 64 * i + 64) && (p / 64 < i <==> p < 64 * i);
  }
}
