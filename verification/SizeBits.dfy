/** 64-bit sizes, the bits of a size, and the index of the bin that holds chunks of a size. */
module SizeBits {
  import opened Powers

  const WORD: nat := 0x1_0000_0000_0000_0000
  const NTREEBINS: nat := 32
  const MIN_LARGE_SIZE: nat := 256

  /** `x >> n` */
  function Shr(x: nat, n: nat): nat {
    if n == 0 then x else Shr(x, n - 1) / 2
  }

  /** `x << n` on 64-bit words */
  function Shl64(x: nat, n: nat): nat {
    if n == 0 then x % WORD else (2 * Shl64(x, n - 1)) % WORD
  }

  /** Number of the highest bit set in x. */
  function TopBit(x: nat): nat
    requires x > 0
  {
    if x == 1 then 0 else 1 + TopBit(x / 2)
  }

  /** `compute_tree_index` */
  function TreeIndex(s: nat): nat {
    var x := Shr(s, 8);
    if x == 0 then 0
    else if x > 0xFFFF then NTREEBINS - 1
    else 2 * TopBit(x) + Shr(s, TopBit(x) + 7) % 2
  }

  /** The number of low bits that chunks of bin i differ in; `leftshift_for_tree_index` is 64
      less this. */
  function BinWidth(i: nat): nat {
    if i == NTREEBINS - 1 then 64 else i / 2 + 7
  }

  /** The high bits that chunks of bin i have in common. */
  function BinPrefix(i: nat): nat {
    if i == NTREEBINS - 1 then 0 else 2 + i % 2
  }

  lemma {:induction false} ShrHalves(x: nat, n: nat)
    ensures Shr(x, n + 1) == Shr(x / 2, n)
  {
    if n > 0 { ShrHalves(x, n - 1); }
  }

  lemma {:induction false} ShrMonotone(x: nat, y: nat, n: nat)
    requires x <= y
    ensures Shr(x, n) <= Shr(y, n)
  {
    if n > 0 { ShrMonotone(x, y, n - 1); }
  }

  lemma {:induction false} TopBitMonotone(x: nat, y: nat)
    requires 0 < x <= y
    ensures TopBit(x) <= TopBit(y)
  {
    if x > 1 { TopBitMonotone(x / 2, y / 2); }
  }

  lemma {:induction false} TopBitShr(x: nat)
    requires x > 0
    ensures Shr(x, TopBit(x)) == 1
  {
    if x > 1 {
      TopBitShr(x / 2);
      ShrHalves(x, TopBit(x / 2));
    }
  }

  lemma {:induction false} ShrAdds(x: nat, m: nat, n: nat)
    ensures Shr(x, m + n) == Shr(Shr(x, m), n)
  {
    if n > 0 { ShrAdds(x, m, n - 1); }
  }

  lemma {:induction false} TopBitSmall(x: nat, n: nat)
    requires 0 < x < Pow2(n)
    ensures TopBit(x) < n
  {
    if x > 1 { TopBitSmall(x / 2, n - 1); }
  }

  /** A large size shares the prefix of its bin. */
  lemma IndexPrefix(s: nat)
    requires MIN_LARGE_SIZE <= s < WORD
    ensures TreeIndex(s) < NTREEBINS
    ensures Shr(s, BinWidth(TreeIndex(s))) == BinPrefix(TreeIndex(s))
  {
    WordIsPow2();
    ShrPlus(s - 256, 8, 8);
    var x := Shr(s, 8);
    WholeWord(s);
    if x <= 0xFFFF {
      TopBitSmall(x, 16);
      SecondBit(s);
    }
  }

  lemma WholeWord(s: nat)
    requires s < WORD
    ensures Shr(s, 64) == 0
  {
    WordIsPow2();
    ShrSmall(s, 64);
  }

  lemma {:induction false} ShrSmall(s: nat, n: nat)
    requires s < Pow2(n)
    ensures Shr(s, n) == 0
  {
    if n > 0 {
      ShrHalves(s, n - 1);
      ShrSmall(s / 2, n - 1);
    }
  }

  lemma WordIsPow2()
    ensures Pow2(64) == WORD && Pow2(63) == WORD / 2 && Pow2(16) == 0x10000 && Pow2(8) == 256
  {
    assert Pow2(4) == 16;
    Pow2Adds(4, 4);
    Pow2Adds(8, 8);
    Pow2Adds(16, 16);
    Pow2Adds(32, 32);
    assert Pow2(64) == 2 * Pow2(63);
  }

  lemma IndexMonotone(s: nat, t: nat)
    requires s <= t
    ensures TreeIndex(s) <= TreeIndex(t)
  {
    ShrMonotone(s, t, 8);
    var x, y := Shr(s, 8), Shr(t, 8);
    if 0 < x <= 0xFFFF {
      WordIsPow2();
      TopBitSmall(x, 16);
      if y <= 0xFFFF {
        TopBitMonotone(x, y);
        if TopBit(x) == TopBit(y) {
          ShrMonotone(s, t, TopBit(x) + 7);
          SecondBit(s);
          SecondBit(t);
        }
      }
    }
  }

  /** Below the top bit of s, at position TopBit(s >> 8) + 7, comes the bit that TreeIndex adds. */
  lemma SecondBit(s: nat)
    requires Shr(s, 8) > 0
    ensures var k := TopBit(Shr(s, 8));
            Shr(s, k + 8) == 1 && Shr(s, k + 7) == 2 + Shr(s, k + 7) % 2
  {
    var k := TopBit(Shr(s, 8));
    TopBitShr(Shr(s, 8));
    ShrAdds(s, 8, k);
    assert Shr(s, k + 8) == Shr(s, k + 7) / 2;
  }

  // ---- The range of a bin ----

  /** `minsize_for_tree_index` */
  function MinTreeSize(i: nat): nat {
    Pow2(i / 2 + 8) + i % 2 * Pow2(i / 2 + 7)
  }

  /** The bins split the large sizes into ranges, as `do_check_tree` asserts. */
  lemma TreeRange(s: nat)
    requires MIN_LARGE_SIZE <= s < WORD
    ensures MinTreeSize(TreeIndex(s)) <= s
    ensures TreeIndex(s) == NTREEBINS - 1 || s < MinTreeSize(TreeIndex(s) + 1)
  {
    hide Pow2, Shr, TreeIndex, MinTreeSize;
    var i := TreeIndex(s);
    if i == NTREEBINS - 1 {
      LastBin(s);
    } else {
      IndexPrefix(s);
      ShrIs(s, i / 2 + 7);
      Range(s, Pow2(i / 2 + 7), 2 + i % 2);
      LeastSizes(i);
    }
  }

  lemma LeastSizes(i: nat)
    ensures MinTreeSize(i) == Pow2(i / 2 + 7) * (2 + i % 2)
    ensures MinTreeSize(i + 1) == MinTreeSize(i) + Pow2(i / 2 + 7)
  {
    hide Pow2;
    EvenPow2(i / 2 + 8);
    EvenPow2(i / 2 + 9);
    if i % 2 == 0 { assert (i + 1) / 2 == i / 2; } else { assert (i + 1) / 2 == i / 2 + 1; }
  }

  lemma Range(s: nat, p: nat, q: nat)
    requires p > 0 && s / p == q
    ensures p * q <= s < p * q + p
  {
    assert s == p * (s / p) + s % p;
  }

  lemma LastBin(s: nat)
    requires MIN_LARGE_SIZE <= s < WORD && TreeIndex(s) == NTREEBINS - 1
    ensures MinTreeSize(NTREEBINS - 1) <= s
  {
    hide Pow2, Shr;
    var x := Shr(s, 8);
    WordIsPow2();
    Pow2Adds(16, 7);
    Pow2Adds(16, 6);
    assert Pow2(7) == 128 && Pow2(6) == 64 by { SmallPowers(); }
    if x > 0xFFFF {
      ShrIs(s, 8);
      Range(s, 256, x);
    } else {
      ShrPlus(s - 256, 8, 8);
      SecondBit(s);
      ShrIs(s, 22);
      Range(s, Pow2(22), 3);
    }
  }

  lemma SmallPowers()
    ensures Pow2(7) == 128 && Pow2(6) == 64
  {
    assert Pow2(4) == 16;
  }

  lemma {:induction false} ShrIs(x: nat, n: nat)
    ensures Shr(x, n) == x / Pow2(n)
  {
    if n > 0 {
      ShrHalves(x, n - 1);
      ShrIs(x / 2, n - 1);
      HalfThenPart(x, Pow2(n - 1));
    }
  }

  /** The bit that the tree walks look at: after n doublings the top bit of the word is bit
      63 - n of the size. */
  lemma {:induction false} TopBitOfShift(s: nat, n: nat)
    requires s < WORD && n < 64
    ensures Shl64(s, n) >= WORD / 2 <==> Shr(s, 63 - n) % 2 == 1
    decreases n
  {
    hide Pow2;
    if n == 0 {
      WordIsPow2();
      assert Pow2(0) == 1 by { NoPow2(); }
      if s >= WORD / 2 {
        ShrPlus(s - WORD / 2, 63, 63);
        ShrSmall(s - WORD / 2, 63);
      } else {
        ShrSmall(s, 63);
      }
    } else {
      var t := (2 * s) % WORD;
      ShlHead(s, n - 1);
      TopBitOfShift(t, n - 1);
      DoubledBit(s, n);
    }
  }

  lemma NoPow2()
    ensures Pow2(0) == 1
  {
  }

  lemma EvenPow2(n: nat)
    requires 0 < n
    ensures Pow2(n) == 2 * Pow2(n - 1)
  {
  }

  lemma DoubledBit(s: nat, n: nat)
    requires s < WORD && 0 < n < 64
    ensures Shr((2 * s) % WORD, 64 - n) % 2 == Shr(s, 63 - n) % 2
  {
    hide Pow2, Shr;
    var t := (2 * s) % WORD;
    ShrHalves(t, 63 - n);
    WordIsPow2();
    EvenPow2(n);
    if s >= WORD / 2 {
      assert t / 2 == s - WORD / 2;
      ShrPlus(s - WORD / 2, 63, 63 - n);
    } else {
      assert t / 2 == s;
    }
  }

  lemma {:induction false} ShlHead(s: nat, n: nat)
    requires s < WORD
    ensures Shl64(s, n + 1) == Shl64((2 * s) % WORD, n)
  {
    if n > 0 { ShlHead(s, n - 1); }
  }

  lemma {:induction false} ShrPlus(s: nat, k: nat, j: nat)
    requires j <= k
    ensures Shr(s + Pow2(k), j) == Shr(s, j) + Pow2(k - j)
  {
    if j > 0 {
      ShrHalves(s, j - 1);
      ShrHalves(s + Pow2(k), j - 1);
      assert (s + Pow2(k)) / 2 == s / 2 + Pow2(k - 1);
      ShrPlus(s / 2, k - 1, j - 1);
    }
  }
}
