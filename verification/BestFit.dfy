/** Why the walks through the large bins find the best fit: where the chunks of at least a
    requested size can be, step by step. */
module BestFit {
  import opened SizeBits
  import opened LargeBins

  /** r is p or below it. */
  ghost predicate InTree(s: Bins, r: Pos, p: Pos) {
    r.w <= p.w && OnPath(s.SizeAt(r), p.w) == p
  }

  /** Every size at r exceeds every size at p and below. */
  ghost predicate Bigger(s: Bins, r: Pos, p: Pos) {
    TreeIndex(s.SizeAt(r)) > p.bin || (TreeIndex(s.SizeAt(r)) == p.bin && Shr(s.SizeAt(r), p.w) > p.q)
  }

  /** The best remainder so far is at least as good as the chunk at r; WORD - nb stands for
      no chunk at all. */
  ghost predicate Covered(s: Bins, r: Pos, nb: nat, rsize: nat) {
    rsize + nb <= s.SizeAt(r)
  }

  /** v is the chunk with remainder rsize, or null. */
  ghost predicate IsBest(s: Bins, v: nat, nb: nat, rsize: nat) {
    if v == 0 then rsize == WORD - nb
    else exists p :: p in s.at && v == s.Head(p) && s.SizeAt(p) == rsize + nb
  }

  lemma BiggerMeans(s: Bins, r: Pos, p: Pos, q: Pos)
    requires Bigger(s, r, p) && p == OnPath(s.SizeAt(q), p.w)
    ensures s.SizeAt(r) > s.SizeAt(q)
  {
    if s.SizeAt(r) <= s.SizeAt(q) {
      IndexMonotone(s.SizeAt(r), s.SizeAt(q));
      ShrMonotone(s.SizeAt(r), s.SizeAt(q), p.w);
      assert false;
    }
  }

  /** Below the head of p come its two halves, each only if its root is there. */
  lemma TreeHalves(s: Bins, r: Pos, p: Pos)
    requires s.Inv() && r in s.at && p in s.at && InTree(s, r, p) && r != p
    ensures p.w > 0
    ensures InTree(s, r, Half(p, 0)) || InTree(s, r, Half(p, 1))
    ensures InTree(s, r, Half(p, 0)) ==> Half(p, 0) in s.at
    ensures InTree(s, r, Half(p, 1)) ==> Half(p, 1) in s.at
    ensures InTree(s, r, Half(p, 1)) ==> Bigger(s, r, Half(p, 0))
  {
    hide TreeIndex, BinWidth, BinPrefix, Bins.Inv;
    HeadNonNull(s, r);
    HeadNonNull(s, p);
    assert r.w < p.w;
    PathStep(s.SizeAt(r), p.w);
    var h := OnPath(s.SizeAt(r), p.w - 1);
    PlaceAbove(s, r, p.w - 1);
  }

  /** The place of a chunk in its bin lies in the tree of the bin's root. */
  lemma InRoot(s: Bins, r: Pos)
    requires s.Inv() && r in s.at
    ensures r.bin < NTREEBINS && r.bin == TreeIndex(s.SizeAt(r)) && MIN_LARGE_SIZE <= s.SizeAt(r) < WORD
    ensures InTree(s, r, Root(r.bin)) && Root(r.bin) in s.at && r.bin in s.marked
  {
    HeadNonNull(s, r);
    IndexPrefix(s.SizeAt(r));
    PlaceAbove(s, r, BinWidth(r.bin));
    HeadNonNull(s, Root(r.bin));
  }

  // ---- The walk along the bits of the request ----

  /** Where a fitting chunk of the request's own bin can be while the walk is at p and rp is
      the deepest right subtree passed by (if any). */
  ghost predicate WalkInv(s: Bins, nb: nat, rsize: nat, p: Pos, rp: Pos, some: bool) {
    && p in s.at && p == OnPath(nb, p.w)
    && (some ==> rp in s.at && p.w <= rp.w && rp.bin == p.bin && Shr(nb, rp.w) + 1 == rp.q)
    && forall r {:trigger Covered(s, r, nb, rsize)} | r in s.at && r.bin == p.bin && s.SizeAt(r) >= nb ::
         Covered(s, r, nb, rsize) || InTree(s, r, p) || (some && (InTree(s, r, rp) || Bigger(s, r, rp)))
  }

  /** ... and after the walk has run out of nodes. */
  ghost predicate WalkDone(s: Bins, nb: nat, rsize: nat, bin: nat, rp: Pos, some: bool) {
    && (some ==> rp in s.at && rp.bin == bin && Shr(nb, rp.w) + 1 == rp.q)
    && forall r {:trigger Covered(s, r, nb, rsize)} | r in s.at && r.bin == bin && s.SizeAt(r) >= nb ::
         Covered(s, r, nb, rsize) || (some && (InTree(s, r, rp) || Bigger(s, r, rp)))
  }

  /** A chunk in the half that the request does not enter is too small, or is in the right
      subtree that is passed by. */
  lemma OtherHalf(s: Bins, nb: nat, r: Pos, p: Pos, b: nat)
    requires s.Inv() && r in s.at && p in s.at && InTree(s, r, p) && r != p && s.SizeAt(r) >= nb
    requires p == OnPath(nb, p.w) && p.w > 0 && b == Shr(nb, p.w - 1) % 2
    ensures InTree(s, r, Half(p, b)) || (b == 0 && InTree(s, r, Half(p, 1)) && Half(p, 1) in s.at)
  {
    hide TreeIndex, BinWidth, BinPrefix, Bins.Inv;
    TreeHalves(s, r, p);
    PathStep(nb, p.w);
    ShrMonotone(nb, s.SizeAt(r), p.w - 1);
  }

  /** Chunks of, or beyond, an outer right subtree are beyond an inner one. */
  lemma OuterIsBigger(s: Bins, nb: nat, r: Pos, outer: Pos, inner: Pos)
    requires InTree(s, r, outer) || Bigger(s, r, outer)
    requires outer.bin == inner.bin == TreeIndex(nb) && inner.w < outer.w
    requires Shr(nb, outer.w) + 1 == outer.q && Shr(nb, inner.w) + 1 == inner.q && inner.q % 2 == 1
    ensures Bigger(s, r, inner)
  {
    hide TreeIndex, BinWidth, BinPrefix;
    var x := s.SizeAt(r);
    if TreeIndex(x) == inner.bin && Shr(x, inner.w) <= inner.q {
      ShrAdds(x, inner.w, 1);
      ShrAdds(nb, inner.w, 1);
      assert Shr(inner.q, 1) == Shr(Shr(nb, inner.w), 1) by { OneShift(inner.q); OneShift(Shr(nb, inner.w)); }
      ShrMonotone(Shr(x, inner.w), inner.q, 1);
      var d := outer.w - inner.w - 1;
      ShrMonotone(Shr(x, inner.w + 1), Shr(nb, inner.w + 1), d);
      ShrAdds(x, inner.w + 1, d);
      ShrAdds(nb, inner.w + 1, d);
      assert false;
    }
  }

  lemma OneShift(x: nat)
    ensures Shr(x, 1) == x / 2
  {
    assert Shr(x, 0) == x;
  }

  /** One step of the walk, after the head of p was looked at. */
  lemma WalkStep(s: Bins, nb: nat, rsize: nat, p: Pos, rp: Pos, some: bool)
    requires s.Inv() && WalkInv(s, nb, rsize, p, rp, some)
    requires s.SizeAt(p) >= nb ==> Covered(s, p, nb, rsize)
    ensures p.w == 0 ==> WalkDone(s, nb, rsize, p.bin, rp, some)
    ensures p.w > 0 ==>
              var b := Shr(nb, p.w - 1) % 2;
              var pass := b == 0 && Half(p, 1) in s.at;
              var rp' := if pass then Half(p, 1) else rp;
              && (Half(p, b) in s.at ==> WalkInv(s, nb, rsize, Half(p, b), rp', some || pass))
              && (Half(p, b) !in s.at ==> WalkDone(s, nb, rsize, p.bin, rp', some || pass))
  {
    hide TreeIndex, BinWidth, BinPrefix, Shr, Bins.Inv, InTree, Bigger, Covered, OnPath;
    if p.w == 0 {
      forall r | r in s.at && r.bin == p.bin && s.SizeAt(r) >= nb
        ensures Covered(s, r, nb, rsize) || (some && (InTree(s, r, rp) || Bigger(s, r, rp)))
      {
        if InTree(s, r, p) && r != p { TreeHalves(s, r, p); }
      }
    } else {
      var b := Shr(nb, p.w - 1) % 2;
      var pass := b == 0 && Half(p, 1) in s.at;
      var rp' := if pass then Half(p, 1) else rp;
      PathHalf(nb, p, b);
      forall r | r in s.at && r.bin == p.bin && s.SizeAt(r) >= nb
        ensures Covered(s, r, nb, rsize) || InTree(s, r, Half(p, b))
             || ((some || pass) && (InTree(s, r, rp') || Bigger(s, r, rp')))
      {
        if InTree(s, r, p) && r != p { OtherHalf(s, nb, r, p, b); }
        if some && pass && (InTree(s, r, rp) || Bigger(s, r, rp)) {
          OuterIsBigger(s, nb, r, rp, Half(p, 1));
        }
      }
      forall r | r in s.at && InTree(s, r, Half(p, b)) ensures Half(p, b) in s.at { HalfPresent(s, r, p, b); }
    }
  }

  lemma PathHalf(nb: nat, p: Pos, b: nat)
    requires p == OnPath(nb, p.w) && p.w > 0 && b == Shr(nb, p.w - 1) % 2
    ensures Half(p, b) == OnPath(nb, p.w - 1) && Half(p, b).bin == p.bin == TreeIndex(nb) && Half(p, b).w == p.w - 1
    ensures b == 0 ==> Shr(nb, p.w - 1) + 1 == Half(p, 1).q && Half(p, 1).q % 2 == 1 && Half(p, 1).w == p.w - 1
  {
    hide TreeIndex;
    PathStep(nb, p.w);
  }

  lemma HalfPresent(s: Bins, r: Pos, p: Pos, b: nat)
    requires s.Inv() && r in s.at && p in s.at && p.w > 0 && InTree(s, r, Half(p, b))
    ensures Half(p, b) in s.at
  {
    hide TreeIndex, BinWidth, BinPrefix, Shr, Bins.Inv;
    HeadNonNull(s, r);
    HeadNonNull(s, p);
    PlaceAbove(s, r, p.w - 1);
  }

  // ---- The walk along leftmost kids ----

  /** Where fitting chunks of any bin can be while the second walk is at p. */
  ghost predicate LeftInv(s: Bins, nb: nat, rsize: nat, p: Pos) {
    && p in s.at
    && (rsize == 0 || TreeIndex(nb) < p.bin || (TreeIndex(nb) == p.bin && Shr(nb, p.w) < p.q))
    && forall r {:trigger Covered(s, r, nb, rsize)} | r in s.at && s.SizeAt(r) >= nb ::
         Covered(s, r, nb, rsize) || InTree(s, r, p) || Bigger(s, r, p)
  }

  ghost predicate AllCovered(s: Bins, nb: nat, rsize: nat) {
    forall r {:trigger Covered(s, r, nb, rsize)} | r in s.at && s.SizeAt(r) >= nb :: Covered(s, r, nb, rsize)
  }

  /** Unless a perfect fit was found, the chunk the walk is at fits. */
  lemma LeftFits(s: Bins, nb: nat, rsize: nat, p: Pos)
    requires s.Inv() && LeftInv(s, nb, rsize, p)
    ensures rsize == 0 || s.SizeAt(p) >= nb
  {
    HeadNonNull(s, p);
    if rsize != 0 && s.SizeAt(p) < nb {
      IndexMonotone(s.SizeAt(p), nb);
      ShrMonotone(s.SizeAt(p), nb, p.w);
      assert false;
    }
  }

  /** One step of the walk, after the head of p was looked at. */
  lemma LeftStep(s: Bins, nb: nat, rsize: nat, p: Pos)
    requires s.Inv() && LeftInv(s, nb, rsize, p) && rsize + nb <= (if rsize == 0 then nb else s.SizeAt(p))
    ensures p.w > 0 && Half(p, 0) in s.at ==> LeftInv(s, nb, rsize, Half(p, 0))
    ensures p.w > 0 && Half(p, 0) !in s.at && Half(p, 1) in s.at ==> LeftInv(s, nb, rsize, Half(p, 1))
    ensures p.w == 0 || (Half(p, 0) !in s.at && Half(p, 1) !in s.at) ==> AllCovered(s, nb, rsize)
  {
    hide TreeIndex, BinWidth, BinPrefix, Bins.Inv, InTree, Bigger, Shr, OnPath;
    forall r | r in s.at && s.SizeAt(r) >= nb && !Covered(s, r, nb, rsize)
      ensures r != p && InTree(s, r, p)
      ensures p.w > 0 && (InTree(s, r, Half(p, 0)) || InTree(s, r, Half(p, 1)))
      ensures InTree(s, r, Half(p, 0)) ==> Half(p, 0) in s.at
      ensures InTree(s, r, Half(p, 1)) ==> Half(p, 1) in s.at && Bigger(s, r, Half(p, 0))
    {
      if Bigger(s, r, p) { PlaceOnPath(s, p); BiggerMeans(s, r, p, p); }
      TreeHalves(s, r, p);
    }
    if p.w > 0 { LaterHalves(nb, p); }
  }

  lemma PlaceOnPath(s: Bins, p: Pos)
    requires s.Inv() && p in s.at
    ensures p == OnPath(s.SizeAt(p), p.w)
  {
    HeadNonNull(s, p);
  }

  /** Both halves of a place beyond the request are beyond it. */
  lemma LaterHalves(nb: nat, p: Pos)
    requires p.w > 0
    ensures Half(p, 0).bin == Half(p, 1).bin == p.bin
    ensures Shr(nb, p.w) < p.q ==>
              Shr(nb, Half(p, 0).w) < Half(p, 0).q && Shr(nb, Half(p, 1).w) < Half(p, 1).q
  {
  }

  // ---- Starting and joining the walks ----

  lemma WalkStart(s: Bins, nb: nat)
    requires s.Inv() && MIN_LARGE_SIZE <= nb < WORD && TreeIndex(nb) in s.marked
    ensures WalkInv(s, nb, WORD - nb, Root(TreeIndex(nb)), Root(0), false)
  {
    IndexPrefix(nb);
    HeadNonNull(s, Root(TreeIndex(nb)));
    forall r | r in s.at && r.bin == TreeIndex(nb) ensures InTree(s, r, Root(TreeIndex(nb))) { InRoot(s, r); }
  }

  /** An unmarked bin holds nothing. */
  lemma NothingInBin(s: Bins, nb: nat)
    requires s.Inv() && MIN_LARGE_SIZE <= nb < WORD && TreeIndex(nb) !in s.marked
    ensures WalkDone(s, nb, WORD - nb, TreeIndex(nb), Root(0), false)
  {
    forall r | r in s.at ensures r.bin != TreeIndex(nb) { InRoot(s, r); }
  }

  /** After a perfect fit everything is covered. */
  lemma PerfectFit(s: Bins, nb: nat, p: Pos)
    requires s.Inv() && p in s.at
    ensures LeftInv(s, nb, 0, p) && AllCovered(s, nb, 0)
  {
  }

  /** From the last right subtree passed by. */
  lemma LeftFromWalk(s: Bins, nb: nat, rsize: nat, rp: Pos)
    requires s.Inv() && WalkDone(s, nb, rsize, TreeIndex(nb), rp, true)
    ensures LeftInv(s, nb, rsize, rp)
  {
    forall r | r in s.at && s.SizeAt(r) >= nb
      ensures Covered(s, r, nb, rsize) || InTree(s, r, rp) || Bigger(s, r, rp)
    {
      InRoot(s, r);
      IndexMonotone(nb, s.SizeAt(r));
    }
  }

  /** Something was found in the request's own bin, and no right subtree is left to search. */
  lemma DoneWithFit(s: Bins, nb: nat, rsize: nat, rp: Pos)
    requires s.Inv() && WalkDone(s, nb, rsize, TreeIndex(nb), rp, false)
    requires exists p :: p in s.at && p.bin == TreeIndex(nb) && s.SizeAt(p) == rsize + nb
    ensures AllCovered(s, nb, rsize)
  {
    var p :| p in s.at && p.bin == TreeIndex(nb) && s.SizeAt(p) == rsize + nb;
    InRoot(s, p);
    forall r | r in s.at && s.SizeAt(r) >= nb ensures Covered(s, r, nb, rsize) {
      InRoot(s, r);
      IndexMonotone(nb, s.SizeAt(r));
      if s.SizeAt(r) < s.SizeAt(p) { IndexMonotone(s.SizeAt(r), s.SizeAt(p)); }
    }
  }

  /** Nothing fits in the request's own bin: the least marked bin above it comes next. */
  lemma NextBin(s: Bins, nb: nat, rp: Pos, i: nat)
    requires s.Inv() && nb < WORD && WalkDone(s, nb, WORD - nb, TreeIndex(nb), rp, false)
    requires i in s.marked && i > TreeIndex(nb) && forall k | k in s.marked && k > TreeIndex(nb) :: i <= k
    ensures LeftInv(s, nb, WORD - nb, Root(i))
  {
    HeadNonNull(s, Root(i));
    forall r | r in s.at && s.SizeAt(r) >= nb ensures InTree(s, r, Root(i)) || Bigger(s, r, Root(i)) {
      InRoot(s, r);
      IndexMonotone(nb, s.SizeAt(r));
      assert !Covered(s, r, nb, WORD - nb);
    }
  }

  lemma NoBinLeft(s: Bins, nb: nat, rp: Pos)
    requires s.Inv() && nb < WORD && WalkDone(s, nb, WORD - nb, TreeIndex(nb), rp, false)
    requires forall k | k in s.marked :: k <= TreeIndex(nb)
    ensures forall r | r in s.at :: s.SizeAt(r) < nb
  {
    forall r | r in s.at ensures s.SizeAt(r) < nb {
      InRoot(s, r);
      assert !Covered(s, r, nb, WORD - nb);
      if s.SizeAt(r) >= nb {
        IndexMonotone(nb, s.SizeAt(r));
        assert false;
      }
    }
  }

  /** For a small request every chunk fits; the least marked bin holds the smallest. */
  lemma SmallStart(s: Bins, nb: nat, i: nat)
    requires s.Inv() && 0 < nb < MIN_LARGE_SIZE && i in s.marked && forall k | k in s.marked :: i <= k
    ensures Root(i) in s.at
    ensures forall r | r in s.at :: InTree(s, r, Root(i)) || Bigger(s, r, Root(i))
  {
    HeadNonNull(s, Root(i));
    forall r | r in s.at ensures InTree(s, r, Root(i)) || Bigger(s, r, Root(i)) { InRoot(s, r); }
  }

  // ---- Looking at one node ----

  /** The unsigned remainder is less than the best one so far exactly when the chunk fits
      better. */
  lemma Remainder(s: Bins, p: Pos, nb: nat, v: nat, rsize: nat)
    requires s.Inv() && p in s.at && 0 < nb < WORD && IsBest(s, v, nb, rsize)
    ensures var trem := (s.SizeAt(p) - nb) % WORD;
            trem < rsize <==> nb <= s.SizeAt(p) < rsize + nb
    ensures nb <= s.SizeAt(p) ==> (s.SizeAt(p) - nb) % WORD == s.SizeAt(p) - nb
    ensures rsize <= WORD - nb && s.SizeAt(p) < WORD
  {
    HeadNonNull(s, p);
    if v != 0 {
      var q :| q in s.at && v == s.Head(q) && s.SizeAt(q) == rsize + nb;
      HeadNonNull(s, q);
    }
    var d := s.SizeAt(p) - nb;
    if d >= 0 { assert d % WORD == d; } else { assert d % WORD == d + WORD; }
  }

  /** A better fit covers what the worse one covered. */
  lemma CoverMore(s: Bins, nb: nat, rsize: nat, better: nat)
    requires better <= rsize
    ensures forall r :: Covered(s, r, nb, rsize) ==> Covered(s, r, nb, better)
  {
  }

  lemma WalkBetter(s: Bins, nb: nat, rsize: nat, better: nat, p: Pos, rp: Pos, some: bool)
    requires WalkInv(s, nb, rsize, p, rp, some) && better <= rsize
    ensures WalkInv(s, nb, better, p, rp, some)
  {
    hide InTree, Bigger, OnPath, Shr;
    CoverMore(s, nb, rsize, better);
    forall r | r in s.at && r.bin == p.bin && s.SizeAt(r) >= nb
      ensures Covered(s, r, nb, better) || InTree(s, r, p) || (some && (InTree(s, r, rp) || Bigger(s, r, rp)))
    {
      assert Covered(s, r, nb, rsize) ==> Covered(s, r, nb, better);
    }
  }

  lemma LeftBetter(s: Bins, nb: nat, rsize: nat, better: nat, p: Pos)
    requires LeftInv(s, nb, rsize, p) && better <= rsize
    ensures LeftInv(s, nb, better, p)
  {
    hide InTree, Bigger, OnPath, Shr, TreeIndex;
    forall r | r in s.at && s.SizeAt(r) >= nb
      ensures Covered(s, r, nb, better) || InTree(s, r, p) || Bigger(s, r, p)
    {
      assert Covered(s, r, nb, rsize) ==> Covered(s, r, nb, better);
    }
  }
}
