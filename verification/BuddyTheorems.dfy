/** What the pool invariant implies: the free blocks are a function of the set of free pages,
    allocation is complete, and the counters of the pool balance. */
module BuddyTheorems {
  import opened Powers
  import opened Queues
  import opened BuddyPool

  // ---- Canonical form ----

  /** [h, h + 2^k) is an aligned run of free pages that is not half of a larger such run. */
  ghost predicate MaximalRun(free: set<nat>, orders: nat, h: nat, k: nat) {
    && k < orders && Aligned(h, k) && Block(h, k) <= free
    && (k + 1 < orders ==> !(Block(MaskLow(h, k + 1), k + 1) <= free))
  }

  lemma InFreeSet(s: Pool, h: nat, k: nat)
    requires s.Tiled() && Block(h, k) <= s.FreeSet()
    ensures h < |s.hd| && s.IsFree(s.hd[h])
    ensures forall p: nat :: Within(p, h, k) ==> p < |s.hd| && s.IsFree(s.hd[p])
  {
    forall p: nat | Within(p, h, k) ensures p < |s.hd| && s.IsFree(s.hd[p]) {
      assert p in Block(h, k);
    }
    assert Within(h, h, k);
  }

  /** Every aligned all-free run lies inside one free block. */
  lemma {:induction false} RunInsideBlock(s: Pool, h: nat, k: nat)
    requires s.Inv() && s.held == {}
    requires k < |s.lists| && Aligned(h, k) && Block(h, k) <= s.FreeSet()
    ensures h < |s.hd|
    ensures var g := s.hd[h];
            s.IsFree(g) && s.frames[g].order >= k
            && g <= h && h + Pow2(k) <= g + Pow2(s.frames[g].order)
    decreases k
  {
    hide *;
    FreeBlockAt(s, h, k);
    var g := s.hd[h];
    if k > 0 {
      HalvesOfRun(h, k - 1);
      var m := h + Pow2(k - 1);
      RunInsideBlock(s, h, k - 1);
      RunInsideBlock(s, m, k - 1);
      NotJustHalf(s, h, k - 1);
    }
    NestedOrDisjoint(h, k, g, s.frames[g].order);
  }

  lemma FreeBlockAt(s: Pool, h: nat, k: nat)
    requires s.Inv() && Block(h, k) <= s.FreeSet()
    ensures h < |s.hd|
    ensures var g := s.hd[h];
            && g < |s.frames| && s.IsFree(g) && g <= h < g + Pow2(s.frames[g].order)
            && Aligned(g, s.frames[g].order) && Pow2(0) == 1
  {
    InFreeSet(s, h, k);
    hide Aligned, Pool.Disjoint, Pool.StateOnHeads, Pool.Listed, Pool.Coalesced, Pool.Clustered, Pool.UsesRecorded;
    assert s.InBlock(s.hd[h], h);
  }

  lemma HalvesOfRun(h: nat, k: nat)
    requires Aligned(h, k + 1)
    ensures Aligned(h, k) && Aligned(h + Pow2(k), k)
    ensures Flip(h, k) == h + Pow2(k)
    ensures Block(h, k) <= Block(h, k + 1) && Block(h + Pow2(k), k) <= Block(h, k + 1)
  {
    LowerAlignment(h, k);
    HalfOfParent(h, k);
    assert Pow2(k + 1) == 2 * Pow2(k);
    forall p: nat | p in Block(h, k) || p in Block(h + Pow2(k), k) ensures p in Block(h, k + 1) {
      assert Within(p, h, k) || Within(p, h + Pow2(k), k);
      assert Within(p, h, k + 1);
    }
  }

  /** If both halves are free, the first is not a block of its own: the two would be free
      buddies. */
  lemma NotJustHalf(s: Pool, h: nat, k: nat)
    requires s.Inv() && k + 1 < |s.lists| && Aligned(h, k + 1)
    requires var m := h + Pow2(k);
             && h < |s.hd| && m < |s.hd|
             && s.IsFree(s.hd[h]) && s.hd[h] <= h && h + Pow2(k) <= s.hd[h] + Pow2(s.frames[s.hd[h]].order)
             && s.IsFree(s.hd[m]) && s.frames[s.hd[m]].order >= k && s.hd[m] <= m
             && m + Pow2(k) <= s.hd[m] + Pow2(s.frames[s.hd[m]].order)
    ensures s.frames[s.hd[h]].order != k
  {
    hide Pow2, Aligned, Flip, Pool.Inv;
    HalvesOfRun(h, k);
    DoublePow2(k);
    var g := s.hd[h + Pow2(k)];
    var j := s.frames[g].order;
    AlignedHead(s, g);
    if j > k {
      NestedOrDisjoint(h, k + 1, g, j);
      OwnHead(s, g, h);
    } else if s.frames[s.hd[h]].order == k {
      AlignedApart(g, h + Pow2(k), k);
      NoFreeBuddies(s, h, k);
    }
  }

  lemma AlignedHead(s: Pool, g: nat)
    requires s.Inv() && s.IsHead(g)
    ensures g < |s.frames| && Aligned(g, s.frames[g].order)
  {
  }

  /** Each page of a block has the block's head. */
  lemma OwnHead(s: Pool, g: nat, p: nat)
    requires s.Inv() && s.IsHead(g) && g < |s.frames| && p < |s.hd| && g <= p < g + Pow2(s.frames[g].order)
    ensures s.hd[p] == g
  {
    assert s.InBlock(g, p);
  }

  lemma NoFreeBuddies(s: Pool, h: nat, k: nat)
    requires s.Inv() && s.IsFree(h) && s.frames[h].order == k && k + 1 < |s.lists| && s.IsFree(Flip(h, k))
    ensures s.frames[Flip(h, k)].order != k
  {
  }

  lemma DoublePow2(k: nat)
    ensures Pow2(k + 1) == 2 * Pow2(k)
  {
  }

  /** The free blocks of a pool are exactly the maximal aligned runs of free pages: they do
      not depend on the history of the pool. */
  lemma FreeBlocksAreMaximalRuns(s: Pool, h: nat, k: nat)
    requires s.Inv() && s.held == {} && k < |s.lists|
    ensures h in s.lists[k] <==> MaximalRun(s.FreeSet(), |s.lists|, h, k)
  {
    if h in s.lists[k] {
      BlockIsFree(s, h);
      HalfOfParent(h, k);
      if k + 1 < |s.lists| { NotWholeParent(s, h, k); }
    }
    if MaximalRun(s.FreeSet(), |s.lists|, h, k) {
      RunInsideBlock(s, h, k);
      var g := s.hd[h];
      if s.frames[g].order > k {
        BlockIsFree(s, g);
        ParentInside(h, k, g, s.frames[g].order);
        assert false;
      }
      assert g == h;
    }
  }

  lemma BlockIsFree(s: Pool, h: nat)
    requires s.Tiled() && s.IsFree(h)
    ensures Block(h, s.frames[h].order) <= s.FreeSet()
  {
    forall p: nat | p in Block(h, s.frames[h].order) ensures p in s.FreeSet() {
      assert Within(p, h, s.frames[h].order);
      assert s.InBlock(h, p);
    }
  }

  lemma NotWholeParent(s: Pool, h: nat, k: nat)
    requires s.Inv() && s.held == {} && k + 1 < |s.lists|
    requires s.IsFree(h) && s.frames[h].order == k
    ensures !(Block(MaskLow(h, k + 1), k + 1) <= s.FreeSet())
  {
    hide Pow2, Aligned, Flip, MaskLow, Block, Pool.FreeSet, Pool.Inv;
    var up := MaskLow(h, k + 1);
    AlignedHead(s, h);
    HalfOfParent(h, k);
    if Block(up, k + 1) <= s.FreeSet() {
      RunInsideBlock(s, up, k + 1);
      DoublePow2(k);
      SoundLists(s);
      OwnHead(s, s.hd[up], h);
    }
  }

  lemma ParentInside(h: nat, k: nat, g: nat, j: nat)
    requires Aligned(h, k) && Aligned(g, j) && k < j
    requires g <= h && h + Pow2(k) <= g + Pow2(j)
    ensures Block(MaskLow(h, k + 1), k + 1) <= Block(g, j)
  {
    HalfOfParent(h, k);
    var up := MaskLow(h, k + 1);
    DoublePow2(k);
    NestedOrDisjoint(up, k + 1, g, j);
    forall p: nat | p in Block(up, k + 1) ensures p in Block(g, j) {
      assert Within(p, up, k + 1);
      assert Within(p, g, j);
    }
  }

  /** Two pools with the same free pages have the same free blocks, order by order, and
      hence the same free_nr counts. */
  lemma SamePagesSameBlocks(s: Pool, t: Pool)
    requires s.Inv() && t.Inv() && s.held == t.held == {} && |s.lists| == |t.lists|
    requires s.FreeSet() == t.FreeSet()
    ensures forall k | 0 <= k < |s.lists| :: multiset(s.lists[k]) == multiset(t.lists[k])
    ensures forall k | 0 <= k < |s.lists| :: |s.lists[k]| == |t.lists[k]|
  {
    forall k | 0 <= k < |s.lists|
      ensures multiset(s.lists[k]) == multiset(t.lists[k]) && |s.lists[k]| == |t.lists[k]|
    {
      forall h: nat ensures h in s.lists[k] <==> h in t.lists[k] {
        FreeBlocksAreMaximalRuns(s, h, k);
        FreeBlocksAreMaximalRuns(t, h, k);
      }
      SameElements(s.lists[k], t.lists[k]);
    }
  }

  lemma SameElements(q: seq<nat>, r: seq<nat>)
    requires Distinct(q) && Distinct(r) && forall x :: x in q <==> x in r
    ensures multiset(q) == multiset(r) && |q| == |r|
  {
    forall x ensures multiset(q)[x] == multiset(r)[x] {
      OnceEach(q, x);
      OnceEach(r, x);
    }
    assert multiset(q) == multiset(r);
    assert |q| == |multiset(q)| && |r| == |multiset(r)|;
  }

  lemma {:induction false} OnceEach(q: seq<nat>, x: nat)
    requires Distinct(q)
    ensures multiset(q)[x] == if x in q then 1 else 0
  {
    if q != [] {
      assert q == [q[0]] + q[1..];
      assert x in q <==> x == q[0] || x in q[1..];
      OnceEach(q[1..], x);
      assert Distinct(q[1..]) && q[0] !in q[1..];
    }
  }

  // ---- Completeness ----

  /** There is an aligned run of 2^k free pages. */
  ghost predicate HasRun(free: set<nat>, k: nat) {
    exists h: nat :: Aligned(h, k) && Block(h, k) <= free
  }

  /** A block of order at least k is queued exactly when some aligned run of 2^k pages is free. */
  lemma SearchIsComplete(s: Pool, k: nat)
    requires s.Inv() && s.held == {} && k < |s.lists|
    ensures (exists j :: k <= j < |s.lists| && s.lists[j] != []) <==> HasRun(s.FreeSet(), k)
  {
    if j :| k <= j < |s.lists| && s.lists[j] != [] {
      var h := s.lists[j][0];
      assert h in s.lists[j];
      BlockIsFree(s, h);
      SmallerRun(h, j, k);
      assert Block(h, k) <= s.FreeSet();
    }
    if HasRun(s.FreeSet(), k) {
      var h: nat :| Aligned(h, k) && Block(h, k) <= s.FreeSet();
      RunInsideBlock(s, h, k);
      var g := s.hd[h];
      FitsPool(s, g);
      assert g in s.lists[s.frames[g].order];
      assert s.lists[s.frames[g].order] != [];
    }
  }

  lemma {:induction false} SmallerRun(h: nat, j: nat, k: nat)
    requires Aligned(h, j) && k <= j
    ensures Aligned(h, k) && Block(h, k) <= Block(h, j)
    decreases j - k
  {
    if k < j {
      HalvesOfRun(h, j - 1);
      SmallerRun(h, j - 1, k);
    }
  }

  // ---- Counting pages ----

  /** The sum of the weights of the frames. */
  function Total(frames: seq<Frame>, w: Frame -> int): int {
    if frames == [] then 0 else w(frames[0]) + Total(frames[1..], w)
  }

  lemma {:induction false} TotalUpdate(frames: seq<Frame>, i: nat, v: Frame, w: Frame -> int)
    requires i < |frames|
    ensures Total(frames[i := v], w) == Total(frames, w) - w(frames[i]) + w(v)
  {
    if i > 0 {
      TotalUpdate(frames[1..], i - 1, v, w);
      assert frames[i := v][1..] == frames[1..][i - 1 := v];
    } else {
      assert frames[0 := v][1..] == frames[1..];
    }
  }

  lemma {:induction false} TotalSame(a: seq<Frame>, b: seq<Frame>, w: Frame -> int)
    requires |a| == |b| && forall i | 0 <= i < |a| :: w(a[i]) == w(b[i])
    ensures Total(a, w) == Total(b, w)
  {
    if a != [] { TotalSame(a[1..], b[1..], w); }
  }

  lemma {:induction false} TotalZero(a: seq<Frame>, w: Frame -> int)
    requires forall i | 0 <= i < |a| :: w(a[i]) >= 0
    ensures Total(a, w) >= 0
    ensures Total(a, w) == 0 <==> forall i | 0 <= i < |a| :: w(a[i]) == 0
  {
    if a != [] {
      TotalZero(a[1..], w);
      assert forall i | 0 < i < |a| :: a[i] == a[1..][i - 1];
      if Total(a, w) == 0 {
        assert forall i | 0 <= i < |a| :: w(a[i]) == if i == 0 then w(a[0]) else w(a[1..][i - 1]);
      } else if w(a[0]) == 0 {
        var i :| 0 <= i < |a[1..]| && w(a[1..][i]) != 0;
        assert w(a[i + 1]) != 0;
      }
    }
  }

  /** Pages of the block that f heads, if f is used for u. */
  function UsedFor(u: Usage): Frame -> int {
    (f: Frame) => if f.used && u in f.ucase then Pow2(f.order) else 0
  }

  /** Pages of the block that f heads, if f is used at all. */
  function UsedPages(): Frame -> int {
    (f: Frame) => if f.used then Pow2(f.order) else 0
  }

  function ReservedPages(): Frame -> int {
    (f: Frame) => if f.reserved then 1 else 0
  }

  /** `sum over k of free_nr[k] << k`, over the first n orders. */
  function FreePages(freeNr: seq<int>, n: nat): int
    requires n <= |freeNr|
  {
    if n == 0 then 0 else FreePages(freeNr, n - 1) + freeNr[n - 1] * Pow2(n - 1)
  }

  lemma {:induction false} FreePagesUpdate(q: seq<int>, n: nat, k: nat, d: int)
    requires n <= |q| && k < |q|
    ensures FreePages(q[k := q[k] + d], n) == FreePages(q, n) + if k < n then d * Pow2(k) else 0
  {
    if n > 0 {
      FreePagesUpdate(q, n - 1, k, d);
      if k == n - 1 { assert (q[k] + d) * Pow2(k) == q[k] * Pow2(k) + d * Pow2(k); }
    }
  }

  lemma {:induction false} UsesAddUp(frames: seq<Frame>)
    requires forall i | 0 <= i < |frames| && frames[i].used :: exists u :: frames[i].ucase == {u}
    ensures Total(frames, UsedPages()) ==
              Total(frames, UsedFor(Kern)) + Total(frames, UsedFor(KStack)) + Total(frames, UsedFor(PgTbl))
              + Total(frames, UsedFor(Slab)) + Total(frames, UsedFor(Anon)) + Total(frames, UsedFor(PCache))
  {
    if frames != [] {
      UsesAddUp(frames[1..]);
      var f := frames[0];
      if f.used {
        var u :| f.ucase == {u};
        assert forall v :: v in f.ucase <==> v == u;
        assert u == Kern || u == KStack || u == PgTbl || u == Slab || u == Anon || u == PCache;
      }
    }
  }

  /** The counters of a pool. */
  datatype Counters = Counters(freeNr: seq<int>, available: int, usagePages: map<Usage, int>)

  /** The counters agree with the pool, `transit` pages being in the block held. */
  ghost predicate Balanced(s: Pool, c: Counters, transit: nat) {
    && |c.freeNr| == |s.lists|
    && (forall k | 0 <= k < |s.lists| :: c.freeNr[k] == |s.lists[k]|)
    && (forall u: Usage :: u in c.usagePages && c.usagePages[u] == Total(s.frames, UsedFor(u)))
    && FreePages(c.freeNr, |s.lists|) + Total(s.frames, UsedPages())
       + Total(s.frames, ReservedPages()) + transit == |s.frames|
    && c.available + Total(s.frames, ReservedPages()) == |s.frames|
  }

  /** Frames with the same states count the same. */
  ghost predicate SameStates(a: seq<Frame>, b: seq<Frame>) {
    |a| == |b| &&
    forall i | 0 <= i < |a| ::
      a[i].used == b[i].used && a[i].reserved == b[i].reserved &&
      (a[i].used ==> a[i].order == b[i].order && a[i].ucase == b[i].ucase)
  }

  lemma SameTotals(a: seq<Frame>, b: seq<Frame>)
    requires SameStates(a, b)
    ensures forall u: Usage :: Total(a, UsedFor(u)) == Total(b, UsedFor(u))
    ensures Total(a, UsedPages()) == Total(b, UsedPages())
    ensures Total(a, ReservedPages()) == Total(b, ReservedPages())
  {
    forall u: Usage ensures Total(a, UsedFor(u)) == Total(b, UsedFor(u)) {
      TotalSame(a, b, UsedFor(u));
    }
    TotalSame(a, b, UsedPages());
    TotalSame(a, b, ReservedPages());
  }

  function Bump(c: Counters, k: nat, d: int): Counters
    requires k < |c.freeNr|
  {
    c.(freeNr := c.freeNr[k := c.freeNr[k] + d])
  }

  lemma DetachBalanced(s: Pool, c: Counters, h: nat)
    requires s.Tiled() && s.IsHead(h) && s.frames[h].order < |s.lists|
    requires h in s.lists[s.frames[h].order] && Balanced(s, c, 0)
    ensures Balanced(Detach(s, h), Bump(c, s.frames[h].order, -1), Pow2(s.frames[h].order))
  {
    FreePagesUpdate(c.freeNr, |c.freeNr|, s.frames[h].order, -1);
  }

  lemma SplitBalanced(s: Pool, c: Counters, h: nat)
    requires s.Tiled() && s.held == {h} && s.frames[h].order > 0 && s.Blank(h)
    requires h + Pow2(s.frames[h].order - 1) < |s.frames|
    requires Balanced(s, c, Pow2(s.frames[h].order))
    ensures Balanced(Split(s, h), Bump(c, s.frames[h].order - 1, 1), Pow2(s.frames[h].order - 1))
  {
    var k := s.frames[h].order - 1;
    FreePagesUpdate(c.freeNr, |c.freeNr|, k, 1);
    DoublePow2(k);
    SplitStates(s, h);
    hide Pow2, Aligned, SameStates, Pool.Tiled, Pool.Blank, Total, FreePages;
    SameTotals(s.frames, Split(s, h).frames);
  }

  lemma SplitStates(s: Pool, h: nat)
    requires s.Tiled() && s.held == {h} && s.frames[h].order > 0 && s.Blank(h)
    requires h + Pow2(s.frames[h].order - 1) < |s.frames|
    ensures SameStates(s.frames, Split(s, h).frames) && s.frames[h].order <= |s.lists|
  {
    SplitGeometry(s, h);
    hide Pow2, Aligned, Pool.Covered, Pool.Disjoint;
    assert s.hd[h + Pow2(s.frames[h].order - 1)] == h;
  }

  lemma MergeBalanced(s: Pool, c: Counters, h: nat)
    requires s.Tiled() && s.held == {h} && h < |s.frames| && CanMerge(s, h) && !s.frames[h].used
             && !s.frames[h].reserved
    requires MaskLow(h, s.frames[h].order + 1) < |s.frames|
    requires Flip(h, s.frames[h].order) in s.lists[s.frames[h].order]
    requires Balanced(s, c, Pow2(s.frames[h].order))
    ensures Balanced(Merge(s, h), Bump(c, s.frames[h].order, -1), Pow2(s.frames[h].order + 1))
  {
    hide Pow2, Aligned, Flip, MaskLow, SameStates, Merge, Pool.Tiled, Total, FreePages;
    var k := s.frames[h].order;
    FreePagesUpdate(c.freeNr, |c.freeNr|, k, -1);
    DoublePow2(k);
    MergeStates(s, h);
    MergeLists(s, h);
    SameTotals(s.frames, Merge(s, h).frames);
  }

  lemma MergeStates(s: Pool, h: nat)
    requires s.Tiled() && s.held == {h} && CanMerge(s, h) && !s.frames[h].used && !s.frames[h].reserved
    requires MaskLow(h, s.frames[h].order + 1) < |s.frames|
    ensures SameStates(s.frames, Merge(s, h).frames) && s.frames[h].order < |s.lists|
  {
    MergeGeometry(s, h);
    hide Pow2, Aligned, Flip, MaskLow, Pool.Covered, Pool.Disjoint, Pool.Shaped;
  }

  lemma DepositBalanced(s: Pool, c: Counters, h: nat)
    requires h < |s.frames| && s.frames[h].order < |s.lists| && Balanced(s, c, Pow2(s.frames[h].order))
    ensures Balanced(Deposit(s, h), Bump(c, s.frames[h].order, 1), 0)
  {
    FreePagesUpdate(c.freeNr, |c.freeNr|, s.frames[h].order, 1);
    SameTotals(s.frames, Deposit(s, h).frames);
  }

  lemma HandOutBalanced(s: Pool, c: Counters, h: nat, u: Usage)
    requires s.Tiled() && s.Blank(h) && Balanced(s, c, Pow2(s.frames[h].order))
    ensures u in c.usagePages
    ensures Balanced(HandOut(s, h, u),
                     c.(usagePages := c.usagePages[u := c.usagePages[u] + Pow2(s.frames[h].order)]), 0)
  {
    hide Pow2, Total, FreePages, MarkCluster, SameStates, Pool.Tiled, Pool.Blank;
    MarkedFrames(s, h);
    var f := MarkCluster(s.frames, h);
    var v := f[h].(used := true, ucase := f[h].ucase + {u}, usecnt := 1);
    SameTotals(s.frames, f);
    TotalUpdate(f, h, v, UsedPages());
    TotalUpdate(f, h, v, ReservedPages());
    forall w: Usage
      ensures Total(f[h := v], UsedFor(w)) == Total(f, UsedFor(w)) + if w == u then Pow2(s.frames[h].order) else 0
    {
      TotalUpdate(f, h, v, UsedFor(w));
    }
  }

  lemma MarkedFrames(s: Pool, h: nat)
    requires s.Tiled() && s.Blank(h)
    ensures var f := MarkCluster(s.frames, h);
            && SameStates(s.frames, f) && h < |f| == |s.frames| && f[h].order == s.frames[h].order
            && !f[h].used && !f[h].reserved && f[h].ucase == {}
  {
  }

  lemma ReserveBalanced(s: Pool, c: Counters, h: nat)
    requires s.Tiled() && s.Blank(h) && s.frames[h].order == 0 && Balanced(s, c, 1)
    ensures Balanced(Reserve(s, h), c.(available := c.available - 1), 0)
  {
    var f := MarkCluster(s.frames, h);
    var v := f[h].(reserved := true);
    SameTotals(s.frames, f);
    TotalUpdate(f, h, v, ReservedPages());
    TotalUpdate(f, h, v, UsedPages());
    forall w: Usage ensures Total(f[h := v], UsedFor(w)) == Total(f, UsedFor(w)) {
      TotalUpdate(f, h, v, UsedFor(w));
    }
  }

  lemma ReleaseUsedBalanced(s: Pool, c: Counters, h: nat)
    requires h < |s.frames| && s.frames[h].used && !s.frames[h].reserved && Balanced(s, c, 0)
    ensures forall u: Usage :: u in c.usagePages
    ensures Balanced(Release(s, h), c.(usagePages := LessUse(c.usagePages, s.frames[h])), Pow2(s.frames[h].order))
  {
    var v := s.frames[h].(used := false, reserved := false, ucase := {});
    TotalUpdate(s.frames, h, v, UsedPages());
    TotalUpdate(s.frames, h, v, ReservedPages());
    forall w: Usage
      ensures Total(s.frames[h := v], UsedFor(w)) ==
                Total(s.frames, UsedFor(w)) - if w in s.frames[h].ucase then Pow2(s.frames[h].order) else 0
    {
      TotalUpdate(s.frames, h, v, UsedFor(w));
    }
  }

  /** `unmark_page_usage`: every use bit that is set takes the block off its counter. */
  function LessUse(pages: map<Usage, int>, f: Frame): map<Usage, int> {
    map u | u in pages :: if u in f.ucase then pages[u] - Pow2(f.order) else pages[u]
  }

  lemma ReleaseReservedBalanced(s: Pool, c: Counters, h: nat)
    requires h < |s.frames| && s.frames[h].reserved && !s.frames[h].used && s.frames[h].order == 0
    requires Balanced(s, c, 0)
    ensures Balanced(Release(s, h), c.(available := c.available + 1), 1)
  {
    var v := s.frames[h].(used := false, reserved := false, ucase := {});
    TotalUpdate(s.frames, h, v, UsedPages());
    TotalUpdate(s.frames, h, v, ReservedPages());
    forall w: Usage ensures Total(s.frames[h := v], UsedFor(w)) == Total(s.frames, UsedFor(w)) {
      TotalUpdate(s.frames, h, v, UsedFor(w));
    }
  }

  /** Free pages plus pages in use make up the available pages, so the test that decides
      whether a pool can be removed finds a difference exactly when a block is in use. */
  lemma AvailableIsFreePlusUsed(s: Pool, c: Counters)
    requires s.Inv() && s.held == {} && Balanced(s, c, 0)
    ensures c.available == FreePages(c.freeNr, |c.freeNr|)
              + c.usagePages[Kern] + c.usagePages[KStack] + c.usagePages[PgTbl]
              + c.usagePages[Slab] + c.usagePages[Anon] + c.usagePages[PCache]
    ensures c.available != FreePages(c.freeNr, |c.freeNr|) <==>
            exists h | 0 <= h < |s.frames| :: s.frames[h].used
  {
    UsesAddUp(s.frames) by {
      forall i | 0 <= i < |s.frames| && s.frames[i].used ensures exists u :: s.frames[i].ucase == {u} {
        assert s.IsHead(i);
      }
    }
    TotalZero(s.frames, UsedPages());
  }

  // ---- The states of a pool between and during operations ----

  /** A pool between operations. */
  ghost predicate AtRest(s: Pool, c: Counters) {
    s.held == {} && s.Inv() && Balanced(s, c, 0)
  }

  /** A pool whose block h an operation has taken out of every queue and every count. */
  ghost predicate InTransit(s: Pool, c: Counters, h: nat) {
    && s.held == {h} && s.Inv() && Balanced(s, c, Pow2(s.frames[h].order))
    && s.IsHead(h) && !s.frames[h].used && !s.frames[h].reserved && s.frames[h].ucase == {}
  }

  /** ... and which was free before. */
  ghost predicate Taken(s: Pool, c: Counters, h: nat) {
    InTransit(s, c, h) && s.Blank(h)
  }

  lemma BlockHalves(h: nat, k: nat)
    ensures Block(h, k + 1) == Block(h, k) + Block(h + Pow2(k), k)
    ensures Block(h, k) !! Block(h + Pow2(k), k)
  {
    forall p: nat ensures p in Block(h, k + 1) <==> p in Block(h, k) || p in Block(h + Pow2(k), k) {
      assert p in Block(h, k + 1) <==> Within(p, h, k + 1);
      assert p in Block(h, k) <==> Within(p, h, k);
      assert p in Block(h + Pow2(k), k) <==> Within(p, h + Pow2(k), k);
    }
  }

  lemma SplitTaken(s: Pool, c: Counters, h: nat)
    requires Taken(s, c, h) && 0 < s.frames[h].order
    ensures h + Pow2(s.frames[h].order - 1) < |s.frames| && s.frames[h].order <= |c.freeNr| == |s.lists|
    ensures var k := s.frames[h].order - 1;
            && Flip(h, k) == h + Pow2(k)
            && Taken(Split(s, h), Bump(c, k, 1), h)
            && Split(s, h).FreeSet() == s.FreeSet() + (Block(h, k + 1) - Block(h, k))
  {
    hide Pow2, Aligned, Flip, Total, FreePages, Pool.FreeSet, Pool.Covered, Pool.Disjoint, Pool.Shaped,
      Pool.StateOnHeads, Pool.Listed, Pool.Coalesced, Pool.UsesRecorded, Pool.Clustered;
    SplitGeometry(s, h);
    SplitKeeps(s, h);
    SplitBalanced(s, c, h);
    BlockHalves(h, s.frames[h].order - 1);
  }

  lemma DetachTaken(s: Pool, c: Counters, h: nat)
    requires AtRest(s, c) && s.IsFree(h)
    ensures s.frames[h].order < |s.lists| == |c.freeNr| && h in s.lists[s.frames[h].order]
    ensures var k := s.frames[h].order;
            && Taken(Detach(s, h), Bump(c, k, -1), h)
            && Detach(s, h).FreeSet() == s.FreeSet() - Block(h, k)
            && Block(h, k) <= s.FreeSet()
  {
    DetachKeeps(s, h);
    BlockIsFree(s, h);
    DetachBalanced(s, c, h);
    hide Pow2, Aligned, Flip, Total, FreePages, Pool.FreeSet, Pool.Covered, Pool.Disjoint, Pool.Shaped,
      Pool.StateOnHeads, Pool.Listed, Pool.Coalesced, Pool.UsesRecorded, Pool.Clustered;
  }

  lemma HandOutRest(s: Pool, c: Counters, h: nat, u: Usage)
    requires Taken(s, c, h)
    ensures u in c.usagePages
    ensures var t := HandOut(s, h, u);
            && AtRest(t, c.(usagePages := c.usagePages[u := c.usagePages[u] + Pow2(s.frames[h].order)]))
            && t.FreeSet() == s.FreeSet()
            && t.IsHead(h) && t.frames[h].used && t.frames[h].ucase == {u}
            && t.frames[h].order == s.frames[h].order
  {
    HandOutKeeps(s, h, u);
    HandOutBalanced(s, c, h, u);
    hide Pow2, Aligned, Flip, Total, FreePages, Pool.FreeSet, Pool.Covered, Pool.Disjoint, Pool.Shaped,
      Pool.StateOnHeads, Pool.Listed, Pool.Coalesced, Pool.UsesRecorded, Pool.Clustered;
  }

  lemma ReserveRest(s: Pool, c: Counters, h: nat)
    requires Taken(s, c, h) && s.frames[h].order == 0
    ensures var t := Reserve(s, h);
            && AtRest(t, c.(available := c.available - 1)) && t.FreeSet() == s.FreeSet()
            && t.IsHead(h) && t.frames[h].reserved
  {
    ReserveKeeps(s, h);
    assert Pow2(0) == 1;
    ReserveBalanced(s, c, h);
    hide Pow2, Aligned, Flip, Total, FreePages, Pool.FreeSet, Pool.Covered, Pool.Disjoint, Pool.Shaped,
      Pool.StateOnHeads, Pool.Listed, Pool.Coalesced, Pool.UsesRecorded, Pool.Clustered;
  }

  lemma ReleaseUsed(s: Pool, c: Counters, h: nat)
    requires AtRest(s, c) && h < |s.frames| && s.frames[h].used
    ensures var t := Release(s, h);
            && InTransit(t, c.(usagePages := LessUse(c.usagePages, s.frames[h])), h)
            && t.FreeSet() == s.FreeSet()
  {
    assert s.IsHead(h);
    ReleaseKeeps(s, h);
    ReleaseUsedBalanced(s, c, h);
    hide Pow2, Aligned, Flip, Total, FreePages, Pool.FreeSet, Pool.Covered, Pool.Disjoint, Pool.Shaped,
      Pool.StateOnHeads, Pool.Listed, Pool.Coalesced, Pool.UsesRecorded, Pool.Clustered;
  }

  lemma ReleaseReserved(s: Pool, c: Counters, h: nat)
    requires AtRest(s, c) && h < |s.frames| && s.frames[h].reserved
    ensures var t := Release(s, h);
            && InTransit(t, c.(available := c.available + 1), h)
            && t.FreeSet() == s.FreeSet() && s.frames[h].order == 0
  {
    assert s.IsHead(h);
    ReleaseKeeps(s, h);
    assert Pow2(0) == 1;
    ReleaseReservedBalanced(s, c, h);
    hide Pow2, Aligned, Flip, Total, FreePages, Pool.FreeSet, Pool.Covered, Pool.Disjoint, Pool.Shaped,
      Pool.StateOnHeads, Pool.Listed, Pool.Coalesced, Pool.UsesRecorded, Pool.Clustered;
  }

  lemma MergeTransit(s: Pool, c: Counters, h: nat)
    requires InTransit(s, c, h) && CanMerge(s, h)
    ensures MaskLow(h, s.frames[h].order + 1) < |s.frames|
    ensures s.frames[h].order + 1 < |s.lists| == |c.freeNr|
    ensures var k := s.frames[h].order; var up := MaskLow(h, k + 1);
            && InTransit(Merge(s, h), Bump(c, k, -1), up)
            && Merge(s, h).FreeSet() + Block(up, k + 1) == s.FreeSet() + Block(h, k)
            && Merge(s, h).frames[up].order == k + 1
  {
    hide Pow2, Aligned, Flip, MaskLow, Block, Merge, Bump, Balanced, Pool.FreeSet, Pool.Inv, Pool.Tiled;
    SoundLists(s);
    MergeKeeps(s, h);
    MergeBalanced(s, c, h);
    MergeHeads(s, h);
    MergeLists(s, h);
    assert |s.lists| == |c.freeNr| by { BalancedLists(s, c, Pow2(s.frames[h].order)); }
  }

  lemma BalancedLists(s: Pool, c: Counters, transit: nat)
    requires Balanced(s, c, transit)
    ensures |s.lists| == |c.freeNr|
  {
  }

  lemma DepositRest(s: Pool, c: Counters, h: nat)
    requires InTransit(s, c, h) && !CanMerge(s, h)
    ensures s.frames[h].order < |s.lists| == |c.freeNr|
    ensures var t := Deposit(s, h); var k := s.frames[h].order;
            && AtRest(t, Bump(c, k, 1)) && t.FreeSet() == s.FreeSet() + Block(h, k)
  {
    DepositKeeps(s, h);
    DepositBalanced(s, c, h);
    hide Pow2, Aligned, Flip, Total, FreePages, Pool.FreeSet, Pool.Covered, Pool.Disjoint, Pool.Shaped,
      Pool.StateOnHeads, Pool.Listed, Pool.Coalesced, Pool.UsesRecorded, Pool.Clustered;
  }

  lemma TransitFits(s: Pool, c: Counters, h: nat)
    requires InTransit(s, c, h)
    ensures |s.hd| == |s.frames| && h + Pow2(s.frames[h].order) <= |s.frames|
    ensures s.frames[h].order < |s.lists| == |c.freeNr|
  {
    FitsPool(s, h);
  }

  /** Where enqueueing starts: a used block, or a page whose reservation was just cleared,
      becomes the block in transit. */
  lemma StartRelease(s: Pool, c: Counters, h: nat)
    requires s.held == {} && h < |s.frames|
    requires s.frames[h].used ==> AtRest(s, c)
    requires !s.frames[h].used ==> InTransit(s.(held := {h}), c, h)
    ensures var w := s.(held := {h}, frames := s.frames[h := s.frames[h].(used := false, ucase := {})]);
            && InTransit(w, c.(usagePages := LessUse(c.usagePages, s.frames[h])), h)
            && w.FreeSet() + Block(h, s.frames[h].order) == s.FreeSet() + Block(h, s.frames[h].order)
            && s.frames[h].order < |s.lists| == |c.freeNr|
  {
    var w := s.(held := {h}, frames := s.frames[h := s.frames[h].(used := false, ucase := {})]);
    if s.frames[h].used {
      assert s.IsHead(h);
      assert !s.frames[h].reserved;
      ReleaseUsed(s, c, h);
      assert w == Release(s, h);
      TransitFits(w, c.(usagePages := LessUse(c.usagePages, s.frames[h])), h);
    } else {
      assert w == s.(held := {h});
      assert LessUse(c.usagePages, s.frames[h]) == c.usagePages;
      assert c.(usagePages := LessUse(c.usagePages, s.frames[h])) == c;
      TransitFits(w, c, h);
      FreeBesides(s, w, h);
    }
  }

  lemma FreeBesides(s: Pool, w: Pool, h: nat)
    requires w == s.(held := {h}) && s.held == {} && w.Tiled()
    requires w.IsHead(h) && !w.frames[h].used && !w.frames[h].reserved
    ensures w.FreeSet() + Block(h, s.frames[h].order) == s.FreeSet() + Block(h, s.frames[h].order)
  {
    hide Pow2, Aligned, Pool.Shaped, Pool.StateOnHeads;
    var k := s.frames[h].order;
    forall p: nat ensures p in w.FreeSet() + Block(h, k) <==> p in s.FreeSet() + Block(h, k) {
      assert p in Block(h, k) <==> Within(p, h, k);
      if p < |s.hd| { assert w.InBlock(w.hd[p], p); }
    }
  }

  // ---- What an operation leaves alone ----

  predicate Live(f: Frame) {
    f.used || f.reserved
  }

  /** Outside `but`, the frames of used blocks and of reserved pages are the same. */
  ghost predicate SameLive(a: seq<Frame>, b: seq<Frame>, but: set<nat>) {
    |a| == |b| && forall i: nat | i < |a| && i !in but && (Live(a[i]) || Live(b[i])) :: a[i] == b[i]
  }

  /** No frame of the block in transit is live. */
  lemma TransitQuiet(s: Pool, c: Counters, h: nat)
    requires InTransit(s, c, h)
    ensures h + Pow2(s.frames[h].order) <= |s.frames|
    ensures forall p | h <= p < h + Pow2(s.frames[h].order) :: !Live(s.frames[p])
  {
    FitsPool(s, h);
    forall p | h <= p < h + Pow2(s.frames[h].order) ensures !Live(s.frames[p]) {
      assert s.InBlock(h, p);
    }
  }

  /** The upper half that a split queues was no head, so it is not live. */
  lemma SplitQuiet(s: Pool, c: Counters, h: nat)
    requires Taken(s, c, h) && 0 < s.frames[h].order
    ensures h + Pow2(s.frames[h].order - 1) < |s.frames|
    ensures !Live(s.frames[h + Pow2(s.frames[h].order - 1)]) && !Live(s.frames[h])
  {
    TransitQuiet(s, c, h);
    DoublePow2(s.frames[h].order - 1);
  }

  lemma MergeQuiet(s: Pool, c: Counters, h: nat)
    requires InTransit(s, c, h) && CanMerge(s, h)
    ensures var up := MaskLow(h, s.frames[h].order + 1);
            up < |s.frames| && !Live(s.frames[up])
  {
    MergeGeometry(s, h);
  }

  lemma TakenQuiet(s: Pool, c: Counters, h: nat)
    requires Taken(s, c, h)
    ensures h + Pow2(s.frames[h].order) <= |s.frames|
    ensures forall p | h <= p < h + Pow2(s.frames[h].order) :: !Live(s.frames[p])
  {
    TransitQuiet(s, c, h);
  }

  lemma TakenAligned(s: Pool, c: Counters, h: nat, k: nat)
    requires Taken(s, c, h) && k <= s.frames[h].order
    ensures Aligned(h, k) && Block(h, k) <= Block(h, s.frames[h].order)
  {
    SmallerRun(h, s.frames[h].order, k);
  }

  lemma AtRestComplete(s: Pool, c: Counters, k: nat)
    requires AtRest(s, c) && k < |s.lists|
    ensures (exists j :: k <= j < |s.lists| && s.lists[j] != []) <==> HasRun(s.FreeSet(), k)
  {
    SearchIsComplete(s, k);
  }

  lemma TopOfQueue(s: Pool, c: Counters, k: nat)
    requires AtRest(s, c) && k < |s.lists| && s.lists[k] != []
    ensures var h := s.lists[k][0];
            && h < |s.frames| && s.frames[h].order == k && |c.freeNr| == |s.lists|
            && Detach(s, h).lists == s.lists[k := s.lists[k][1..]]
            && Taken(Detach(s, h), Bump(c, k, -1), h)
            && Detach(s, h).FreeSet() == s.FreeSet() - Block(h, k)
            && Block(h, k) <= s.FreeSet()
  {
    var h := s.lists[k][0];
    assert h in s.lists[k];
    DetachTaken(s, c, h);
  }

  /** The use count of a block plays no part in the pool invariant. */
  lemma UseCountFree(s: Pool, t: Pool, c: Counters)
    requires AtRest(s, c) && t == s.(frames := t.frames) && |t.frames| == |s.frames|
    requires forall i | 0 <= i < |s.frames| :: t.frames[i] == s.frames[i].(usecnt := t.frames[i].usecnt)
    ensures AtRest(t, c) && t.FreeSet() == s.FreeSet()
  {
    hide Pow2, Aligned, Flip, Total, FreePages;
    assert forall h :: t.IsFree(h) <==> s.IsFree(h);
    SameShape(s, t);
    SameFreeBlocks(s, t);
    SameTotals(s.frames, t.frames);
  }

  /** The frame of a used block is not free. */
  lemma UsedIsFreed(s: Pool, c: Counters, h: nat)
    requires AtRest(s, c) && h < |s.frames| && s.frames[h].used
    ensures s.IsHead(h) && !s.frames[h].reserved
  {
    assert s.IsHead(h);
  }

  lemma ReservedIsPlain(s: Pool, c: Counters, h: nat)
    requires AtRest(s, c) && h < |s.frames| && s.frames[h].reserved
    ensures s.IsHead(h) && !s.frames[h].used && s.frames[h].ucase == {} && s.frames[h].order == 0
  {
    assert s.IsHead(h);
  }

  lemma HeadIsHead(s: Pool, c: Counters, h: nat)
    requires AtRest(s, c) && h < |s.frames| && Live(s.frames[h])
    ensures s.IsHead(h)
  {
  }

  lemma AtRestDetach(s: Pool, c: Counters, h: nat)
    requires AtRest(s, c) && s.IsFree(h)
    ensures h < |s.frames| && s.frames[h].order < |s.lists| == |c.freeNr|
    ensures var k := s.frames[h].order;
            && Taken(Detach(s, h), Bump(c, k, -1), h)
            && Detach(s, h).FreeSet() == s.FreeSet() - Block(h, k)
            && Block(h, k) <= s.FreeSet() && h in Block(h, k) && Block(h, 0) <= Block(h, k)
  {
    DetachTaken(s, c, h);
    assert Within(h, h, s.frames[h].order);
    assert s.IsHead(h);
    SmallerRun(h, s.frames[h].order, 0);
  }

  lemma OnePage(h: nat)
    ensures Block(h, 0) == {h} && Pow2(0) == 1
  {
    forall p: nat ensures p in Block(h, 0) <==> p == h {
      assert p in Block(h, 0) <==> Within(p, h, 0);
    }
  }

  lemma ClearedPage(s: Pool, w: Pool, c: Counters, h: nat)
    requires s.held == {} && w == s.(held := {h}) && InTransit(w, c, h)
    ensures w.FreeSet() + Block(h, s.frames[h].order) == s.FreeSet() + Block(h, s.frames[h].order)
  {
    FreeBesides(s, w, h);
  }

  /** After page h has become a block of its own, a free page behind it heads its block. */
  lemma NextIsHead(s: Pool, c: Counters, h: nat)
    requires AtRest(s, c) && s.IsHead(h) && s.frames[h].order == 0 && h + 1 in s.FreeSet()
    ensures s.IsFree(h + 1)
  {
    var g := s.hd[h + 1];
    assert s.IsFree(g) && s.InBlock(g, h + 1);
    assert Pow2(0) == 1;
  }

  /** A region in which every page is reserved satisfies the invariant. */
  lemma FreshPool(s: Pool, c: Counters)
    requires s.held == {} && |s.hd| == |s.frames| && 0 < |s.lists| == |c.freeNr|
    requires forall p | 0 <= p < |s.hd| :: s.hd[p] == p
    requires forall p | 0 <= p < |s.hd| :: s.frames[p] == Frame(0, false, true, false, {}, None, 0)
    requires forall k | 0 <= k < |s.lists| :: s.lists[k] == [] && c.freeNr[k] == 0
    requires c.available == 0 && forall u: Usage :: u in c.usagePages && c.usagePages[u] == 0
    ensures AtRest(s, c) && s.FreeSet() == {}
  {
    assert Pow2(0) == 1;
    forall h | 0 <= h < |s.hd| ensures Aligned(h, 0) { }
    NoFreePages(c.freeNr, |c.freeNr|);
    AllReserved(s.frames);
    forall u: Usage ensures Total(s.frames, UsedFor(u)) == 0 { TotalZero(s.frames, UsedFor(u)); }
    TotalZero(s.frames, UsedPages());
  }

  lemma {:induction false} NoFreePages(q: seq<int>, n: nat)
    requires n <= |q| && forall k | 0 <= k < n :: q[k] == 0
    ensures FreePages(q, n) == 0
  {
    if n > 0 { NoFreePages(q, n - 1); }
  }

  lemma {:induction false} AllReserved(frames: seq<Frame>)
    requires forall p | 0 <= p < |frames| :: frames[p].reserved
    ensures Total(frames, ReservedPages()) == |frames|
  {
    if frames != [] { AllReserved(frames[1..]); }
  }

  /** Pools at rest with the same free pages and uses have the same free blocks and counters. */
  lemma SamePagesSameBooks(s: Pool, c: Counters, t: Pool, d: Counters)
    requires AtRest(s, c) && AtRest(t, d) && |s.lists| == |t.lists|
    requires s.FreeSet() == t.FreeSet() && c.available == d.available && c.usagePages == d.usagePages
    ensures forall k | 0 <= k < |s.lists| :: multiset(s.lists[k]) == multiset(t.lists[k])
    ensures c == d
  {
    SamePagesSameBlocks(s, t);
    assert c.freeNr == d.freeNr;
  }

  lemma RestAvailable(s: Pool, c: Counters)
    requires AtRest(s, c)
    ensures c.available != FreePages(c.freeNr, |c.freeNr|) <==>
            exists h | 0 <= h < |s.frames| :: s.frames[h].used
    ensures |c.freeNr| == |s.lists|
  {
    AvailableIsFreePlusUsed(s, c);
  }

  // ---- Reserving a page that does not head its block ----

  ghost predicate CountsAgree(lists: seq<seq<nat>>, freeNr: seq<int>) {
    |freeNr| == |lists| && forall k | 0 <= k < |lists| :: freeNr[k] == |lists[k]|
  }

  /** What mark_page_frame_reserved does to the queues and the counters for any page idx,
      given the order found in its frame: unlink it, uncount it, and queue one buddy for
      every order below. */
  function ReserveQueues(lists: seq<seq<nat>>, freeNr: seq<int>, idx: nat, order: nat): (seq<seq<nat>>, seq<int>)
    requires order < |lists| == |freeNr|
  {
    QueueHalves(lists[order := Unlink(lists[order], idx)], freeNr[order := freeNr[order] - 1], idx, order)
  }

  function QueueHalves(lists: seq<seq<nat>>, freeNr: seq<int>, idx: nat, order: nat): (seq<seq<nat>>, seq<int>)
    requires order < |lists| == |freeNr|
    decreases order
  {
    if order == 0 then (lists, freeNr)
    else QueueHalves(lists[order - 1 := lists[order - 1] + [Flip(idx, order - 1)]],
                     freeNr[order - 1 := freeNr[order - 1] + 1], idx, order - 1)
  }

  lemma {:induction false} HalvesKeepAgreement(lists: seq<seq<nat>>, freeNr: seq<int>, idx: nat, order: nat)
    requires order < |lists| == |freeNr|
    ensures var (l, f) := QueueHalves(lists, freeNr, idx, order);
            CountsAgree(l, f) <==> CountsAgree(lists, freeNr)
    decreases order
  {
    if order > 0 {
      var l := lists[order - 1 := lists[order - 1] + [Flip(idx, order - 1)]];
      var f := freeNr[order - 1 := freeNr[order - 1] + 1];
      HalvesKeepAgreement(l, f, idx, order - 1);
      if CountsAgree(l, f) {
        forall k | 0 <= k < |lists| ensures freeNr[k] == |lists[k]| { assert f[k] == |l[k]|; }
      }
    }
  }

  /** Reserving a free page keeps the counters right if and only if the page heads its block. */
  lemma ReserveCountsIff(s: Pool, c: Counters, p: nat)
    requires AtRest(s, c) && p in s.FreeSet() && s.frames[p].order < |s.lists| == |c.freeNr|
    ensures var (l, f) := ReserveQueues(s.lists, c.freeNr, p, s.frames[p].order);
            CountsAgree(l, f) <==> s.IsFree(p)
  {
    var k := s.frames[p].order;
    var l := s.lists[k := Unlink(s.lists[k], p)];
    var f := c.freeNr[k := c.freeNr[k] - 1];
    HalvesKeepAgreement(l, f, p, k);
    assert p in s.lists[k] <==> s.IsFree(p);
    assert f[k] == |s.lists[k]| - 1;
    if p !in s.lists[k] { assert |l[k]| == |s.lists[k]|; }
  }

  /** Two pages in one free block: reserving the second one makes free_nr[0] wrong. */
  lemma ReserveInsideBlockMiscounts()
    ensures var f := Frame(1, false, false, false, {}, None, 0);
            var s := Pool([f, f.(order := 0)], [[], [0]], [0, 0], {});
            s.Inv() && s.FreeSet() == {0, 1} &&
            var (l, n) := ReserveQueues(s.lists, [0, 1], 1, 0);
            n[0] == -1 && |l[0]| == 0
  {
    var f := Frame(1, false, false, false, {}, None, 0);
    var s := Pool([f, f.(order := 0)], [[], [0]], [0, 0], {});
    assert Pow2(1) == 2 && Aligned(0, 1);
    assert s.IsFree(0) && !s.IsHead(1);
    assert s.lists[1] == [0];
    assert forall p | 0 <= p < 2 :: s.hd[p] == 0;
    assert s.Tiled() && s.Listed() && s.Coalesced() && s.UsesRecorded() && s.Clustered();
    forall p: nat ensures p in s.FreeSet() <==> p == 0 || p == 1 {
      assert p < |s.hd| ==> s.hd[p] == 0;
    }
  }
}
