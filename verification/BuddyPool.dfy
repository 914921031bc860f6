/** The state of one buddy page pool as a value, the invariant every operation keeps, and the
    steps the loops of the allocator are made of. */
module BuddyPool {
  import opened Powers
  import opened Queues

  datatype Option<T> = None | Some(value: T)

  datatype Usage = Kern | KStack | PgTbl | Slab | Anon | PCache

  /** One page frame.  Only the frame of a block's first page is meaningful: the order and
      the use of the other frames of a block go stale. */
  datatype Frame = Frame(order: nat, used: bool, reserved: bool, clustered: bool,
                         ucase: set<Usage>, headp: Option<nat>, usecnt: nat)

  /** A pool: the frame array, the queue of free blocks of each order, and, for the proof,
      the first page of the block each page belongs to and the block an operation is
      working on (neither queued nor in use). */
  datatype Pool = Pool(frames: seq<Frame>, lists: seq<seq<nat>>, hd: seq<nat>, held: set<nat>)
  {
    ghost predicate IsHead(h: int) {
      0 <= h < |hd| && hd[h] == h
    }

    ghost predicate IsFree(h: int) {
      IsHead(h) && h < |frames| && !frames[h].used && !frames[h].reserved && h !in held
    }

    ghost predicate InBlock(h: int, p: int)
      requires 0 <= h < |frames|
    {
      h <= p < h + Pow2(frames[h].order)
    }

    /** Every page lies in the block of the head recorded for it ... */
    ghost predicate Covered()
      requires |hd| == |frames|
    {
      forall p | 0 <= p < |hd| :: IsHead(hd[p]) && InBlock(hd[p], p)
    }

    /** ... and in no other block. */
    ghost predicate Disjoint()
      requires |hd| == |frames|
    {
      forall h, p | IsHead(h) && 0 <= p < |hd| && InBlock(h, p) :: hd[p] == h
    }

    /** Blocks are naturally aligned and inside the pool. */
    ghost predicate Shaped()
      requires |hd| == |frames|
    {
      forall h | IsHead(h) ::
        && frames[h].order < |lists|
        && Aligned(h, frames[h].order)
        && h + Pow2(frames[h].order) <= |frames|
    }

    /** Only the first frame of a block carries a state. */
    ghost predicate StateOnHeads()
      requires |hd| == |frames|
    {
      && (forall p | 0 <= p < |hd| && hd[p] != p ::
            !frames[p].used && !frames[p].reserved && frames[p].ucase == {})
      && (forall h | h in held :: IsHead(h))
    }

    /** The pages are divided into disjoint naturally aligned blocks, and a frame that is not
        the first of its block is neither used nor reserved. */
    ghost predicate Tiled() {
      |hd| == |frames| && Covered() && Disjoint() && Shaped() && StateOnHeads()
    }

    /** The queue of order k holds exactly the free blocks of order k, each once. */
    ghost predicate Listed()
      requires |hd| == |frames|
    {
      && (forall k, h | 0 <= k < |lists| && h in lists[k] :: IsFree(h) && frames[h].order == k)
      && (forall h | IsFree(h) && frames[h].order < |lists| :: h in lists[frames[h].order])
      && (forall k | 0 <= k < |lists| :: Distinct(lists[k]))
    }

    /** Two free buddies of equal order below the top order never coexist. */
    ghost predicate Coalesced()
      requires |hd| == |frames|
    {
      forall h | IsFree(h) && frames[h].order + 1 < |lists| ::
        !(IsFree(Flip(h, frames[h].order)) &&
          frames[Flip(h, frames[h].order)].order == frames[h].order)
    }

    /** A used block has exactly one use, any other block none; only single pages are
        reserved. */
    ghost predicate UsesRecorded()
      requires |hd| == |frames|
    {
      forall h | IsHead(h) && h !in held ::
        && (frames[h].used ==> !frames[h].reserved && exists u :: frames[h].ucase == {u})
        && (!frames[h].used ==> frames[h].ucase == {})
        && (frames[h].reserved ==> frames[h].order == 0)
    }

    /** Every page of a used multi-page block points at that block's head; no other page
        is marked as clustered. */
    ghost predicate Clustered()
      requires Tiled()
    {
      forall p | 0 <= p < |hd| && hd[p] !in held ::
        if frames[hd[p]].used && frames[hd[p]].order > 0
        then frames[p].clustered && frames[p].headp == Some(hd[p])
        else !frames[p].clustered && frames[p].headp == None
    }

    ghost predicate Inv() {
      Tiled() && Listed() && Coalesced() && UsesRecorded() && Clustered()
    }

    /** The block h has no use and none of its pages is marked as clustered. */
    ghost predicate Blank(h: nat)
      requires Tiled()
    {
      && IsHead(h) && !frames[h].used && !frames[h].reserved && frames[h].ucase == {}
      && forall p | 0 <= p < |hd| && hd[p] == h :: !frames[p].clustered && frames[p].headp == None
    }

    /** The pages that lie in free blocks. */
    ghost function FreeSet(): set<nat> {
      set p: nat | 0 <= p < |hd| && |hd| == |frames| && IsFree(hd[p])
    }
  }

  ghost predicate Within(p: int, h: nat, k: nat) {
    h <= p < h + Pow2(k)
  }

  ghost function Block(h: nat, k: nat): set<nat> {
    set p: nat | h <= p < h + Pow2(k) && Within(p, h, k)
  }

  /** `queue_del`: unlink x; a page that is in no queue is linked to itself, so nothing moves. */
  function Unlink(q: seq<nat>, x: nat): (r: seq<nat>)
    ensures Distinct(q) ==> Distinct(r)
    ensures forall y :: y in r ==> y in q
    ensures Distinct(q) ==> forall y :: y in r <==> y in q && y != x
    ensures x in q ==> |r| == |q| - 1
    ensures x !in q ==> r == q
  {
    WithoutSize(q, x);
    assert Distinct(q) ==> Distinct(Without(q, x)) && forall y :: y in Without(q, x) <==> y in q && y != x by {
      if Distinct(q) { WithoutIs(q, x); }
    }
    Without(q, x)
  }

  // ---- The alignment argument ----

  lemma OneBlock(s: Pool, h: nat, p: nat)
    requires s.Tiled() && s.IsHead(h) && p < |s.hd|
    ensures s.InBlock(h, p) ==> s.hd[p] == h
  {
  }

  /** The index that the coalescing loop examines is always the first page of its block, so
      the order and the state read there are never stale. */
  lemma BuddyIsHead(s: Pool, c: nat)
    requires s.Tiled() && s.IsHead(c)
    requires Flip(c, s.frames[c].order) < |s.frames|
    ensures var b := Flip(c, s.frames[c].order);
            s.IsHead(b) && s.frames[b].order <= s.frames[c].order
  {
    var k := s.frames[c].order;
    var b := Flip(c, k);
    HalfOfParent(c, k);
    assert Aligned(b, k);
    var h := s.hd[b];
    assert s.IsHead(h) && s.InBlock(h, b);
    var j := s.frames[h].order;
    OneBlock(s, h, c);
    if j > k {
      NestedOrDisjoint(MaskLow(c, k + 1), k + 1, h, j);
      assert false;
    }
    NestedOrDisjoint(h, j, b, k);
    assert h == b;
  }

  // ---- Splitting: one turn of the loop of adjust_page_order ----

  /** The upper half of the held block h becomes a free block of its own. */
  function Split(s: Pool, h: nat): Pool
    requires h < |s.frames| && 0 < s.frames[h].order <= |s.lists|
    requires h + Pow2(s.frames[h].order - 1) < |s.frames|
  {
    var k := s.frames[h].order - 1;
    var b := h + Pow2(k);
    s.(frames := s.frames[b := s.frames[b].(order := k)][h := s.frames[h].(order := k)],
       lists := s.lists[k := s.lists[k] + [b]],
       hd := seq(|s.hd|, p requires 0 <= p < |s.hd| => if b <= p < b + Pow2(k) then b else s.hd[p]))
  }

  lemma SplitGeometry(s: Pool, h: nat)
    requires s.Tiled() && s.IsHead(h) && s.frames[h].order > 0
    ensures var k := s.frames[h].order - 1; var b := h + Pow2(k);
            && b + Pow2(k) <= |s.frames|
            && Pow2(k + 1) == 2 * Pow2(k)
            && Aligned(h, k) && Aligned(b, k) && Flip(h, k) == b && Flip(b, k) == h
            && (forall p :: b <= p < b + Pow2(k) ==> s.hd[p] == h)
            && k < |s.lists|
  {
    var k := s.frames[h].order - 1;
    var b := h + Pow2(k);
    assert Aligned(h, k + 1);
    LowerAlignment(h, k);
    HalfOfParent(h, k);
    HalfOfParent(b, k);
    forall p | b <= p < b + Pow2(k) ensures s.hd[p] == h {
      assert s.InBlock(h, p);
    }
  }

  lemma SplitCovered(s: Pool, h: nat)
    requires s.Tiled() && s.IsHead(h) && s.frames[h].order > 0
    requires h + Pow2(s.frames[h].order - 1) < |s.frames|
    ensures Split(s, h).Covered()
  {
    SplitGeometry(s, h);
    hide Pow2, Aligned, Flip, Pool.Disjoint, Pool.Shaped, Pool.StateOnHeads;
    var t := Split(s, h);
    forall p | 0 <= p < |t.hd| ensures t.IsHead(t.hd[p]) && t.InBlock(t.hd[p], p) {
      assert s.IsHead(s.hd[p]) && s.InBlock(s.hd[p], p);
    }
  }

  lemma SplitDisjoint(s: Pool, h: nat)
    requires s.Tiled() && s.IsHead(h) && s.frames[h].order > 0
    requires h + Pow2(s.frames[h].order - 1) < |s.frames|
    ensures Split(s, h).Disjoint()
  {
    SplitGeometry(s, h);
    hide Pow2, Aligned, Flip, Pool.Covered, Pool.Shaped, Pool.StateOnHeads;
    var t := Split(s, h);
    var b := h + Pow2(s.frames[h].order - 1);
    forall g, p | t.IsHead(g) && 0 <= p < |t.hd| && t.InBlock(g, p) ensures t.hd[p] == g {
      if g != b {
        assert s.IsHead(g);
        assert s.InBlock(g, p);
      }
    }
  }

  lemma SplitTiled(s: Pool, h: nat)
    requires s.Tiled() && s.held == {h} && s.frames[h].order > 0
    ensures h + Pow2(s.frames[h].order - 1) < |s.frames|
    ensures Split(s, h).Tiled()
  {
    hide Pow2, Aligned, Flip;
    assert s.IsHead(h);
    SplitGeometry(s, h);
    SplitCovered(s, h);
    SplitDisjoint(s, h);
  }

  lemma SplitFree(s: Pool, h: nat)
    requires s.Tiled() && s.held == {h} && s.frames[h].order > 0 && s.Blank(h)
    requires h + Pow2(s.frames[h].order - 1) < |s.frames|
    ensures var t := Split(s, h); var b := h + Pow2(s.frames[h].order - 1);
            t.Tiled() && forall g :: t.IsFree(g) <==> g == b || s.IsFree(g)
    ensures var t := Split(s, h); var k := s.frames[h].order - 1;
            t.FreeSet() == s.FreeSet() + Block(h + Pow2(k), k)
  {
    hide Pow2, Aligned, Flip, Pool.Covered, Pool.Disjoint, Pool.Shaped;
    SplitTiled(s, h);
    SplitGeometry(s, h);
    var b := h + Pow2(s.frames[h].order - 1);
    assert s.hd[b] == h;
    forall g ensures Split(s, h).IsFree(g) <==> g == b || s.IsFree(g) {
    }
    SplitFreeSet(s, h);
  }

  lemma SplitFreeSet(s: Pool, h: nat)
    requires s.Tiled() && s.held == {h} && s.frames[h].order > 0 && s.Blank(h)
    requires h + Pow2(s.frames[h].order - 1) < |s.frames|
    requires var t := Split(s, h); var b := h + Pow2(s.frames[h].order - 1);
             forall g :: t.IsFree(g) <==> g == b || s.IsFree(g)
    ensures var t := Split(s, h); var k := s.frames[h].order - 1;
            t.FreeSet() == s.FreeSet() + Block(h + Pow2(k), k)
  {
    hide Pow2, Aligned, Flip, Split, Pool.Tiled, Pool.IsFree;
    SplitGeometry(s, h);
    HeadsOfPages(s);
    SplitHeads(s, h);
    var k, b := s.frames[h].order - 1, h + Pow2(s.frames[h].order - 1);
    forall p: nat ensures p in Split(s, h).FreeSet() <==> p in s.FreeSet() || p in Block(b, k) {
      assert p in Block(b, k) <==> b <= p < b + Pow2(k);
    }
  }

  lemma HeadsOfPages(s: Pool)
    requires s.Tiled()
    ensures |s.hd| == |s.frames| && forall p | 0 <= p < |s.hd| :: s.IsHead(s.hd[p])
  {
  }

  lemma SplitHeads(s: Pool, h: nat)
    requires h < |s.frames| && s.frames[h].order > 0 && h + Pow2(s.frames[h].order - 1) < |s.frames|
    requires s.frames[h].order <= |s.lists|
    ensures var t := Split(s, h); var k := s.frames[h].order - 1; var b := h + Pow2(k);
            && |t.hd| == |s.hd| && |t.frames| == |s.frames|
            && forall p | 0 <= p < |s.hd| :: t.hd[p] == if b <= p < b + Pow2(k) then b else s.hd[p]
  {
  }

  lemma SplitListed(s: Pool, h: nat)
    requires s.Inv() && s.held == {h} && s.frames[h].order > 0 && s.Blank(h)
    requires h + Pow2(s.frames[h].order - 1) < |s.frames|
    ensures Split(s, h).Tiled() && Split(s, h).Listed()
  {
    hide Pow2, Aligned, Flip, Pool.Covered, Pool.Disjoint, Pool.Shaped, Pool.Coalesced, Pool.UsesRecorded;
    hide Pool.Clustered;
    SplitGeometry(s, h);
    SplitFree(s, h);
    var k := s.frames[h].order - 1;
    var b := h + Pow2(k);
    var t := Split(s, h);
    assert s.hd[b] == h && !s.IsFree(b);
    assert b !in s.lists[k];
    Appended(s.lists[k], b);
    assert forall j | 0 <= j < |s.lists| && j != k :: t.lists[j] == s.lists[j];
    assert forall g :: s.IsFree(g) ==> t.frames[g] == s.frames[g];
  }

  lemma Appended(q: seq<nat>, x: nat)
    requires Distinct(q) && x !in q
    ensures Distinct(q + [x])
    ensures forall y :: y in q + [x] <==> y == x || y in q
  {
  }

  lemma SplitCoalesced(s: Pool, h: nat)
    requires s.Inv() && s.held == {h} && s.frames[h].order > 0 && s.Blank(h)
    requires h + Pow2(s.frames[h].order - 1) < |s.frames|
    ensures Split(s, h).Tiled() && Split(s, h).Coalesced()
  {
    hide Pow2, Aligned, Flip, Pool.Covered, Pool.Disjoint, Pool.Listed, Pool.UsesRecorded, Pool.Clustered;
    SplitGeometry(s, h);
    SplitFree(s, h);
    var t := Split(s, h);
    assert forall g :: s.IsFree(g) ==> t.frames[g] == s.frames[g];
    forall g | t.IsFree(g) && t.frames[g].order + 1 < |t.lists|
      ensures !(t.IsFree(Flip(g, t.frames[g].order)) &&
                t.frames[Flip(g, t.frames[g].order)].order == t.frames[g].order)
    {
      FlipTwice(g, t.frames[g].order);
    }
  }

  lemma SplitClustered(s: Pool, h: nat)
    requires s.Inv() && s.held == {h} && s.frames[h].order > 0 && s.Blank(h)
    requires h + Pow2(s.frames[h].order - 1) < |s.frames|
    ensures var t := Split(s, h); t.Tiled() && t.Clustered() && t.Blank(h)
  {
    hide Pow2, Aligned, Flip;
    SplitGeometry(s, h);
    SplitTiled(s, h);
    var t := Split(s, h);
    forall p | 0 <= p < |t.hd| && t.hd[p] !in t.held
      ensures if t.frames[t.hd[p]].used && t.frames[t.hd[p]].order > 0
              then t.frames[p].clustered && t.frames[p].headp == Some(t.hd[p])
              else !t.frames[p].clustered && t.frames[p].headp == None
    {
      assert s.IsHead(s.hd[p]);
    }
  }

  lemma SplitKeeps(s: Pool, h: nat)
    requires s.Inv() && s.held == {h} && s.frames[h].order > 0 && s.Blank(h)
    ensures h + Pow2(s.frames[h].order - 1) < |s.frames|
    ensures var t := Split(s, h); var k := s.frames[h].order - 1;
            && t.Inv() && t.Blank(h)
            && t.FreeSet() == s.FreeSet() + Block(h + Pow2(k), k)
  {
    hide Pow2, Aligned, Flip;
    SplitGeometry(s, h);
    SplitListed(s, h);
    SplitCoalesced(s, h);
    SplitClustered(s, h);
    SplitFree(s, h);
  }

  // ---- Taking a free block out of its queue ----

  /** The free block h leaves its queue. */
  function Detach(s: Pool, h: nat): Pool
    requires h < |s.frames| && s.frames[h].order < |s.lists|
  {
    var k := s.frames[h].order;
    s.(lists := s.lists[k := Unlink(s.lists[k], h)], held := {h})
  }

  /** When h stops being free, exactly its pages leave the free set. */
  lemma FreeSetLess(s: Pool, t: Pool, h: nat)
    requires s.Tiled() && t.Tiled() && s.hd == t.hd && s.IsFree(h)
    requires forall g :: t.IsFree(g) <==> g != h && s.IsFree(g)
    ensures t.FreeSet() == s.FreeSet() - Block(h, s.frames[h].order)
    ensures Block(h, s.frames[h].order) <= s.FreeSet()
  {
    hide Pow2, Aligned, Pool.Shaped, Pool.StateOnHeads;
    var k := s.frames[h].order;
    assert h + Pow2(k) <= |s.frames| by { assert s.Shaped() && s.IsHead(h); FitsPool(s, h); }
    forall p: nat
      ensures p in t.FreeSet() <==> p in s.FreeSet() && p !in Block(h, k)
      ensures p in Block(h, k) ==> p in s.FreeSet()
    {
      assert p in Block(h, k) <==> Within(p, h, k);
      if p < |s.hd| {
        assert s.InBlock(s.hd[p], p);
        assert s.InBlock(h, p) ==> s.hd[p] == h;
      }
    }
  }

  lemma FitsPool(s: Pool, h: nat)
    requires s.Tiled() && s.IsHead(h)
    ensures h + Pow2(s.frames[h].order) <= |s.frames| && s.frames[h].order < |s.lists|
  {
    hide Pow2, Aligned, Pool.Covered, Pool.Disjoint, Pool.StateOnHeads;
  }

  lemma DetachListed(s: Pool, h: nat)
    requires s.Inv() && s.held == {} && s.IsFree(h) && s.frames[h].order < |s.lists|
    requires var t := Detach(s, h);
             t.Tiled() && forall g :: t.IsFree(g) <==> g != h && s.IsFree(g)
    ensures Detach(s, h).Listed() && Detach(s, h).Coalesced()
    ensures h in s.lists[s.frames[h].order]
  {
    hide Pow2, Aligned, Flip, Pool.Covered, Pool.Disjoint, Pool.Shaped, Pool.StateOnHeads, Pool.Clustered;
    hide Pool.UsesRecorded;
    var k := s.frames[h].order;
    var t := Detach(s, h);
    assert forall j | 0 <= j < |s.lists| && j != k :: t.lists[j] == s.lists[j];
  }

  lemma DetachRest(s: Pool, h: nat)
    requires s.Inv() && s.held == {} && s.IsFree(h) && s.frames[h].order < |s.lists|
    requires Detach(s, h).Tiled()
    ensures Detach(s, h).UsesRecorded() && Detach(s, h).Clustered() && Detach(s, h).Blank(h)
  {
    hide Pow2, Aligned, Flip, Pool.Disjoint, Pool.Shaped, Pool.Listed, Pool.Coalesced;
  }

  lemma DetachKeeps(s: Pool, h: nat)
    requires s.Inv() && s.held == {} && s.IsFree(h)
    ensures s.frames[h].order < |s.lists|
    ensures var t := Detach(s, h);
            && t.Inv() && t.Blank(h)
            && t.FreeSet() == s.FreeSet() - Block(h, s.frames[h].order)
            && h in s.lists[s.frames[h].order]
  {
    hide Pow2, Aligned, Flip, Pool.Clustered, Pool.UsesRecorded, Pool.Coalesced, Pool.Listed;
    assert s.IsHead(h);
    var t := Detach(s, h);
    assert forall g :: t.IsFree(g) <==> g != h && s.IsFree(g);
    assert t.Tiled();
    FreeSetLess(s, t, h);
    DetachListed(s, h);
    DetachRest(s, h);
  }

  // ---- Handing a held block out, or reserving it ----

  /** The marks that setup_clustered_pages leaves on the block h. */
  function MarkCluster(frames: seq<Frame>, h: nat): seq<Frame>
    requires h < |frames|
  {
    seq(|frames|, p requires 0 <= p < |frames| =>
      if h <= p < h + Pow2(frames[h].order)
      then if frames[h].order == 0
           then frames[p].(clustered := false, headp := None)
           else frames[p].(clustered := true, headp := Some(h))
      else frames[p])
  }

  /** The marks that clear_clustered_pages leaves on the block h. */
  function ClearCluster(frames: seq<Frame>, h: nat): seq<Frame>
    requires h < |frames|
  {
    seq(|frames|, p requires 0 <= p < |frames| =>
      if h <= p < h + Pow2(frames[h].order)
      then frames[p].(clustered := false, headp := None) else frames[p])
  }

  function HandOut(s: Pool, h: nat, usage: Usage): Pool
    requires h < |s.frames|
  {
    var f := MarkCluster(s.frames, h);
    s.(frames := f[h := f[h].(used := true, ucase := f[h].ucase + {usage}, usecnt := 1)],
       held := {})
  }

  function Reserve(s: Pool, h: nat): Pool
    requires h < |s.frames|
  {
    var f := MarkCluster(s.frames, h);
    s.(frames := f[h := f[h].(reserved := true)], held := {})
  }

  /** Marking leaves orders, uses and reservations alone. */
  lemma MarkedClusters(s: Pool, t: Pool, h: nat)
    requires s.Tiled() && s.Clustered() && s.IsHead(h) && s.held == {h} && t.held == {}
    requires t.hd == s.hd && t.Tiled() && t.frames[h].order == s.frames[h].order
    requires forall p | 0 <= p < |s.frames| && p != h ::
               t.frames[p].used == s.frames[p].used && t.frames[p].order == s.frames[p].order
    requires var m := if t.frames[h].used then MarkCluster(s.frames, h) else ClearCluster(s.frames, h);
             forall p | 0 <= p < |s.frames| ::
               t.frames[p].clustered == m[p].clustered && t.frames[p].headp == m[p].headp
    ensures t.Clustered()
  {
    hide Pow2, Aligned, Pool.Shaped, Pool.StateOnHeads;
    forall p | 0 <= p < |t.hd|
      ensures if t.frames[t.hd[p]].used && t.frames[t.hd[p]].order > 0
              then t.frames[p].clustered && t.frames[p].headp == Some(t.hd[p])
              else !t.frames[p].clustered && t.frames[p].headp == None
    {
      assert s.InBlock(s.hd[p], p);
      assert s.InBlock(h, p) ==> s.hd[p] == h;
    }
  }

  /** Tiling depends on the orders only, apart from where the states are. */
  lemma SameShape(s: Pool, t: Pool)
    requires s.Tiled() && t.hd == s.hd && |t.frames| == |s.frames| && |t.lists| == |s.lists|
    requires forall p | 0 <= p < |s.frames| :: t.frames[p].order == s.frames[p].order
    ensures t.Covered() && t.Disjoint() && t.Shaped()
  {
    hide Pow2, Aligned, Pool.StateOnHeads;
  }

  lemma HandOutMarked(s: Pool, h: nat, usage: Usage)
    requires s.Inv() && s.held == {h} && s.Blank(h) && HandOut(s, h, usage).Tiled()
    ensures HandOut(s, h, usage).Clustered()
  {
    hide Pow2, Aligned, Flip, Pool.Listed, Pool.Coalesced, Pool.UsesRecorded, Pool.Clustered, Pool.Covered;
    hide Pool.Disjoint, Pool.Shaped;
    MarkedClusters(s, HandOut(s, h, usage), h);
  }

  lemma HandOutKeeps(s: Pool, h: nat, usage: Usage)
    requires s.Inv() && s.held == {h} && s.Blank(h)
    ensures var t := HandOut(s, h, usage);
            && t.Inv() && t.FreeSet() == s.FreeSet()
            && t.frames[h].used && t.frames[h].ucase == {usage}
            && t.frames[h].order == s.frames[h].order
  {
    hide Pow2, Aligned, Flip, Pool.Covered, Pool.Disjoint, Pool.Shaped, Pool.Listed, Pool.Coalesced, Pool.Clustered;
    var t := HandOut(s, h, usage);
    assert forall g :: t.IsFree(g) <==> s.IsFree(g);
    assert forall p | 0 <= p < |s.frames| :: t.frames[p].order == s.frames[p].order;
    SameShape(s, t);
    assert t.FreeSet() == s.FreeSet();
    assert t.frames[h].ucase == {usage};
    HandOutMarked(s, h, usage);
    SameFreeBlocks(s, t);
  }

  lemma ReserveMarked(s: Pool, h: nat)
    requires s.Inv() && s.held == {h} && s.Blank(h) && s.frames[h].order == 0 && Reserve(s, h).Tiled()
    ensures Reserve(s, h).Clustered()
  {
    hide Aligned, Flip, Pool.Listed, Pool.Coalesced, Pool.UsesRecorded, Pool.Clustered, Pool.Covered, Pool.Disjoint;
    hide Pool.Shaped;
    MarkedClusters(s, Reserve(s, h), h);
  }

  lemma ReserveKeeps(s: Pool, h: nat)
    requires s.Inv() && s.held == {h} && s.Blank(h) && s.frames[h].order == 0
    ensures var t := Reserve(s, h);
            && t.Inv() && t.FreeSet() == s.FreeSet() && t.frames[h].reserved
  {
    hide Pow2, Aligned, Flip, Pool.Covered, Pool.Disjoint, Pool.Shaped, Pool.Listed, Pool.Coalesced, Pool.Clustered;
    var t := Reserve(s, h);
    assert forall g :: t.IsFree(g) <==> s.IsFree(g);
    assert forall p | 0 <= p < |s.frames| :: t.frames[p].order == s.frames[p].order;
    SameShape(s, t);
    assert t.FreeSet() == s.FreeSet();
    ReserveMarked(s, h);
    SameFreeBlocks(s, t);
  }

  lemma SameFreeBlocks(s: Pool, t: Pool)
    requires s.Tiled() && t.Tiled() && s.Listed() && s.Coalesced()
    requires t.lists == s.lists && t.hd == s.hd
    requires forall g :: t.IsFree(g) <==> s.IsFree(g)
    requires forall p | 0 <= p < |s.frames| :: t.frames[p].order == s.frames[p].order
    ensures t.Listed() && t.Coalesced()
  {
    hide Pow2, Aligned, Flip, Pool.Covered, Pool.Disjoint, Pool.Shaped, Pool.StateOnHeads;
  }

  // ---- Giving a block back ----

  /** The block h loses its use or its reservation; it is queued nowhere yet. */
  function Release(s: Pool, h: nat): Pool
    requires h < |s.frames|
  {
    s.(frames := s.frames[h := s.frames[h].(used := false, reserved := false, ucase := {})],
       held := {h})
  }

  lemma ReleaseClustered(s: Pool, h: nat)
    requires s.Inv() && s.held == {} && s.IsHead(h) && Release(s, h).Tiled()
    ensures Release(s, h).Clustered()
  {
    hide Pow2, Aligned, Flip, Pool.Listed, Pool.Coalesced, Pool.UsesRecorded, Pool.Disjoint, Pool.Shaped;
    var t := Release(s, h);
    forall p | 0 <= p < |t.hd| && t.hd[p] != h
      ensures if t.frames[t.hd[p]].used && t.frames[t.hd[p]].order > 0
              then t.frames[p].clustered && t.frames[p].headp == Some(t.hd[p])
              else !t.frames[p].clustered && t.frames[p].headp == None
    {
      assert s.IsHead(s.hd[p]);
    }
  }

  lemma ReleaseKeeps(s: Pool, h: nat)
    requires s.Inv() && s.held == {} && s.IsHead(h) && (s.frames[h].used || s.frames[h].reserved)
    ensures var t := Release(s, h);
            && t.Inv() && t.FreeSet() == s.FreeSet()
  {
    hide Pow2, Aligned, Flip, Pool.Covered, Pool.Disjoint, Pool.Shaped, Pool.Listed, Pool.Coalesced, Pool.Clustered;
    var t := Release(s, h);
    assert forall g :: t.IsFree(g) <==> s.IsFree(g);
    assert forall p | 0 <= p < |s.frames| :: t.frames[p].order == s.frames[p].order;
    SameShape(s, t);
    assert t.FreeSet() == s.FreeSet();
    ReleaseClustered(s, h);
    SameFreeBlocks(s, t);
  }

  /** One turn of the coalescing loop: the held block c absorbs its free buddy. */
  function Merge(s: Pool, c: nat): Pool
    requires c < |s.frames| && s.frames[c].order < |s.lists|
    requires MaskLow(c, s.frames[c].order + 1) < |s.frames|
  {
    var k := s.frames[c].order;
    var up := MaskLow(c, k + 1);
    s.(frames := s.frames[up := s.frames[up].(order := k + 1)],
       lists := s.lists[k := Unlink(s.lists[k], Flip(c, k))],
       hd := seq(|s.hd|, p requires 0 <= p < |s.hd| => if up <= p < up + Pow2(k + 1) then up else s.hd[p]),
       held := {up})
  }

  /** The held block c and its buddy can be joined: the test at the top of the loop. */
  ghost predicate CanMerge(s: Pool, c: nat)
    requires c < |s.frames|
  {
    var k := s.frames[c].order;
    k + 1 < |s.lists| && Flip(c, k) < |s.frames| && s.frames[Flip(c, k)].order == k
    && !s.frames[Flip(c, k)].used && !s.frames[Flip(c, k)].reserved
  }

  lemma MergeGeometry(s: Pool, c: nat)
    requires s.Tiled() && s.held == {c} && CanMerge(s, c)
    ensures var k := s.frames[c].order; var b := Flip(c, k); var up := MaskLow(c, k + 1);
            && s.IsHead(c) && s.IsFree(b) && b != c
            && (up == c || up == b) && up + Pow2(k + 1) <= |s.frames|
            && Aligned(up, k + 1)
            && (forall p | 0 <= p < |s.frames| ::
                  up <= p < up + Pow2(k + 1) <==> s.hd[p] == b || s.hd[p] == c)
            && (forall p: int :: Within(p, up, k + 1) <==> Within(p, b, k) || Within(p, c, k))
  {
    hide Flip, MaskLow, Aligned;
    assert s.IsHead(c);
    var k := s.frames[c].order;
    var b := Flip(c, k);
    var up := MaskLow(c, k + 1);
    BuddyIsHead(s, c);
    HalfOfParent(c, k);
    assert Pow2(k + 1) == 2 * Pow2(k);
    forall p | 0 <= p < |s.frames| ensures up <= p < up + Pow2(k + 1) <==> s.hd[p] == b || s.hd[p] == c {
      assert s.InBlock(s.hd[p], p);
      assert s.InBlock(b, p) ==> s.hd[p] == b;
      assert s.InBlock(c, p) ==> s.hd[p] == c;
    }
  }

  lemma MergeHeads(s: Pool, c: nat)
    requires s.Tiled() && s.held == {c} && CanMerge(s, c)
    ensures MaskLow(c, s.frames[c].order + 1) < |s.frames|
    ensures var k := s.frames[c].order; var b := Flip(c, k); var up := MaskLow(c, k + 1);
            forall g :: Merge(s, c).IsHead(g) <==> g == up || (s.IsHead(g) && g != b && g != c)
  {
    MergeGeometry(s, c);
    hide Pow2, Aligned, Flip, MaskLow, Pool.Covered, Pool.Disjoint, Pool.Shaped;
    var k := s.frames[c].order;
    var up := MaskLow(c, k + 1);
    assert Merge(s, c).hd[up] == up by { assert Within(up, up, k + 1); }
  }

  lemma MergeCovered(s: Pool, c: nat)
    requires s.Tiled() && s.held == {c} && CanMerge(s, c)
    ensures MaskLow(c, s.frames[c].order + 1) < |s.frames|
    ensures Merge(s, c).Covered()
  {
    MergeGeometry(s, c);
    MergeHeads(s, c);
    hide Pow2, Aligned, Flip, MaskLow, Pool.Disjoint, Pool.Shaped, Pool.StateOnHeads, Pool.IsFree;
    var t := Merge(s, c);
    forall p | 0 <= p < |t.hd| ensures t.IsHead(t.hd[p]) && t.InBlock(t.hd[p], p) {
      assert s.IsHead(s.hd[p]) && s.InBlock(s.hd[p], p);
    }
  }

  lemma MergeDisjoint(s: Pool, c: nat)
    requires s.Tiled() && s.held == {c} && CanMerge(s, c)
    ensures MaskLow(c, s.frames[c].order + 1) < |s.frames|
    ensures Merge(s, c).Disjoint()
  {
    MergeGeometry(s, c);
    MergeHeads(s, c);
    hide Pow2, Aligned, Flip, MaskLow, Pool.Covered, Pool.Shaped, Pool.StateOnHeads, Pool.IsFree;
    var t := Merge(s, c);
    forall g, p | t.IsHead(g) && 0 <= p < |t.hd| && t.InBlock(g, p) ensures t.hd[p] == g {
      if g != MaskLow(c, s.frames[c].order + 1) { assert s.IsHead(g) && s.InBlock(g, p); }
    }
  }

  lemma MergeShaped(s: Pool, c: nat)
    requires s.Tiled() && s.held == {c} && CanMerge(s, c)
    ensures MaskLow(c, s.frames[c].order + 1) < |s.frames|
    ensures Merge(s, c).Shaped()
  {
    MergeGeometry(s, c);
    MergeHeads(s, c);
    hide Pow2, Aligned, Flip, MaskLow, Pool.Covered, Pool.Disjoint, Pool.StateOnHeads, Pool.IsFree;
  }

  lemma MergeFree(s: Pool, c: nat)
    requires s.Tiled() && s.held == {c} && CanMerge(s, c)
    requires MaskLow(c, s.frames[c].order + 1) < |s.frames| && Merge(s, c).Tiled()
    ensures var b := Flip(c, s.frames[c].order); var t := Merge(s, c);
            && (forall g :: t.IsFree(g) <==> s.IsFree(g) && g != b)
            && t.FreeSet() == s.FreeSet() - Block(b, s.frames[c].order)
  {
    MergeFreeHeads(s, c);
    MergeFreePages(s, c);
  }

  lemma MergeFreeHeads(s: Pool, c: nat)
    requires s.Tiled() && s.held == {c} && CanMerge(s, c)
    requires MaskLow(c, s.frames[c].order + 1) < |s.frames| && Merge(s, c).Tiled()
    ensures forall g :: Merge(s, c).IsFree(g) <==> s.IsFree(g) && g != Flip(c, s.frames[c].order)
  {
    MergeGeometry(s, c);
    MergeHeads(s, c);
    hide Pow2, Aligned, Flip, MaskLow, Pool.Tiled;
  }

  lemma MergeFreePages(s: Pool, c: nat)
    requires s.Tiled() && s.held == {c} && CanMerge(s, c)
    requires MaskLow(c, s.frames[c].order + 1) < |s.frames| && Merge(s, c).Tiled()
    requires forall g :: Merge(s, c).IsFree(g) <==> s.IsFree(g) && g != Flip(c, s.frames[c].order)
    ensures Merge(s, c).FreeSet() == s.FreeSet() - Block(Flip(c, s.frames[c].order), s.frames[c].order)
  {
    MergeGeometry(s, c);
    MergeHeads(s, c);
    hide Pow2, Aligned, Flip, MaskLow, Pool.Shaped, Pool.StateOnHeads;
    var k := s.frames[c].order;
    var b := Flip(c, k);
    var t := Merge(s, c);
    forall p: nat ensures p in t.FreeSet() <==> p in s.FreeSet() && p !in Block(b, k) {
      assert p in Block(b, k) <==> Within(p, b, k);
      if p < |s.hd| {
        assert s.InBlock(s.hd[p], p);
        assert s.InBlock(b, p) ==> s.hd[p] == b;
      }
    }
  }

  lemma MergeTiled(s: Pool, c: nat)
    requires s.Tiled() && s.held == {c} && CanMerge(s, c)
    requires !s.frames[c].used && !s.frames[c].reserved && s.frames[c].ucase == {}
    requires s.frames[Flip(c, s.frames[c].order)].ucase == {}
    ensures MaskLow(c, s.frames[c].order + 1) < |s.frames|
    ensures Merge(s, c).Tiled()
    ensures var b := Flip(c, s.frames[c].order); var t := Merge(s, c);
            && (forall g :: t.IsFree(g) <==> s.IsFree(g) && g != b)
            && t.FreeSet() == s.FreeSet() - Block(b, s.frames[c].order)
  {
    hide Pow2, Aligned, Flip, MaskLow, Pool.Covered, Pool.Disjoint, Pool.Shaped;
    MergeGeometry(s, c);
    MergeHeads(s, c);
    MergeCovered(s, c);
    MergeDisjoint(s, c);
    MergeShaped(s, c);
    MergeFree(s, c);
  }

  lemma MergeConserves(s: Pool, c: nat)
    requires s.Tiled() && s.held == {c} && CanMerge(s, c)
    requires MaskLow(c, s.frames[c].order + 1) < |s.frames| && Merge(s, c).Tiled()
    requires Merge(s, c).FreeSet() == s.FreeSet() - Block(Flip(c, s.frames[c].order), s.frames[c].order)
    ensures var k := s.frames[c].order;
            Merge(s, c).FreeSet() + Block(MaskLow(c, k + 1), k + 1) == s.FreeSet() + Block(c, k)
  {
    MergeGeometry(s, c);
    hide Pow2, Aligned, Flip, MaskLow, Pool.Covered, Pool.Shaped, Pool.StateOnHeads;
    var k := s.frames[c].order;
    var b := Flip(c, k);
    var up := MaskLow(c, k + 1);
    forall p: nat ensures p in Merge(s, c).FreeSet() + Block(up, k + 1) <==> p in s.FreeSet() + Block(c, k) {
      assert p in Block(b, k) <==> Within(p, b, k);
      assert p in Block(c, k) <==> Within(p, c, k);
      assert p in Block(up, k + 1) <==> Within(p, up, k + 1);
      if Within(p, b, k) { assert s.InBlock(b, p); }
    }
  }

  lemma MergeClustered(s: Pool, c: nat)
    requires s.Tiled() && s.Clustered() && s.held == {c} && CanMerge(s, c)
    requires MaskLow(c, s.frames[c].order + 1) < |s.frames| && Merge(s, c).Tiled()
    ensures Merge(s, c).Clustered()
  {
    MergeGeometry(s, c);
    hide Pow2, Aligned, Flip, MaskLow, Pool.Disjoint, Pool.Shaped;
    var t := Merge(s, c);
    forall p | 0 <= p < |t.hd| && t.hd[p] !in t.held
      ensures if t.frames[t.hd[p]].used && t.frames[t.hd[p]].order > 0
              then t.frames[p].clustered && t.frames[p].headp == Some(t.hd[p])
              else !t.frames[p].clustered && t.frames[p].headp == None
    {
      assert s.IsHead(s.hd[p]) && s.hd[p] == t.hd[p] && s.hd[p] !in s.held;
    }
  }

  lemma MergeKeeps(s: Pool, c: nat)
    requires s.Inv() && s.held == {c} && CanMerge(s, c)
    requires !s.frames[c].used && !s.frames[c].reserved && s.frames[c].ucase == {}
    ensures MaskLow(c, s.frames[c].order + 1) < |s.frames|
    ensures var k := s.frames[c].order; var t := Merge(s, c); var up := MaskLow(c, k + 1);
            && t.Inv()
            && !t.frames[up].used && !t.frames[up].reserved && t.frames[up].ucase == {}
            && t.FreeSet() + Block(up, k + 1) == s.FreeSet() + Block(c, k)
            && Flip(c, k) in s.lists[k]
  {
    hide Pow2, Aligned, Flip, MaskLow, Pool.Covered, Pool.Disjoint, Pool.Shaped, Pool.Listed, Pool.Coalesced;
    MergeGeometry(s, c);
    MergeTiled(s, c);
    MergeListed(s, c);
    MergeConserves(s, c);
    MergeClustered(s, c);
  }

  lemma MergeListed(s: Pool, c: nat)
    requires s.Inv() && s.held == {c} && CanMerge(s, c)
    requires MaskLow(c, s.frames[c].order + 1) < |s.frames|
    requires MaskLow(c, s.frames[c].order + 1) == c || MaskLow(c, s.frames[c].order + 1) == Flip(c, s.frames[c].order)
    requires var t := Merge(s, c);
             t.Tiled() && forall g :: t.IsFree(g) <==> s.IsFree(g) && g != Flip(c, s.frames[c].order)
    requires s.IsFree(Flip(c, s.frames[c].order)) && s.IsHead(c)
    ensures Merge(s, c).Listed() && Merge(s, c).Coalesced()
    ensures Flip(c, s.frames[c].order) in s.lists[s.frames[c].order]
  {
    hide Pow2, Aligned, Flip, MaskLow, Pool.Tiled, Pool.Inv, Merge, Pool.IsFree, Pool.Listed, Pool.Coalesced, Unlink;
    SoundLists(s);
    var k, b, up, t := s.frames[c].order, Flip(c, s.frames[c].order), MaskLow(c, s.frames[c].order + 1), Merge(s, c);
    SoundSizes(t);
    MergeLists(s, c);
    FreeOfHeld(s, c, up);
    FreeIsFrame(s, b);
    forall g | t.IsFree(g) ensures 0 <= g < |s.frames| && t.frames[g] == s.frames[g] { FreeIsFrame(s, g); }
    LessOne(s, t, k, b);
    StillCoalesced(s, t, b);
  }

  /** The free heads, and their orders, are those of s without b. */
  ghost predicate LosesHead(s: Pool, t: Pool, b: nat) {
    && |s.hd| == |s.frames| && |t.hd| == |t.frames| == |s.frames| && |t.lists| == |s.lists|
    && (forall g :: t.IsFree(g) <==> s.IsFree(g) && g != b)
    && (forall g | t.IsFree(g) :: 0 <= g < |s.frames| && t.frames[g] == s.frames[g])
  }

  lemma LessOne(s: Pool, t: Pool, k: nat, b: nat)
    requires LosesHead(s, t, b) && s.Listed() && k < |s.lists| && s.IsFree(b) && b < |s.frames|
             && s.frames[b].order == k
    requires t.lists == s.lists[k := Unlink(s.lists[k], b)]
    ensures t.Listed() && b in s.lists[k]
  {
    hide Pool.IsFree, Unlink;
    forall j, h | 0 <= j < |t.lists| && h in t.lists[j] ensures t.IsFree(h) && t.frames[h].order == j {
      assert h in s.lists[j];
    }
    forall h | t.IsFree(h) && t.frames[h].order < |t.lists| ensures h in t.lists[t.frames[h].order] {
      assert h in s.lists[s.frames[h].order];
    }
  }

  lemma StillCoalesced(s: Pool, t: Pool, b: nat)
    requires LosesHead(s, t, b) && s.Coalesced()
    ensures t.Coalesced()
  {
    hide Pool.IsFree, Flip;
  }

  lemma SoundSizes(t: Pool)
    requires t.Tiled()
    ensures |t.hd| == |t.frames|
  {
  }

  lemma SoundLists(s: Pool)
    requires s.Inv()
    ensures |s.hd| == |s.frames| && s.Listed() && s.Coalesced() && s.Tiled()
  {
  }

  lemma FreeIsFrame(s: Pool, g: int)
    requires s.IsFree(g)
    ensures 0 <= g < |s.frames|
  {
  }

  lemma MergeLists(s: Pool, c: nat)
    requires c < |s.frames| && s.frames[c].order < |s.lists| && MaskLow(c, s.frames[c].order + 1) < |s.frames|
    ensures var k := s.frames[c].order; var up := MaskLow(c, k + 1); var t := Merge(s, c);
            && t.lists == s.lists[k := Unlink(s.lists[k], Flip(c, k))] && t.held == {up} && |t.hd| == |s.hd|
            && t.frames == s.frames[up := s.frames[up].(order := k + 1)]
  {
  }

  /** The block that results is held, not free. */
  lemma FreeOfHeld(s: Pool, c: nat, up: nat)
    requires c < |s.frames| && s.frames[c].order < |s.lists| && MaskLow(c, s.frames[c].order + 1) == up < |s.frames|
    ensures !Merge(s, c).IsFree(up)
  {
  }

  /** The coalesced block joins the queue of its order. */
  function Deposit(s: Pool, c: nat): Pool
    requires c < |s.frames| && s.frames[c].order < |s.lists|
  {
    var k := s.frames[c].order;
    s.(frames := ClearCluster(s.frames, c), lists := s.lists[k := s.lists[k] + [c]], held := {})
  }

  lemma DepositMarked(s: Pool, c: nat)
    requires s.Inv() && s.held == {c} && s.IsHead(c) && s.frames[c].order < |s.lists|
    requires !s.frames[c].used && Deposit(s, c).Tiled()
    ensures Deposit(s, c).Clustered()
  {
    hide Pow2, Aligned, Flip, Pool.Listed, Pool.Coalesced, Pool.UsesRecorded, Pool.Clustered, Pool.Covered;
    hide Pool.Disjoint, Pool.Shaped;
    MarkedClusters(s, Deposit(s, c), c);
  }

  lemma DepositKeeps(s: Pool, c: nat)
    requires s.Inv() && s.held == {c} && !CanMerge(s, c)
    requires !s.frames[c].used && !s.frames[c].reserved && s.frames[c].ucase == {}
    ensures s.frames[c].order < |s.lists|
    ensures var t := Deposit(s, c);
            && t.Inv() && t.IsFree(c)
            && t.FreeSet() == s.FreeSet() + Block(c, s.frames[c].order)
  {
    hide Pow2, Aligned, Flip, Pool.Covered, Pool.Disjoint, Pool.Shaped, Pool.Listed, Pool.Coalesced, Pool.Clustered;
    assert s.IsHead(c);
    FitsPool(s, c);
    var t := Deposit(s, c);
    assert forall p | 0 <= p < |s.frames| :: t.frames[p].order == s.frames[p].order;
    SameShape(s, t);
    assert forall g :: t.IsFree(g) <==> s.IsFree(g) || g == c;
    DepositMarked(s, c);
    DepositListed(s, c);
    DepositCoalesced(s, c);
    FreeSetLess(t, s, c);
  }

  lemma DepositListed(s: Pool, c: nat)
    requires s.Inv() && s.held == {c} && s.IsHead(c) && s.frames[c].order < |s.lists|
    requires var t := Deposit(s, c);
             t.Tiled() && forall g :: t.IsFree(g) <==> s.IsFree(g) || g == c
    ensures Deposit(s, c).Listed()
  {
    hide Pow2, Aligned, Flip, Pool.Covered, Pool.Disjoint, Pool.UsesRecorded, Pool.Clustered, Pool.Coalesced;
    var k := s.frames[c].order;
    var t := Deposit(s, c);
    assert !s.IsFree(c);
    assert c !in s.lists[k];
    Appended(s.lists[k], c);
    assert forall p | 0 <= p < |s.frames| :: t.frames[p].order == s.frames[p].order;
    hide Distinct;
    forall j: nat | j < |s.lists| ensures Distinct(t.lists[j]) {
      assert t.lists[j] == if j == k then s.lists[k] + [c] else s.lists[j];
    }
    forall j: nat, h | j < |s.lists| && h in t.lists[j] ensures t.IsFree(h) && t.frames[h].order == j {
      assert h in s.lists[j] || (j == k && h == c);
    }
    forall h | t.IsFree(h) && t.frames[h].order < |s.lists| ensures h in t.lists[t.frames[h].order] {
      assert s.IsFree(h) || h == c;
    }
  }

  lemma DepositCoalesced(s: Pool, c: nat)
    requires s.Inv() && s.held == {c} && !CanMerge(s, c) && s.IsHead(c) && s.frames[c].order < |s.lists|
    requires var t := Deposit(s, c);
             t.Tiled() && forall g :: t.IsFree(g) <==> s.IsFree(g) || g == c
    ensures Deposit(s, c).Coalesced()
  {
    hide Pow2, Aligned, Flip, Pool.Covered, Pool.Disjoint, Pool.UsesRecorded, Pool.Clustered, Pool.Listed;
    var t := Deposit(s, c);
    assert forall p | 0 <= p < |s.frames| :: t.frames[p].order == s.frames[p].order;
    forall g | t.IsFree(g) && t.frames[g].order + 1 < |t.lists|
      ensures !(t.IsFree(Flip(g, t.frames[g].order)) &&
                t.frames[Flip(g, t.frames[g].order)].order == t.frames[g].order)
    {
      FlipTwice(g, t.frames[g].order);
    }
  }
}
