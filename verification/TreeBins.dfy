/** The large bins of the allocator, changed in place: insertion, unlinking and the best-fit
    search. */
module TreeBins {
  import opened SizeBits
  import opened LargeBins
  import opened BinUnlink
  import opened BestFit

  /** `leftshift_for_tree_index` */
  function LeftShift(i: nat): int {
    if i == NTREEBINS - 1 then 0 else 63 - (i / 2 + 8 - 2)
  }

  class TreeHeap {
    var mem: map<nat, TChunk>
    const treebins: array<nat>
    var treemap: set<nat>
    ghost var at: map<Pos, seq<nat>>
    ghost var pos: map<nat, Pos>

    ghost function State(): Bins
      reads this, treebins
    {
      Bins(mem, treebins[..], treemap, at, pos)
    }

    ghost predicate Valid()
      reads this, treebins
    {
      treebins.Length == NTREEBINS && State().Inv()
    }

    /** The chunks in the bins, with their sizes. */
    ghost function Chunks(): map<nat, nat>
      reads this, treebins
    {
      State().Chunks()
    }

    constructor ()
      ensures Valid() && Chunks() == map[]
      ensures fresh(treebins)
    {
      mem := map[];
      treebins := new nat[NTREEBINS](_ => 0);
      treemap := {};
      at := map[];
      pos := map[];
    }

    /** `insert_large_chunk` */
    method Insert(x: nat, size: nat)
      requires Valid() && x != 0 && x !in Chunks() && MIN_LARGE_SIZE <= size < WORD
      modifies this, treebins
      ensures Valid() && Chunks() == old(Chunks())[x := size] && JoinsRing(old(State()), State(), x)
    {
      hide TreeIndex, BinWidth, BinPrefix, Shr, OnPath, Shl64, Bins.Inv, JoinsRing;
      ghost var s := State();
      assert x !in mem;
      RootPlace(s, size);
      var i := TreeIndex(size);
      if i !in treemap {
        AddRootKeeps(s, x, size);
        AddRootJoins(s, x, size);
        treemap := treemap + {i};
        treebins[i] := x;
        mem := mem[x := TChunk(size, x, x, 0, 0, BinSlot(i), i)];
        at := at[Root(i) := [x]];
        pos := pos[x := Root(i)];
        assert State() == AddRoot(s, x, size);
        return;
      }
      var t := treebins[i];
      var k := Shl64(size, LeftShift(i));
      ghost var p := Root(i);
      RootHead(s, i);
      ShiftWidth(size);
      while true
        invariant State() == s && s.Inv() && x !in s.mem
        invariant p in s.at && p == OnPath(size, p.w) && p.w <= 64 && t == s.Head(p) && t in s.mem
        invariant k == Shl64(size, 64 - p.w) && p.bin == i
        invariant forall w: nat | p.w < w <= BinWidth(p.bin) && OnPath(size, w) in s.at ::
                    s.SizeAt(OnPath(size, w)) != size
        decreases p.w
      {
        HeadNonNull(s, p);
        if mem[t].size != size {
          DifferAbove(s, p, size);
          ghost var b0 := Shr(size, p.w - 1) % 2;
          TopBitOfShift(size, 64 - p.w);
          var b := if k >= WORD / 2 then 1 else 0;
          var c := Kid(mem[t], b);
          k := (2 * k) % WORD;
          NextShift(size, p.w);
          if c != 0 {
            StepDown(s, p, size, b);
            t := c;
            p := Half(p, b);
          } else {
            AddLeafKeeps(s, x, size, p, b);
            AddLeafJoins(s, x, size, t, p, b);
            mem := mem[x := TChunk(size, x, x, 0, 0, ParentAt(t), i)];
            mem := mem[t := SetKid(mem[t], b, x)];
            at := at[Half(p, b) := [x]];
            pos := pos[x := Half(p, b)];
            assert State() == AddLeaf(s, x, size, t, p, b);
            return;
          }
        } else {
          AddToRingKeeps(s, x, size, p);
          AddToRingJoins(s, x, size, t, p);
          var f := mem[t].fd;
          mem := mem[f := mem[f].(bk := x)];
          mem := mem[t := mem[t].(fd := x)];
          mem := mem[x := TChunk(size, f, t, 0, 0, NoParent, i)];
          at := at[p := [at[p][0], x] + at[p][1..]];
          pos := pos[x := p];
          assert State() == AddToRing(s, x, size, t, p);
          return;
        }
      }
    }

    /** `unlink_large_chunk` */
    method Unlink(x: nat)
      requires Valid() && x in Chunks()
      modifies this, treebins
      ensures Valid() && Chunks() == old(Chunks()) - {x} && LeavesRing(old(State()), State(), x)
    {
      hide TreeIndex, BinWidth, BinPrefix, Shr, OnPath, Bins.Inv, Bins.Chunks;
      ChunkKeys(State());
      if mem[x].bk != x { UnlinkChained(x); } else { UnlinkLone(x); }
    }

    /** The case of a chunk that shares its size with others. */
    method UnlinkChained(x: nat)
      requires Valid() && x in mem && mem[x].bk != x
      modifies this, treebins
      ensures Valid() && Chunks() == old(Chunks()) - {x} && LeavesRing(old(State()), State(), x)
    {
      hide TreeIndex, BinWidth, BinPrefix, Shr, OnPath, Bins.Inv, Bins.Chunks, RelinkMem, LooseRing, Replace,
        LeavesRing;
      ghost var s := State();
      ghost var j := IndexInRing(s, x);
      ghost var p := s.pos[x];
      HeadNonNull(s, p);
      RootIff(s, p);
      Neighbourhood(s, p);
      NoNull(s);
      CutKeeps(s, x, j);
      CutMemory(s, x, j);
      CutChunks(s, x, j);
      CutLeaves(s, x, j);
      ghost var t := CutFromRing(s, x, j);
      var f := mem[x].fd;
      var r := mem[x].bk;
      var xp := mem[x].parent;
      mem := mem[f := mem[f].(bk := r)];
      mem := mem[r := mem[r].(fd := f)];
      assert mem == Bridge(s.mem, f, r);
      BridgedRec(s.mem, f, r, x);
      BridgeKeys(s.mem, f, r);
      if j > 0 { PlainElem(s, p, j); }
      if xp != NoParent {
        RelinkHead(x, r);
      }
      mem := mem - {x};
      at := t.at;
      pos := t.pos;
      CutRest(s, x, j);
      assert State() == t;
    }

    /** The case of the only chunk of its size: a leaf from below takes its place. */
    method UnlinkLone(x: nat)
      requires Valid() && x in mem && mem[x].bk == x
      modifies this, treebins
      ensures Valid() && Chunks() == old(Chunks()) - {x} && LeavesRing(old(State()), State(), x)
    {
      hide TreeIndex, BinWidth, BinPrefix, Shr, OnPath, Bins.Inv, Bins.Chunks, RelinkMem, LooseRing, Replace,
        LeavesRing, LastLeaf;
      ghost var s := State();
      ghost var j := IndexInRing(s, x);
      ghost var p := s.pos[x];
      LoneIsHead(s, x, j);
      HeadNonNull(s, p);
      RootIff(s, p);
      Neighbourhood(s, p);
      NoNull(s);
      var rp, side, r := x, 1, mem[x].child1;
      if r == 0 { side, r := 0, mem[x].child0; }
      if r == 0 {
        LoneMemory(s, p);
        LoneKids(s, p);
        LastLeafHere(s, p);
        DropLeafKeeps(s, p);
        LoneChunks(s, p);
        DropLeafLeaves(s, p, x);
        RelinkHead(x, 0);
        mem := mem - {x};
        ghost var t := DropLeaf(s, p);
        at := t.at;
        pos := t.pos;
        assert State() == t;
        return;
      }
      ghost var q := Half(p, side);
      FirstKid(s, p, side);
      LastLeafBelow(s, p, side);
      while mem[r].child1 != 0 || mem[r].child0 != 0
        invariant State() == s && q in s.at && r == s.Head(q) && r in s.mem && Below(s, q, p)
        invariant Over(q) in s.at && rp == s.Head(Over(q)) && rp in s.mem && side == q.q % 2
        invariant LastLeaf(s, q) == LastLeaf(s, p)
        decreases q.w
      {
        ghost var b := if mem[r].child1 != 0 then 1 else 0;
        NextKid(s, p, q, b);
        LastLeafBelow(s, q, b);
        q := Half(q, b);
        if mem[r].child1 != 0 { rp, side, r := r, 1, mem[r].child1; } else { rp, side, r := r, 0, mem[r].child0; }
      }
      LeafNow(s, q);
      LastLeafHere(s, q);
      LeafInPlaceKeeps(s, p, q);
      LeafMemory(s, p, q);
      LeafChunks(s, p, q);
      LeafInPlaceLeaves(s, p, q, x);
      mem := mem[rp := SetKid(mem[rp], side, 0)];
      LeafLinks(s, p, q);
      RelinkHead(x, r);
      mem := mem - {x};
      ghost var t := LeafInPlace(s, p, q);
      at := t.at;
      pos := t.pos;
      LeafRest(s, p, q);
      assert State() == t;
    }

    /** The end of `unlink_large_chunk`: r takes over the tree links of x. */
    method RelinkHead(x: nat, r: nat)
      requires x in mem && mem[x].parent != NoParent && treebins.Length == NTREEBINS && mem[x].index < NTREEBINS
      requires treebins[mem[x].index] == x <==> mem[x].parent.BinSlot?
      requires mem[x].parent.ParentAt? ==> mem[x].parent.p in mem
      requires r != 0 ==> r in mem
      requires r != 0 && mem[x].child0 != 0 ==> mem[x].child0 in mem
      requires r != 0 && mem[x].child1 != 0 ==> mem[x].child1 in mem
      requires r != x && mem[x].child0 != x && mem[x].child1 != x && mem[x].parent != ParentAt(x)
      modifies this`mem, this`treemap, treebins
      ensures mem == RelinkMem(old(mem), x, r)
      ensures treebins[..] == if old(mem[x].parent.BinSlot?) then old(treebins[..])[old(mem[x].index) := r]
                              else old(treebins[..])
      ensures treemap == if old(mem[x].parent.BinSlot?) && r == 0 then old(treemap) - {old(mem[x].index)}
                         else old(treemap)
    {
      var xp := mem[x].parent;
      var i := mem[x].index;
      if treebins[i] == x {
        treebins[i] := r;
        if r == 0 { treemap := treemap - {i}; }
      } else {
        if mem[xp.p].child0 == x {
          mem := mem[xp.p := mem[xp.p].(child0 := r)];
        } else {
          mem := mem[xp.p := mem[xp.p].(child1 := r)];
        }
      }
      if r != 0 {
        mem := mem[r := mem[r].(parent := xp)];
        AdoptKid(r, 0, mem[x].child0);
        AdoptKid(r, 1, mem[x].child1);
      }
    }

    method AdoptKid(r: nat, b: nat, c: nat)
      requires r in mem && (c != 0 ==> c in mem)
      modifies this`mem
      ensures mem == Adopt(old(mem), r, b, c)
    {
      if c != 0 {
        mem := mem[r := SetKid(mem[r], b, c)];
        mem := mem[c := mem[c].(parent := ParentAt(r))];
      }
    }

    /** The first loop of `tmalloc_large`: along the bits of the request through its own bin.
        t is where the second loop starts. */
    method WalkBin(nb: nat, idx: nat) returns (v: nat, rsize: nat, t: nat, ghost p: Pos)
      requires Valid() && MIN_LARGE_SIZE <= nb < WORD && idx == TreeIndex(nb) < NTREEBINS
      ensures IsBest(State(), v, nb, rsize) && (v != 0 ==> FitInBin(State(), nb, rsize, idx))
      ensures t != 0 ==> p in State().at && t == State().Head(p) && LeftInv(State(), nb, rsize, p)
      ensures t == 0 ==> WalkDone(State(), nb, rsize, idx, Root(0), false)
    {
      hide TreeIndex, BinWidth, BinPrefix, Shr, OnPath, Shl64, Bins.Inv, WalkInv, WalkDone, LeftInv, AllCovered,
        IsBest, FitInBin, Bins.Chunks, Bins.SizeAt;
      ghost var s := State();
      v, rsize, p := 0, WORD - nb, Root(idx);
      NoBest(s, nb);
      BinSlotOf(s, idx);
      t := treebins[idx];
      if t != 0 {
        var sizebits := Shl64(nb, LeftShift(idx));
        var rst := 0;
        ghost var rp, some := Root(0), false;
        ShiftWidth(nb);
        WalkStart(s, nb);
        RootPlace(s, nb);
        while true
          invariant p in s.at && t == s.Head(p) && p.w <= 64 && p == OnPath(nb, p.w) && p.bin == idx
          invariant WalkInv(s, nb, rsize, p, rp, some) && sizebits == Shl64(nb, 64 - p.w)
          invariant rst == if some then s.Head(rp) else 0
          invariant IsBest(s, v, nb, rsize) && (v != 0 ==> FitInBin(s, nb, rsize, idx))
          decreases p.w
        {
          HeadSize(s, p);
          var trem := (mem[t].size - nb) % WORD;
          Remainder(s, p, nb, v, rsize);
          if trem < rsize {
            WalkBetter(s, nb, rsize, trem, p, rp, some);
            v, rsize := t, trem;
            NowBest(s, nb, rsize, p);
            if rsize == 0 {
              PerfectFit(s, nb, p);
              break;
            }
          }
          NowCovered(s, p, nb, rsize);
          var rt := mem[t].child1;
          WalkStep(s, nb, rsize, p, rp, some);
          WalkLinks(s, nb, p);
          if p.w > 0 { TopBitOfShift(nb, 64 - p.w); NextShift(nb, p.w); }
          ghost var some0 := some;
          t := Kid(mem[t], if sizebits >= WORD / 2 then 1 else 0);
          if rt != 0 && rt != t {
            rst := rt;
            rp, some := Half(p, 1), true;
          }
          if t == 0 {
            t := rst;
            WalkEnd(s, nb, rsize, idx, rp, some);
            p := rp;
            break;
          }
          sizebits := (2 * sizebits) % WORD;
          p := OnPath(nb, p.w - 1);
        }
      } else {
        NothingInBin(s, nb);
      }
    }

    /** The second loop of `tmalloc_large` and the loop of `tmalloc_small`: along leftmost
        kids. */
    method WalkLeft(v0: nat, rsize0: nat, t0: nat, nb: nat, ghost p0: Pos) returns (v: nat, rsize: nat)
      requires Valid() && 0 < nb < WORD && IsBest(State(), v0, nb, rsize0)
      requires t0 != 0 ==> p0 in State().at && t0 == State().Head(p0) && LeftInv(State(), nb, rsize0, p0)
      requires t0 == 0 ==> AllCovered(State(), nb, rsize0)
      ensures IsBest(State(), v, nb, rsize) && AllCovered(State(), nb, rsize)
    {
      hide TreeIndex, BinWidth, BinPrefix, Shr, OnPath, Bins.Inv, LeftInv, AllCovered, IsBest, Bins.SizeAt, Bins.Chunks;
      ghost var s := State();
      v, rsize := v0, rsize0;
      var t := t0;
      ghost var p := p0;
      ghost var k := if t == 0 then 0 else p.w + 1;
      while t != 0
        invariant t != 0 ==> p in s.at && t == s.Head(p) && LeftInv(s, nb, rsize, p) && p.w < k
        invariant t == 0 ==> AllCovered(s, nb, rsize)
        invariant IsBest(s, v, nb, rsize)
        decreases k
      {
        HeadSize(s, p);
        var trem := (mem[t].size - nb) % WORD;
        Remainder(s, p, nb, v, rsize);
        LeftFits(s, nb, rsize, p);
        ghost var r0 := rsize;
        if trem < rsize {
          v, rsize := t, trem;
          NowBest(s, nb, rsize, p);
          LeftBetter(s, nb, r0, rsize, p);
        }
        LeftLinks(s, p);
        LeftStep(s, nb, rsize, p);
        k := p.w;
        if mem[t].child0 != 0 { t, p := mem[t].child0, Half(p, 0); }
        else if mem[t].child1 != 0 { t, p := mem[t].child1, Half(p, 1); }
        else { t := 0; }
      }
    }

    /** The search of `tmalloc_large`: the chunk with the least remainder, or null. */
    method FindLarge(nb: nat) returns (v: nat, rsize: nat)
      requires Valid() && MIN_LARGE_SIZE <= nb < WORD
      ensures v == 0 <==> forall x | x in Chunks() :: Chunks()[x] < nb
      ensures v == 0 ==> rsize == WORD - nb
      ensures v != 0 ==> v in Chunks() && Chunks()[v] == rsize + nb
      ensures v != 0 ==> forall x | x in Chunks() && Chunks()[x] >= nb :: Chunks()[v] <= Chunks()[x]
      ensures v != 0 ==> v in mem && mem[v].parent != NoParent
    {
      hide TreeIndex, BinWidth, BinPrefix, Shr, OnPath, Bins.Inv, LeftInv, AllCovered, IsBest, Bins.SizeAt, Bins.Chunks,
        WalkDone, FitInBin;
      ghost var s := State();
      var idx := TreeIndex(nb);
      RootPlace(s, nb);
      var t;
      ghost var p;
      v, rsize, t, p := WalkBin(nb, idx);
      if t == 0 && v == 0 {
        if i :| i in treemap && LeastAbove(treemap, idx, i) {
          BestIsNone(s, nb, rsize);
          RootHead(s, i);
          NextBin(s, nb, Root(0), i);
          t := treebins[i];
          p := Root(i);
          HeadSize(s, p);
        } else {
          NoLeast(treemap, idx);
          BestIsNone(s, nb, rsize);
          NoBinLeft(s, nb, Root(0));
          NothingFits(s, nb);
        }
      }
      if t == 0 && v != 0 { DoneFitting(s, nb, v, rsize, idx); }
      v, rsize := WalkLeft(v, rsize, t, nb, p);
      Minimal(s, v, nb, rsize);
      if v != 0 { BestHasParent(s, v, nb, rsize); }
      assert Chunks() == s.Chunks();
    }

    /** The search of `tmalloc_small`: a smallest chunk. */
    method FindSmall(nb: nat) returns (v: nat, rsize: nat)
      requires Valid() && 0 < nb < MIN_LARGE_SIZE && treemap != {}
      ensures v in Chunks() && Chunks()[v] == rsize + nb
      ensures forall x | x in Chunks() :: Chunks()[v] <= Chunks()[x]
      ensures v in mem && mem[v].parent != NoParent
    {
      hide TreeIndex, BinWidth, BinPrefix, Shr, OnPath, Bins.Inv, LeftInv, AllCovered, IsBest, Bins.SizeAt, Bins.Chunks;
      ghost var s := State();
      ghost var least := Least(treemap);
      var i :| i in treemap && forall k | k in treemap :: i <= k;
      ChunkKeys(s);
      RootHead(s, i);
      ghost var p := Root(i);
      HeadSize(s, p);
      SmallFits(s, nb, i);
      v := treebins[i];
      rsize := mem[v].size - nb;
      NowBest(s, nb, rsize, p);
      LeftLinks(s, p);
      LookedAt(s, p, nb);
      LeftStep(s, nb, rsize, p);
      var t := 0;
      if mem[v].child0 != 0 { t, p := mem[v].child0, Half(p, 0); }
      else if mem[v].child1 != 0 { t, p := mem[v].child1, Half(p, 1); }
      v, rsize := WalkLeft(v, rsize, t, nb, p);
      Minimal(s, v, nb, rsize);
      AllFit(s, nb);
      BestHasParent(s, v, nb, rsize);
    }
  }

  // ---- What the searches need ----

  lemma HeadSize(s: Bins, p: Pos)
    requires s.Inv() && p in s.at
    ensures s.Head(p) != 0 && s.Head(p) in s.mem && s.mem[s.Head(p)].size == s.SizeAt(p)
    ensures MIN_LARGE_SIZE <= s.SizeAt(p) < WORD
  {
    HeadNonNull(s, p);
  }

  /** The chunk just looked at is covered. */
  lemma NowCovered(s: Bins, p: Pos, nb: nat, rsize: nat)
    requires nb <= s.SizeAt(p) ==> rsize + nb <= s.SizeAt(p)
    ensures s.SizeAt(p) >= nb ==> Covered(s, p, nb, rsize)
  {
  }

  /** The walk ran out: the last right subtree comes next, if there was one. */
  lemma WalkEnd(s: Bins, nb: nat, rsize: nat, idx: nat, rp: Pos, some: bool)
    requires s.Inv() && WalkDone(s, nb, rsize, idx, rp, some) && idx == TreeIndex(nb)
    ensures some ==> rp in s.at && s.Head(rp) != 0 && LeftInv(s, nb, rsize, rp)
    ensures !some ==> WalkDone(s, nb, rsize, idx, Root(0), false)
  {
    hide TreeIndex, BinWidth, BinPrefix, Shr, OnPath, Bins.Inv, InTree, Bigger, Covered;
    if some {
      LeftFromWalk(s, nb, rsize, rp);
      HeadSize(s, rp);
    }
  }

  /** The leftmost kid. */
  lemma LeftLinks(s: Bins, p: Pos)
    requires s.Inv() && p in s.at
    ensures s.Head(p) in s.mem
    ensures p.w == 0 ==> s.mem[s.Head(p)].child0 == 0 && s.mem[s.Head(p)].child1 == 0
    ensures p.w > 0 ==>
              && s.mem[s.Head(p)].child0 == s.Head(Half(p, 0)) && (s.mem[s.Head(p)].child0 != 0 <==> Half(p, 0) in s.at)
              && s.mem[s.Head(p)].child1 == s.Head(Half(p, 1)) && (s.mem[s.Head(p)].child1 != 0 <==> Half(p, 1) in s.at)
  {
    hide TreeIndex, BinWidth, BinPrefix, Shr, OnPath, Bins.Inv;
    HeadNonNull(s, p);
    if p.w > 0 {
      HeadNonNull(s, Half(p, 0));
      HeadNonNull(s, Half(p, 1));
    }
  }

  lemma {:induction false} Least(m: set<nat>) returns (i: nat)
    requires m != {}
    ensures i in m && forall k | k in m :: i <= k
  {
    var x :| x in m;
    i := x;
    var rest := m - {x};
    if rest != {} {
      var j := Least(rest);
      if j < i { i := j; }
    }
    forall k | k in m ensures i <= k { assert k == x || k in rest; }
  }

  /** The least marked bin above idx. */
  predicate LeastAbove(m: set<nat>, idx: nat, i: nat) {
    i in m && i > idx && forall k | k in m && k > idx :: i <= k
  }

  lemma NoLeast(m: set<nat>, idx: nat)
    requires forall i | i in m :: !LeastAbove(m, idx, i)
    ensures forall k | k in m :: k <= idx
  {
    var above := set k | k in m && k > idx;
    if above != {} {
      var i := Least(above);
      forall k | k in m && k > idx ensures i <= k { assert k in above; }
    }
    forall k | k in m ensures k <= idx { assert k > idx ==> k in above; }
  }

  lemma BestIsNone(s: Bins, nb: nat, rsize: nat)
    requires IsBest(s, 0, nb, rsize)
    ensures rsize == WORD - nb
  {
  }

  lemma NothingFits(s: Bins, nb: nat)
    requires nb < WORD && forall r | r in s.at :: s.SizeAt(r) < nb
    ensures AllCovered(s, nb, WORD - nb)
  {
  }

  lemma DoneFitting(s: Bins, nb: nat, v: nat, rsize: nat, idx: nat)
    requires s.Inv() && WalkDone(s, nb, rsize, idx, Root(0), false) && idx == TreeIndex(nb)
             && FitInBin(s, nb, rsize, idx)
    ensures AllCovered(s, nb, rsize)
  {
    hide TreeIndex, BinWidth, BinPrefix, Shr, OnPath, Bins.Inv, WalkDone, AllCovered, Bins.SizeAt;
    DoneWithFit(s, nb, rsize, Root(0));
  }

  lemma SmallFits(s: Bins, nb: nat, i: nat)
    requires s.Inv() && 0 < nb < MIN_LARGE_SIZE && i in s.marked && forall k | k in s.marked :: i <= k
    ensures forall rsize :: LeftInv(s, nb, rsize, Root(i))
  {
    hide Bins.Inv, InTree, Bigger;
    SmallStart(s, nb, i);
    SmallBits(nb, i);
  }

  lemma SmallBits(nb: nat, i: nat)
    requires nb < MIN_LARGE_SIZE
    ensures TreeIndex(nb) == 0
    ensures Shr(nb, Root(0).w) < Root(0).q
  {
    WordIsPow2();
    ShrSmall(nb, 8);
    assert Shr(nb, 8) == Shr(nb, 7) / 2;
  }

  lemma LookedAt(s: Bins, p: Pos, nb: nat)
    requires forall rsize :: LeftInv(s, nb, rsize, p)
    requires nb <= s.SizeAt(p)
    ensures LeftInv(s, nb, s.SizeAt(p) - nb, p)
  {
  }

  lemma AllFit(s: Bins, nb: nat)
    requires s.Inv() && nb < MIN_LARGE_SIZE
    ensures forall x | x in s.Chunks() :: s.Chunks()[x] >= nb
  {
    forall x | x in s.mem ensures s.mem[x].size >= nb { PlacedSize(s, x); }
  }

  lemma PlacedSize(s: Bins, x: nat)
    requires s.Inv() && x in s.mem
    ensures x in s.pos && s.pos[x] in s.at && s.SizeAt(s.pos[x]) == s.mem[x].size
    ensures MIN_LARGE_SIZE <= s.mem[x].size < WORD
  {
    hide TreeIndex, BinWidth, BinPrefix, Shr, OnPath, Bins.Inv, Bins.SizeAt;
    var j := IndexInRing(s, x);
    ElemIn(s, s.pos[x], j);
    HeadSize(s, s.pos[x]);
  }

  /** When everything is covered the best chunk found is the least that fits. */
  lemma Minimal(s: Bins, v: nat, nb: nat, rsize: nat)
    requires s.Inv() && 0 < nb < WORD && IsBest(s, v, nb, rsize) && AllCovered(s, nb, rsize)
    ensures v == 0 <==> forall x | x in s.Chunks() :: s.Chunks()[x] < nb
    ensures v == 0 ==> rsize == WORD - nb
    ensures v != 0 ==> v in s.Chunks() && s.Chunks()[v] == rsize + nb
    ensures v != 0 ==> forall x | x in s.Chunks() && s.Chunks()[x] >= nb :: s.Chunks()[v] <= s.Chunks()[x]
  {
    hide TreeIndex, BinWidth, BinPrefix, Shr, OnPath, Bins.Inv, Bins.SizeAt;
    forall x | x in s.mem && s.mem[x].size >= nb ensures rsize + nb <= s.mem[x].size && s.mem[x].size < WORD {
      PlacedSize(s, x);
      assert Covered(s, s.pos[x], nb, rsize);
    }
    if v != 0 {
      var p :| p in s.at && v == s.Head(p) && s.SizeAt(p) == rsize + nb;
      HeadSize(s, p);
      assert v in s.Chunks();
    }
  }

  /** Of several chunks of one size the search finds the first. */
  lemma BestHasParent(s: Bins, v: nat, nb: nat, rsize: nat)
    requires s.Inv() && v != 0 && IsBest(s, v, nb, rsize)
    ensures v in s.mem && s.mem[v].parent != NoParent
  {
    hide TreeIndex, BinWidth, BinPrefix, Shr, OnPath, Bins.Inv, Bins.SizeAt;
    var p :| p in s.at && v == s.Head(p) && s.SizeAt(p) == rsize + nb;
    HeadNonNull(s, p);
  }

  lemma ChunkKeys(s: Bins)
    ensures s.Chunks().Keys == s.mem.Keys
  {
  }

  lemma LoneIsHead(s: Bins, x: nat, j: nat)
    requires s.Inv() && x in s.mem && s.mem[x].bk == x
    requires x in s.pos && s.pos[x] in s.at && j < |s.at[s.pos[x]]| && s.at[s.pos[x]][j] == x
    ensures s.at[s.pos[x]] == [s.Head(s.pos[x])] && s.Head(s.pos[x]) == x
  {
    hide TreeIndex, BinWidth, BinPrefix, Shr, OnPath, Bins.Inv;
    ElemIn(s, s.pos[x], j);
    RingShape(s, s.pos[x]);
  }

  lemma LoneKids(s: Bins, p: Pos)
    requires s.Inv() && p in s.at && s.Head(p) in s.mem
    requires s.mem[s.Head(p)].child0 == 0 && s.mem[s.Head(p)].child1 == 0
    ensures p.w > 0 ==> s.Head(Half(p, 0)) == 0 && s.Head(Half(p, 1)) == 0
  {
    hide TreeIndex, BinWidth, BinPrefix, Shr, OnPath, Bins.Inv;
    HeadNonNull(s, p);
  }

  lemma LeafNow(s: Bins, q: Pos)
    requires s.Inv() && q in s.at && s.Head(q) in s.mem
    requires s.mem[s.Head(q)].child0 == 0 && s.mem[s.Head(q)].child1 == 0
    ensures q.w > 0 ==> s.Head(Half(q, 0)) == 0 && s.Head(Half(q, 1)) == 0
  {
    LoneKids(s, q);
  }

  lemma LastLeafHere(s: Bins, q: Pos)
    requires s.Inv() && q in s.at && s.Head(q) in s.mem
    requires s.mem[s.Head(q)].child0 == 0 && s.mem[s.Head(q)].child1 == 0
    ensures LastLeaf(s, q) == q
  {
    LoneKids(s, q);
    if q.w > 0 {
      HeadNonNull(s, Half(q, 0));
      HeadNonNull(s, Half(q, 1));
    }
    hide TreeIndex, BinWidth, BinPrefix, Shr, OnPath, Bins.Inv;
  }

  lemma LastLeafBelow(s: Bins, q: Pos, b: nat)
    requires s.Inv() && q in s.at && s.Head(q) in s.mem && b < 2 && Kid(s.mem[s.Head(q)], b) != 0
    requires b == 0 ==> s.mem[s.Head(q)].child1 == 0
    ensures q.w > 0 && LastLeaf(s, q) == LastLeaf(s, Half(q, b))
  {
    hide TreeIndex, BinWidth, BinPrefix, Shr, OnPath, Bins.Inv;
    HeadNonNull(s, q);
    assert b == 0 || b == 1;
    assert q.w > 0;
    HeadNonNull(s, Half(q, 0));
    HeadNonNull(s, Half(q, 1));
  }

  lemma FirstKid(s: Bins, p: Pos, b: nat)
    requires s.Inv() && p in s.at && b < 2 && s.Head(p) in s.mem && Kid(s.mem[s.Head(p)], b) != 0
    ensures p.w > 0 && Half(p, b) in s.at && Below(s, Half(p, b), p) && Over(Half(p, b)) == p
    ensures Kid(s.mem[s.Head(p)], b) == s.Head(Half(p, b)) && s.Head(Half(p, b)) in s.mem && Half(p, b).q % 2 == b
  {
    hide TreeIndex, BinWidth, BinPrefix, Shr, OnPath, Bins.Inv, Below;
    HeadNonNull(s, p);
    assert b == 0 || b == 1;
    assert p.w > 0;
    HeadNonNull(s, Half(p, b));
    KidBelow(s, p, p, b);
  }

  lemma NextKid(s: Bins, p: Pos, q: Pos, b: nat)
    requires s.Inv() && p in s.at && Below(s, q, p) && b < 2 && s.Head(q) in s.mem && Kid(s.mem[s.Head(q)], b) != 0
    ensures q.w > 0 && Half(q, b) in s.at && Below(s, Half(q, b), p) && Over(Half(q, b)) == q
    ensures Kid(s.mem[s.Head(q)], b) == s.Head(Half(q, b)) && s.Head(Half(q, b)) in s.mem && Half(q, b).q % 2 == b
  {
    hide TreeIndex, BinWidth, BinPrefix, Shr, OnPath, Bins.Inv;
    HeadNonNull(s, q);
    assert b == 0 || b == 1;
    assert q.w > 0;
    HeadNonNull(s, Half(q, b));
    KidBelow(s, q, p, b);
  }

  lemma CutChunks(s: Bins, x: nat, j: nat)
    requires s.Inv() && x in s.mem && s.mem[x].bk != x
    requires x in s.pos && s.pos[x] in s.at && j < |s.at[s.pos[x]]| && s.at[s.pos[x]][j] == x
    ensures s.mem[x].fd in RingRecs(s, s.pos[x]) && s.mem[x].bk in RingRecs(s, s.pos[x])
    ensures |DropAt(s.at[s.pos[x]], j)| > 0
    ensures DropAt(s.at[s.pos[x]], j)[0] in Bridge(RingRecs(s, s.pos[x]), s.mem[x].fd, s.mem[x].bk) - {x}
    ensures CutFromRing(s, x, j).Chunks() == s.Chunks() - {x}
  {
    hide TreeIndex, BinWidth, BinPrefix, Shr, OnPath, Bins.Inv, LooseRing, RelinkMem, DropAt, Bins.Chunks;
    CutKeeps(s, x, j);
    CutMemory(s, x, j);
    var m := Bridge(s.mem, s.mem[x].fd, s.mem[x].bk);
    BridgeSizes(s.mem, s.mem[x].fd, s.mem[x].bk);
    SizesAfterRelink(m, x, s.mem[x].bk);
    hide Bridge, CutFromRing;
    LessOne(s, CutFromRing(s, x, j), x);
  }

  lemma BridgeSizes(m: map<nat, TChunk>, f: nat, r: nat)
    requires f in m && r in m
    ensures Bridge(m, f, r).Keys == m.Keys && forall y | y in m :: Bridge(m, f, r)[y].size == m[y].size
  {
  }

  lemma LessOne(s: Bins, t: Bins, x: nat)
    requires x in s.mem && t.mem.Keys == s.mem.Keys - {x} && forall y | y in t.mem :: t.mem[y].size == s.mem[y].size
    ensures t.Chunks() == s.Chunks() - {x}
  {
  }

  lemma SizesAfterRelink(m: map<nat, TChunk>, x: nat, r: nat)
    requires x in m
    ensures RelinkMem(m, x, r).Keys == m.Keys
    ensures forall y | y in m :: RelinkMem(m, x, r)[y].size == m[y].size
  {
    hide Adopt;
  }

  /** What CutFromRing does beside the records. */
  lemma CutRest(s: Bins, x: nat, j: nat)
    requires s.Inv() && x in s.mem && s.mem[x].bk != x
    requires x in s.pos && s.pos[x] in s.at && j < |s.at[s.pos[x]]| && s.at[s.pos[x]][j] == x
    ensures s.mem[x].fd in RingRecs(s, s.pos[x]) && s.mem[x].bk in RingRecs(s, s.pos[x])
    ensures |DropAt(s.at[s.pos[x]], j)| > 0
    ensures DropAt(s.at[s.pos[x]], j)[0] in Bridge(RingRecs(s, s.pos[x]), s.mem[x].fd, s.mem[x].bk) - {x}
    ensures s.pos[x].bin < |s.roots|
    ensures CutFromRing(s, x, j).roots ==
              if j == 0 && s.mem[x].parent.BinSlot? then s.roots[s.pos[x].bin := s.mem[x].bk] else s.roots
    ensures CutFromRing(s, x, j).marked == s.marked
  {
    hide TreeIndex, BinWidth, BinPrefix, Shr, OnPath, Bins.Inv, LooseRing, DropAt, Bridge;
    CutKeeps(s, x, j);
    RootIff(s, s.pos[x]);
  }

  lemma LoneChunks(s: Bins, p: Pos)
    requires s.Inv() && p in s.at && s.at[p] == [s.Head(p)]
    ensures DropLeaf(s, p).Chunks() == s.Chunks() - {s.Head(p)}
  {
    hide TreeIndex, BinWidth, BinPrefix, Shr, OnPath, Bins.Inv, RelinkMem;
    LoneMemory(s, p);
    SizesAfterRelink(s.mem, s.Head(p), 0);
  }

  lemma LeafChunks(s: Bins, p: Pos, q: Pos)
    requires s.Inv() && p in s.at && Below(s, q, p) && s.at[p] == [s.Head(p)]
    requires q.w > 0 ==> s.Head(Half(q, 0)) == 0 && s.Head(Half(q, 1)) == 0
    ensures |s.at[q]| > 0 && s.at[q][0] in s.mem
    ensures LeafInPlace(s, p, q).Chunks() == s.Chunks() - {s.Head(p)}
  {
    hide TreeIndex, BinWidth, BinPrefix, Shr, OnPath, Bins.Inv, RelinkMem, Below;
    LeafMemory(s, p, q);
    var m := s.mem[s.Head(Over(q)) := SetKid(s.mem[s.Head(Over(q))], q.q % 2, 0)];
    SizesAfterRelink(m, s.Head(p), s.Head(q));
  }

  /** Cutting the leaf off leaves the parent link of the place above alone. */
  lemma LeafLinks(s: Bins, p: Pos, q: Pos)
    requires s.Inv() && p in s.at && Below(s, q, p) && s.Head(p) in s.mem
    ensures s.Head(q) != s.Head(p) && Over(q) in s.at
  {
    hide TreeIndex, BinWidth, BinPrefix, Shr, Bins.Inv;
    HeadNonNull(s, p);
    HeadNonNull(s, q);
    NotRoot(s, q, p);
  }

  lemma LeafRest(s: Bins, p: Pos, q: Pos)
    requires s.Inv() && p in s.at && Below(s, q, p) && s.at[p] == [s.Head(p)]
    ensures |s.at[q]| > 0 && s.at[q][0] in s.mem && p.bin < |s.roots| && s.Head(p) in s.mem
    ensures LeafInPlace(s, p, q).roots ==
              if s.mem[s.Head(p)].parent.BinSlot? then s.roots[p.bin := s.Head(q)] else s.roots
    ensures LeafInPlace(s, p, q).marked == s.marked
  {
    hide TreeIndex, BinWidth, BinPrefix, Shr, Bins.Inv;
    HeadNonNull(s, p);
    HeadNonNull(s, q);
    RingShape(s, q);
    NotRoot(s, q, p);
    RootIff(s, p);
  }

  lemma RootHead(s: Bins, i: nat)
    requires s.Inv() && i in s.marked
    ensures i < |s.roots| == NTREEBINS && Root(i) in s.at && s.roots[i] == s.Head(Root(i)) && s.Head(Root(i)) in s.mem
  {
    hide TreeIndex, BinWidth, BinPrefix, Bins.Rings, Bins.AllPlaced, Bins.Trees, Bins.SizesUnique;
    HeadNonNull(s, Root(i));
  }

  lemma ShiftWidth(size: nat)
    requires MIN_LARGE_SIZE <= size < WORD
    ensures 0 <= LeftShift(TreeIndex(size)) == 64 - BinWidth(TreeIndex(size))
    ensures 0 < BinWidth(TreeIndex(size)) <= 64 && Root(TreeIndex(size)).w == BinWidth(TreeIndex(size))
  {
    IndexPrefix(size);
  }

  /** At depth zero a place holds one size only. */
  lemma DifferAbove(s: Bins, p: Pos, size: nat)
    requires s.Inv() && p in s.at && p == OnPath(size, p.w) && s.SizeAt(p) != size
    ensures p.w > 0
  {
    HeadNonNull(s, p);
  }

  lemma NextShift(size: nat, w: nat)
    requires 0 < w <= 64
    ensures (2 * Shl64(size, 64 - w)) % WORD == Shl64(size, 64 - (w - 1))
  {
  }

  lemma StepDown(s: Bins, p: Pos, size: nat, b: nat)
    requires s.Inv() && p in s.at && p == OnPath(size, p.w) && p.w > 0 && b == Shr(size, p.w - 1) % 2
    requires Kid(s.Rec(s.Head(p)), b) != 0
    ensures Half(p, b) in s.at && Half(p, b) == OnPath(size, p.w - 1)
    ensures Kid(s.Rec(s.Head(p)), b) == s.Head(Half(p, b)) && s.Head(Half(p, b)) in s.mem
  {
    hide TreeIndex, BinWidth, BinPrefix, Bins.Inv;
    HeadNonNull(s, p);
    HeadNonNull(s, Half(p, b));
    PathStep(size, p.w);
  }

  // ---- Links as the walks read them ----

  lemma BinSlotOf(s: Bins, i: nat)
    requires s.Inv() && i < NTREEBINS
    ensures |s.roots| == NTREEBINS && s.roots[i] == s.Head(Root(i))
    ensures s.roots[i] != 0 <==> i in s.marked
    ensures Root(i) in s.at <==> i in s.marked
  {
    hide TreeIndex, BinWidth, BinPrefix, Bins.Rings, Bins.AllPlaced, Bins.Trees, Bins.SizesUnique;
    HeadNonNull(s, Root(i));
  }

  /** Some chunk of bin i leaves the remainder rsize. */
  ghost predicate FitInBin(s: Bins, nb: nat, rsize: nat, i: nat) {
    exists p :: p in s.at && p.bin == i && s.SizeAt(p) == rsize + nb
  }

  lemma NoBest(s: Bins, nb: nat)
    requires nb < WORD
    ensures IsBest(s, 0, nb, WORD - nb)
  {
  }

  lemma NowBest(s: Bins, nb: nat, rsize: nat, p: Pos)
    requires s.Inv() && p in s.at && s.SizeAt(p) == rsize + nb
    ensures IsBest(s, s.Head(p), nb, rsize) && FitInBin(s, nb, rsize, p.bin) && s.Head(p) != 0
  {
    HeadNonNull(s, p);
  }

  /** The kids that a step of the walk reads. */
  lemma WalkLinks(s: Bins, nb: nat, p: Pos)
    requires s.Inv() && p in s.at && p == OnPath(nb, p.w)
    ensures s.Head(p) in s.mem
    ensures p.w == 0 ==> s.mem[s.Head(p)].child0 == 0 && s.mem[s.Head(p)].child1 == 0
    ensures p.w > 0 ==>
              var b := Shr(nb, p.w - 1) % 2; var c := Kid(s.mem[s.Head(p)], b);
              && c == s.Head(Half(p, b)) && (c != 0 <==> Half(p, b) in s.at)
              && s.mem[s.Head(p)].child1 == s.Head(Half(p, 1)) && (s.mem[s.Head(p)].child1 != 0 <==> Half(p, 1) in s.at)
              && Half(p, b) == OnPath(nb, p.w - 1)
              && (b == 0 && c != 0 ==> c != s.mem[s.Head(p)].child1)
  {
    hide TreeIndex, BinWidth, BinPrefix, Bins.Inv;
    HeadNonNull(s, p);
    if p.w > 0 {
      HeadNonNull(s, Half(p, 0));
      HeadNonNull(s, Half(p, 1));
      PathStep(nb, p.w);
    }
  }
}
