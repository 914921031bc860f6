/** `dlmalloc` and `dlfree` on one segment. */
module Malloc {
  import opened Queues
  import opened SizeBits
  import opened LargeBins
  import opened BestFit
  import opened TreeBins
  import opened HeapTiling
  import opened SmallBins

  const CHUNK_OVERHEAD: nat := 8
  const MIN_REQUEST: nat := 23
  const MAX_SMALL_REQUEST: nat := 232
  const MAX_REQUEST: nat := WORD - 128

  /** `align_offset` */
  function AlignOffset(a: nat): nat {
    if a % ALIGNMENT == 0 then 0 else ALIGNMENT - a % ALIGNMENT
  }

  /** `pad_request` */
  function PadRequest(bytes: nat): nat {
    (bytes + CHUNK_OVERHEAD + ALIGNMENT - 1) / ALIGNMENT * ALIGNMENT
  }

  /** The chunk size for a request: `pad_request` with its limits. */
  function ChunkSizeFor(bytes: nat): (nb: nat)
    ensures bytes < MAX_REQUEST ==> nb % ALIGNMENT == 0 && MIN_CHUNK_SIZE <= nb
    ensures bytes < MAX_REQUEST ==>
              bytes + CHUNK_OVERHEAD <= nb && (nb == MIN_CHUNK_SIZE || nb < bytes + CHUNK_OVERHEAD + ALIGNMENT)
    ensures bytes <= MAX_SMALL_REQUEST <==> nb < MIN_LARGE_SIZE
    ensures bytes >= MAX_REQUEST ==> nb == WORD - 1
    ensures nb < WORD
  {
    if bytes < MIN_REQUEST then MIN_CHUNK_SIZE else if bytes >= MAX_REQUEST then WORD - 1 else PadRequest(bytes)
  }

  ghost function Large(m: map<nat, nat>): map<nat, nat> {
    map x | x in m && !IsSmall(m[x]) :: m[x]
  }

  /** No free chunk of the heap can serve a request of nb bytes. */
  ghost predicate NoRoom(h: Heap, nb: nat) {
    && (forall x | x in h.Binned() :: h.Binned()[x] < nb)
    && (h.dv in h.blk ==> h.blk[h.dv].size < nb)
    && (h.top in h.blk ==> h.blk[h.top].size <= nb)
  }

  /** From h to g the chunk before mem was handed out for a request of nb bytes. */
  ghost predicate HandedOut(h: Heap, g: Heap, mem: nat, nb: nat) {
    && mem >= 16 && mem % ALIGNMENT == 0
    && var p := mem - 16;
    && p !in h.Live() && p in g.Live() && nb <= g.Live()[p] < nb + MIN_CHUNK_SIZE
    && g.Live() == h.Live()[p := g.Live()[p]] && g.base == h.base && g.end == h.end
  }

  ghost predicate DvFits(h: Heap, nb: nat) {
    h.dv in h.blk && h.blk[h.dv].size >= nb
  }

  /** No smaller chunk in the bins fits. */
  ghost predicate Smallest(h: Heap, p: nat, nb: nat) {
    && p in h.Binned() && h.Binned()[p] >= nb
    && forall y | y in h.Binned() && h.Binned()[y] >= nb :: h.Binned()[p] <= h.Binned()[y]
  }

  /** A chunk in the bins is used before dv: for a small request only one of just the size, for a
      large one any that fits and is smaller than dv. */
  ghost predicate BinsFirst(h: Heap, nb: nat) {
    exists x :: x in h.Binned() && h.Binned()[x] >= nb &&
                if nb < MIN_LARGE_SIZE then h.Binned()[x] == nb else DvFits(h, nb) ==> h.Binned()[x] < h.blk[h.dv].size
  }

  /** The chunk that serves a request: the best fit in the bins where they come before dv, else dv if
      it fits, else the best fit in the bins, else top. */
  ghost predicate Preferred(h: Heap, p: nat, nb: nat) {
    if BinsFirst(h, nb) then Smallest(h, p, nb)
    else if DvFits(h, nb) then p == h.dv
    else if exists x :: x in h.Binned() && h.Binned()[x] >= nb then Smallest(h, p, nb)
    else p == h.top
  }

  /** From h to g, what is left of chunk p when its first nb bytes are handed out: top shrinks; dv shrinks
      or is used up, and so is a chunk in the bins, unless what is left makes a chunk. Then for a small
      request the rest is the new dv, and the old one goes to the bins; for a large one the rest does. */
  ghost predicate RestGoes(h: Heap, g: Heap, p: nat, nb: nat, small: bool) {
    && p in h.blk && var left := h.blk[p].size - nb; var r := p + nb;
    if p == h.top then
      g.top == r && r in g.blk && g.blk[r].size == left && g.dv == h.dv && g.Binned() == h.Binned()
    else if p == h.dv then
      && g.top == h.top && g.Binned() == h.Binned()
      && if left < MIN_CHUNK_SIZE then g.dv == 0 else g.dv == r && r in g.blk && g.blk[r].size == left
    else
      && g.top == h.top && var rest := h.Binned() - {p};
      if left < MIN_CHUNK_SIZE then
        g.dv == h.dv && g.Binned() == rest
      else if small then
        && g.dv == r && r in g.blk && g.blk[r].size == left
        && g.Binned() == if h.dv in h.blk then rest[h.dv := h.blk[h.dv].size] else rest
      else
        g.dv == h.dv && g.Binned() == rest[r := left]
  }

  /** From h to g, where the run goes that freeing x makes, from a up to b: to top if it reaches it, and
      else to dv if it has swallowed dv, and else to the bins. */
  ghost predicate RunGoes(h: Heap, g: Heap, x: nat, a: nat, b: nat) {
    var rest := h.Binned() - {a, h.Next(x)};
    if h.Next(x) == h.top then
      && g.top == a && a in g.blk && g.blk[a].size == h.end - a && g.Binned() == rest
      && g.dv == if h.dv == a then 0 else h.dv
    else if h.dv != 0 && (h.dv == a || h.dv == h.Next(x)) then
      g.top == h.top && g.dv == a && a in g.blk && g.blk[a].size == b - a && g.Binned() == rest
    else
      g.top == h.top && g.dv == h.dv && g.Binned() == rest[a := b - a]
  }

  /** The run that freeing x makes has gone where it should. */
  ghost predicate Merged(h: Heap, g: Heap, x: nat) {
    exists a, b :: FreeRun(h, x, a, b) && RunGoes(h, g, x, a, b)
  }

  /** A chunk comes first in the bin of its size, or behind the first of the tree chunks of its size. */
  ghost predicate JoinsBins(was: seq<seq<nat>>, now: seq<seq<nat>>, before: Bins, after: Bins, p: nat, s: nat) {
    if IsSmall(s) then
      SmallIndex(s) < |was| && now == was[SmallIndex(s) := [p] + was[SmallIndex(s)]] && after == before
    else
      now == was && JoinsRing(before, after, p)
  }

  /** The others of its bin or its ring stay in their order. */
  ghost predicate LeavesBins(was: seq<seq<nat>>, now: seq<seq<nat>>, before: Bins, after: Bins, p: nat, s: nat) {
    if IsSmall(s) then
      && SmallIndex(s) < |was| && after == before
      && exists q :: LeftOut(was[SmallIndex(s)], q, p) && now == was[SmallIndex(s) := q]
    else
      now == was && LeavesRing(before, after, p)
  }

  /** Bin i starts with p. */
  ghost predicate IsFirst(bins: seq<seq<nat>>, i: nat, p: nat) {
    i < |bins| && bins[i] != [] && bins[i][0] == p
  }

  class Arena {
    ghost const base: nat
    ghost const end: nat
    var head: map<nat, Tag>
    var foot: map<nat, nat>
    var dv: nat
    var dvsize: nat
    var top: nat
    var topsize: nat
    var smallmap: set<nat>
    const smallbins: array<seq<nat>>
    const trees: TreeHeap
    ghost var blk: map<nat, Block>

    ghost function State(): Heap
      reads this
    {
      Heap(base, end, head, foot, dv, top, blk)
    }

    ghost predicate BinsHold(m: map<nat, nat>)
      reads this`smallmap, smallbins, trees, trees.treebins
    {
      && smallbins.Length == NSMALLBINS && Holds(smallbins[..], smallmap, m)
      && trees.Valid() && trees.Chunks() == Large(m)
      && forall x | x in m :: x != 0 && m[x] < WORD && m[x] % ALIGNMENT == 0 && m[x] >= MIN_CHUNK_SIZE
    }

    ghost predicate Tidy()
      reads this
    {
      && State().Inv() && dvsize == (if dv in blk then blk[dv].size else 0)
      && topsize == (if top in blk then blk[top].size else 0)
    }

    ghost predicate Valid()
      reads this, smallbins, trees, trees.treebins
    {
      Tidy() && BinsHold(State().Binned())
    }

    /** `init_bins` and `init_top` */
    constructor (p: nat, psize: nat)
      requires 0 < p && ALIGNMENT <= psize && p + psize < WORD
      ensures Valid() && State().Live() == map[] && fresh(smallbins) && fresh(trees) && fresh(trees.treebins)
      ensures base % ALIGNMENT == 0 && p <= base < p + ALIGNMENT && end == p + psize
      ensures top == base && topsize == end - base && dv == 0 && smallmap == {} && State().Binned() == map[]
    {
      var offset := AlignOffset(p + 16);
      base, end := p + offset, p + psize;
      dv, dvsize := 0, 0;
      top, topsize := p + offset, psize - offset;
      head := map[p + offset := Tag(psize - offset, true, false), p + psize := Tag(TOP_FOOT_SIZE, false, false)];
      foot := map[];
      smallmap := {};
      smallbins := new seq<nat>[NSMALLBINS](_ => []);
      trees := new TreeHeap();
      blk := map[p + offset := Block(psize - offset, 0, false)];
      new;
      NewHeapInv(base, end);
      assert State() == NewHeap(base, end);
    }

    // ---- Bins ----

    /** `insert_small_chunk` */
    method InsertSmallChunk(p: nat, s: nat, ghost m: map<nat, nat>)
      requires BinsHold(m) && p !in m && p != 0 && MIN_CHUNK_SIZE <= s && s % ALIGNMENT == 0 && IsSmall(s)
      modifies this`smallmap, smallbins
      ensures BinsHold(m[p := s])
      ensures smallbins[..] == old(smallbins[..])[SmallIndex(s) := [p] + old(smallbins[SmallIndex(s)])]
    {
      var i := SmallIndex(s);
      AddSmall(smallbins[..], smallmap, m, p, s);
      ghost var was := smallbins[..];
      smallmap := smallmap + {i};
      smallbins[i] := [p] + smallbins[i];
      assert smallbins[..] == was[i := [p] + was[i]];
      assert Large(m[p := s]) == Large(m);
    }

    /** `insert_chunk` */
    method InsertChunk(p: nat, s: nat, ghost m: map<nat, nat>)
      requires BinsHold(m) && p !in m && p != 0 && MIN_CHUNK_SIZE <= s < WORD && s % ALIGNMENT == 0
      modifies this`smallmap, smallbins, trees, trees.treebins
      ensures BinsHold(m[p := s])
      ensures JoinsBins(old(smallbins[..]), smallbins[..], old(trees.State()), trees.State(), p, s)
    {
      if IsSmall(s) {
        InsertSmallChunk(p, s, m);
      } else {
        LargeOnly(smallbins[..], smallmap, m, p, s);
        trees.Insert(p, s);
      }
    }

    /** `unlink_chunk` */
    method UnlinkChunk(p: nat, s: nat, ghost m: map<nat, nat>)
      requires BinsHold(m) && p in m && m[p] == s
      modifies this`smallmap, smallbins, trees, trees.treebins
      ensures BinsHold(m - {p})
      ensures LeavesBins(old(smallbins[..]), smallbins[..], old(trees.State()), trees.State(), p, s)
    {
      if IsSmall(s) {
        var i := SmallIndex(s);
        var k :| 0 <= k < |smallbins[i]| && smallbins[i][k] == p;
        DropFrom(i, k, m);
        assert old(smallbins[i])[k] == p;
        assert LeftOut(old(smallbins[i]), Drop(old(smallbins[i]), k), p);
      } else {
        UnlinkLargeChunk(p, m);
      }
    }

    method UnlinkLargeChunk(p: nat, ghost m: map<nat, nat>)
      requires BinsHold(m) && p in m && !IsSmall(m[p])
      modifies trees, trees.treebins
      ensures BinsHold(m - {p}) && LeavesRing(old(trees.State()), trees.State(), p)
    {
      SmallOnly(smallbins[..], smallmap, m, p);
      trees.Unlink(p);
      assert Large(m - {p}) == Large(m) - {p};
    }

    /** The unlinking of `unlink_small_chunk`. */
    method DropFrom(i: nat, k: nat, ghost m: map<nat, nat>)
      requires BinsHold(m) && i < NSMALLBINS && k < |smallbins[i]|
      modifies this`smallmap, smallbins
      ensures BinsHold(m - {old(smallbins[i][k])})
      ensures smallbins[..] == old(smallbins[..])[i := Drop(old(smallbins[i]), k)]
    {
      DropSmall(smallbins[..], smallmap, m, i, k);
      ghost var was := smallbins[..];
      assert InBin(m, i, was[i][k]);
      assert Large(m - {was[i][k]}) == Large(m);
      smallbins[i] := Drop(smallbins[i], k);
      assert smallbins[..] == was[i := Drop(was[i], k)];
      if smallbins[i] == [] { smallmap := smallmap - {i}; }
    }

    /** `unlink_first_small_chunk` */
    method UnlinkFirst(i: nat, ghost m: map<nat, nat>) returns (p: nat)
      requires BinsHold(m) && i in smallmap
      modifies this`smallmap, smallbins
      ensures p in m && m[p] == 8 * i && BinsHold(m - {p})
      ensures IsFirst(old(smallbins[..]), i, p)
      ensures smallbins[..] == old(smallbins[..])[i := old(smallbins[i])[1..]]
    {
      p := smallbins[i][0];
      assert InBin(m, i, smallbins[i][0]);
      assert Drop(smallbins[i], 0) == smallbins[i][1..];
      DropFrom(i, 0, m);
    }

    /** `replace_dv`: used only when dv is small. */
    method ReplaceDv(p: nat, s: nat, ghost m: map<nat, nat>)
      requires BinsHold(m) && IsSmall(dvsize)
      requires dvsize != 0 ==> dv !in m && dv != 0 && dvsize % ALIGNMENT == 0 && MIN_CHUNK_SIZE <= dvsize
      modifies this`dv, this`dvsize, this`smallmap, smallbins
      ensures BinsHold(if old(dvsize) == 0 then m else m[old(dv) := old(dvsize)])
      ensures dv == p && dvsize == s
    {
      if dvsize != 0 { InsertSmallChunk(dv, dvsize, m); }
      dvsize := s;
      dv := p;
    }

    // ---- Tags ----

    /** `set_inuse_and_pinuse` */
    method SetInuseAndPinuse(p: nat, s: nat)
      requires p + s in head && s > 0
      modifies this`head
      ensures head == old(head)[p := Tag(s, true, true)][p + s := old(head[p + s]).(pinuse := true)]
    {
      head := head[p := Tag(s, true, true)];
      head := head[p + s := head[p + s].(pinuse := true)];
    }

    /** `set_size_and_pinuse_of_free_chunk` */
    method SetFree(p: nat, s: nat)
      modifies this`head, this`foot
      ensures head == old(head)[p := Tag(s, true, false)] && foot == old(foot)[p + s := s]
    {
      head := head[p := Tag(s, true, false)];
      foot := foot[p + s := s];
    }

    /** `set_free_with_pinuse` */
    method SetFreeWithPinuse(p: nat, s: nat, next: nat)
      requires next in head && next != p
      modifies this`head, this`foot
      ensures head == old(head)[p := Tag(s, true, false)][next := old(head[next]).(pinuse := false)]
      ensures foot == old(foot)[p + s := s]
    {
      head := head[next := head[next].(pinuse := false)];
      SetFree(p, s);
    }

    // ---- Allocation ----

    /** The chunk p, just unlinked, serves a request of nb bytes; what is left over, when it makes
        a chunk, becomes dv or goes to the bins. */
    method GiveOut(p: nat, size: nat, nb: nat, restToDv: bool)
      requires Tidy() && p in State().Binned() && State().Binned()[p] == size && BinsHold(State().Binned() - {p})
      requires MIN_CHUNK_SIZE <= nb <= size && nb % ALIGNMENT == 0
      requires restToDv && size - nb >= MIN_CHUNK_SIZE ==> IsSmall(dvsize)
      modifies this, smallbins, trees, trees.treebins
      ensures Valid() && HandedOut(old(State()), State(), p + 16, nb)
      ensures RestGoes(old(State()), State(), p, nb, restToDv)
    {
      ghost var h := State();
      Sizes(h, p);
      assert h.Next(p) == p + size;
      hide HandedOut, BinsHold, Heap.Binned, Heap.Inv, RestGoes;
      var rsize := size - nb;
      if rsize < MIN_CHUNK_SIZE {
        GiveWhole(p, size, nb);
      } else {
        var r := p + nb;
        head := head[p := Tag(nb, true, true)];
        SetFree(r, rsize);
        if restToDv { RestToDv(p, r, rsize, h); } else { RestToBins(p, r, rsize, h); }
      }
    }

    method GiveWhole(p: nat, size: nat, nb: nat)
      requires Tidy() && p in State().Binned() && State().Binned()[p] == size && BinsHold(State().Binned() - {p})
      requires MIN_CHUNK_SIZE <= nb <= size < nb + MIN_CHUNK_SIZE
      modifies this`head, this`blk
      ensures Valid() && HandedOut(old(State()), State(), p + 16, nb)
      ensures RestGoes(old(State()), State(), p, nb, true) && RestGoes(old(State()), State(), p, nb, false)
    {
      hide Heap.Inv, TakeWhole, HandedOut;
      ghost var h := State();
      Sizes(h, p);
      HandedWhole(h, p, dv, nb);
      WholeBinned(h, p, dv);
      SetInuseAndPinuse(p, size);
      blk := blk[p := blk[p].(used := true)];
      assert State() == TakeWhole(h, p, h.dv) by { WholeIs(h, p, h.dv); }
      KeptSizes(h, p, size);
    }

    /** The tags are written; now the rest r becomes dv. */
    method RestToDv(p: nat, r: nat, rsize: nat, ghost h: Heap)
      requires h.Inv() && p in h.Binned() && BinsHold(h.Binned() - {p}) && IsSmall(dvsize)
      requires p < r && r + rsize == h.Next(p) && (r - p) % ALIGNMENT == 0 && r - p >= MIN_CHUNK_SIZE
               && rsize >= MIN_CHUNK_SIZE
      requires dvsize == (if h.dv in h.blk then h.blk[h.dv].size else 0)
      requires topsize == (if h.top in h.blk then h.blk[h.top].size else 0)
      requires State() == h.(head := h.head[p := Tag(r - p, true, true)][r := Tag(rsize, true, false)],
                             foot := h.foot[r + rsize := rsize])
      modifies this`dv, this`dvsize, this`blk, this`smallmap, smallbins
      ensures Valid() && HandedOut(h, State(), p + 16, r - p) && RestGoes(h, State(), p, r - p, true)
    {
      hide Heap.Inv, TakePart, HandedOut, Arena.BinsHold, RestGoes;
      Sizes(h, p);
      NotNull(h);
      HandedPart(h, p, r - p, r);
      PartReplacesDv(h, p, r - p);
      if h.dv != 0 { Sizes(h, h.dv); }
      PartIs(h, p, r - p, r);
      RestToDvGoes(h, p, r - p);
      ReplaceDv(r, rsize, h.Binned() - {p});
      blk := TakePart(h, p, r - p, r).blk;
      assert State() == TakePart(h, p, r - p, r);
    }

    /** The tags are written; now the rest r goes to the bins. */
    method RestToBins(p: nat, r: nat, rsize: nat, ghost h: Heap)
      requires h.Inv() && p in h.Binned() && BinsHold(h.Binned() - {p})
      requires p < r && r + rsize == h.Next(p) && (r - p) % ALIGNMENT == 0 && r - p >= MIN_CHUNK_SIZE
               && rsize >= MIN_CHUNK_SIZE
      requires dvsize == (if h.dv in h.blk then h.blk[h.dv].size else 0)
      requires topsize == (if h.top in h.blk then h.blk[h.top].size else 0)
      requires State() == h.(head := h.head[p := Tag(r - p, true, true)][r := Tag(rsize, true, false)],
                             foot := h.foot[r + rsize := rsize])
      modifies this`blk, this`smallmap, smallbins, trees, trees.treebins
      ensures Valid() && HandedOut(h, State(), p + 16, r - p) && RestGoes(h, State(), p, r - p, false)
    {
      hide Heap.Inv, TakePart, HandedOut, BinsHold, RestGoes, JoinsBins;
      Sizes(h, p);
      NotNull(h);
      HandedPart(h, p, r - p, dv);
      PartOfBinned(h, p, r - p);
      PartIs(h, p, r - p, dv);
      RestToBinsGoes(h, p, r - p);
      assert r !in h.Binned() && p != h.top && p != h.dv && p in h.blk;
      assert h.top in h.blk && (h.dv == 0 || h.dv in h.blk);
      hide Heap.Ends, CanTakePart, Heap.Binned, Heap.Next;
      InsertChunk(r, rsize, h.Binned() - {p});
      blk := TakePart(h, p, r - p, h.dv).blk;
      assert State() == TakePart(h, p, r - p, h.dv);
      NotNull(State());
    }

    /** `tmalloc_large` */
    method TmallocLarge(nb: nat) returns (mem: nat)
      requires Valid() && MIN_LARGE_SIZE <= nb < WORD && nb % ALIGNMENT == 0
      modifies this, smallbins, trees, trees.treebins
      ensures Valid() && (mem == 0 ==> State() == old(State()))
      ensures mem != 0 ==>
                && mem >= 16 && HandedOut(old(State()), State(), mem, nb)
                && IsBestFit(old(State()), mem - 16, nb) && RestGoes(old(State()), State(), mem - 16, nb, false)
      ensures mem != 0 ==> mem - 16 in old(trees.mem) && old(trees.mem)[mem - 16].parent != NoParent
      ensures mem == 0 ==>
                forall x | x in State().Binned() && State().Binned()[x] >= nb :: nb <= dvsize <= State().Binned()[x]
    {
      hide HandedOut, Heap.Inv, Heap.Ends, Holds, TreeHeap.Valid, TreeHeap.Chunks, RestGoes, LeavesRing,
        IsBestFit, Large, Heap.Binned, DvFits;
      ghost var h := State();
      ghost var m := h.Binned();
      DvSize(h);
      SmallSizes(m, nb);
      var v, rsize := trees.FindLarge(nb);
      if v != 0 && rsize < (dvsize - nb) % WORD {
        Wrapped(dvsize, nb);
        LargeBest(h, v, rsize, nb);
        UnlinkLargeChunk(v, m);
        GiveOut(v, rsize + nb, nb, false);
        return v + 16;
      }
      Wrapped(dvsize, nb);
      return 0;
    }

    /** `tmalloc_small` */
    method TmallocSmall(nb: nat) returns (mem: nat)
      requires Valid() && MIN_CHUNK_SIZE <= nb < MIN_LARGE_SIZE && nb % ALIGNMENT == 0
      requires trees.treemap != {} && dvsize < nb
      modifies this, smallbins, trees, trees.treebins
      ensures Valid() && HandedOut(old(State()), State(), mem, nb) && mem >= 16
      ensures !NoRoom(old(State()), nb) && SmallestLarge(old(State()).Binned(), mem - 16)
      ensures RestGoes(old(State()), State(), mem - 16, nb, true)
      ensures mem - 16 in old(trees.mem) && old(trees.mem)[mem - 16].parent != NoParent
    {
      hide HandedOut, Heap.Inv, Heap.Ends, Holds, TreeHeap.Valid, TreeHeap.Chunks, RestGoes, LeavesRing;
      ghost var h := State();
      ghost var m := h.Binned();
      var v, rsize := trees.FindSmall(nb);
      assert v in m && m[v] == rsize + nb;
      SmallestOf(m, v);
      UnlinkLargeChunk(v, m);
      GiveOut(v, rsize + nb, nb, true);
      return v + 16;
    }

    /** A request served from the small bins: from the bin of its size or, when dv cannot serve
        it, from the next marked one. */
    method FromSmallBins(nb: nat) returns (mem: nat)
      requires Valid() && MIN_CHUNK_SIZE <= nb < MIN_LARGE_SIZE && nb % ALIGNMENT == 0
      modifies this, smallbins, trees, trees.treebins
      ensures Valid() && (mem == 0 ==> State() == old(State()))
      ensures mem != 0 ==> HandedOut(old(State()), State(), mem, nb) && !NoRoom(old(State()), nb)
      ensures mem != 0 ==> mem >= 16 && Preferred(old(State()), mem - 16, nb)
      ensures mem != 0 ==> RestGoes(old(State()), State(), mem - 16, nb, true)
      ensures mem != 0 ==> exists i :: i in old(smallmap) && IsFirst(old(smallbins[..]), i, mem - 16)
      ensures mem == 0 && dvsize < nb ==> NoSmallRoom(smallmap, nb)
      ensures mem == 0 ==> smallmap == old(smallmap) && forall x | x in State().Binned() :: State().Binned()[x] != nb
    {
      hide HandedOut, Heap.Inv, Preferred, Holds, RestGoes, IsFirst;
      ghost var h := State();
      ghost var m := h.Binned();
      var idx := SmallIndex(nb);
      if idx in smallmap || idx + 1 in smallmap {
        if idx !in smallmap { idx := idx + 1; }
        var p := UnlinkFirst(idx, m);
        assert IsFirst(old(smallbins[..]), idx, p);
        ExactFit(h, p, nb);
        GiveOut(p, 8 * idx, nb, true);
        return p + 16;
      }
      NoneExact(smallbins[..], smallmap, m, nb);
      if nb > dvsize {
        if i :| i in smallmap && LeastAbove(smallmap, idx, i) {
          LeastFits(smallbins[..], smallmap, h, i, nb);
          var p := UnlinkFirst(i, m);
          assert IsFirst(old(smallbins[..]), i, p);
          SmallestFits(h, p, nb);
          GiveOut(p, 8 * i, nb, true);
          return p + 16;
        }
        NoLeast(smallmap, idx);
      }
      return 0;
    }

    /** The dv chunk, split or exhausted. */
    method FromDv(nb: nat) returns (mem: nat)
      requires Valid() && MIN_CHUNK_SIZE <= nb <= dvsize && nb % ALIGNMENT == 0
      modifies this`head, this`foot, this`dv, this`dvsize, this`blk
      ensures Valid() && HandedOut(old(State()), State(), mem, nb) && mem == old(dv) + 16
      ensures RestGoes(old(State()), State(), old(dv), nb, true) && RestGoes(old(State()), State(), old(dv), nb, false)
      ensures !NoRoom(old(State()), nb)
    {
      if dvsize - nb >= MIN_CHUNK_SIZE { mem := SplitDv(nb); } else { mem := ExhaustDv(nb); }
    }

    method SplitDv(nb: nat) returns (mem: nat)
      requires Valid() && MIN_CHUNK_SIZE <= nb && nb + MIN_CHUNK_SIZE <= dvsize && nb % ALIGNMENT == 0
      modifies this`head, this`foot, this`dv, this`dvsize, this`blk
      ensures Valid() && HandedOut(old(State()), State(), mem, nb) && mem == old(dv) + 16
      ensures RestGoes(old(State()), State(), old(dv), nb, true) && RestGoes(old(State()), State(), old(dv), nb, false)
    {
      hide HandedOut, Heap.Inv, TakePart, BinsHold, Heap.Binned;
      ghost var h := State();
      NotNull(h);
      Sizes(h, dv);
      var rsize := dvsize - nb;
      var p := dv;
      var r := p + nb;
      dv := r;
      dvsize := rsize;
      HandedPart(h, p, nb, r);
      PartOfEnds(h, p, nb, r);
      PartIs(h, p, nb, r);
      SetFree(r, rsize);
      head := head[p := Tag(nb, true, true)];
      blk := TakePart(h, p, nb, r).blk;
      assert head == h.head[p := Tag(nb, true, true)][r := Tag(rsize, true, false)];
      assert State() == TakePart(h, p, nb, r);
      mem := p + 16;
    }

    method ExhaustDv(nb: nat) returns (mem: nat)
      requires Valid() && MIN_CHUNK_SIZE <= nb <= dvsize < nb + MIN_CHUNK_SIZE
      modifies this`head, this`dv, this`dvsize, this`blk
      ensures Valid() && HandedOut(old(State()), State(), mem, nb) && mem == old(dv) + 16
      ensures RestGoes(old(State()), State(), old(dv), nb, true) && RestGoes(old(State()), State(), old(dv), nb, false)
    {
      hide HandedOut, Heap.Inv, TakeWhole, BinsHold, Heap.Binned;
      ghost var h := State();
      NotNull(h);
      Sizes(h, dv);
      var p := dv;
      var dvs := dvsize;
      dvsize := 0;
      dv := 0;
      HandedWhole(h, p, 0, nb);
      WholeBinned(h, p, 0);
      WholeIs(h, p, 0);
      SetInuseAndPinuse(p, dvs);
      blk := blk[p := blk[p].(used := true)];
      assert State() == TakeWhole(h, p, 0);
      mem := p + 16;
    }

    /** The low end of top. */
    method FromTop(nb: nat) returns (mem: nat)
      requires Valid() && MIN_CHUNK_SIZE <= nb < topsize && nb % ALIGNMENT == 0
      modifies this`head, this`top, this`topsize, this`blk
      ensures Valid() && HandedOut(old(State()), State(), mem, nb) && mem == old(top) + 16
      ensures RestGoes(old(State()), State(), old(top), nb, true)
              && RestGoes(old(State()), State(), old(top), nb, false)
      ensures !NoRoom(old(State()), nb)
    {
      hide HandedOut, Heap.Inv, Holds, TreeHeap.Valid, TreeHeap.Chunks, TakePart;
      ghost var h := State();
      NotNull(h);
      Around(h, top);
      topsize := topsize - nb;
      var rsize := topsize;
      var p := top;
      var r := p + nb;
      HandedPart(h, p, nb, dv);
      PartOfEnds(h, p, nb, dv);
      PartIs(h, p, nb, dv);
      top := r;
      head := head[r := Tag(rsize, true, false)];
      head := head[p := Tag(nb, true, true)];
      blk := TakePart(h, p, nb, dv).blk;
      assert head == h.head[p := Tag(nb, true, true)][r := Tag(rsize, true, false)];
      assert State() == TakePart(h, p, nb, dv);
      NotNull(State());
      mem := p + 16;
    }

    /** The end of `dlmalloc`, when no chunk in the bins comes first. */
    method FromDvOrTop(nb: nat) returns (mem: nat)
      requires Valid() && MIN_CHUNK_SIZE <= nb < WORD && (nb % ALIGNMENT == 0 || nb == WORD - 1)
      requires !BinsFirst(State(), nb) && (dvsize < nb ==> forall x | x in State().Binned() :: State().Binned()[x] < nb)
      modifies this`head, this`foot, this`dv, this`dvsize, this`top, this`topsize, this`blk
      ensures Valid() && (mem == 0 ==> State() == old(State()))
      ensures mem == 0 <==> NoRoom(old(State()), nb)
      ensures mem != 0 ==> HandedOut(old(State()), State(), mem, nb)
      ensures mem != 0 ==> mem >= 16 && Preferred(old(State()), mem - 16, nb)
      ensures mem != 0 ==>
                && RestGoes(old(State()), State(), mem - 16, nb, true)
                && RestGoes(old(State()), State(), mem - 16, nb, false)
    {
      hide HandedOut, Heap.Inv, NoRoom, BinsFirst, Smallest, BinsHold, RestGoes;
      ghost var h := State();
      EndSizes(h);
      DvSize(h);
      if nb <= dvsize {
        mem := FromDv(nb);
      } else if nb < topsize {
        mem := FromTop(nb);
      } else {
        mem := 0;
        OutOfRoom(h, nb);
      }
    }

    /** The bins' part in a small request. */
    method SmallRequest(nb: nat) returns (mem: nat)
      requires Valid() && MIN_CHUNK_SIZE <= nb < MIN_LARGE_SIZE && nb % ALIGNMENT == 0
      modifies this, smallbins, trees, trees.treebins
      ensures Valid() && (mem == 0 ==> State() == old(State()) && dvsize == old(dvsize) && topsize == old(topsize))
      ensures mem != 0 ==> HandedOut(old(State()), State(), mem, nb) && !NoRoom(old(State()), nb)
      ensures mem != 0 ==> mem >= 16 && Preferred(old(State()), mem - 16, nb)
      ensures mem != 0 ==> RestGoes(old(State()), State(), mem - 16, nb, true)
      ensures mem == 0 ==> !BinsFirst(State(), nb)
      ensures mem == 0 && dvsize < nb ==> forall x | x in State().Binned() :: State().Binned()[x] < nb
    {
      hide HandedOut, Heap.Inv, NoRoom, Preferred, BinsFirst, Smallest, Holds, RestGoes;
      ghost var h := State();
      mem := FromSmallBins(nb);
      if mem != 0 { return; }
      if nb > dvsize {
        NoneSmall(smallbins[..], smallmap, h.Binned(), nb);
        if trees.treemap != {} {
          mem := TmallocSmall(nb);
          SmallestLargeFits(h, mem - 16, nb);
          return;
        }
        NoneLarge(trees.State());
        AllSmall(h.Binned());
      }
      NoneFirst(h, nb);
    }

    /** ... and in a large one. */
    method LargeRequest(nb: nat) returns (mem: nat)
      requires Valid() && MIN_LARGE_SIZE <= nb < WORD && nb % ALIGNMENT == 0
      modifies this, smallbins, trees, trees.treebins
      ensures Valid() && (mem == 0 ==> State() == old(State()) && dvsize == old(dvsize) && topsize == old(topsize))
      ensures mem != 0 ==> HandedOut(old(State()), State(), mem, nb) && !NoRoom(old(State()), nb)
      ensures mem != 0 ==> mem >= 16 && Preferred(old(State()), mem - 16, nb)
      ensures mem != 0 ==> RestGoes(old(State()), State(), mem - 16, nb, false)
      ensures mem == 0 ==> !BinsFirst(State(), nb)
      ensures mem == 0 && dvsize < nb ==> forall x | x in State().Binned() :: State().Binned()[x] < nb
    {
      hide HandedOut, Heap.Inv, NoRoom, Preferred, BinsFirst, Smallest, Holds, IsBestFit, RestGoes;
      ghost var h := State();
      mem := 0;
      if trees.treemap != {} {
        mem := TmallocLarge(nb);
        if mem != 0 {
          BestFits(h, mem - 16, nb);
          BestIsPreferred(h, mem - 16, nb);
          return;
        }
      } else {
        NoneLarge(trees.State());
        AllSmall(h.Binned());
      }
      NoneFirst(h, nb);
    }

    /** `dlmalloc`, when the system has no more memory to give: it fails exactly when no free
        chunk can serve the request. */
    method Malloc(bytes: nat) returns (mem: nat)
      requires Valid() && bytes < WORD
      modifies this, smallbins, trees, trees.treebins
      ensures Valid() && (mem == 0 ==> State() == old(State()))
      ensures mem == 0 <==> NoRoom(old(State()), ChunkSizeFor(bytes))
      ensures mem != 0 ==> HandedOut(old(State()), State(), mem, ChunkSizeFor(bytes))
      ensures mem != 0 ==> mem >= 16 && Preferred(old(State()), mem - 16, ChunkSizeFor(bytes))
      ensures mem != 0 ==>
                RestGoes(old(State()), State(), mem - 16, ChunkSizeFor(bytes), bytes <= MAX_SMALL_REQUEST)
    {
      hide HandedOut, Heap.Inv, NoRoom, Preferred, BinsFirst, Arena.BinsHold, RestGoes;
      var nb;
      EndSizes(State());
      if bytes <= MAX_SMALL_REQUEST {
        nb := if bytes < MIN_REQUEST then MIN_CHUNK_SIZE else PadRequest(bytes);
        mem := SmallRequest(nb);
        if mem != 0 { return; }
      } else if bytes >= MAX_REQUEST {
        nb := WORD - 1;
        NoneFirst(State(), nb);
      } else {
        nb := PadRequest(bytes);
        mem := LargeRequest(nb);
        if mem != 0 { return; }
      }
      mem := FromDvOrTop(nb);
    }

    // ---- Freeing ----

    /** The second half of `dlfree`: p starts the run, next follows the freed chunk x. */
    method MergeForward(p: nat, psize: nat, next: nat, ghost x: nat, ghost b: nat, ghost h: Heap)
      requires Tidy() && State() == h && FreeRun(h, x, p, b) && next == h.Next(x) && psize == next - p && next in head
      requires BinsHold(if p == x || p == h.dv then h.Binned() else h.Binned() - {p})
      requires p == h.dv && p != x ==> !h.Used(next)
      modifies this, smallbins, trees, trees.treebins
      ensures Valid() && State().base == h.base && State().end == h.end
      ensures State().Live() == h.Live() - {x} && RunGoes(h, State(), x, p, b)
    {
      hide Heap.Inv, Heap.Ends, Holds, TreeHeap.Valid, TreeHeap.Chunks, Fuse, CanFuse, Large, Heap.Binned, BinsHold;
      hide RunGoes;
      Neighbours(h, x);
      RunPlaces(h, x, p, b);
      ghost var m := if p == x || p == h.dv then h.Binned() else h.Binned() - {p};
      if !head[next].cinuse {
        assert m - {next} == h.Binned() - {p, next};
        if next == top {
          assert m == m - {next};
          AbsorbIntoTop(p, psize, x, b, h);
        } else if next == dv {
          assert m == m - {next};
          AbsorbIntoDv(p, psize, x, b, h);
        } else {
          var nsize := head[next].size;
          UnlinkChunk(next, nsize, m);
          SetFree(p, psize + nsize);
          SameFoot(h, x, p, b);
          assert head == h.head[p := Tag(psize + nsize, true, false)][b := h.head[b].(pinuse := false)];
          ToBinsUnlessDv(p, psize + nsize, x, b, h);
        }
      } else {
        assert m == h.Binned() - {p, next};
        SetFreeWithPinuse(p, psize, next);
        ToBinsUnlessDv(p, psize, x, b, h);
      }
    }

    method AbsorbIntoTop(p: nat, psize: nat, ghost x: nat, ghost b: nat, ghost h: Heap)
      requires Tidy() && State() == h && FreeRun(h, x, p, b) && h.Next(x) == h.top && psize == h.top - p
      requires BinsHold(h.Binned() - {p, h.Next(x)})
      modifies this`top, this`topsize, this`head, this`dv, this`dvsize, this`blk
      ensures Valid() && State().Live() == h.Live() - {x} && RunGoes(h, State(), x, p, b)
    {
      hide Heap.Inv, Heap.Ends, Holds, TreeHeap.Valid, TreeHeap.Chunks, Fuse, CanFuse, Large, Heap.Binned, BinsHold;
      hide RunGoes;
      FreeKeeps(h, x, p, b);
      RunPlaces(h, x, p, b);
      Neighbours(h, x);
      FuseIs(h, p, b, DvAfter(h, p, b));
      ghost var t := Fuse(h, p, b, DvAfter(h, p, b));
      RunIsPlaced(h, x, p, b);
      topsize := topsize + psize;
      top := p;
      head := head[p := Tag(topsize, true, false)];
      if p == dv { dv, dvsize := 0, 0; }
      blk := t.blk;
      assert State() == t;
    }

    method AbsorbIntoDv(p: nat, psize: nat, ghost x: nat, ghost b: nat, ghost h: Heap)
      requires Tidy() && State() == h && FreeRun(h, x, p, b) && h.Next(x) == h.dv && h.dv != 0 && psize == h.dv - p
      requires BinsHold(h.Binned() - {p, h.Next(x)})
      modifies this`head, this`foot, this`dv, this`dvsize, this`blk
      ensures Valid() && State().Live() == h.Live() - {x} && RunGoes(h, State(), x, p, b)
    {
      hide Heap.Inv, Heap.Ends, Holds, TreeHeap.Valid, TreeHeap.Chunks, Fuse, CanFuse, Large, Heap.Binned, BinsHold;
      hide RunGoes;
      FreeKeeps(h, x, p, b);
      RunPlaces(h, x, p, b);
      Neighbours(h, x);
      SameFoot(h, x, p, b);
      NotNull(h);
      FuseIs(h, p, b, DvAfter(h, p, b));
      ghost var t := Fuse(h, p, b, DvAfter(h, p, b));
      RunIsPlaced(h, x, p, b);
      dvsize := dvsize + psize;
      dv := p;
      SetFree(p, dvsize);
      blk := t.blk;
      assert head == h.head[p := Tag(dvsize, true, false)][b := h.head[b].(pinuse := false)];
      assert State() == t;
    }

    /** The tags are written; the merged chunk goes to its bin, unless it starts with dv. */
    method ToBinsUnlessDv(p: nat, psize: nat, ghost x: nat, ghost b: nat, ghost h: Heap)
      requires h.Inv() && FreeRun(h, x, p, b) && b != h.end && psize == b - p && h.Next(x) != h.dv && b in h.head
      requires BinsHold(h.Binned() - {p, h.Next(x)})
      requires State() == h.(head := h.head[p := Tag(psize, true, false)][b := h.head[b].(pinuse := false)],
                             foot := h.foot[b := psize])
      requires dvsize == (if h.dv in h.blk then h.blk[h.dv].size else 0)
      requires topsize == (if h.top in h.blk then h.blk[h.top].size else 0)
      modifies this`dvsize, this`blk, this`smallmap, smallbins, trees, trees.treebins
      ensures Valid() && State().Live() == h.Live() - {x} && RunGoes(h, State(), x, p, b)
    {
      hide Heap.Inv, Heap.Ends, Holds, TreeHeap.Valid, TreeHeap.Chunks, Fuse, CanFuse, Large, Heap.Binned, BinsHold;
      hide RunGoes, JoinsBins;
      FreeKeeps(h, x, p, b);
      RunPlaces(h, x, p, b);
      FuseIs(h, p, b, DvAfter(h, p, b));
      ghost var t := Fuse(h, p, b, DvAfter(h, p, b));
      RunIsPlaced(h, x, p, b);
      if p == dv {
        dvsize := psize;
      } else {
        InsertChunk(p, psize, h.Binned() - {p, h.Next(x)});
      }
      blk := t.blk;
      assert State() == t;
    }

    /** The chunk before x is dv and the one after it is in use: dv grows. */
    method BackIntoDv(p: nat, psize: nat, next: nat, ghost x: nat, ghost h: Heap)
      requires Valid() && State() == h && FreeRun(h, x, p, next) && p == dv && p != x && psize == next - p
      requires h.Used(next) && next == h.Next(x) && next in head && next != p
      modifies this`head, this`foot, this`dvsize, this`blk
      ensures Valid() && State().base == h.base && State().end == h.end
      ensures State().Live() == h.Live() - {x} && RunGoes(h, State(), x, p, next)
    {
      hide Heap.Inv, Heap.Ends, Holds, TreeHeap.Valid, TreeHeap.Chunks, Fuse, CanFuse, Large, Heap.Binned, RunGoes;
      Neighbours(h, x);
      FreeKeeps(h, x, p, next);
      RunPlaces(h, x, p, next);
      RunIsPlaced(h, x, p, next);
      assert h.Binned() - {p, next} == h.Binned();
      FuseIs(h, p, next, dv);
      dvsize := psize;
      SetFreeWithPinuse(p, psize, next);
      blk := Fuse(h, p, next, dv).blk;
      assert State() == Fuse(h, p, next, dv);
    }

    /** `dlfree`: the chunk is merged with its free neighbours, dv and top included. */
    method Free(mem: nat)
      requires Valid() && (mem != 0 ==> mem >= 16 && mem - 16 in State().Live())
      modifies this, smallbins, trees, trees.treebins
      ensures Valid() && State().base == old(State()).base && State().end == old(State()).end
      ensures mem == 0 ==> State() == old(State())
      ensures mem != 0 ==> State().Live() == old(State()).Live() - {mem - 16}
      ensures mem != 0 ==> Merged(old(State()), State(), mem - 16)
    {
      hide Heap.Inv, Heap.Ends, Holds, TreeHeap.Valid, TreeHeap.Chunks, Fuse, CanFuse, Large, Heap.Binned, RunGoes,
        LeavesBins, Merged;
      if mem != 0 {
        ghost var h := State();
        var x := mem - 16;
        InUse(h, x);
        Neighbours(h, x);
        var p := x;
        var psize := head[p].size;
        var next := p + psize;
        ghost var b := if h.Used(next) then next else h.Next(next);
        ghost var a := if h.head[x].pinuse then x else h.blk[x].prev;
        assert FreeRun(h, x, a, b);
        FreeKeeps(h, x, a, b);
        RunPlaces(h, x, a, b);
        if !head[p].pinuse {
          var prevsize := foot[p];
          var prev := p - prevsize;
          psize := psize + prevsize;
          p := prev;
          if p != dv {
            UnlinkChunk(p, prevsize, h.Binned());
          } else if head[next].cinuse && head[next].pinuse {
            BackIntoDv(p, psize, next, x, h);
            RunMerged(h, State(), x, a, b);
            return;
          }
        }
        MergeForward(p, psize, next, x, b, h);
        RunMerged(h, State(), x, a, b);
      }
    }
  }

  /** Round trip: giving an allocated chunk back restores the tiling, however it was carved and
      merged on the way. */
  method MallocThenFree(m: Arena, bytes: nat)
    requires m.Valid() && bytes < WORD
    modifies m, m.smallbins, m.trees, m.trees.treebins
    ensures m.Valid() && m.State().Live() == old(m.State()).Live()
    ensures m.blk == old(m.blk) && m.top == old(m.top)
  {
    hide Heap.Inv, Arena.BinsHold, NoRoom;
    ghost var h := m.State();
    var mem := m.Malloc(bytes);
    if mem != 0 {
      m.Free(mem);
      assert m.State().Live() == h.Live();
      SameLiveSameTiling(m.State(), h);
    }
  }

  lemma RunMerged(h: Heap, g: Heap, x: nat, a: nat, b: nat)
    requires FreeRun(h, x, a, b) && RunGoes(h, g, x, a, b)
    ensures Merged(h, g, x)
  {
  }

  lemma InUse(h: Heap, x: nat)
    requires x in h.Live()
    ensures h.Used(x)
  {
  }

  /** The chunk after a merged neighbour knew already that a free one comes before it. */
  lemma SameFoot(h: Heap, x: nat, a: nat, b: nat)
    requires h.Inv() && FreeRun(h, x, a, b) && h.Free(h.Next(x)) && h.Next(x) != h.top
    ensures b in h.head && b != h.end && b == h.Next(h.Next(x)) && b > h.Next(x) > a
    ensures h.head[b].(pinuse := false) == h.head[b]
  {
    Neighbours(h, x);
    RunFuses(h, x, a, b);
    hide Heap.Inv;
  }

  /** Where the neighbours of x are kept. */
  lemma RunPlaces(h: Heap, x: nat, a: nat, b: nat)
    requires h.Inv() && FreeRun(h, x, a, b)
    ensures a != x && a != h.dv ==> a in h.Binned() && h.Binned()[a] == h.blk[a].size
    ensures h.Free(h.Next(x)) && h.Next(x) != h.dv && h.Next(x) != h.top ==>
              h.Next(x) in h.Binned() && h.Binned()[h.Next(x)] == h.blk[h.Next(x)].size
    ensures x !in h.Binned() && h.dv !in h.Binned() && h.top !in h.Binned()
    ensures forall y | h.Used(y) :: y !in h.Binned()
    ensures a != h.Next(x) && 0 !in h.blk && h.Free(h.top) && (h.dv != 0 ==> h.Free(h.dv) && h.dv != h.top)
    ensures a in h.blk && a < b && (b == h.end || (b in h.blk && b in h.head))
    ensures b != h.end ==> b - a >= MIN_CHUNK_SIZE && (b - a) % ALIGNMENT == 0 && b - a < WORD
    ensures h.dv != 0 && a <= h.dv < b <==> h.dv != 0 && (h.dv == a || h.dv == h.Next(x))
  {
    Neighbours(h, x);
    RunFuses(h, x, a, b);
    NotNull(h);
    if b != h.end { RunSize(h, a, b); }
    hide Heap.Inv;
  }

  lemma RunIsPlaced(h: Heap, x: nat, a: nat, b: nat)
    requires h.Inv() && FreeRun(h, x, a, b)
    ensures CanFuse(h, a, b, DvAfter(h, a, b)) && RunGoes(h, Fuse(h, a, b, DvAfter(h, a, b)), x, a, b)
  {
    FreeKeeps(h, x, a, b);
    FuseIs(h, a, b, DvAfter(h, a, b));
    RunPlaces(h, x, a, b);
    RunEnds(h, x, a, b);
    hide Heap.Inv, Fuse, CanFuse, Heap.Binned, Heap.Live;
  }

  /** The run ends the segment exactly if top follows x. */
  lemma RunEnds(h: Heap, x: nat, a: nat, b: nat)
    requires h.Inv() && FreeRun(h, x, a, b)
    ensures h.Next(x) == h.top <==> b == h.end
    ensures h.dv != 0 && a <= h.dv < b <==> h.dv != 0 && (h.dv == a || h.dv == h.Next(x))
    ensures h.Next(x) == h.top ==> h.dv != h.Next(x)
  {
    RunPlaces(h, x, a, b);
    Neighbours(h, x);
    At(h, h.Next(x));
    At(h, x);
    hide Heap.Inv;
  }

  // ---- The choice of a chunk ----

  /** A smallest one of the chunks that are not small. */
  ghost predicate SmallestLarge(m: map<nat, nat>, p: nat) {
    p in m && !IsSmall(m[p]) && forall y | y in m && !IsSmall(m[y]) :: m[p] <= m[y]
  }

  lemma ExactFit(h: Heap, p: nat, nb: nat)
    requires p in h.Binned() && nb <= h.Binned()[p] <= nb + 8 && h.Binned()[p] % ALIGNMENT == 0 && nb % ALIGNMENT == 0
    requires nb < MIN_LARGE_SIZE
    ensures Preferred(h, p, nb)
  {
    assert h.Binned()[p] == nb;
  }

  lemma NoneExact(bins: seq<seq<nat>>, marked: set<nat>, m: map<nat, nat>, nb: nat)
    requires Holds(bins, marked, m) && SmallIndex(nb) !in marked && nb < MIN_LARGE_SIZE
    ensures forall x | x in m :: m[x] != nb
  {
    forall x | x in m ensures m[x] != nb {
      if IsSmall(m[x]) { assert x in bins[SmallIndex(m[x])]; }
    }
  }

  lemma SmallestOf(m: map<nat, nat>, v: nat)
    requires v in Large(m) && forall x | x in Large(m) :: Large(m)[v] <= Large(m)[x]
    ensures SmallestLarge(m, v)
  {
    forall y | y in m && !IsSmall(m[y]) ensures m[v] <= m[y] { assert y in Large(m); }
  }

  /** The least marked bin has the best fit. */
  lemma LeastFits(bins: seq<seq<nat>>, marked: set<nat>, h: Heap, i: nat, nb: nat)
    requires Holds(bins, marked, h.Binned()) && LeastAbove(marked, SmallIndex(nb), i) && SmallIndex(nb) !in marked
    ensures forall y | y in h.Binned() && h.Binned()[y] >= nb :: 8 * i <= h.Binned()[y]
  {
    forall y | y in h.Binned() && h.Binned()[y] >= nb ensures 8 * i <= h.Binned()[y] {
      if IsSmall(h.Binned()[y]) { assert y in bins[SmallIndex(h.Binned()[y])]; }
    }
  }

  lemma SmallestFits(h: Heap, p: nat, nb: nat)
    requires Smallest(h, p, nb) && !DvFits(h, nb)
    ensures Preferred(h, p, nb)
  {
  }

  lemma SmallestLargeFits(h: Heap, p: nat, nb: nat)
    requires SmallestLarge(h.Binned(), p) && nb < MIN_LARGE_SIZE && !DvFits(h, nb)
    requires forall x | x in h.Binned() && IsSmall(h.Binned()[x]) :: h.Binned()[x] < nb
    ensures Preferred(h, p, nb)
  {
    SmallestFits(h, p, nb);
  }

  lemma BestIsPreferred(h: Heap, p: nat, nb: nat)
    requires IsBestFit(h, p, nb) && nb >= MIN_LARGE_SIZE
    ensures Preferred(h, p, nb)
  {
  }

  /** Neither an exact fit for a small request nor a better one than dv for a large one. */
  lemma NoneFirst(h: Heap, nb: nat)
    requires forall x | x in h.Binned() && h.Binned()[x] >= nb ::
               if nb < MIN_LARGE_SIZE then h.Binned()[x] != nb else DvFits(h, nb) && h.blk[h.dv].size <= h.Binned()[x]
    ensures !BinsFirst(h, nb)
  {
  }

  lemma BestFits(h: Heap, x: nat, nb: nat)
    requires IsBestFit(h, x, nb)
    ensures !NoRoom(h, nb)
  {
  }

  /** Chunks are shorter than the largest request. */
  lemma EndSizes(h: Heap)
    requires h.Inv()
    ensures forall x | x in h.blk :: h.blk[x].size < WORD - 1
  {
    forall x | x in h.blk ensures h.blk[x].size < WORD - 1 { At(h, x); }
  }

  lemma OutOfRoom(h: Heap, nb: nat)
    requires forall x | x in h.Binned() :: h.Binned()[x] < nb
    requires h.dv in h.blk ==> h.blk[h.dv].size < nb
    requires h.top in h.blk ==> h.blk[h.top].size <= nb
    ensures NoRoom(h, nb)
  {
  }

  lemma AllSmall(m: map<nat, nat>)
    requires Large(m) == map[]
    ensures forall x | x in m :: IsSmall(m[x])
  {
    forall x | x in m ensures IsSmall(m[x]) { assert x !in Large(m); }
  }

  lemma NoneSmall(bins: seq<seq<nat>>, marked: set<nat>, m: map<nat, nat>, nb: nat)
    requires Holds(bins, marked, m) && NoSmallRoom(marked, nb)
    ensures forall x | x in m && IsSmall(m[x]) :: m[x] < nb
  {
    forall x | x in m && IsSmall(m[x]) ensures m[x] < nb {
      assert SmallIndex(m[x]) in marked;
    }
  }

  lemma NoneLarge(s: Bins)
    requires s.Inv() && s.marked == {}
    ensures s.Chunks() == map[]
  {
    forall x | x in s.mem ensures false {
      PlacedSize(s, x);
      InRoot(s, s.pos[x]);
    }
  }

  /** The chunk x was the best choice for a large request: the smallest one that fits, and a
      better fit than dv. */
  ghost predicate IsBestFit(h: Heap, x: nat, nb: nat) {
    Smallest(h, x, nb) && (DvFits(h, nb) ==> h.Binned()[x] < h.blk[h.dv].size)
  }

  ghost predicate NoSmallRoom(marked: set<nat>, nb: nat) {
    forall i | i in marked :: 8 * i < nb
  }

  /** Unsigned subtraction. */
  lemma Wrapped(dvsize: nat, nb: nat)
    requires dvsize < WORD && nb < WORD
    ensures (dvsize - nb) % WORD == if dvsize >= nb then dvsize - nb else WORD + dvsize - nb
  {
    var d := dvsize - nb;
    if d >= 0 { assert d % WORD == d; } else { assert d % WORD == d + WORD; }
  }

  lemma SmallSizes(m: map<nat, nat>, nb: nat)
    requires nb >= MIN_LARGE_SIZE
    ensures forall x | x in m && m[x] >= nb :: x in Large(m) && Large(m)[x] == m[x]
  {
  }

  /** The least tree chunk that fits, when it is smaller than dv. */
  lemma LargeBest(h: Heap, v: nat, rsize: nat, nb: nat)
    requires var c := Large(h.Binned()); v in c && c[v] == rsize + nb && forall x | x in c && c[x] >= nb :: c[v] <= c[x]
    requires DvFits(h, nb) ==> rsize < h.blk[h.dv].size - nb
    requires nb >= MIN_LARGE_SIZE
    ensures v in h.Binned() && h.Binned()[v] == rsize + nb && !IsSmall(rsize + nb) && IsBestFit(h, v, nb)
  {
    SmallSizes(h.Binned(), nb);
    hide Heap.Binned;
  }

  lemma DvSize(h: Heap)
    requires h.Inv()
    ensures h.dv in h.blk ==> h.blk[h.dv].size < WORD - 1
    ensures forall nb :: DvFits(h, nb) <==> h.dv in h.blk && h.blk[h.dv].size >= nb
  {
    if h.dv in h.blk { At(h, h.dv); }
  }

  /** The rest of a chunk out of the bins. */
  lemma RestToDvGoes(h: Heap, p: nat, nb: nat)
    requires h.Inv() && p in h.Binned() && CanTakePart(h, p, nb, p + nb)
    ensures RestGoes(h, TakePart(h, p, nb, p + nb), p, nb, true)
  {
    NotNull(h);
    PartReplacesDv(h, p, nb);
    PartIs(h, p, nb, p + nb);
    hide Heap.Inv, TakePart;
  }

  lemma RestToBinsGoes(h: Heap, p: nat, nb: nat)
    requires h.Inv() && p in h.Binned() && CanTakePart(h, p, nb, h.dv)
    ensures RestGoes(h, TakePart(h, p, nb, h.dv), p, nb, false)
  {
    NotNull(h);
    PartOfBinned(h, p, nb);
    PartIs(h, p, nb, h.dv);
    hide Heap.Inv, TakePart;
  }

  /** What a taken chunk means to the caller. */
  lemma HandedWhole(h: Heap, x: nat, dv: nat, nb: nat)
    requires h.Inv() && CanTakeWhole(h, x, dv) && nb <= h.blk[x].size < nb + MIN_CHUNK_SIZE
    ensures TakeWhole(h, x, dv).Inv() && HandedOut(h, TakeWhole(h, x, dv), x + 16, nb)
  {
    TakeWholeKeeps(h, x, dv);
    Sizes(h, x);
    hide Heap.Inv;
  }

  lemma WholeIs(h: Heap, x: nat, dv: nat)
    requires x in h.blk && h.Next(x) in h.head
    ensures TakeWhole(h, x, dv) ==
            h.(head := h.head[x := Tag(h.blk[x].size, true, true)][h.Next(x) := h.head[h.Next(x)].(pinuse := true)],
              dv := dv,
               blk := h.blk[x := h.blk[x].(used := true)])
  {
  }

  lemma KeptSizes(h: Heap, x: nat, size: nat)
    requires h.Inv() && h.Free(x) && x != h.top && x != h.dv
    ensures h.dv == 0 <==> h.dv !in h.blk
  {
    NotNull(h);
  }

  lemma HandedPart(h: Heap, x: nat, n: nat, dv: nat)
    requires h.Inv() && CanTakePart(h, x, n, dv)
    ensures TakePart(h, x, n, dv).Inv() && HandedOut(h, TakePart(h, x, n, dv), x + 16, n)
  {
    TakePartKeeps(h, x, n, dv);
    At(h, x);
    hide Heap.Inv;
  }

  /** The fields after a part was taken. */
  lemma PartIs(h: Heap, x: nat, n: nat, dv: nat)
    requires h.Inv() && CanTakePart(h, x, n, dv)
    ensures var t := TakePart(h, x, n, dv);
            && t == h.(head := h.head[x := Tag(n, true, true)][x + n := Tag(h.blk[x].size - n, true, false)],
                       foot := if x == h.top then h.foot else h.foot[h.Next(x) := h.blk[x].size - n],
                       dv := dv, top := if x == h.top then x + n else h.top, blk := t.blk)
            && x + n in t.blk && t.blk[x + n].size == h.blk[x].size - n
            && forall y | y in h.blk && y != x :: y in t.blk && t.blk[y].size == h.blk[y].size
  {
    Around(h, x);
    PartBlock(h, x, n, dv, x + n);
    forall y | y in h.blk && y != x
      ensures y in TakePart(h, x, n, dv).blk && TakePart(h, x, n, dv).blk[y].size == h.blk[y].size
    {
      PartBlock(h, x, n, dv, y);
    }
    hide Heap.Inv;
  }

  /** Sizes and neighbours of a free chunk. */
  lemma Sizes(h: Heap, x: nat)
    requires h.Inv() && h.Free(x) && x != h.top
    ensures x != 0 && x % ALIGNMENT == 0 && h.blk[x].size % ALIGNMENT == 0 && MIN_CHUNK_SIZE <= h.blk[x].size < WORD - 1
    ensures h.Next(x) in h.blk && h.Next(x) in h.head && h.Next(x) != h.end
    ensures forall y | x < y < h.Next(x) :: y !in h.blk
    ensures 0 < h.base
  {
    Around(h, x);
    At(h, x);
    forall y: nat | x < y < h.Next(x) ensures y !in h.blk { Inside(h, x, y); }
  }

  lemma LargeOnly(bins: seq<seq<nat>>, marked: set<nat>, m: map<nat, nat>, p: nat, s: nat)
    requires Holds(bins, marked, m) && p !in m && !IsSmall(s)
    ensures Holds(bins, marked, m[p := s]) && Large(m[p := s]) == Large(m)[p := s]
  {
    forall i, k | 0 <= i < NSMALLBINS && 0 <= k < |bins[i]| ensures InBin(m[p := s], i, bins[i][k]) {
      assert InBin(m, i, bins[i][k]);
    }
  }

  lemma SmallOnly(bins: seq<seq<nat>>, marked: set<nat>, m: map<nat, nat>, p: nat)
    requires Holds(bins, marked, m) && p in m && !IsSmall(m[p])
    ensures Holds(bins, marked, m - {p})
  {
    forall i, k | 0 <= i < NSMALLBINS && 0 <= k < |bins[i]| ensures InBin(m - {p}, i, bins[i][k]) {
      assert InBin(m, i, bins[i][k]);
    }
  }
}
