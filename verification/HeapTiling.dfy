/** The allocator's segment as a value: boundary tags and the tiling of the segment by chunks
    that they describe. */
module HeapTiling {
  import opened SizeBits

  const MIN_CHUNK_SIZE: nat := 32
  const ALIGNMENT: nat := 16
  const TOP_FOOT_SIZE: nat := 80

  /** The head word of a chunk: its size and the in-use bits of the chunk before and of itself. */
  datatype Tag = Tag(size: nat, pinuse: bool, cinuse: bool)

  /** A chunk of the tiling: its size, the chunk before it (0 for the first) and whether a
      caller holds it. */
  datatype Block = Block(size: nat, prev: nat, used: bool)

  /** Tags may be left over from chunks that are no more; blk holds the chunks there are. */
  datatype Heap = Heap(base: nat, end: nat, head: map<nat, Tag>, foot: map<nat, nat>, dv: nat, top: nat,
                       blk: map<nat, Block>)
  {
    ghost function Next(x: nat): nat {
      if x in blk then x + blk[x].size else 0
    }

    ghost predicate Used(x: nat) {
      x in blk && blk[x].used
    }

    ghost predicate Free(x: nat) {
      x in blk && !blk[x].used
    }

    /** Chunk x ends where the next one starts; top ends the segment. */
    ghost predicate Linked(x: nat) {
      x in blk ==>
        && base <= x && 0 < blk[x].size && Next(x) <= end && (x == top <==> Next(x) == end)
        && (x != top ==> Next(x) in blk && blk[Next(x)].prev == x)
        && (if x == base then blk[x].prev == 0 else blk[x].prev in blk && Next(blk[x].prev) == x)
    }

    ghost predicate Shaped(x: nat) {
      x in blk ==> x % ALIGNMENT == 0 && (x != top ==> blk[x].size % ALIGNMENT == 0 && blk[x].size >= MIN_CHUNK_SIZE)
    }

    ghost predicate Tagged(x: nat) {
      x in blk ==> x in head && head[x] == Tag(blk[x].size, x == base || Used(blk[x].prev), blk[x].used)
    }

    ghost predicate Footed(x: nat) {
      Free(x) && x != top ==> Next(x) in foot && foot[Next(x)] == blk[x].size
    }

    /** A free chunk is followed by one in use. */
    ghost predicate Apart(x: nat) {
      Free(x) && x != top ==> Used(Next(x))
    }

    ghost predicate Ends() {
      && 0 < base < end < WORD && base in blk && Free(top)
      && (dv == 0 || (Free(dv) && dv != top))
      && end in head && !head[end].pinuse
    }

    ghost predicate AllLinked() { forall x {:trigger Linked(x)} :: Linked(x) }
    ghost predicate AllShaped() { forall x {:trigger Shaped(x)} :: Shaped(x) }
    ghost predicate AllTagged() { forall x {:trigger Tagged(x)} :: Tagged(x) }
    ghost predicate AllFooted() { forall x {:trigger Footed(x)} :: Footed(x) }
    ghost predicate AllApart() { forall x {:trigger Apart(x)} :: Apart(x) }

    ghost predicate Inv() {
      Ends() && AllLinked() && AllShaped() && AllTagged() && AllFooted() && AllApart()
    }

    /** The chunks that callers hold. */
    ghost function Live(): map<nat, nat> {
      map x | x in blk && blk[x].used :: blk[x].size
    }

    /** The chunks that belong in bins. */
    ghost function Binned(): map<nat, nat> {
      map x | x in blk && !blk[x].used && x != dv && x != top :: blk[x].size
    }
  }

  // ---- The tiling ----

  lemma At(h: Heap, x: nat)
    requires h.Inv()
    ensures h.Linked(x) && h.Shaped(x) && h.Tagged(x) && h.Footed(x) && h.Apart(x) && h.Ends()
  {
  }

  /** Chunks do not overlap. */
  lemma {:induction false} Ordered(h: Heap, x: nat, y: nat)
    requires h.Inv() && x in h.blk && (y in h.blk || y == h.end) && x < y
    ensures h.Next(x) <= y
    decreases h.end - y
  {
    hide Heap.Inv, Heap.Tagged, Heap.Footed, Heap.Apart, Heap.Shaped;
    At(h, x);
    if y < h.end {
      At(h, y);
      var x', y' := h.Next(x), h.Next(y);
      Ordered(h, x, y');
      if y < x' && x' != h.end {
        At(h, x');
        Ordered(h, y, x');
      }
    }
  }

  /** Every byte of the segment is in a chunk. */
  lemma {:induction false} Covers(h: Heap, x: nat, a: nat) returns (y: nat)
    requires h.Inv() && x in h.blk && x <= a < h.end
    ensures y in h.blk && y <= a < h.Next(y)
    decreases h.end - x
  {
    hide Heap.Inv, Heap.Tagged, Heap.Footed, Heap.Apart, Heap.Shaped;
    At(h, x);
    if a < h.Next(x) { y := x; } else { y := Covers(h, h.Next(x), a); }
  }

  /** The tiling: each byte of the segment lies in exactly one chunk. */
  lemma Tiled(h: Heap, a: nat)
    requires h.Inv() && h.base <= a < h.end
    ensures exists x :: x in h.blk && x <= a < h.Next(x)
    ensures forall x, y | x in h.blk && y in h.blk && x <= a < h.Next(x) && y <= a < h.Next(y) :: x == y
  {
    hide Heap.Inv;
    At(h, h.base);
    var x := Covers(h, h.base, a);
    forall x, y | x in h.blk && y in h.blk && x <= a < h.Next(x) && y <= a < h.Next(y) ensures x == y {
      if x < y { Ordered(h, x, y); }
      if y < x { Ordered(h, y, x); }
    }
  }

  /** Chunks that callers hold lie in the segment and do not overlap. */
  lemma LiveApart(h: Heap, x: nat, y: nat)
    requires h.Inv() && x in h.Live() && y in h.Live() && x < y
    ensures h.base <= x && x + h.Live()[x] <= y && y + h.Live()[y] <= h.end
  {
    hide Heap.Inv;
    At(h, x);
    At(h, y);
    Ordered(h, x, y);
  }

  // ---- The free chunks are a function of the chunks in use ----

  lemma SameBlock(h: Heap, g: Heap, x: nat)
    requires h.Inv() && g.Inv() && h.base == g.base && h.end == g.end && h.Live() == g.Live()
    requires x in h.blk && x in g.blk
    ensures h.blk[x].size == g.blk[x].size && h.blk[x].used == g.blk[x].used
  {
    hide Heap.Inv, Heap.Tagged, Heap.Footed, Heap.Shaped;
    assert h.blk[x].used <==> x in h.Live();
    assert g.blk[x].used <==> x in g.Live();
    if !h.blk[x].used {
      NotPast(h, g, x);
      NotPast(g, h, x);
    } else {
      assert h.Live()[x] == g.Live()[x];
    }
  }

  lemma NotPast(h: Heap, g: Heap, x: nat)
    requires h.Inv() && g.Inv() && h.base == g.base && h.end == g.end && h.Live() == g.Live()
    requires h.Free(x) && g.Free(x)
    ensures g.Next(x) <= h.Next(x)
  {
    hide Heap.Inv, Heap.Tagged, Heap.Footed, Heap.Shaped;
    At(h, x);
    At(g, x);
    var e := h.Next(x);
    if e != h.end {
      assert e in h.Live();
      assert e in g.Live();
      Ordered(g, x, e);
    }
  }

  lemma {:induction false} SamePlaces(h: Heap, g: Heap, x: nat)
    requires h.Inv() && g.Inv() && h.base == g.base && h.end == g.end && h.Live() == g.Live()
    requires x in h.blk
    ensures x in g.blk && h.blk[x] == g.blk[x]
    decreases x
  {
    hide Heap.Inv, Heap.Tagged, Heap.Footed, Heap.Apart, Heap.Shaped, Heap.Live;
    At(h, x);
    At(g, x);
    if x != h.base {
      var p := h.blk[x].prev;
      At(h, p);
      At(g, p);
      SamePlaces(h, g, p);
      At(g, x);
    }
    SameBlock(h, g, x);
  }

  /** Two heaps with the same chunks in use have the same free chunks and the same top,
      whatever happened before: coalescing is complete. */
  lemma SameLiveSameTiling(h: Heap, g: Heap)
    requires h.Inv() && g.Inv() && h.base == g.base && h.end == g.end && h.Live() == g.Live()
    ensures h.blk == g.blk && h.top == g.top
  {
    hide Heap.Inv, Heap.Live;
    forall x | x in h.blk ensures x in g.blk && h.blk[x] == g.blk[x] { SamePlaces(h, g, x); }
    forall x | x in g.blk ensures x in h.blk { SamePlaces(g, h, x); }
    At(h, h.top);
    At(g, h.top);
    At(g, g.top);
    At(h, g.top);
  }

  // ---- Taking a chunk ----

  /** The free chunk x is handed out whole. */
  ghost function TakeWhole(h: Heap, x: nat, dv: nat): Heap
    requires x in h.blk && h.Next(x) in h.head
  {
    var head := h.head[x := Tag(h.blk[x].size, true, true)];
    h.(head := head[h.Next(x) := h.head[h.Next(x)].(pinuse := true)], dv := dv,
       blk := h.blk[x := h.blk[x].(used := true)])
  }

  /** The first n bytes of the free chunk x are handed out; what is left stays free. */
  ghost function TakePart(h: Heap, x: nat, n: nat, dv: nat): Heap
    requires x in h.blk && 0 < n < h.blk[x].size && (h.Next(x) == h.end || h.Next(x) in h.blk)
  {
    var e, left, r := h.Next(x), h.blk[x].size - n, x + n;
    var blk := h.blk[x := Block(n, h.blk[x].prev, true)][r := Block(left, x, false)];
    h.(head := h.head[x := Tag(n, true, true)][r := Tag(left, true, false)],
       foot := if e == h.end then h.foot else h.foot[e := left], dv := dv, top := if e == h.end then r else h.top,
       blk := if e == h.end then blk else blk[e := h.blk[e].(prev := r)])
  }

  /** What a request may take of a free chunk, and which dv may come of it. */
  ghost predicate CanTakeWhole(h: Heap, x: nat, dv: nat) {
    h.Free(x) && x != h.top && h.Next(x) in h.head && (dv == 0 || (dv == h.dv && dv != x))
  }

  ghost predicate CanTakePart(h: Heap, x: nat, n: nat, dv: nat) {
    && h.Free(x) && MIN_CHUNK_SIZE <= n < h.blk[x].size && n % ALIGNMENT == 0
    && (h.Next(x) == h.end || h.Next(x) in h.blk)
    && (x != h.top ==> n + MIN_CHUNK_SIZE <= h.blk[x].size)
    && (dv == 0 || (dv == h.dv && dv != x) || (dv == x + n && x != h.top))
  }

  /** The neighbours of a free chunk. */
  lemma Around(h: Heap, x: nat)
    requires h.Inv() && h.Free(x)
    ensures x in h.head && h.head[x] == Tag(h.blk[x].size, true, false)
    ensures x != h.top ==> h.Next(x) in h.blk && h.Next(x) in h.head && h.Used(h.Next(x)) && h.blk[h.Next(x)].prev == x
    ensures x == h.top <==> h.Next(x) == h.end
    ensures x == h.base || h.Used(h.blk[x].prev)
  {
    hide Heap.Inv;
    At(h, x);
    if x != h.top { At(h, h.Next(x)); }
    if x != h.base { At(h, h.blk[x].prev); At(h, x); }
  }

  /** Nothing starts inside a chunk. */
  lemma Inside(h: Heap, x: nat, a: nat)
    requires h.Inv() && x in h.blk && x < a < h.Next(x)
    ensures a !in h.blk
  {
    hide Heap.Inv;
    if a in h.blk { Ordered(h, x, a); assert false; }
  }

  lemma WholeInv(h: Heap)
    requires h.Ends() && h.AllLinked() && h.AllShaped() && h.AllTagged() && h.AllFooted() && h.AllApart()
    ensures h.Inv()
  {
  }

  lemma TakeWholeKeeps(h: Heap, x: nat, dv: nat)
    requires h.Inv() && CanTakeWhole(h, x, dv)
    ensures TakeWhole(h, x, dv).Inv()
    ensures TakeWhole(h, x, dv).Live() == h.Live()[x := h.blk[x].size]
  {
    var t := TakeWhole(h, x, dv);
    Around(h, x);
    if h.dv != 0 { At(h, h.dv); }
    hide Heap.Inv;
    forall y: nat ensures t.Linked(y) && t.Shaped(y) { WholeLinkedAt(h, x, dv, y); }
    forall y: nat ensures t.Tagged(y) && t.Footed(y) && t.Apart(y) { WholeTaggedAt(h, x, dv, y); }
    hide Heap.Linked, Heap.Shaped, Heap.Tagged, Heap.Footed, Heap.Apart;
    WholeInv(t);
  }

  lemma WholeLinkedAt(h: Heap, x: nat, dv: nat, y: nat)
    requires h.Inv() && CanTakeWhole(h, x, dv)
    ensures TakeWhole(h, x, dv).Linked(y) && TakeWhole(h, x, dv).Shaped(y)
  {
    Around(h, x);
    At(h, y);
    hide Heap.Inv, Heap.Tagged, Heap.Footed, Heap.Apart;
  }

  lemma WholeTaggedAt(h: Heap, x: nat, dv: nat, y: nat)
    requires h.Inv() && CanTakeWhole(h, x, dv)
    ensures TakeWhole(h, x, dv).Tagged(y) && TakeWhole(h, x, dv).Footed(y) && TakeWhole(h, x, dv).Apart(y)
  {
    Around(h, x);
    At(h, x);
    At(h, y);
    if y in h.blk && y != h.base { At(h, h.blk[y].prev); }
    hide Heap.Inv, Heap.Shaped;
  }

  /** The chunks after a part was taken, one by one. */
  lemma PartBlock(h: Heap, x: nat, n: nat, dv: nat, y: nat)
    requires h.Inv() && CanTakePart(h, x, n, dv)
    ensures var t, e, r := TakePart(h, x, n, dv), h.Next(x), x + n;
            && r !in h.blk && x < r < e
            && (y in t.blk <==> y in h.blk || y == r)
            && (y in t.blk ==> t.blk[y] == if y == x then Block(n, h.blk[x].prev, true)
                                           else if y == r then Block(e - r, x, false)
                                           else if y == e && e != h.end then h.blk[e].(prev := r) else h.blk[y])
  {
    Around(h, x);
    Inside(h, x, x + n);
    At(h, x);
    hide Heap.Inv;
  }

  lemma TakePartKeeps(h: Heap, x: nat, n: nat, dv: nat)
    requires h.Inv() && CanTakePart(h, x, n, dv)
    ensures TakePart(h, x, n, dv).Inv()
    ensures TakePart(h, x, n, dv).Live() == h.Live()[x := n]
  {
    PartEnds(h, x, n, dv);
    PartLive(h, x, n, dv);
    var t := TakePart(h, x, n, dv);
    hide Heap.Inv, Heap.Linked, Heap.Shaped, Heap.Tagged, Heap.Footed, Heap.Apart, TakePart;
    forall y: nat ensures t.Linked(y) { PartLinkedAt(h, x, n, dv, y); }
    forall y: nat ensures t.Shaped(y) { PartShapedAt(h, x, n, dv, y); }
    forall y: nat ensures t.Tagged(y) { PartTaggedAt(h, x, n, dv, y); }
    forall y: nat ensures t.Footed(y) && t.Apart(y) { PartFreeAt(h, x, n, dv, y); }
    WholeInv(t);
  }

  lemma PartEnds(h: Heap, x: nat, n: nat, dv: nat)
    requires h.Inv() && CanTakePart(h, x, n, dv)
    ensures TakePart(h, x, n, dv).Ends()
  {
    Around(h, x);
    At(h, x);
    if h.dv != 0 { At(h, h.dv); }
    Inside(h, x, x + n);
    hide Heap.Inv;
  }

  lemma PartLinkedAt(h: Heap, x: nat, n: nat, dv: nat, y: nat)
    requires h.Inv() && CanTakePart(h, x, n, dv)
    ensures TakePart(h, x, n, dv).Linked(y)
  {
    var t := TakePart(h, x, n, dv);
    PartBlock(h, x, n, dv, y);
    PartBlock(h, x, n, dv, t.Next(y));
    if y in t.blk { PartBlock(h, x, n, dv, t.blk[y].prev); }
    Around(h, x);
    At(h, x);
    At(h, y);
    if y in h.blk && y != h.base { At(h, h.blk[y].prev); }
    assert t.base == h.base && t.end == h.end && t.top == if x == h.top then x + n else h.top;
    hide Heap.Inv, Heap.Tagged, Heap.Footed, Heap.Apart, Heap.Shaped, TakePart;
  }

  lemma PartShapedAt(h: Heap, x: nat, n: nat, dv: nat, y: nat)
    requires h.Inv() && CanTakePart(h, x, n, dv)
    ensures TakePart(h, x, n, dv).Shaped(y)
  {
    PartBlock(h, x, n, dv, y);
    Around(h, x);
    At(h, x);
    At(h, y);
    assert TakePart(h, x, n, dv).top == if x == h.top then x + n else h.top;
    hide Heap.Inv, Heap.Tagged, Heap.Footed, Heap.Apart, Heap.Linked, TakePart;
  }

  lemma PartTaggedAt(h: Heap, x: nat, n: nat, dv: nat, y: nat)
    requires h.Inv() && CanTakePart(h, x, n, dv)
    ensures TakePart(h, x, n, dv).Tagged(y)
  {
    var t := TakePart(h, x, n, dv);
    PartBlock(h, x, n, dv, y);
    if y in t.blk { PartBlock(h, x, n, dv, t.blk[y].prev); }
    Around(h, x);
    At(h, x);
    At(h, y);
    if y in h.blk && y != h.base { At(h, h.blk[y].prev); }
    assert t.base == h.base && t.head == h.head[x := Tag(n, true, true)][x + n := Tag(h.blk[x].size - n, true, false)];
    hide Heap.Inv, Heap.Footed, Heap.Apart, Heap.Shaped, TakePart;
  }

  lemma PartFreeAt(h: Heap, x: nat, n: nat, dv: nat, y: nat)
    requires h.Inv() && CanTakePart(h, x, n, dv)
    ensures TakePart(h, x, n, dv).Footed(y) && TakePart(h, x, n, dv).Apart(y)
  {
    var t := TakePart(h, x, n, dv);
    PartBlock(h, x, n, dv, y);
    PartBlock(h, x, n, dv, t.Next(y));
    Around(h, x);
    At(h, x);
    At(h, y);
    assert t.end == h.end && t.top == if x == h.top then x + n else h.top;
    assert t.foot == if x == h.top then h.foot else h.foot[h.Next(x) := h.blk[x].size - n];
    hide Heap.Inv, Heap.Tagged, Heap.Shaped, TakePart;
  }

  lemma PartLive(h: Heap, x: nat, n: nat, dv: nat)
    requires h.Inv() && CanTakePart(h, x, n, dv)
    ensures TakePart(h, x, n, dv).Live() == h.Live()[x := n]
  {
    Around(h, x);
    Inside(h, x, x + n);
    hide Heap.Inv;
  }

  // ---- Giving a chunk back ----

  /** The chunks from a up to b become one free chunk. */
  ghost function Fuse(h: Heap, a: nat, b: nat, dv: nat): Heap
    requires a in h.blk && a < b && (b == h.end || (b in h.blk && b in h.head))
  {
    var size := b - a;
    var blk := map y | y in h.blk && !(a < y < b) ::
                 if y == a then Block(size, h.blk[a].prev, false)
                 else if y == b then h.blk[b].(prev := a) else h.blk[y];
    var head := h.head[a := Tag(size, true, false)];
    Heap(h.base, h.end, if b == h.end then head else head[b := h.head[b].(pinuse := false)],
         if b == h.end then h.foot else h.foot[b := size], dv, if b == h.end then a else h.top, blk)
  }

  /** The run from a to b lies between chunks in use. */
  ghost predicate CanFuse(h: Heap, a: nat, b: nat, dv: nat) {
    && a in h.blk && a < b && (b == h.end || (h.Used(b) && b in h.head))
    && (a == h.base || h.Used(h.blk[a].prev))
    && (dv == 0 || (dv == h.dv && !(a <= dv < b)) || (dv == a && b != h.end))
  }

  lemma FuseKeeps(h: Heap, a: nat, b: nat, dv: nat)
    requires h.Inv() && CanFuse(h, a, b, dv)
    ensures Fuse(h, a, b, dv).Inv()
    ensures Fuse(h, a, b, dv).Live() == map x | x in h.Live() && !(a <= x < b) :: h.Live()[x]
  {
    hide Heap.Inv, Fuse;
    FuseEnds(h, a, b, dv);
    FuseLinked(h, a, b, dv);
    FuseTagged(h, a, b, dv);
    FuseLive(h, a, b, dv);
    WholeInv(Fuse(h, a, b, dv));
  }

  /** Seen from a chunk outside the run, both neighbours are outside too or at its rim. */
  lemma Outside(h: Heap, a: nat, b: nat, y: nat)
    requires h.Inv() && a in h.blk && a < b && (b == h.end || b in h.blk)
    requires y in h.blk && !(a <= y < b)
    ensures y < a ==> h.Next(y) <= a
    ensures y > b && y != h.base ==> h.blk[y].prev >= b
  {
    hide Heap.Inv;
    At(h, y);
    if y < a { Ordered(h, y, a); }
    if y > b && y != h.base && h.blk[y].prev < b {
      At(h, h.blk[y].prev);
      Ordered(h, h.blk[y].prev, b);
    }
  }

  lemma FuseEnds(h: Heap, a: nat, b: nat, dv: nat)
    requires h.Inv() && CanFuse(h, a, b, dv)
    ensures Fuse(h, a, b, dv).Ends()
  {
    hide Heap.Inv;
    At(h, h.base);
    At(h, a);
    At(h, h.top);
    if b != h.end {
      At(h, b);
      if h.top < b { Ordered(h, h.top, b); }
      Ordered(h, a, b);
    }
    if dv == a && b != h.end { Ordered(h, a, b); }
  }

  lemma RunSize(h: Heap, a: nat, b: nat)
    requires h.Inv() && a in h.blk && a < b && b in h.blk
    ensures (b - a) % ALIGNMENT == 0 && b - a >= MIN_CHUNK_SIZE && b < h.end && a != h.top
  {
    hide Heap.Inv;
    At(h, a);
    At(h, b);
    Ordered(h, a, b);
  }

  lemma FuseLinked(h: Heap, a: nat, b: nat, dv: nat)
    requires h.Inv() && CanFuse(h, a, b, dv)
    ensures Fuse(h, a, b, dv).AllLinked() && Fuse(h, a, b, dv).AllShaped()
  {
    var t := Fuse(h, a, b, dv);
    hide Heap.Inv, Heap.Linked, Heap.Shaped, Fuse;
    forall y: nat ensures t.Linked(y) && t.Shaped(y) { FuseLinkedAt(h, a, b, dv, y); }
  }

  lemma FuseTop(h: Heap, a: nat, b: nat, dv: nat)
    requires h.Inv() && CanFuse(h, a, b, dv)
    ensures h.Linked(a) && h.Shaped(a) && a < h.end && (b == h.end || b in h.blk)
    ensures b == h.end ==> a <= h.top
    ensures b != h.end ==> b <= h.top && b < h.end && (b - a) % ALIGNMENT == 0 && b - a >= MIN_CHUNK_SIZE && a != h.top
  {
    At(h, a);
    At(h, h.top);
    if b != h.end {
      RunSize(h, a, b);
      At(h, b);
      if h.top < b { Ordered(h, h.top, b); }
    } else {
      if h.top < a { Ordered(h, h.top, a); }
    }
    hide Heap.Inv;
  }

  lemma FuseLinkedAt(h: Heap, a: nat, b: nat, dv: nat, y: nat)
    requires h.Inv() && CanFuse(h, a, b, dv)
    ensures Fuse(h, a, b, dv).Linked(y) && Fuse(h, a, b, dv).Shaped(y)
  {
    FuseTop(h, a, b, dv);
    At(h, y);
    if y in h.blk && !(a <= y < b) { Outside(h, a, b, y); }
    if y in h.blk && y != h.base { At(h, h.blk[y].prev); }
    hide Heap.Inv, Heap.Tagged, Heap.Footed, Heap.Apart;
  }

  lemma FuseTagged(h: Heap, a: nat, b: nat, dv: nat)
    requires h.Inv() && CanFuse(h, a, b, dv)
    ensures Fuse(h, a, b, dv).AllTagged() && Fuse(h, a, b, dv).AllFooted() && Fuse(h, a, b, dv).AllApart()
  {
    var t := Fuse(h, a, b, dv);
    hide Heap.Inv, Heap.Tagged, Heap.Footed, Heap.Apart, Fuse;
    forall y: nat ensures t.Tagged(y) { FuseTaggedAt(h, a, b, dv, y); }
    forall y: nat ensures t.Footed(y) && t.Apart(y) { FuseFreeAt(h, a, b, dv, y); }
  }

  lemma FuseTaggedAt(h: Heap, a: nat, b: nat, dv: nat, y: nat)
    requires h.Inv() && CanFuse(h, a, b, dv)
    ensures Fuse(h, a, b, dv).Tagged(y)
  {
    FuseTop(h, a, b, dv);
    At(h, y);
    if y in h.blk && !(a <= y < b) { Outside(h, a, b, y); }
    if y in h.blk && y != h.base { At(h, h.blk[y].prev); }
    hide Heap.Inv, Heap.Shaped, Heap.Footed, Heap.Apart;
  }

  lemma FuseFreeAt(h: Heap, a: nat, b: nat, dv: nat, y: nat)
    requires h.Inv() && CanFuse(h, a, b, dv)
    ensures Fuse(h, a, b, dv).Footed(y) && Fuse(h, a, b, dv).Apart(y)
  {
    FuseTop(h, a, b, dv);
    At(h, y);
    if y in h.blk && !(a <= y < b) { Outside(h, a, b, y); }
    hide Heap.Inv, Heap.Shaped, Heap.Tagged;
  }

  lemma FuseLive(h: Heap, a: nat, b: nat, dv: nat)
    requires h.Inv() && CanFuse(h, a, b, dv)
    ensures Fuse(h, a, b, dv).Live() == map x | x in h.Live() && !(a <= x < b) :: h.Live()[x]
  {
    hide Heap.Inv;
  }

  // ---- A new segment, and what callers may do to it ----

  /** All of the segment is top. */
  ghost function NewHeap(base: nat, end: nat): Heap
    requires base < end
  {
    Heap(base, end, map[base := Tag(end - base, true, false), end := Tag(TOP_FOOT_SIZE, false, false)], map[], 0, base,
         map[base := Block(end - base, 0, false)])
  }

  lemma NewHeapInv(base: nat, end: nat)
    requires 0 < base < end < WORD && base % ALIGNMENT == 0
    ensures NewHeap(base, end).Inv() && NewHeap(base, end).Live() == map[] && NewHeap(base, end).Binned() == map[]
  {
  }

  /** Callers own the bytes from x + 16 to the head word of the next chunk. Whatever they write
      there, tags that the allocator relies on stay as they are. */
  lemma CallersMayWrite(h: Heap, g: Heap, x: nat)
    requires h.Inv() && h.Used(x) && g == h.(head := g.head, foot := g.foot)
    requires h.head.Keys <= g.head.Keys && h.foot.Keys <= g.foot.Keys
    requires forall y | y in h.head && g.head[y] != h.head[y] :: x + 16 <= y + 8 < h.Next(x)
    requires forall y | y in h.foot && g.foot[y] != h.foot[y] :: x + 16 <= y <= h.Next(x)
    ensures g.Inv()
  {
    At(h, x);
    forall y: nat ensures g.Linked(y) && g.Shaped(y) && g.Tagged(y) && g.Apart(y) {
      At(h, y);
      if y in h.blk && x < y { Ordered(h, x, y); }
    }
    forall y: nat ensures g.Footed(y) {
      At(h, y);
      if h.Free(y) && y != h.top {
        if x < y { Ordered(h, x, y); } else { Ordered(h, y, x); }
      }
    }
    hide Heap.Linked, Heap.Shaped, Heap.Tagged, Heap.Footed, Heap.Apart;
    At(h, h.top);
  }

  // ---- What becomes of the binned chunks ----

  lemma WholeBinned(h: Heap, x: nat, dv: nat)
    requires h.Inv() && CanTakeWhole(h, x, dv)
    ensures x != h.dv && dv == h.dv ==> TakeWhole(h, x, dv).Binned() == h.Binned() - {x}
    ensures x == h.dv && dv == 0 ==> TakeWhole(h, x, dv).Binned() == h.Binned()
  {
    At(h, h.base);
    At(h, 0);
    hide Heap.Inv;
  }

  lemma NotNull(h: Heap)
    requires h.Inv()
    ensures forall y | y in h.blk :: y != 0
    ensures h.Ends()
  {
    forall y | y in h.blk ensures y != 0 { At(h, y); }
  }

  /** Taken of top or of dv: the bins stay. */
  lemma PartOfEnds(h: Heap, x: nat, n: nat, dv: nat)
    requires h.Inv() && CanTakePart(h, x, n, dv)
    requires (x == h.top && dv == h.dv) || (x == h.dv && dv == x + n)
    ensures TakePart(h, x, n, dv).Binned() == h.Binned()
  {
    PartBinnedIs(h, x, n, dv);
    Inside(h, x, x + n);
    NotNull(h);
    hide Heap.Inv, TakePart, Heap.Linked, Heap.Shaped, Heap.Tagged, Heap.Footed, Heap.Apart;
  }

  /** Taken of a binned chunk: the rest goes to the bins. */
  lemma PartOfBinned(h: Heap, x: nat, n: nat)
    requires h.Inv() && CanTakePart(h, x, n, h.dv) && x in h.Binned()
    ensures TakePart(h, x, n, h.dv).Binned() == (h.Binned() - {x})[x + n := h.blk[x].size - n]
  {
    var dv := h.dv;
    PartBinnedIs(h, x, n, dv);
    Inside(h, x, x + n);
    NotNull(h);
    hide Heap.Inv, TakePart, Heap.Linked, Heap.Shaped, Heap.Tagged, Heap.Footed, Heap.Apart;
  }

  /** Taken of a binned chunk: the rest becomes dv, and the dv that was goes to the bins. */
  lemma PartReplacesDv(h: Heap, x: nat, n: nat)
    requires h.Inv() && CanTakePart(h, x, n, x + n) && x in h.Binned()
    ensures TakePart(h, x, n, x + n).Binned() ==
            if h.dv == 0 then h.Binned() - {x} else (h.Binned() - {x})[h.dv := h.blk[h.dv].size]
  {
    var dv := x + n;
    PartBinnedIs(h, x, n, dv);
    Inside(h, x, x + n);
    NotNull(h);
    hide Heap.Inv, TakePart, Heap.Linked, Heap.Shaped, Heap.Tagged, Heap.Footed, Heap.Apart;
  }

  lemma PartBinnedIs(h: Heap, x: nat, n: nat, dv: nat)
    requires h.Inv() && CanTakePart(h, x, n, dv)
    ensures TakePart(h, x, n, dv).Binned() ==
            map y | y in h.blk.Keys + {x + n} && y != x && y != dv && y != (if x == h.top then x + n else h.top)
                  && (y in h.blk ==> !h.blk[y].used) :: if y == x + n then h.blk[x].size - n else h.blk[y].size
  {
    var t := TakePart(h, x, n, dv);
    assert t.top == (if x == h.top then x + n else h.top) && t.dv == dv by { Around(h, x); }
    forall y: nat
      ensures y in t.blk <==> y in h.blk || y == x + n
      ensures y in t.blk ==> t.blk[y].used == (y == x || (y != x + n && h.blk[y].used))
      ensures y in t.blk && y != x ==> t.blk[y].size == if y == x + n then h.blk[x].size - n else h.blk[y].size
    {
      PartBlock(h, x, n, dv, y);
    }
    PartBlock(h, x, n, dv, x);
    hide Heap.Inv, TakePart, Heap.Linked, Heap.Shaped, Heap.Tagged, Heap.Footed, Heap.Apart;
  }

  lemma FuseBinned(h: Heap, a: nat, b: nat, dv: nat)
    requires h.Inv() && CanFuse(h, a, b, dv)
    requires h.dv != 0 && !(a <= h.dv < b) ==> dv == h.dv
    requires a <= h.dv < b ==> dv == if b == h.end then 0 else a
    ensures var rest := map y | y in h.Binned() && !(a <= y < b) :: h.Binned()[y];
            Fuse(h, a, b, dv).Binned() == if dv == a || b == h.end then rest else rest[a := b - a]
  {
    var t := Fuse(h, a, b, dv);
    hide Heap.Inv, CanFuse, Fuse, Heap.Binned;
    forall y: nat
      ensures y in t.Binned() <==>
              ((y in h.Binned() && !(a <= y < b)) || (y == a && dv != a && b != h.end))
      ensures y in t.Binned() ==> t.Binned()[y] == if y == a then b - a else h.Binned()[y]
    {
      FuseBinnedAt(h, a, b, dv, y);
    }
  }

  lemma FuseBinnedAt(h: Heap, a: nat, b: nat, dv: nat, y: nat)
    requires h.Inv() && CanFuse(h, a, b, dv)
    requires h.dv != 0 && !(a <= h.dv < b) ==> dv == h.dv
    requires a <= h.dv < b ==> dv == if b == h.end then 0 else a
    ensures var t := Fuse(h, a, b, dv);
            && (y in t.Binned() <==> ((y in h.Binned() && !(a <= y < b)) || (y == a && dv != a && b != h.end)))
            && (y in t.Binned() ==> t.Binned()[y] == if y == a then b - a else h.Binned()[y])
  {
    FuseTop(h, a, b, dv);
    At(h, a);
    At(h, h.top);
    NotNull(h);
    hide Heap.Inv, Heap.Linked, Heap.Shaped, Heap.Tagged, Heap.Footed, Heap.Apart;
    assert y in Fuse(h, a, b, dv).blk <==> y in h.blk && !(a < y < b);
  }

  // ---- Freeing ----

  /** What the tags tell about the neighbours of a chunk in use. */
  lemma Neighbours(h: Heap, x: nat)
    requires h.Inv() && h.Used(x)
    ensures x != 0 && x % ALIGNMENT == 0 && x != h.top
    ensures x in h.head && h.head[x] == Tag(h.blk[x].size, x == h.base || h.Used(h.blk[x].prev), true)
    ensures var n := h.Next(x);
            && n in h.blk && n in h.head && n > x && n != h.end && h.head[n].pinuse && (h.head[n].cinuse <==> h.Used(n))
            && h.head[n].size == h.blk[n].size && (n == h.top <==> h.Next(n) == h.end)
            && (n == h.top ==> h.Free(n))
            && (h.Free(n) && n != h.top ==>
                  var e := h.Next(n); h.Used(e) && e in h.head && !h.head[e].pinuse && e != h.end && e > n)
    ensures !h.head[x].pinuse ==>
              var p := h.blk[x].prev;
              && x in h.foot && p in h.blk && h.foot[x] == h.blk[p].size && p == x - h.foot[x] && p < x && p != 0
              && h.Free(p) && p != h.top && (p == h.base || h.Used(h.blk[p].prev)) && h.Next(p) == x
  {
    At(h, x);
    At(h, h.top);
    var n := h.Next(x);
    At(h, n);
    if h.Free(n) && n != h.top { At(h, h.Next(n)); }
    if !h.head[x].pinuse {
      At(h, h.blk[x].prev);
      Around(h, h.blk[x].prev);
    }
    hide Heap.Inv;
  }

  /** a starts and b ends the run that freeing x makes. */
  ghost predicate FreeRun(h: Heap, x: nat, a: nat, b: nat) {
    && h.Used(x) && x in h.head
    && (a == if h.head[x].pinuse then x else h.blk[x].prev)
    && (b == if h.Used(h.Next(x)) then h.Next(x) else h.Next(h.Next(x)))
  }

  ghost function DvAfter(h: Heap, a: nat, b: nat): nat {
    if h.dv != 0 && a <= h.dv < b then (if b == h.end then 0 else a) else h.dv
  }

  lemma RunFuses(h: Heap, x: nat, a: nat, b: nat)
    requires h.Inv() && FreeRun(h, x, a, b)
    ensures CanFuse(h, a, b, DvAfter(h, a, b)) && 0 < a <= x < h.Next(x) <= b
    ensures forall y | y in h.blk && a <= y < b :: y == a || y == x || y == h.Next(x)
    ensures b != h.Next(x) && b != h.end ==> !h.head[b].pinuse
  {
    Neighbours(h, x);
    NotNull(h);
    hide Heap.Inv;
    forall y | y in h.blk && a <= y < b ensures y == a || y == x || y == h.Next(x) {
      if a < y < x { Inside(h, a, y); }
      if x < y < h.Next(x) { Inside(h, x, y); }
      if h.Next(x) < y < b { Inside(h, h.Next(x), y); }
    }
  }

  /** Freeing x: the heap stays in order, x is gone from the chunks in use, and the bins must
      give up the free neighbours and take the new chunk, unless it is dv or top. */
  lemma FreeKeeps(h: Heap, x: nat, a: nat, b: nat)
    requires h.Inv() && FreeRun(h, x, a, b)
    ensures CanFuse(h, a, b, DvAfter(h, a, b))
    ensures var t := Fuse(h, a, b, DvAfter(h, a, b));
            && t.Inv() && t.Live() == h.Live() - {x}
            && var rest := h.Binned() - {a, h.Next(x)};
               t.Binned() == if t.dv == a || b == h.end then rest else rest[a := b - a]
  {
    RunFuses(h, x, a, b);
    var dv := DvAfter(h, a, b);
    FuseKeeps(h, a, b, dv);
    FuseBinned(h, a, b, dv);
    FuseIs(h, a, b, dv);
    RunLive(h, x, a, b);
    RunBinned(h, x, a, b);
    hide Heap.Inv, Fuse, CanFuse, Heap.Live, Heap.Binned;
  }

  lemma RunLive(h: Heap, x: nat, a: nat, b: nat)
    requires h.Inv() && FreeRun(h, x, a, b)
    ensures (map y | y in h.Live() && !(a <= y < b) :: h.Live()[y]) == h.Live() - {x}
  {
    RunFuses(h, x, a, b);
    Neighbours(h, x);
    hide Heap.Inv, CanFuse;
  }

  lemma RunBinned(h: Heap, x: nat, a: nat, b: nat)
    requires h.Inv() && FreeRun(h, x, a, b)
    ensures (map y | y in h.Binned() && !(a <= y < b) :: h.Binned()[y]) == h.Binned() - {a, h.Next(x)}
  {
    RunFuses(h, x, a, b);
    Neighbours(h, x);
    hide Heap.Inv, CanFuse;
  }

  /** The fields after a merge. */
  lemma FuseIs(h: Heap, a: nat, b: nat, dv: nat)
    requires h.Inv() && CanFuse(h, a, b, dv)
    ensures var t := Fuse(h, a, b, dv);
            && t == h.(head := if b == h.end then h.head[a := Tag(b - a, true, false)]
                               else h.head[a := Tag(b - a, true, false)][b := h.head[b].(pinuse := false)],
                       foot := if b == h.end then h.foot else h.foot[b := b - a],
                       dv := dv, top := if b == h.end then a else h.top, blk := t.blk)
            && a in t.blk && t.blk[a].size == b - a
            && forall y | y in h.blk && !(a <= y < b) :: y in t.blk && t.blk[y].size == h.blk[y].size
    ensures a <= h.top < b <==> b == h.end
    ensures dv != 0 ==> dv in Fuse(h, a, b, dv).blk
    ensures 0 !in Fuse(h, a, b, dv).blk
  {
    FuseTop(h, a, b, dv);
    At(h, h.top);
    At(h, h.dv);
    NotNull(h);
    hide Heap.Inv;
  }
}
