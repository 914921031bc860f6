/** The size-keyed bitwise tries that hold large free chunks, as a value with its invariant,
    and the link updates that insert and unlink a chunk. */
module LargeBins {
  import opened Queues
  import opened SizeBits

  /** The parent field: empty for a chunk that is not the first of its ring, the address of
      the bin for a root, else the parent chunk. */
  datatype ParentLink = NoParent | BinSlot(i: nat) | ParentAt(p: nat)

  /** A free chunk in a large bin; address 0 is the null pointer. */
  datatype TChunk = TChunk(size: nat, fd: nat, bk: nat, child0: nat, child1: nat,
                           parent: ParentLink, index: nat)

  function Kid(c: TChunk, b: nat): nat {
    if b == 0 then c.child0 else c.child1
  }

  function SetKid(c: TChunk, b: nat, x: nat): TChunk {
    if b == 0 then c.(child0 := x) else c.(child1 := x)
  }

  /** A place in a tree: the sizes that belong below it are those of its bin whose bits from
      w upwards are q. */
  datatype Pos = Pos(bin: nat, w: nat, q: nat)

  function Root(i: nat): Pos {
    Pos(i, BinWidth(i), BinPrefix(i))
  }

  function Half(p: Pos, b: nat): Pos
    requires p.w > 0
  {
    Pos(p.bin, p.w - 1, 2 * p.q + b)
  }

  function Over(p: Pos): Pos {
    Pos(p.bin, p.w + 1, p.q / 2)
  }

  /** The place at depth w on the path of size s. */
  function OnPath(s: nat, w: nat): Pos {
    Pos(TreeIndex(s), w, Shr(s, w))
  }

  lemma PathStep(s: nat, w: nat)
    requires w > 0
    ensures Half(OnPath(s, w), Shr(s, w - 1) % 2) == OnPath(s, w - 1)
    ensures Over(OnPath(s, w - 1)) == OnPath(s, w)
  {
  }

  /** The neighbours of index j in a ring of n elements. */
  function NextIx(j: nat, n: nat): nat {
    if j + 1 == n then 0 else j + 1
  }

  function PrevIx(j: nat, n: nat): int {
    if j == 0 then n - 1 else j - 1
  }

  /** The bins: chunk records, roots, tree map, and for the proof the ring of equal-sized
      chunks at each place and the place of each chunk. */
  datatype Bins = Bins(mem: map<nat, TChunk>, roots: seq<nat>, marked: set<nat>,
                       at: map<Pos, seq<nat>>, pos: map<nat, Pos>)
  {
    /** The chunks held, with their sizes. */
    ghost function Chunks(): map<nat, nat> {
      map x | x in mem :: mem[x].size
    }

    /** The chunk found at place p, or null. */
    ghost function Head(p: Pos): nat {
      if p in at && |at[p]| > 0 then at[p][0] else 0
    }

    ghost function Rec(x: nat): TChunk {
      if x in mem then mem[x] else TChunk(0, 0, 0, 0, 0, NoParent, 0)
    }

    ghost function SizeAt(p: Pos): nat {
      Rec(Head(p)).size
    }

    ghost predicate ElemOk(p: Pos, j: nat)
      requires p in at && j < |at[p]|
    {
      var y := at[p][j];
      && y in mem && y in pos && pos[y] == p && mem[y].index == p.bin
      && mem[y].size == SizeAt(p)
      && mem[y].fd == at[p][NextIx(j, |at[p]|)] && mem[y].bk == at[p][PrevIx(j, |at[p]|)]
      && (j > 0 ==> mem[y].parent == NoParent && mem[y].child0 == 0 && mem[y].child1 == 0)
    }

    /** The chunks at one place have one size and form one doubly linked ring; only the first
        has tree links. */
    ghost predicate Rings() {
      && (forall p | p in at :: |at[p]| > 0 && Distinct(at[p]))
      && (forall p, j {:trigger ElemOk(p, j)} | p in at && 0 <= j < |at[p]| :: ElemOk(p, j))
    }

    ghost predicate AllPlaced() {
      && mem.Keys == pos.Keys
      && (forall y | y in mem :: y != 0 && pos[y] in at && y in at[pos[y]])
    }

    /** A chunk stands on the path of its size, in the bin of its size. */
    ghost predicate OnItsPath(p: Pos) {
      var s := SizeAt(p);
      Head(p) in mem && MIN_LARGE_SIZE <= s < WORD && p == OnPath(s, p.w) && p.w <= BinWidth(p.bin)
    }

    ghost predicate ParentOk(p: Pos) {
      if p.w == BinWidth(p.bin) then Rec(Head(p)).parent == BinSlot(p.bin)
      else Over(p) in at && Rec(Head(p)).parent == ParentAt(Head(Over(p)))
    }

    ghost predicate KidOk(p: Pos, b: nat) {
      Kid(Rec(Head(p)), b) == if p.w == 0 then 0 else Head(Half(p, b))
    }

    ghost predicate Trees() {
      && (forall p {:trigger OnItsPath(p)} | p in at :: OnItsPath(p))
      && (forall p {:trigger ParentOk(p)} | p in at :: ParentOk(p))
      && (forall p, b: nat {:trigger KidOk(p, b)} | p in at && b < 2 :: KidOk(p, b))
    }

    /** A bin has a root exactly when it is marked. */
    ghost predicate RootsOk() {
      && |roots| == NTREEBINS
      && (forall i | 0 <= i < NTREEBINS :: roots[i] == Head(Root(i)) && (i in marked <==> roots[i] != 0))
      && (forall i | i in marked :: i < NTREEBINS)
    }

    /** A size stands at one place only. */
    ghost predicate SizesUnique() {
      forall p, r {:trigger SizeAt(p), SizeAt(r)} | p in at && r in at && p != r :: SizeAt(p) != SizeAt(r)
    }

    ghost predicate Inv() {
      Rings() && AllPlaced() && Trees() && RootsOk() && SizesUnique()
    }
  }

  /** A non-empty place is told from an empty one by its head. */
  lemma HeadNonNull(s: Bins, p: Pos)
    requires s.Inv()
    ensures s.Head(p) != 0 <==> p in s.at
    ensures p in s.at ==>
              && s.Head(p) in s.mem && s.pos[s.Head(p)] == p && s.OnItsPath(p) && s.ParentOk(p)
              && s.KidOk(p, 0) && s.KidOk(p, 1)
  {
    hide TreeIndex, BinWidth, BinPrefix, Shr, OnPath;
    if p in s.at { assert s.ElemOk(p, 0); }
  }

  /** Of two kids the left one is smaller, as `do_check_tree` asserts. */
  lemma KidsInOrder(s: Bins, p: Pos)
    requires s.Inv() && p in s.at && p.w > 0 && Half(p, 0) in s.at && Half(p, 1) in s.at
    ensures s.SizeAt(Half(p, 0)) < s.SizeAt(Half(p, 1))
  {
    hide TreeIndex, BinWidth, BinPrefix, Shr;
    HeadNonNull(s, Half(p, 0));
    HeadNonNull(s, Half(p, 1));
    if s.SizeAt(Half(p, 0)) >= s.SizeAt(Half(p, 1)) {
      ShrMonotone(s.SizeAt(Half(p, 1)), s.SizeAt(Half(p, 0)), p.w - 1);
      assert false;
    }
  }

  // ---- The rings ----

  /** From s to t, x came behind the first of the chunks of its size, or alone to an empty place. */
  ghost predicate JoinsRing(s: Bins, t: Bins, x: nat) {
    && x in t.pos && var p := t.pos[x];
    t.at == s.at[p := if p in s.at && s.at[p] != [] then [s.at[p][0], x] + s.at[p][1..] else [x]]
  }

  lemma AddRootJoins(s: Bins, x: nat, size: nat)
    requires TreeIndex(size) < |s.roots| && Root(TreeIndex(size)) !in s.at
    ensures JoinsRing(s, AddRoot(s, x, size), x)
  {
    hide TreeIndex, BinWidth, BinPrefix;
  }

  lemma AddLeafJoins(s: Bins, x: nat, size: nat, t: nat, p: Pos, b: nat)
    requires s.Inv() && p in s.at && p.w > 0 && b < 2 && t == s.Head(p) && t in s.mem && Kid(s.mem[t], b) == 0
    ensures JoinsRing(s, AddLeaf(s, x, size, t, p, b), x)
  {
    hide TreeIndex, BinWidth, BinPrefix, Shr, OnPath, Bins.Inv;
    HeadNonNull(s, p);
    HeadNonNull(s, Half(p, b));
    assert b == 0 || b == 1;
  }

  lemma AddToRingJoins(s: Bins, x: nat, size: nat, t: nat, p: Pos)
    requires t in s.mem && s.mem[t].fd in s.mem && p in s.at && |s.at[p]| > 0
    ensures JoinsRing(s, AddToRing(s, x, size, t, p), x)
  {
    hide TreeIndex;
  }

  /** The place reached from p by going to the right wherever possible, and else to the left. */
  ghost function LastLeaf(s: Bins, p: Pos): Pos
    decreases p.w
  {
    if p.w > 0 && Half(p, 1) in s.at then LastLeaf(s, Half(p, 1))
    else if p.w > 0 && Half(p, 0) in s.at then LastLeaf(s, Half(p, 0))
    else p
  }

  /** From s to t, x left the chunks of its size. Where it was the first of several, the last one comes first;
      where it was the only one, those of the last leaf below take the place, if there is one. */
  ghost predicate LeavesRing(s: Bins, t: Bins, x: nat) {
    && x in s.pos && var p := s.pos[x];
    && p in s.at && var ring := s.at[p]; var n := |ring|;
    if n <= 1 then
      && ring == [x] && var q := LastLeaf(s, p);
      q in s.at && t.at == if q == p then s.at - {p} else (s.at - {q})[p := s.at[q]]
    else if ring[0] == x then
      t.at == s.at[p := [ring[n - 1]] + ring[1..n - 1]]
    else
      exists q :: LeftOut(ring, q, x) && t.at == s.at[p := q]
  }

  // ---- Insertion ----

  /** The first chunk of an empty bin. */
  function AddRoot(s: Bins, x: nat, size: nat): Bins
    requires TreeIndex(size) < |s.roots|
  {
    var i := TreeIndex(size);
    Bins(s.mem[x := TChunk(size, x, x, 0, 0, BinSlot(i), i)], s.roots[i := x], s.marked + {i},
         s.at[Root(i) := [x]], s.pos[x := Root(i)])
  }

  /** A new leaf on side b of the chunk t, which stands at place p. */
  function AddLeaf(s: Bins, x: nat, size: nat, t: nat, p: Pos, b: nat): Bins
    requires t in s.mem && p.w > 0
  {
    s.(mem := s.mem[x := TChunk(size, x, x, 0, 0, ParentAt(t), TreeIndex(size))]
                   [t := SetKid(s.mem[t], b, x)],
       at := s.at[Half(p, b) := [x]], pos := s.pos[x := Half(p, b)])
  }

  /** One more chunk of the size of t: it enters the ring behind t. */
  function AddToRing(s: Bins, x: nat, size: nat, t: nat, p: Pos): Bins
    requires t in s.mem && s.mem[t].fd in s.mem && p in s.at && |s.at[p]| > 0
  {
    var f := s.mem[t].fd;
    var m := s.mem[f := s.mem[f].(bk := x)];
    s.(mem := m[t := m[t].(fd := x)][x := TChunk(size, f, t, 0, 0, NoParent, TreeIndex(size))],
       at := s.at[p := [s.at[p][0], x] + s.at[p][1..]], pos := s.pos[x := p])
  }

  lemma AddRootKeeps(s: Bins, x: nat, size: nat)
    requires s.Inv() && x !in s.mem && x != 0 && MIN_LARGE_SIZE <= size < WORD
    requires TreeIndex(size) !in s.marked
    ensures TreeIndex(size) < |s.roots| && AddRoot(s, x, size).Inv()
    ensures AddRoot(s, x, size).Chunks() == s.Chunks()[x := size]
  {
    var p := Root(TreeIndex(size));
    RootPlace(s, size);
    AddRootRings(s, x, size);
    AddRootTrees(s, x, size);
    AddRootRoots(s, x, size);
    AddRootChunks(s, x, size);
    hide TreeIndex, BinWidth, BinPrefix, Shr, OnPath, Bins.Trees, Bins.Rings, Bins.SizesUnique, Bins.AllPlaced,
      Bins.RootsOk, Bins.Chunks;
    AddRootSizes(s, x, size);
    NewSizeUnique(s, AddRoot(s, x, size), x, size, p);
  }

  lemma AddRootSizes(s: Bins, x: nat, size: nat)
    requires s.Inv() && x !in s.mem && TreeIndex(size) < |s.roots| && Root(TreeIndex(size)) !in s.at
    ensures forall r | r in s.at :: AddRoot(s, x, size).SizeAt(r) == s.SizeAt(r)
  {
    var t := AddRoot(s, x, size);
    forall r | r in s.at ensures t.SizeAt(r) == s.SizeAt(r) {
      HeadNonNull(s, r);
      assert t.Head(r) == s.Head(r);
    }
  }

  lemma RootPlace(s: Bins, size: nat)
    requires s.Inv() && MIN_LARGE_SIZE <= size < WORD
    ensures TreeIndex(size) < |s.roots|
    ensures Root(TreeIndex(size)) == OnPath(size, BinWidth(TreeIndex(size)))
    ensures Root(TreeIndex(size)) in s.at <==> TreeIndex(size) in s.marked
  {
    IndexPrefix(size);
    HeadNonNull(s, Root(TreeIndex(size)));
  }

  lemma AddRootChunks(s: Bins, x: nat, size: nat)
    requires TreeIndex(size) < |s.roots|
    ensures AddRoot(s, x, size).Chunks() == s.Chunks()[x := size]
  {
    hide TreeIndex, BinWidth, BinPrefix;
  }

  lemma AddRootRoots(s: Bins, x: nat, size: nat)
    requires s.Inv() && x !in s.mem && x != 0
    requires TreeIndex(size) < |s.roots| && Root(TreeIndex(size)) !in s.at
    ensures AddRoot(s, x, size).RootsOk()
  {
    hide TreeIndex, BinWidth, BinPrefix, Shr, Bins.Trees, Bins.Rings, Bins.SizesUnique, Bins.AllPlaced;
  }

  /** A chunk put on an empty place of its path, when no chunk of its size is above it, keeps
      sizes unique. */
  lemma NewSizeUnique(s: Bins, t: Bins, x: nat, size: nat, p: Pos)
    requires s.Inv() && p == OnPath(size, p.w) && p !in s.at && p.w <= BinWidth(p.bin)
    requires t.at == s.at[p := [x]] && x in t.mem && t.mem[x].size == size
    requires forall r | r in s.at :: t.SizeAt(r) == s.SizeAt(r)
    requires forall w: nat | p.w < w <= BinWidth(p.bin) && OnPath(size, w) in s.at :: s.SizeAt(OnPath(size, w)) != size
    ensures t.SizesUnique()
  {
    forall r | r in s.at ensures s.SizeAt(r) != size {
      SizeNotHeld(s, r, size, p);
    }
    hide TreeIndex, BinWidth, BinPrefix, Shr, OnPath, Bins.AllPlaced, Bins.Trees, Bins.RootsOk, Bins.Rings;
    assert t.SizeAt(p) == size;
  }

  lemma AddRootRings(s: Bins, x: nat, size: nat)
    requires s.Inv() && x !in s.mem && x != 0
    requires TreeIndex(size) < |s.roots| && Root(TreeIndex(size)) !in s.at
    ensures AddRoot(s, x, size).Rings() && AddRoot(s, x, size).AllPlaced()
  {
    hide TreeIndex, BinWidth, BinPrefix, Shr, Bins.Trees, Bins.RootsOk, Bins.SizesUnique;
    var t := AddRoot(s, x, size);
    forall r, j | r in s.at && 0 <= j < |s.at[r]| ensures t.at[r] == s.at[r] && t.ElemOk(r, j) {
      assert s.ElemOk(r, j) && s.ElemOk(r, 0);
    }
  }

  /** Every place above an occupied one is occupied. */
  lemma {:induction false} PlaceAbove(s: Bins, r: Pos, w: nat)
    requires s.Inv() && r in s.at && r.w <= w <= BinWidth(r.bin)
    ensures r.bin == TreeIndex(s.SizeAt(r)) && OnPath(s.SizeAt(r), w) in s.at
    decreases w - r.w
  {
    HeadNonNull(s, r);
    hide TreeIndex, BinWidth, BinPrefix;
    if r.w < w {
      PlaceAbove(s, r, w - 1);
      HeadNonNull(s, OnPath(s.SizeAt(r), w - 1));
      PathStep(s.SizeAt(r), w);
    }
  }

  /** When place p on the path of a size is empty, a chunk of that size could only stand
      above p. */
  lemma SizeNotHeld(s: Bins, r: Pos, size: nat, p: Pos)
    requires s.Inv() && r in s.at && p == OnPath(size, p.w) && p !in s.at && p.w <= BinWidth(p.bin)
    ensures s.SizeAt(r) == size ==> p.w < r.w <= BinWidth(r.bin) && r == OnPath(size, r.w)
  {
    HeadNonNull(s, r);
    if s.SizeAt(r) == size && r.w <= p.w {
      PlaceAbove(s, r, p.w);
      assert false;
    }
  }

  lemma AddRootTrees(s: Bins, x: nat, size: nat)
    requires s.Inv() && x !in s.mem && x != 0 && MIN_LARGE_SIZE <= size < WORD
    requires TreeIndex(size) < |s.roots| && Root(TreeIndex(size)) !in s.at
    ensures AddRoot(s, x, size).Trees()
  {
    IndexPrefix(size);
    var p := Root(TreeIndex(size));
    var t := AddRoot(s, x, size);
    assert p == OnPath(size, p.w);
    NoKidsWithoutParent(s, p);
    forall r | r in s.at ensures t.OnItsPath(r) && t.ParentOk(r) && t.KidOk(r, 0) && t.KidOk(r, 1) {
      HeadNonNull(s, r);
      AddRootElsewhere(s, x, size, r);
    }
    hide TreeIndex, BinPrefix, Shr, OnPath, Bins.Inv;
    assert t.OnItsPath(p) && t.ParentOk(p) && t.KidOk(p, 0) && t.KidOk(p, 1);
    forall r, b: nat | r in t.at && b < 2 ensures t.KidOk(r, b) { assert b == 0 || b == 1; }
  }

  lemma AddRootElsewhere(s: Bins, x: nat, size: nat, r: Pos)
    requires s.Inv() && x !in s.mem && x != 0 && r in s.at
    requires TreeIndex(size) < |s.roots| && Root(TreeIndex(size)) !in s.at
    ensures var t := AddRoot(s, x, size); t.OnItsPath(r) && t.ParentOk(r) && t.KidOk(r, 0) && t.KidOk(r, 1)
  {
    HeadNonNull(s, r);
    hide TreeIndex, BinPrefix, Shr, OnPath, Bins.Inv;
    var t := AddRoot(s, x, size);
    assert t.Head(r) == s.Head(r);
  }

  /** Nothing stands below an empty place. */
  lemma NoKidsWithoutParent(s: Bins, p: Pos)
    requires s.Inv() && p !in s.at && p.w > 0 && p.w <= BinWidth(p.bin)
    ensures Half(p, 0) !in s.at && Half(p, 1) !in s.at
  {
    HeadNonNull(s, Half(p, 0));
    HeadNonNull(s, Half(p, 1));
    assert Over(Half(p, 0)) == p && Over(Half(p, 1)) == p;
  }

  lemma AddLeafChunks(s: Bins, x: nat, size: nat, t: nat, p: Pos, b: nat)
    requires t in s.mem && p.w > 0 && t != x
    ensures AddLeaf(s, x, size, t, p, b).Chunks() == s.Chunks()[x := size]
  {
  }

  lemma AddLeafKeeps(s: Bins, x: nat, size: nat, p: Pos, b: nat)
    requires s.Inv() && x !in s.mem && x != 0 && MIN_LARGE_SIZE <= size < WORD
    requires p in s.at && p == OnPath(size, p.w) && p.w > 0 && b == Shr(size, p.w - 1) % 2
    requires s.Head(p) in s.mem && Kid(s.mem[s.Head(p)], b) == 0
    requires forall w: nat | p.w <= w <= BinWidth(p.bin) && OnPath(size, w) in s.at :: s.SizeAt(OnPath(size, w)) != size
    ensures AddLeaf(s, x, size, s.Head(p), p, b).Inv()
    ensures AddLeaf(s, x, size, s.Head(p), p, b).Chunks() == s.Chunks()[x := size]
  {
    hide TreeIndex, BinWidth, BinPrefix, Shr, OnPath, Bins.Trees, Bins.Rings, Bins.SizesUnique, Bins.AllPlaced,
      Bins.RootsOk, Bins.Chunks, Bins.SizeAt, Bins.Rec, Bins.Head;
    AddLeafPlace(s, size, p, b);
    AddLeafRings(s, x, size, p, b);
    AddLeafTrees(s, x, size, p, b);
    AddLeafRoots(s, x, size, p, b);
    AddLeafChunks(s, x, size, s.Head(p), p, b);
    AddLeafSizes(s, x, size, p, b);
    assert Half(p, b).w == p.w - 1 && Half(p, b).bin == p.bin;
    NewSizeUnique(s, AddLeaf(s, x, size, s.Head(p), p, b), x, size, Half(p, b));
  }

  lemma AddLeafSizes(s: Bins, x: nat, size: nat, p: Pos, b: nat)
    requires s.Inv() && x !in s.mem && p in s.at && p.w > 0 && s.Head(p) in s.mem && Half(p, b) !in s.at
    ensures forall r | r in s.at :: AddLeaf(s, x, size, s.Head(p), p, b).SizeAt(r) == s.SizeAt(r)
  {
    var t := AddLeaf(s, x, size, s.Head(p), p, b);
    forall r | r in s.at ensures t.SizeAt(r) == s.SizeAt(r) {
      HeadNonNull(s, r);
      assert t.Head(r) == s.Head(r);
    }
  }

  lemma AddLeafPlace(s: Bins, size: nat, p: Pos, b: nat)
    requires s.Inv() && p in s.at && p == OnPath(size, p.w) && p.w > 0 && b == Shr(size, p.w - 1) % 2
    requires s.Head(p) in s.mem && Kid(s.mem[s.Head(p)], b) == 0
    ensures Half(p, b) !in s.at && Half(p, b) == OnPath(size, p.w - 1) && p.bin == TreeIndex(size)
    ensures p.w <= BinWidth(p.bin)
  {
    hide TreeIndex, BinWidth, BinPrefix, Shr;
    HeadNonNull(s, p);
    HeadNonNull(s, Half(p, b));
    PathStep(size, p.w);
  }

  lemma AddLeafRoots(s: Bins, x: nat, size: nat, p: Pos, b: nat)
    requires s.Inv() && p in s.at && p.w > 0 && s.Head(p) in s.mem
    ensures AddLeaf(s, x, size, s.Head(p), p, b).RootsOk()
  {
    HeadNonNull(s, p);
    hide TreeIndex, BinPrefix, Shr, Bins.Trees, Bins.Rings, Bins.SizesUnique, Bins.AllPlaced;
    var t := AddLeaf(s, x, size, s.Head(p), p, b);
    forall i | 0 <= i < NTREEBINS ensures t.Head(Root(i)) == s.Head(Root(i)) {
      assert Root(i) != Half(p, b);
    }
  }

  lemma AddLeafRings(s: Bins, x: nat, size: nat, p: Pos, b: nat)
    requires s.Inv() && x !in s.mem && x != 0 && p in s.at && p.w > 0 && s.Head(p) in s.mem
    requires Half(p, b) !in s.at && TreeIndex(size) == p.bin
    ensures AddLeaf(s, x, size, s.Head(p), p, b).Rings()
    ensures AddLeaf(s, x, size, s.Head(p), p, b).AllPlaced()
  {
    hide TreeIndex, BinWidth, BinPrefix, Shr, Bins.Trees, Bins.RootsOk, Bins.SizesUnique;
    var t := AddLeaf(s, x, size, s.Head(p), p, b);
    forall r, j | r in s.at && 0 <= j < |s.at[r]| ensures t.at[r] == s.at[r] && t.ElemOk(r, j) {
      assert s.ElemOk(r, j) && s.ElemOk(r, 0) && s.ElemOk(p, 0);
    }
  }

  lemma AddLeafTrees(s: Bins, x: nat, size: nat, p: Pos, b: nat)
    requires s.Inv() && x !in s.mem && x != 0 && MIN_LARGE_SIZE <= size < WORD && b < 2
    requires p in s.at && p.w > 0 && p.w <= BinWidth(p.bin) && Half(p, b) !in s.at && s.Head(p) in s.mem
    requires Half(p, b) == OnPath(size, p.w - 1)
    ensures AddLeaf(s, x, size, s.Head(p), p, b).Trees()
  {
    var t := AddLeaf(s, x, size, s.Head(p), p, b);
    var n := Half(p, b);
    if p.w > 1 { NoKidsWithoutParent(s, n); }
    HeadNonNull(s, p);
    forall r | r in s.at ensures t.OnItsPath(r) && t.ParentOk(r) && t.KidOk(r, 0) && t.KidOk(r, 1) {
      AddLeafElsewhere(s, x, size, p, b, r);
      AddLeafKids(s, x, size, p, b, r, 0);
      AddLeafKids(s, x, size, p, b, r, 1);
    }
    hide TreeIndex, BinWidth, BinPrefix, Shr, OnPath, Bins.Inv;
    assert Over(n) == p && t.Head(p) == s.Head(p) && t.Head(n) == x;
    assert t.OnItsPath(n) && t.ParentOk(n) && t.KidOk(n, 0) && t.KidOk(n, 1);
    forall r, c: nat | r in t.at && c < 2 ensures t.KidOk(r, c) { assert c == 0 || c == 1; }
  }

  lemma AddLeafElsewhere(s: Bins, x: nat, size: nat, p: Pos, b: nat, r: Pos)
    requires s.Inv() && x !in s.mem && b < 2 && r in s.at
    requires p in s.at && p.w > 0 && Half(p, b) !in s.at && s.Head(p) in s.mem
    ensures var t := AddLeaf(s, x, size, s.Head(p), p, b); t.OnItsPath(r) && t.ParentOk(r)
  {
    HeadNonNull(s, p);
    HeadNonNull(s, r);
    hide TreeIndex, BinWidth, BinPrefix, Shr, OnPath, Distinct, Bins.Inv, Bins.KidOk;
    var t := AddLeaf(s, x, size, s.Head(p), p, b);
    assert t.Head(r) == s.Head(r) && t.Rec(s.Head(r)).parent == s.Rec(s.Head(r)).parent;
  }

  lemma AddLeafKids(s: Bins, x: nat, size: nat, p: Pos, b: nat, r: Pos, c: nat)
    requires s.Inv() && x !in s.mem && x != 0 && b < 2 && c < 2 && r in s.at
    requires p in s.at && p.w > 0 && Half(p, b) !in s.at && s.Head(p) in s.mem
    ensures AddLeaf(s, x, size, s.Head(p), p, b).KidOk(r, c)
  {
    HeadNonNull(s, p);
    HeadNonNull(s, r);
    assert c == 0 || c == 1;
    hide TreeIndex, BinWidth, BinPrefix, Shr, OnPath, Distinct, Bins.Inv, Bins.OnItsPath, Bins.ParentOk;
    var t := AddLeaf(s, x, size, s.Head(p), p, b);
    assert t.Head(r) == s.Head(r);
    if r.w > 0 && Half(r, c) == Half(p, b) { assert r == p && b == c; }
  }

  lemma AddToRingKeeps(s: Bins, x: nat, size: nat, p: Pos)
    requires s.Inv() && x !in s.mem && x != 0
    requires p in s.at && s.SizeAt(p) == size
    ensures s.Head(p) in s.mem && s.mem[s.Head(p)].fd in s.mem && |s.at[p]| > 0
    ensures AddToRing(s, x, size, s.Head(p), p).Inv()
    ensures AddToRing(s, x, size, s.Head(p), p).Chunks() == s.Chunks()[x := size]
  {
    hide TreeIndex, BinWidth, BinPrefix, Shr, OnPath, Bins.Trees, Bins.Rings, Bins.SizesUnique, Bins.AllPlaced,
      Bins.RootsOk, Bins.Chunks, Bins.SizeAt, Bins.Rec, Bins.Head;
    HeadNonNull(s, p);
    RingNext(s, p);
    AddToRingRings(s, x, size, p);
    AddToRingChunks(s, x, size, s.Head(p), p);
    AddToRingLinks(s, x, size, p);
    SameTrees(s, AddToRing(s, x, size, s.Head(p), p));
  }

  lemma AddToRingLinks(s: Bins, x: nat, size: nat, p: Pos)
    requires s.Inv() && x !in s.mem && p in s.at && |s.at[p]| > 0
    requires s.Head(p) in s.mem && s.mem[s.Head(p)].fd in s.mem
    ensures forall r | r in s.at :: SameLinks(s, AddToRing(s, x, size, s.Head(p), p), r)
  {
    hide TreeIndex, BinWidth, BinPrefix, Shr, OnPath, Bins.Inv;
    var t := AddToRing(s, x, size, s.Head(p), p);
    forall r | r in s.at ensures SameLinks(s, t, r) {
      HeadNonNull(s, r);
      if r == p { assert t.at[p][0] == s.at[p][0]; }
    }
  }

  /** The heads at place r have the same size and the same tree links. */
  ghost predicate SameLinks(s: Bins, t: Bins, r: Pos) {
    && t.Head(r) == s.Head(r) && s.Head(r) in s.mem && s.Head(r) in t.mem
    && t.mem[s.Head(r)].size == s.mem[s.Head(r)].size
    && t.mem[s.Head(r)].parent == s.mem[s.Head(r)].parent
    && t.mem[s.Head(r)].child0 == s.mem[s.Head(r)].child0
    && t.mem[s.Head(r)].child1 == s.mem[s.Head(r)].child1
  }

  lemma AddToRingChunks(s: Bins, x: nat, size: nat, t: nat, p: Pos)
    requires t in s.mem && s.mem[t].fd in s.mem && p in s.at && |s.at[p]| > 0 && x !in s.mem
    ensures AddToRing(s, x, size, t, p).Chunks() == s.Chunks()[x := size]
  {
  }

  /** The ring neighbours of a head. */
  lemma RingNext(s: Bins, p: Pos)
    requires s.Inv() && p in s.at
    ensures |s.at[p]| > 0 && s.Head(p) in s.mem
    ensures s.mem[s.Head(p)].fd == s.at[p][if |s.at[p]| == 1 then 0 else 1] && s.mem[s.Head(p)].fd in s.mem
    ensures s.mem[s.Head(p)].bk == s.at[p][|s.at[p]| - 1] && s.mem[s.Head(p)].bk in s.mem
  {
    hide TreeIndex, BinWidth, BinPrefix, Shr, OnPath, Bins.Trees, Bins.AllPlaced, Bins.RootsOk, Bins.SizesUnique;
    assert s.ElemOk(p, 0) && s.ElemOk(p, if |s.at[p]| == 1 then 0 else 1) && s.ElemOk(p, |s.at[p]| - 1);
  }

  /** A change that keeps the tree links and sizes of all heads keeps the trees. */
  lemma SameTrees(s: Bins, t: Bins)
    requires s.Inv() && t.at.Keys == s.at.Keys && t.roots == s.roots && t.marked == s.marked
    requires forall r | r in s.at :: SameLinks(s, t, r)
    ensures t.Trees() && t.RootsOk() && t.SizesUnique()
  {
    hide TreeIndex, BinWidth, BinPrefix, Shr, OnPath, Bins.Rings, Bins.AllPlaced;
    forall r: Pos ensures t.Head(r) == s.Head(r) { assert r in s.at ==> SameLinks(s, t, r); }
    forall r | r in s.at ensures t.SizeAt(r) == s.SizeAt(r) { assert SameLinks(s, t, r); }
    forall r | r in t.at ensures t.OnItsPath(r) && t.ParentOk(r) && t.KidOk(r, 0) && t.KidOk(r, 1) {
      HeadNonNull(s, r);
      assert SameLinks(s, t, r);
    }
    forall r, b: nat | r in t.at && b < 2 ensures t.KidOk(r, b) { assert b == 0 || b == 1; }
  }

  lemma AddToRingRings(s: Bins, x: nat, size: nat, p: Pos)
    requires s.Inv() && x !in s.mem && x != 0
    requires p in s.at && |s.at[p]| > 0 && s.SizeAt(p) == size && s.Head(p) in s.mem && s.mem[s.Head(p)].fd in s.mem
    ensures AddToRing(s, x, size, s.Head(p), p).Rings()
    ensures AddToRing(s, x, size, s.Head(p), p).AllPlaced()
  {
    hide TreeIndex, BinWidth, BinPrefix, Shr, Bins.Trees, Bins.RootsOk, Bins.SizesUnique, Bins.ElemOk, Bins.AllPlaced;
    var t := AddToRing(s, x, size, s.Head(p), p);
    var o, n := s.at[p], t.at[p];
    assert x !in o by {
      forall j | 0 <= j < |o| ensures o[j] != x { ElemIn(s, p, j); }
    }
    assert forall j | 2 <= j < |n| :: n[j] == o[j - 1];
    forall r, j | r in s.at && 0 <= j < |t.at[r]| ensures t.ElemOk(r, j) {
      if r != p { AddToRingOther(s, x, size, p, r, j); } else { AddToRingHere(s, x, size, p, j); }
    }
    AddToRingPlaced(s, x, size, p);
  }

  lemma ElemIn(s: Bins, p: Pos, j: nat)
    requires s.Inv() && p in s.at && j < |s.at[p]|
    ensures s.at[p][j] in s.mem && s.ElemOk(p, j)
  {
    hide TreeIndex, BinWidth, BinPrefix, Shr, OnPath, Bins.Trees, Bins.RootsOk, Bins.SizesUnique, Bins.AllPlaced;
    assert s.ElemOk(p, j);
  }

  lemma AddToRingOther(s: Bins, x: nat, size: nat, p: Pos, r: Pos, j: nat)
    requires s.Inv() && x !in s.mem && p in s.at && |s.at[p]| > 0
    requires s.Head(p) in s.mem && s.mem[s.Head(p)].fd in s.mem && r in s.at && r != p && j < |s.at[r]|
    ensures AddToRing(s, x, size, s.Head(p), p).ElemOk(r, j)
  {
    hide TreeIndex, BinWidth, BinPrefix, Shr, OnPath, Bins.Inv;
    RingNext(s, p);
    ElemIn(s, p, 0);
    ElemIn(s, p, if |s.at[p]| == 1 then 0 else 1);
    ElemIn(s, r, j);
    ElemIn(s, r, 0);
  }

  lemma AddToRingHere(s: Bins, x: nat, size: nat, p: Pos, j: nat)
    requires s.Inv() && x !in s.mem && p in s.at && |s.at[p]| > 0 && s.SizeAt(p) == size
    requires s.Head(p) in s.mem && s.mem[s.Head(p)].fd in s.mem && j <= |s.at[p]|
    ensures AddToRing(s, x, size, s.Head(p), p).ElemOk(p, j)
  {
    hide TreeIndex, BinWidth, BinPrefix, Shr, Bins.Trees, Bins.RootsOk, Bins.SizesUnique, Bins.AllPlaced;
    var t := AddToRing(s, x, size, s.Head(p), p);
    var o, n := s.at[p], t.at[p];
    RingNext(s, p);
    HeadNonNull(s, p);
    ElemIn(s, p, 0);
    ElemIn(s, p, if |o| == 1 then 0 else 1);
    assert forall k | 2 <= k < |n| :: n[k] == o[k - 1];
    if j >= 2 { ElemIn(s, p, j - 1); }
  }

  lemma AddToRingPlaced(s: Bins, x: nat, size: nat, p: Pos)
    requires s.Inv() && x !in s.mem && x != 0 && p in s.at && |s.at[p]| > 0
    requires s.Head(p) in s.mem && s.mem[s.Head(p)].fd in s.mem
    ensures AddToRing(s, x, size, s.Head(p), p).AllPlaced()
  {
    hide TreeIndex, BinWidth, BinPrefix, Shr, Bins.Trees, Bins.RootsOk, Bins.SizesUnique, Bins.Rings;
    var t := AddToRing(s, x, size, s.Head(p), p);
    var n := t.at[p];
    assert forall k | 2 <= k < |n| :: n[k] == s.at[p][k - 1];
    forall y | y in t.mem ensures y != 0 && t.pos[y] in t.at && y in t.at[t.pos[y]] {
      if y == x {
        assert n[1] == x;
      } else if s.pos[y] == p {
        var j :| 0 <= j < |s.at[p]| && s.at[p][j] == y;
        assert n[if j == 0 then 0 else j + 1] == y;
      }
    }
  }

  // ---- Unlinking ----

  ghost function Elems(q: seq<nat>): set<nat> {
    set y | y in q
  }

  /** A place without kids disappears, with its whole ring. */
  ghost function DropLeaf(s: Bins, q: Pos): Bins
    requires q in s.at
  {
    var m := s.mem - Elems(s.at[q]);
    var h := s.Head(Over(q));
    var at := s.at - {q};
    var pos := s.pos - Elems(s.at[q]);
    if q.w == BinWidth(q.bin) && q.bin < |s.roots| then
      Bins(m, s.roots[q.bin := 0], s.marked - {q.bin}, at, pos)
    else
      s.(mem := if h in m then m[h := SetKid(m[h], q.q % 2, 0)] else m, at := at, pos := pos)
  }

  lemma DropLeafKeeps(s: Bins, q: Pos)
    requires s.Inv() && q in s.at && (q.w > 0 ==> s.Head(Half(q, 0)) == 0 && s.Head(Half(q, 1)) == 0)
    ensures DropLeaf(s, q).Inv()
  {
    HeadNonNull(s, q);
    DropLeafRings(s, q);
    DropLeafTrees(s, q);
    DropLeafRoots(s, q);
  }

  lemma DropLeafRings(s: Bins, q: Pos)
    requires s.Inv() && q in s.at
    ensures DropLeaf(s, q).Rings() && DropLeaf(s, q).AllPlaced()
  {
    hide TreeIndex, BinWidth, BinPrefix, Shr, OnPath, Bins.Trees, Bins.RootsOk, Bins.SizesUnique;
    var t := DropLeaf(s, q);
    forall y | y in s.mem ensures y in Elems(s.at[q]) <==> s.pos[y] == q {
      if y in s.at[q] {
        var j :| 0 <= j < |s.at[q]| && s.at[q][j] == y;
        assert s.ElemOk(q, j);
      }
    }
    forall r, j | r in t.at && 0 <= j < |t.at[r]| ensures t.ElemOk(r, j) {
      assert s.ElemOk(r, j) && s.ElemOk(r, 0);
    }
  }

  lemma DropLeafElsewhere(s: Bins, q: Pos, r: Pos)
    requires s.Inv() && q in s.at && r in s.at && r != q
    ensures var t := DropLeaf(s, q);
            && t.Head(r) == s.Head(r) && t.SizeAt(r) == s.SizeAt(r) && s.Head(r) in t.mem
            && t.Rec(s.Head(r)).parent == s.Rec(s.Head(r)).parent
            && (forall b | 0 <= b < 2 ::
                  Kid(t.Rec(s.Head(r)), b) == if r == Over(q) && q.w < BinWidth(q.bin) && b == q.q % 2 then 0
                                              else Kid(s.Rec(s.Head(r)), b))
  {
    HeadNonNull(s, r);
    HeadNonNull(s, q);
    HeadNonNull(s, Over(q));
    InRingIff(s, q, s.Head(r));
  }

  lemma DropLeafTrees(s: Bins, q: Pos)
    requires s.Inv() && q in s.at && (q.w > 0 ==> s.Head(Half(q, 0)) == 0 && s.Head(Half(q, 1)) == 0)
    ensures DropLeaf(s, q).Trees() && DropLeaf(s, q).SizesUnique()
  {
    var t := DropLeaf(s, q);
    HeadNonNull(s, q);
    forall r | r in t.at
      ensures t.SizeAt(r) == s.SizeAt(r) && t.OnItsPath(r) && t.ParentOk(r) && t.KidOk(r, 0) && t.KidOk(r, 1)
    {
      DropLeafPlace(s, q, r);
      DropLeafElsewhere(s, q, r);
    }
    hide TreeIndex, BinWidth, BinPrefix, Shr, OnPath, Bins.Rings, Bins.AllPlaced, Bins.RootsOk;
    forall r, b: nat | r in t.at && b < 2 ensures t.KidOk(r, b) { assert b == 0 || b == 1; }
  }

  lemma DropLeafPlace(s: Bins, q: Pos, r: Pos)
    requires s.Inv() && q in s.at && (q.w > 0 ==> s.Head(Half(q, 0)) == 0 && s.Head(Half(q, 1)) == 0)
    requires r in s.at && r != q
    ensures var t := DropLeaf(s, q); t.OnItsPath(r) && t.ParentOk(r) && t.KidOk(r, 0) && t.KidOk(r, 1)
  {
    HeadNonNull(s, r);
    HeadNonNull(s, q);
    DropLeafElsewhere(s, q, r);
    var t := DropLeaf(s, q);
    if r.w < BinWidth(r.bin) {
      if q.w > 0 {
        HeadNonNull(s, Half(q, 0));
        HeadNonNull(s, Half(q, 1));
        assert Over(r) == q ==> r == Half(q, r.q % 2);
      }
      DropLeafElsewhere(s, q, Over(r));
    }
    forall b: nat | b < 2 ensures t.KidOk(r, b) {
      assert b == 0 || b == 1;
      if r.w > 0 {
        var k := Half(r, b);
        assert Over(k) == r;
        HeadNonNull(s, k);
        if k in s.at && k != q { DropLeafElsewhere(s, q, k); }
        if k == q { assert q.q % 2 == b; }
        if r == Over(q) && q.w < BinWidth(q.bin) && b == q.q % 2 { assert k == q; }
      }
    }
  }

  lemma DropLeafRoots(s: Bins, q: Pos)
    requires s.Inv() && q in s.at
    ensures DropLeaf(s, q).RootsOk()
  {
    HeadNonNull(s, q);
    var t := DropLeaf(s, q);
    forall i | 0 <= i < NTREEBINS
      ensures t.Head(Root(i)) == if Root(i) == q then 0 else s.Head(Root(i))
    {
    }
    if q.w == BinWidth(q.bin) { IndexPrefix(s.SizeAt(q)); assert q == Root(q.bin); }
  }

  /** A chunk record after the tree links that named x name r. */
  function Renamed(c: TChunk, x: nat, r: nat): TChunk {
    c.(parent := if c.parent == ParentAt(x) then ParentAt(r) else c.parent,
       child0 := if c.child0 == x then r else c.child0,
       child1 := if c.child1 == x then r else c.child1)
  }

  ghost predicate RingElem(recs: map<nat, TChunk>, ring: seq<nat>, bin: nat, size: nat, j: nat)
    requires j < |ring|
  {
    && ring[j] in recs && ring[j] != 0
    && recs[ring[j]].size == size && recs[ring[j]].index == bin
    && recs[ring[j]].fd == ring[NextIx(j, |ring|)] && recs[ring[j]].bk == ring[PrevIx(j, |ring|)]
    && (j > 0 ==> recs[ring[j]].parent == NoParent && recs[ring[j]].child0 == 0 && recs[ring[j]].child1 == 0)
  }

  /** A ring of chunks of one size, apart from the tree links of its first chunk. */
  ghost predicate LooseRing(recs: map<nat, TChunk>, ring: seq<nat>, bin: nat, size: nat) {
    && |ring| > 0 && Distinct(ring) && recs.Keys == Elems(ring)
    && forall j {:trigger RingElem(recs, ring, bin, size, j)} | 0 <= j < |ring| :: RingElem(recs, ring, bin, size, j)
  }

  /** The ring takes the place p: its first chunk gets the tree links of the head there. */
  ghost function Replace(s: Bins, p: Pos, ring: seq<nat>, recs: map<nat, TChunk>): Bins
    requires p in s.at && |ring| > 0 && ring[0] in recs
  {
    var x, r := s.Head(p), ring[0];
    var gone := Elems(s.at[p]);
    var c := s.Rec(x);
    Bins((map y | y in s.mem && y !in gone :: Renamed(s.mem[y], x, r))
           + recs[r := recs[r].(parent := c.parent, child0 := c.child0, child1 := c.child1)],
         if p.w == BinWidth(p.bin) && p.bin < |s.roots| then s.roots[p.bin := r] else s.roots,
         s.marked, s.at[p := ring], (s.pos - gone) + map y | y in Elems(ring) :: p)
  }

  ghost predicate CanReplace(s: Bins, p: Pos, ring: seq<nat>, recs: map<nat, TChunk>, size: nat) {
    && s.Inv() && p in s.at && LooseRing(recs, ring, p.bin, size)
    && MIN_LARGE_SIZE <= size < WORD && p == OnPath(size, p.w)
    && (forall y | y in s.mem && y !in Elems(s.at[p]) :: y !in recs)
    && (forall r | r in s.at && r != p :: s.SizeAt(r) != size)
  }

  lemma ReplaceKeeps(s: Bins, p: Pos, ring: seq<nat>, recs: map<nat, TChunk>, size: nat)
    requires CanReplace(s, p, ring, recs, size)
    ensures ring[0] in recs && Replace(s, p, ring, recs).Inv()
  {
    hide TreeIndex, BinWidth, BinPrefix, Shr, OnPath, Bins.Rings, Bins.AllPlaced, Bins.Trees, Bins.RootsOk,
      Bins.SizesUnique, Distinct;
    assert RingElem(recs, ring, p.bin, size, 0);
    var t := Replace(s, p, ring, recs);
    ReplaceRings(s, p, ring, recs, size);
    ReplaceRoots(s, p, ring, recs, size);
    assert t.Trees() by {
      forall r | r in t.at ensures t.OnItsPath(r) && t.ParentOk(r) && t.KidOk(r, 0) && t.KidOk(r, 1) {
        ReplacePlace(s, p, ring, recs, size, r);
      }
      TreesFrom(t);
    }
    ReplaceSizes(s, p, ring, recs, size);
  }

  lemma TreesFrom(t: Bins)
    requires forall r | r in t.at :: t.OnItsPath(r) && t.ParentOk(r) && t.KidOk(r, 0) && t.KidOk(r, 1)
    ensures t.Trees()
  {
    hide Bins.OnItsPath, Bins.ParentOk, Bins.KidOk;
    forall r, b: nat | r in t.at && b < 2 ensures t.KidOk(r, b) {
      assert b == 0 || b == 1;
      assert t.OnItsPath(r) || true;
    }
  }

  /** Which chunks stand in which ring. */
  lemma InRingIff(s: Bins, p: Pos, y: nat)
    requires s.Inv() && p in s.at && y in s.mem
    ensures y in Elems(s.at[p]) <==> s.pos[y] == p
    ensures y != 0 && y in s.pos && s.pos[y] in s.at
  {
    hide TreeIndex, BinWidth, BinPrefix, Shr, OnPath, Bins.Trees, Bins.RootsOk, Bins.SizesUnique;
    if y in s.at[p] {
      var j :| 0 <= j < |s.at[p]| && s.at[p][j] == y;
      assert s.ElemOk(p, j);
    }
  }

  lemma ReplaceRings(s: Bins, p: Pos, ring: seq<nat>, recs: map<nat, TChunk>, size: nat)
    requires CanReplace(s, p, ring, recs, size) && ring[0] in recs
    ensures Replace(s, p, ring, recs).Rings() && Replace(s, p, ring, recs).AllPlaced()
  {
    hide TreeIndex, BinWidth, BinPrefix, Shr, OnPath, Bins.Inv, Bins.ElemOk, RingElem;
    var t := Replace(s, p, ring, recs);
    forall r, j | r in t.at && 0 <= j < |t.at[r]| ensures t.ElemOk(r, j) {
      if r == p {
        ReplaceElemHere(s, p, ring, recs, size, j);
      } else {
        ReplaceElemElsewhere(s, p, ring, recs, size, r, j);
      }
    }
    forall r | r in s.at ensures |s.at[r]| > 0 && Distinct(s.at[r]) { RingShape(s, r); }
    ReplacePlaced(s, p, ring, recs, size);
  }

  lemma ReplacePlaced(s: Bins, p: Pos, ring: seq<nat>, recs: map<nat, TChunk>, size: nat)
    requires CanReplace(s, p, ring, recs, size) && ring[0] in recs
    ensures Replace(s, p, ring, recs).AllPlaced()
  {
    hide TreeIndex, BinWidth, BinPrefix, Shr, OnPath, Bins.Inv, Bins.ElemOk, RingElem, Distinct;
    var t := Replace(s, p, ring, recs);
    forall y | y in t.mem ensures y != 0 && y in t.pos && t.pos[y] in t.at && y in t.at[t.pos[y]] {
      if y in recs {
        var j :| 0 <= j < |ring| && ring[j] == y;
        RingElemFacts(recs, ring, p.bin, size, j);
      } else {
        InRingIff(s, p, y);
        InRingIff(s, s.pos[y], y);
      }
    }
    forall y | y in t.pos ensures y in t.mem {
      if y !in recs { PosInMem(s, y); }
    }
  }

  lemma RingElemFacts(recs: map<nat, TChunk>, ring: seq<nat>, bin: nat, size: nat, j: nat)
    requires LooseRing(recs, ring, bin, size) && j < |ring|
    ensures RingElem(recs, ring, bin, size, j) && ring[j] != 0
  {
  }

  lemma PosInMem(s: Bins, y: nat)
    requires s.Inv()
    ensures y in s.pos <==> y in s.mem
  {
    hide TreeIndex, BinWidth, BinPrefix, Shr, OnPath, Bins.Trees, Bins.RootsOk, Bins.SizesUnique, Bins.Rings;
  }

  lemma RingShape(s: Bins, r: Pos)
    requires s.Inv() && r in s.at
    ensures |s.at[r]| > 0 && Distinct(s.at[r])
  {
    hide TreeIndex, BinWidth, BinPrefix, Shr, OnPath, Bins.Trees, Bins.RootsOk, Bins.SizesUnique, Bins.AllPlaced;
    hide Distinct;
  }

  lemma ReplaceElemHere(s: Bins, p: Pos, ring: seq<nat>, recs: map<nat, TChunk>, size: nat, j: nat)
    requires CanReplace(s, p, ring, recs, size) && ring[0] in recs && j < |ring|
    ensures Replace(s, p, ring, recs).ElemOk(p, j)
  {
    hide TreeIndex, BinWidth, BinPrefix, Shr, OnPath, Bins.Inv;
    RingElemFacts(recs, ring, p.bin, size, j);
    RingElemFacts(recs, ring, p.bin, size, 0);
  }

  lemma ReplaceElemElsewhere(s: Bins, p: Pos, ring: seq<nat>, recs: map<nat, TChunk>, size: nat, r: Pos, j: nat)
    requires CanReplace(s, p, ring, recs, size) && ring[0] in recs && r in s.at && r != p && j < |s.at[r]|
    ensures Replace(s, p, ring, recs).ElemOk(r, j)
  {
    hide TreeIndex, BinWidth, BinPrefix, Shr, OnPath, Bins.Inv, LooseRing;
    RingShape(s, r);
    ElemIn(s, r, j);
    ElemIn(s, r, 0);
    HeadNonNull(s, p);
    InRingIff(s, p, s.at[r][j]);
    InRingIff(s, p, s.at[r][0]);
    RingElemFactsNonEmpty(recs, ring, p.bin, size);
  }

  /** A head elsewhere keeps its size, and its tree links up to renaming. */
  lemma ReplaceHeads(s: Bins, p: Pos, ring: seq<nat>, recs: map<nat, TChunk>, size: nat, r: Pos)
    requires CanReplace(s, p, ring, recs, size) && ring[0] in recs
    ensures var t := Replace(s, p, ring, recs);
            && t.Head(r) == (if r == p then ring[0] else s.Head(r))
            && (r in s.at && r != p ==>
                  s.Head(r) in s.mem && t.Rec(t.Head(r)) == Renamed(s.Rec(s.Head(r)), s.Head(p), ring[0]))
  {
    hide TreeIndex, BinWidth, BinPrefix, Shr, OnPath, Bins.Inv, LooseRing;
    if r in s.at && r != p {
      HeadNonNull(s, r);
      InRingIff(s, p, s.Head(r));
    }
    assert |ring| > 0 by { RingElemFactsNonEmpty(recs, ring, p.bin, size); }
  }

  lemma RingElemFactsNonEmpty(recs: map<nat, TChunk>, ring: seq<nat>, bin: nat, size: nat)
    requires LooseRing(recs, ring, bin, size)
    ensures |ring| > 0 && RingElem(recs, ring, bin, size, 0) && recs.Keys == Elems(ring)
  {
  }

  lemma ReplacePlace(s: Bins, p: Pos, ring: seq<nat>, recs: map<nat, TChunk>, size: nat, r: Pos)
    requires CanReplace(s, p, ring, recs, size) && ring[0] in recs && r in s.at
    ensures var t := Replace(s, p, ring, recs); t.OnItsPath(r) && t.ParentOk(r) && t.KidOk(r, 0) && t.KidOk(r, 1)
  {
    hide TreeIndex, BinWidth, BinPrefix, Shr, OnPath, Bins.Inv, LooseRing;
    HeadNonNull(s, r);
    HeadNonNull(s, p);
    ReplaceHeads(s, p, ring, recs, size, r);
    ReplaceHeads(s, p, ring, recs, size, Over(r));
    RingElemFactsNonEmpty(recs, ring, p.bin, size);
    if Over(r) in s.at { HeadNonNull(s, Over(r)); }
    ReplaceKid(s, p, ring, recs, size, r, 0);
    ReplaceKid(s, p, ring, recs, size, r, 1);
  }

  lemma ReplaceKid(s: Bins, p: Pos, ring: seq<nat>, recs: map<nat, TChunk>, size: nat, r: Pos, b: nat)
    requires CanReplace(s, p, ring, recs, size) && ring[0] in recs && r in s.at && b < 2
    ensures Replace(s, p, ring, recs).KidOk(r, b)
  {
    hide TreeIndex, BinWidth, BinPrefix, Shr, OnPath, Bins.Inv, LooseRing, Bins.OnItsPath, Bins.ParentOk;
    HeadNonNull(s, r);
    HeadNonNull(s, p);
    ReplaceHeads(s, p, ring, recs, size, r);
    RingElemFactsNonEmpty(recs, ring, p.bin, size);
    assert b == 0 || b == 1;
    if r.w > 0 {
      HeadNonNull(s, Half(r, b));
      ReplaceHeads(s, p, ring, recs, size, Half(r, b));
    }
  }

  lemma ReplaceRoots(s: Bins, p: Pos, ring: seq<nat>, recs: map<nat, TChunk>, size: nat)
    requires CanReplace(s, p, ring, recs, size) && ring[0] in recs
    ensures Replace(s, p, ring, recs).RootsOk()
  {
    hide TreeIndex, BinPrefix, BinWidth, Shr, OnPath, LooseRing, Bins.Inv, Bins.RootsOk;
    RingElemFactsNonEmpty(recs, ring, p.bin, size);
    RootPositions(s, p);
    var t := Replace(s, p, ring, recs);
    forall i | 0 <= i < NTREEBINS ensures t.Head(Root(i)) == if Root(i) == p then ring[0] else s.Head(Root(i)) { }
    HeadNonNull(s, p);
    ReplaceRootsFrom(s, t, p, ring[0]);
  }

  /** Roots stand at the full width of their bin, and only they do. */
  lemma RootPositions(s: Bins, p: Pos)
    requires s.Inv() && p in s.at
    ensures p.bin < NTREEBINS && |s.roots| == NTREEBINS
    ensures p.w == BinWidth(p.bin) <==> p == Root(p.bin)
  {
    HeadNonNull(s, p);
    IndexPrefix(s.SizeAt(p));
  }

  lemma ReplaceRootsFrom(s: Bins, t: Bins, p: Pos, r: nat)
    requires s.Inv() && p in s.at && r != 0 && p.bin < NTREEBINS == |s.roots|
    requires t.marked == s.marked
    requires t.roots == if p == Root(p.bin) then s.roots[p.bin := r] else s.roots
    requires forall i | 0 <= i < NTREEBINS :: t.Head(Root(i)) == if Root(i) == p then r else s.Head(Root(i))
    ensures t.RootsOk()
  {
    HeadNonNull(s, p);
    hide TreeIndex, BinPrefix, BinWidth, Shr, OnPath, Bins.Rings, Bins.AllPlaced, Bins.Trees, Bins.SizesUnique;
    hide Bins.Head;
  }

  lemma ReplaceSizes(s: Bins, p: Pos, ring: seq<nat>, recs: map<nat, TChunk>, size: nat)
    requires CanReplace(s, p, ring, recs, size) && ring[0] in recs
    ensures Replace(s, p, ring, recs).SizesUnique()
  {
    hide TreeIndex, BinWidth, BinPrefix, Shr, OnPath, Bins.Rings, Bins.AllPlaced, Bins.Trees, Bins.RootsOk, LooseRing;
    RingElemFactsNonEmpty(recs, ring, p.bin, size);
    var t := Replace(s, p, ring, recs);
    forall r | r in s.at ensures t.SizeAt(r) == if r == p then size else s.SizeAt(r) {
      ReplaceHeads(s, p, ring, recs, size, r);
      RingElemFactsNonEmpty(recs, ring, p.bin, size);
    }
  }
}
