/** Taking a chunk out of its ring, or out of its tree with a leaf put in its place. */
module BinUnlink {
  import opened Queues
  import opened SizeBits
  import opened LargeBins

  /** A ring without its element j; when the first one goes, the last one comes first. */
  function DropAt(q: seq<nat>, j: nat): seq<nat>
    requires j < |q|
  {
    if j == 0 then (if |q| == 1 then [] else [q[|q| - 1]] + q[1..|q| - 1]) else q[..j] + q[j + 1..]
  }

  lemma DropAtElems(q: seq<nat>, j: nat)
    requires j < |q| && Distinct(q)
    ensures Elems(DropAt(q, j)) == Elems(q) - {q[j]} && Distinct(DropAt(q, j))
  {
    var r := DropAt(q, j);
    forall y ensures y in r <==> y in q && y != q[j] {
      if y in q && y != q[j] {
        var i :| 0 <= i < |q| && q[i] == y;
        if j == 0 {
          if i == |q| - 1 { assert r[0] == y; } else { assert r[i] == y; }
        } else if i < j { assert r[i] == y; } else { assert r[i - 1] == y; }
      }
    }
  }

  /** The records of the chunks at place p. */
  ghost function RingRecs(s: Bins, p: Pos): map<nat, TChunk>
    requires p in s.at
  {
    map y | y in Elems(s.at[p]) && y in s.mem :: s.mem[y]
  }

  lemma WholeRing(s: Bins, p: Pos)
    requires s.Inv() && p in s.at
    ensures LooseRing(RingRecs(s, p), s.at[p], p.bin, s.SizeAt(p))
  {
    hide TreeIndex, BinWidth, BinPrefix, Shr, OnPath, Bins.Inv, Bins.ElemOk, Distinct, RingElem;
    RingShape(s, p);
    forall j | 0 <= j < |s.at[p]|
      ensures s.at[p][j] in s.mem && RingElem(RingRecs(s, p), s.at[p], p.bin, s.SizeAt(p), j)
    {
      ElemIn(s, p, j);
      WholeRingElem(s, p, j);
    }
  }

  lemma WholeRingElem(s: Bins, p: Pos, j: nat)
    requires s.Inv() && p in s.at && j < |s.at[p]| && s.ElemOk(p, j)
    ensures RingElem(RingRecs(s, p), s.at[p], p.bin, s.SizeAt(p), j)
  {
    hide TreeIndex, BinWidth, BinPrefix, Shr, OnPath, Bins.Inv;
    InRingIff(s, p, s.at[p][j]);
  }

  /** `F->bk = R; R->fd = F` */
  function Bridge(recs: map<nat, TChunk>, f: nat, r: nat): map<nat, TChunk>
    requires f in recs && r in recs
  {
    var m := recs[f := recs[f].(bk := r)];
    m[r := m[r].(fd := f)]
  }

  /** Bridging the gap closes the ring again. */
  lemma BridgedRing(recs: map<nat, TChunk>, q: seq<nat>, bin: nat, size: nat, j: nat)
    requires LooseRing(recs, q, bin, size) && j < |q| && |q| > 1
    ensures q[j] in recs && recs[q[j]].fd in recs && recs[q[j]].bk in recs
    ensures LooseRing(Bridge(recs, recs[q[j]].fd, recs[q[j]].bk) - {q[j]}, DropAt(q, j), bin, size)
    ensures recs[q[j]].fd != q[j] && recs[q[j]].bk != q[j]
    ensures |DropAt(q, j)| > 0 && (j == 0 ==> DropAt(q, j)[0] == recs[q[j]].bk)
  {
    hide Bins.Inv;
    assert RingElem(recs, q, bin, size, j);
    var f, r := recs[q[j]].fd, recs[q[j]].bk;
    assert RingElem(recs, q, bin, size, NextIx(j, |q|)) && RingElem(recs, q, bin, size, PrevIx(j, |q|));
    var n := DropAt(q, j);
    DropAtElems(q, j);
    var m := Bridge(recs, f, r) - {q[j]};
    forall i | 0 <= i < |n| ensures RingElem(m, n, bin, size, i) {
      BridgedElem(recs, q, bin, size, j, i);
    }
  }

  lemma BridgedElem(recs: map<nat, TChunk>, q: seq<nat>, bin: nat, size: nat, j: nat, i: nat)
    requires LooseRing(recs, q, bin, size) && j < |q| && |q| > 1 && i < |DropAt(q, j)|
    requires q[j] in recs && recs[q[j]].fd in recs && recs[q[j]].bk in recs
    ensures RingElem(Bridge(recs, recs[q[j]].fd, recs[q[j]].bk) - {q[j]}, DropAt(q, j), bin, size, i)
  {
    hide LooseRing, Bridge, Distinct, NextIx, PrevIx, DropAt;
    var n := |q|;
    var k := SourceIx(n, j, i);
    RingNeighbours(q, j, i);
    Neighbours(n, j);
    Neighbours(n, k);
    LooseRingElem(recs, q, bin, size, j);
    LooseRingElem(recs, q, bin, size, k);
    LooseDistinct(recs, q, bin, size, k, NextIx(j, n));
    LooseDistinct(recs, q, bin, size, k, PrevIx(j, n));
    LooseDistinct(recs, q, bin, size, k, j);
    BridgedRec(recs, recs[q[j]].fd, recs[q[j]].bk, q[k]);
  }

  lemma LooseRingElem(recs: map<nat, TChunk>, q: seq<nat>, bin: nat, size: nat, j: nat)
    requires LooseRing(recs, q, bin, size) && j < |q|
    ensures RingElem(recs, q, bin, size, j)
  {
  }

  lemma LooseDistinct(recs: map<nat, TChunk>, q: seq<nat>, bin: nat, size: nat, i: nat, j: nat)
    requires LooseRing(recs, q, bin, size) && i < |q| && j < |q|
    ensures q[i] == q[j] <==> i == j
  {
  }

  lemma BridgedRec(recs: map<nat, TChunk>, f: nat, r: nat, y: nat)
    requires f in recs && r in recs && y in recs
    ensures y in Bridge(recs, f, r)
    ensures Bridge(recs, f, r)[y] ==
              recs[y].(fd := if y == r then f else recs[y].fd, bk := if y == f then r else recs[y].bk)
  {
  }

  /** The index in q of element i of DropAt(q, j). */
  function SourceIx(n: nat, j: nat, i: nat): nat
    requires n > 0
  {
    if j == 0 then (if i == 0 then n - 1 else i) else if i < j then i else i + 1
  }

  lemma Neighbours(n: nat, j: nat)
    requires j < n
    ensures NextIx(j, n) < n && 0 <= PrevIx(j, n) < n
    ensures forall k: nat | k < n :: NextIx(k, n) == j <==> k == PrevIx(j, n)
    ensures forall k: nat | k < n :: PrevIx(k, n) == j <==> k == NextIx(j, n)
  {
  }

  /** Neighbours in a ring without element j. */
  lemma RingNeighbours(q: seq<nat>, j: nat, i: nat)
    requires j < |q| && |q| > 1 && i < |DropAt(q, j)|
    ensures var n := DropAt(q, j); var k := SourceIx(|q|, j, i);
            && k < |q| && k != j && n[i] == q[k] && NextIx(i, |n|) < |n| && 0 <= PrevIx(i, |n|) < |n|
            && NextIx(k, |q|) < |q| && 0 <= PrevIx(k, |q|) < |q|
            && NextIx(j, |q|) < |q| && 0 <= PrevIx(j, |q|) < |q|
            && n[NextIx(i, |n|)] == (if NextIx(k, |q|) == j then q[NextIx(j, |q|)] else q[NextIx(k, |q|)])
            && n[PrevIx(i, |n|)] == (if PrevIx(k, |q|) == j then q[PrevIx(j, |q|)] else q[PrevIx(k, |q|)])
            && (i > 0 && j > 0 ==> k > 0) && (i > 0 && j == 0 ==> k > 0)
  {
    hide DropAt;
    DropAtIndex(q, j, i);
    DropAtIndex(q, j, NextIx(i, |q| - 1));
    DropAtIndex(q, j, PrevIx(i, |q| - 1));
  }

  lemma DropAtIndex(q: seq<nat>, j: nat, i: nat)
    requires j < |q| && |q| > 1
    ensures |DropAt(q, j)| == |q| - 1
    ensures i < |q| - 1 ==> SourceIx(|q|, j, i) < |q| && DropAt(q, j)[i] == q[SourceIx(|q|, j, i)]
  {
  }

  lemma IndexInRing(s: Bins, x: nat) returns (j: nat)
    requires s.Inv() && x in s.mem
    ensures x in s.pos && s.pos[x] in s.at && j < |s.at[s.pos[x]]| && s.at[s.pos[x]][j] == x
    ensures s.ElemOk(s.pos[x], j) && x != 0
  {
    hide TreeIndex, BinWidth, BinPrefix, Shr, OnPath, Bins.Inv, Bins.ElemOk;
    InRingSelf(s, x);
    j :| 0 <= j < |s.at[s.pos[x]]| && s.at[s.pos[x]][j] == x;
    ElemIn(s, s.pos[x], j);
  }

  lemma InRingSelf(s: Bins, x: nat)
    requires s.Inv() && x in s.mem
    ensures x in s.pos && s.pos[x] in s.at && x in s.at[s.pos[x]] && x != 0
  {
    hide TreeIndex, BinWidth, BinPrefix, Shr, OnPath, Bins.Trees, Bins.Rings, Bins.RootsOk, Bins.SizesUnique;
  }

  /** The bins after the chained chunk x has been bridged over. */
  ghost function CutFromRing(s: Bins, x: nat, j: nat): Bins
    requires x in s.mem && x in s.pos && s.pos[x] in s.at && j < |s.at[s.pos[x]]|
    requires s.mem[x].fd in RingRecs(s, s.pos[x]) && s.mem[x].bk in RingRecs(s, s.pos[x])
    requires |DropAt(s.at[s.pos[x]], j)| > 0
    requires DropAt(s.at[s.pos[x]], j)[0] in Bridge(RingRecs(s, s.pos[x]), s.mem[x].fd, s.mem[x].bk) - {x}
  {
    Replace(s, s.pos[x], DropAt(s.at[s.pos[x]], j),
            Bridge(RingRecs(s, s.pos[x]), s.mem[x].fd, s.mem[x].bk) - {x})
  }

  lemma CutKeeps(s: Bins, x: nat, j: nat)
    requires s.Inv() && x in s.mem && s.mem[x].bk != x
    requires x in s.pos && s.pos[x] in s.at && j < |s.at[s.pos[x]]| && s.at[s.pos[x]][j] == x
    ensures s.mem[x].fd in RingRecs(s, s.pos[x]) && s.mem[x].bk in RingRecs(s, s.pos[x])
    ensures |DropAt(s.at[s.pos[x]], j)| > 0
    ensures DropAt(s.at[s.pos[x]], j)[0] in Bridge(RingRecs(s, s.pos[x]), s.mem[x].fd, s.mem[x].bk) - {x}
    ensures CutFromRing(s, x, j).Inv()
    ensures DropAt(s.at[s.pos[x]], j)[0] == if x == s.Head(s.pos[x]) then s.mem[x].bk else s.Head(s.pos[x])
    ensures x == s.Head(s.pos[x]) <==> j == 0
    ensures s.mem[x].fd != x
    ensures LooseRing(Bridge(RingRecs(s, s.pos[x]), s.mem[x].fd, s.mem[x].bk) - {x}, DropAt(s.at[s.pos[x]], j),
                      s.pos[x].bin, s.SizeAt(s.pos[x]))
  {
    hide TreeIndex, BinWidth, BinPrefix, Shr, OnPath, Bins.Inv, LooseRing, Bridge, RingElem;
    var p := s.pos[x];
    var recs := RingRecs(s, p);
    WholeRing(s, p);
    ElemIn(s, p, j);
    RingShape(s, p);
    assert |s.at[p]| > 1;
    BridgedRing(recs, s.at[p], p.bin, s.SizeAt(p), j);
    var n := DropAt(s.at[p], j);
    var m := Bridge(recs, s.mem[x].fd, s.mem[x].bk) - {x};
    HeadNonNull(s, p);
    forall r | r in s.at && r != p ensures s.SizeAt(r) != s.SizeAt(p) { DifferentSizes(s, r, p); }
    BridgeKeys(recs, s.mem[x].fd, s.mem[x].bk);
    assert CanReplace(s, p, n, m, s.SizeAt(p));
    LooseHead(m, n, p.bin, s.SizeAt(p));
    ReplaceKeeps(s, p, n, m, s.SizeAt(p));
  }

  lemma LooseHead(recs: map<nat, TChunk>, q: seq<nat>, bin: nat, size: nat)
    requires LooseRing(recs, q, bin, size)
    ensures |q| > 0 && q[0] in recs
  {
    assert RingElem(recs, q, bin, size, 0);
  }

  lemma BridgeKeys(recs: map<nat, TChunk>, f: nat, r: nat)
    requires f in recs && r in recs
    ensures Bridge(recs, f, r).Keys == recs.Keys
  {
  }

  lemma DifferentSizes(s: Bins, r: Pos, p: Pos)
    requires s.Inv() && r in s.at && p in s.at && r != p
    ensures s.SizeAt(r) != s.SizeAt(p)
  {
    hide TreeIndex, BinWidth, BinPrefix, Shr, OnPath, Bins.Trees, Bins.Rings, Bins.RootsOk, Bins.AllPlaced;
  }

  /** q lies below p. */
  ghost predicate Below(s: Bins, q: Pos, p: Pos) {
    q in s.at && q.w < p.w && p == OnPath(s.SizeAt(q), p.w)
  }

  /** The kids of a place below p, or of p, lie below p. */
  lemma KidBelow(s: Bins, q: Pos, p: Pos, b: nat)
    requires s.Inv() && p in s.at && (q == p || Below(s, q, p)) && b < 2 && q.w > 0 && Half(q, b) in s.at
    ensures Below(s, Half(q, b), p)
  {
    hide TreeIndex, BinWidth, BinPrefix, Bins.Inv;
    var k := Half(q, b);
    HeadNonNull(s, k);
    PathStep(s.SizeAt(k), q.w);
    assert Over(k) == q;
    if q != p {
      HeadNonNull(s, q);
      ShrAdds(s.SizeAt(k), q.w, p.w - q.w);
      ShrAdds(s.SizeAt(q), q.w, p.w - q.w);
    }
  }

  /** The bins after the lone chunk at p was replaced by the leaf ring at q. */
  ghost function LeafInPlace(s: Bins, p: Pos, q: Pos): Bins
    requires p in s.at && q in s.at && p != q && |s.at[q]| > 0 && s.at[q][0] in s.mem
  {
    Replace(DropLeaf(s, q), p, s.at[q], RingRecs(s, q))
  }

  lemma LeafInPlaceKeeps(s: Bins, p: Pos, q: Pos)
    requires s.Inv() && p in s.at && Below(s, q, p)
    requires q.w > 0 ==> s.Head(Half(q, 0)) == 0 && s.Head(Half(q, 1)) == 0
    ensures |s.at[q]| > 0 && s.at[q][0] in s.mem && LeafInPlace(s, p, q).Inv()
    ensures CanReplace(DropLeaf(s, q), p, s.at[q], RingRecs(s, q), s.SizeAt(q))
  {
    hide TreeIndex, BinWidth, BinPrefix, Shr, Bins.Inv, LooseRing, RingElem;
    var d := DropLeaf(s, q);
    DropLeafKeeps(s, q);
    HeadNonNull(s, q);
    WholeRing(s, q);
    RingShape(s, q);
    forall r | r in d.at && r != p ensures d.SizeAt(r) != s.SizeAt(q) {
      DropLeafElsewhere(s, q, r);
      DifferentSizes(s, r, q);
    }
    forall y | y in d.mem ensures y !in RingRecs(s, q) { }
    assert CanReplace(d, p, s.at[q], RingRecs(s, q), s.SizeAt(q));
    ReplaceKeeps(d, p, s.at[q], RingRecs(s, q), s.SizeAt(q));
  }

  // ---- The tail of unlink_large_chunk ----

  /** Who names the head of a place: its parent and its kids, nobody else. */
  lemma NamedByNeighbours(s: Bins, p: Pos, y: nat)
    requires s.Inv() && p in s.at && y in s.mem
    ensures var x := s.Head(p);
            && (s.mem[y].parent == ParentAt(x) ==> y == Kid(s.Rec(x), 0) || y == Kid(s.Rec(x), 1))
            && (s.mem[y].child0 == x || s.mem[y].child1 == x ==>
                  s.Rec(x).parent == ParentAt(y) && s.mem[y].child0 != s.mem[y].child1)
  {
    hide TreeIndex, BinWidth, BinPrefix, Shr, OnPath, Bins.Inv;
    var x := s.Head(p);
    HeadNonNull(s, p);
    var j := IndexInRing(s, y);
    var r := s.pos[y];
    HeadNonNull(s, r);
    RingShape(s, r);
    if s.mem[y].parent == ParentAt(x) {
      assert y == s.Head(r) && Over(r) in s.at && s.Head(Over(r)) == x;
      HeadNonNull(s, Over(r));
      assert Over(r) == p;
      assert r == Half(p, r.q % 2);
    }
    if s.mem[y].child0 == x || s.mem[y].child1 == x {
      assert y == s.Head(r) && r.w > 0;
      HeadNonNull(s, Half(r, 0));
      HeadNonNull(s, Half(r, 1));
      assert Over(p) == r;
      assert p.w < BinWidth(p.bin) by { KidNarrow(s, r, p); }
    }
  }

  lemma KidNarrow(s: Bins, r: Pos, p: Pos)
    requires s.Inv() && r in s.at && r == Over(p)
    ensures p.w < BinWidth(p.bin)
  {
    HeadNonNull(s, r);
  }

  /** The records after the tree links of x went to r: the parent's link, then r's own links
      and the parent fields of its kids. */
  function RelinkMem(m: map<nat, TChunk>, x: nat, r: nat): map<nat, TChunk>
    requires x in m
  {
    var up := m[x].parent;
    var m1 := if up.ParentAt? && up.p in m
              then m[up.p := SetKid(m[up.p], if m[up.p].child0 == x then 0 else 1, r)] else m;
    if r == 0 || r !in m1 then m1
    else
      var m2 := Adopt(m1[r := m1[r].(parent := up)], r, 0, m1[x].child0);
      Adopt(m2, r, 1, m2[x].child1)
  }

  /** r takes the kid c on side b. */
  function Adopt(m: map<nat, TChunk>, r: nat, b: nat, c: nat): (n: map<nat, TChunk>)
    requires r in m
    ensures n.Keys == m.Keys && forall y | y in m :: n[y].size == m[y].size
  {
    if c == 0 || c !in m then m
    else
      var n := m[r := SetKid(m[r], b, c)];
      n[c := n[c].(parent := ParentAt(r))]
  }

  /** Memory m agrees with the bins s outside the ring of p, and holds x and r. */
  ghost predicate Around(s: Bins, p: Pos, m: map<nat, TChunk>, r: nat) {
    && s.Inv() && p in s.at && s.Head(p) in m && r != s.Head(p)
    && (forall y | y in s.mem && y !in Elems(s.at[p]) :: y in m && m[y] == s.mem[y] && y != r)
    && m[s.Head(p)].parent == s.Rec(s.Head(p)).parent
    && m[s.Head(p)].child0 == s.Rec(s.Head(p)).child0
    && m[s.Head(p)].child1 == s.Rec(s.Head(p)).child1
  }

  /** The parent and the kids of p are heads of other places. */
  lemma Neighbourhood(s: Bins, p: Pos)
    requires s.Inv() && p in s.at
    ensures var x := s.Head(p);
            && x in s.mem && x != 0
            && (s.Rec(x).parent.ParentAt? ==> s.Rec(x).parent.p in s.mem && s.Rec(x).parent.p !in Elems(s.at[p]))
            && (s.Rec(x).child0 != 0 ==> s.Rec(x).child0 in s.mem && s.Rec(x).child0 !in Elems(s.at[p]))
            && (s.Rec(x).child1 != 0 ==> s.Rec(x).child1 in s.mem && s.Rec(x).child1 !in Elems(s.at[p]))
            && (s.Rec(x).child0 != 0 ==> s.Rec(x).child0 != s.Rec(x).child1)
            && (s.Rec(x).parent.ParentAt? ==>
                  && s.Rec(x).parent.p != s.Rec(x).child0 && s.Rec(x).parent.p != s.Rec(x).child1
                  && Kid(s.Rec(s.Rec(x).parent.p), p.q % 2) == x
                  && Kid(s.Rec(s.Rec(x).parent.p), 1 - p.q % 2) != x)
            && (s.Rec(x).child0 != 0 ==> s.Rec(s.Rec(x).child0).parent == ParentAt(x))
            && (s.Rec(x).child1 != 0 ==> s.Rec(s.Rec(x).child1).parent == ParentAt(x))
  {
    hide TreeIndex, BinPrefix, Shr, OnPath, Bins.Inv;
    HeadNonNull(s, p);
    if p.w > 0 {
      KidPlace(s, p, 0);
      KidPlace(s, p, 1);
    }
    if p.w != BinWidth(p.bin) {
      var u := Over(p);
      HeadNonNull(s, u);
      InRingIff(s, p, s.Head(u));
      assert Half(u, p.q % 2) == p;
      HeadNonNull(s, Half(u, 1 - p.q % 2));
    }
  }

  lemma KidPlace(s: Bins, p: Pos, b: nat)
    requires s.Inv() && p in s.at && p.w > 0 && b < 2
    ensures var k := s.Head(Half(p, b));
            k != 0 ==>
              && k in s.mem && k !in Elems(s.at[p]) && s.Rec(k).parent == ParentAt(s.Head(p))
              && s.pos[k] == Half(p, b)
  {
    hide TreeIndex, BinPrefix, BinWidth, Shr, OnPath, Bins.Inv;
    var h := Half(p, b);
    HeadNonNull(s, h);
    assert Over(h) == p;
    if h in s.at {
      InRingIff(s, p, s.Head(h));
      KidNarrow(s, p, h);
    }
  }

  /** Relinking renames x to r outside its ring and hands r the links of x. */
  lemma RelinkIsRenaming(s: Bins, p: Pos, m: map<nat, TChunk>, r: nat)
    requires Around(s, p, m, r) && r != 0 && r in m && m[r].child0 == 0 && m[r].child1 == 0
    ensures var x := s.Head(p); var n := RelinkMem(m, x, r); var c := s.Rec(x);
            && n.Keys == m.Keys
            && (forall y | y in s.mem && y !in Elems(s.at[p]) :: n[y] == Renamed(s.mem[y], x, r))
            && n[r] == m[r].(parent := c.parent, child0 := c.child0, child1 := c.child1)
            && (forall y | y in m && y != r && !(y in s.mem && y !in Elems(s.at[p])) :: n[y] == m[y])
  {
    hide TreeIndex, BinPrefix, BinWidth, Shr, OnPath, Bins.Inv;
    var x := s.Head(p);
    var n := RelinkMem(m, x, r);
    Neighbourhood(s, p);
    assert x in Elems(s.at[p]) by { InRingIff(s, p, x); HeadNonNull(s, p); }
    forall y | y in s.mem && y !in Elems(s.at[p]) ensures y in n && n[y] == Renamed(s.mem[y], x, r) {
      RelinkOne(s, p, m, r, y);
    }
  }

  lemma RelinkOne(s: Bins, p: Pos, m: map<nat, TChunk>, r: nat, y: nat)
    requires Around(s, p, m, r) && r != 0 && r in m && y in s.mem && y !in Elems(s.at[p])
    ensures y in RelinkMem(m, s.Head(p), r)
    ensures RelinkMem(m, s.Head(p), r)[y] == Renamed(s.mem[y], s.Head(p), r)
  {
    hide TreeIndex, BinPrefix, BinWidth, Shr, OnPath, Bins.Inv;
    var x := s.Head(p);
    var c := s.Rec(x);
    Neighbourhood(s, p);
    NamedByNeighbours(s, p, y);
    assert y != r && y != 0 by { InRingIff(s, p, y); }
    assert x in Elems(s.at[p]) by { InRingIff(s, p, x); HeadNonNull(s, p); }
    if c.parent == ParentAt(y) {
      assert s.mem[y].parent != ParentAt(x);
      assert p.q % 2 == 0 || p.q % 2 == 1;
    } else if y == c.child0 || y == c.child1 {
      assert s.mem[y].child0 != x && s.mem[y].child1 != x;
    } else {
      assert Renamed(s.mem[y], x, r) == s.mem[y];
    }
  }

  /** DropAt a successor only the parent's link goes. */
  lemma RelinkToNone(s: Bins, p: Pos, m: map<nat, TChunk>)
    requires Around(s, p, m, 0) && m == s.mem
    ensures var x := s.Head(p); var up := s.Rec(x).parent;
            RelinkMem(m, x, 0) ==
              if up.ParentAt? && up.p in m then m[up.p := SetKid(m[up.p], p.q % 2, 0)] else m
  {
    hide TreeIndex, BinPrefix, BinWidth, Shr, OnPath, Bins.Inv;
    Neighbourhood(s, p);
  }

  /** The place p is the root of its bin exactly when the bin's slot names its head. */
  lemma RootIff(s: Bins, p: Pos)
    requires s.Inv() && p in s.at
    ensures |s.roots| == NTREEBINS && p.bin < NTREEBINS && s.Head(p) in s.mem && s.mem[s.Head(p)].index == p.bin
    ensures s.roots[p.bin] == s.Head(p) <==> p.w == BinWidth(p.bin)
    ensures p.w == BinWidth(p.bin) <==> s.mem[s.Head(p)].parent.BinSlot?
    ensures p.w == BinWidth(p.bin) || s.mem[s.Head(p)].parent.ParentAt?
  {
    hide TreeIndex, BinWidth, BinPrefix, Shr, OnPath, Bins.Rings, Bins.AllPlaced, Bins.Trees, Bins.SizesUnique;
    hide Bins.ElemOk;
    HeadNonNull(s, p);
    RootPositions(s, p);
    HeadNonNull(s, Root(p.bin));
    HeadIndex(s, p);
  }

  lemma HeadIndex(s: Bins, p: Pos)
    requires s.Inv() && p in s.at
    ensures s.Head(p) in s.mem && s.mem[s.Head(p)].index == p.bin
  {
    hide TreeIndex, BinWidth, BinPrefix, Shr, OnPath, Bins.Inv;
    RingShape(s, p);
    ElemIn(s, p, 0);
  }

  /** A chunk behind the head of its ring has no tree links. */
  lemma PlainElem(s: Bins, p: Pos, j: nat)
    requires s.Inv() && p in s.at && 0 < j < |s.at[p]|
    ensures s.at[p][j] in s.mem && s.mem[s.at[p][j]].parent == NoParent
    ensures s.mem[s.at[p][j]].child0 == 0 && s.mem[s.at[p][j]].child1 == 0
  {
    hide TreeIndex, BinWidth, BinPrefix, Shr, OnPath, Bins.Inv;
    ElemIn(s, p, j);
  }

  /** The memory that the statements for a chained chunk leave. */
  lemma CutMemory(s: Bins, x: nat, j: nat)
    requires s.Inv() && x in s.mem && s.mem[x].bk != x
    requires x in s.pos && s.pos[x] in s.at && j < |s.at[s.pos[x]]| && s.at[s.pos[x]][j] == x
    requires s.mem[x].fd in RingRecs(s, s.pos[x]) && s.mem[x].bk in RingRecs(s, s.pos[x])
    requires |DropAt(s.at[s.pos[x]], j)| > 0
    requires DropAt(s.at[s.pos[x]], j)[0] in Bridge(RingRecs(s, s.pos[x]), s.mem[x].fd, s.mem[x].bk) - {x}
    ensures s.mem[x].fd in s.mem && s.mem[x].bk in s.mem && x in Bridge(s.mem, s.mem[x].fd, s.mem[x].bk)
    ensures var m := Bridge(s.mem, s.mem[x].fd, s.mem[x].bk);
            CutFromRing(s, x, j).mem == (if j == 0 then RelinkMem(m, x, s.mem[x].bk) else m) - {x}
  {
    hide TreeIndex, BinWidth, BinPrefix, Shr, OnPath, Bins.Inv, RelinkMem, LooseRing, DropAt, Bins.ElemOk, Bridge;
    var p := s.pos[x];
    var f, r := s.mem[x].fd, s.mem[x].bk;
    CutKeeps(s, x, j);
    BridgeKeys(s.mem, f, r);
    BridgeKeys(RingRecs(s, p), f, r);
    var m := Bridge(s.mem, f, r);
    var recs := Bridge(RingRecs(s, p), f, r) - {x};
    var t := CutFromRing(s, x, j);
    InRingIff(s, p, x);
    HeadNonNull(s, p);
    NoNull(s);
    forall y | y in s.mem
      ensures m[y] == if y in Elems(s.at[p]) then Bridge(RingRecs(s, p), f, r)[y] else s.mem[y]
    {
      BridgedRec(s.mem, f, r, y);
      if y in Elems(s.at[p]) { BridgedRec(RingRecs(s, p), f, r, y); }
    }
    if j == 0 {
      BridgedRec(s.mem, f, r, x);
      BridgedRec(s.mem, f, r, r);
      BkOfHead(s, p);
      RelinkIsRenaming(s, p, m, r);
      CutHeadMemory(s, p, m, r, recs, t.mem, RelinkMem(m, x, r));
    } else {
      BridgedRec(s.mem, f, r, s.Head(p));
      HeadStays(s, p, recs, m, x, j);
    }
  }

  lemma RingInMem(s: Bins, p: Pos)
    requires s.Inv() && p in s.at
    ensures Elems(s.at[p]) <= s.mem.Keys && RingRecs(s, p).Keys == Elems(s.at[p])
  {
    hide Bins.Inv, Bins.ElemOk;
    forall y | y in s.at[p] ensures y in s.mem {
      var j :| 0 <= j < |s.at[p]| && s.at[p][j] == y;
      ElemIn(s, p, j);
    }
  }

  lemma BkOfHead(s: Bins, p: Pos)
    requires s.Inv() && p in s.at && s.Head(p) in s.mem && s.mem[s.Head(p)].bk != s.Head(p)
    ensures s.mem[s.Head(p)].bk in s.mem
    ensures s.mem[s.mem[s.Head(p)].bk].child0 == 0 && s.mem[s.mem[s.Head(p)].bk].child1 == 0
  {
    hide TreeIndex, BinWidth, BinPrefix, Shr, OnPath, Bins.Inv;
    RingNext(s, p);
    PlainElem(s, p, |s.at[p]| - 1);
  }

  lemma CutHeadMemory(s: Bins, p: Pos, m: map<nat, TChunk>, r: nat, recs: map<nat, TChunk>, t: map<nat, TChunk>,
                      n: map<nat, TChunk>)
    requires p in s.at && s.Head(p) in Elems(s.at[p]) && r in recs && m.Keys == s.mem.Keys
    requires recs.Keys == Elems(s.at[p]) * s.mem.Keys - {s.Head(p)}
    requires forall y | y in recs :: m[y] == recs[y]
    requires var x := s.Head(p); var c := s.Rec(x);
             t == (map y | y in s.mem && y !in Elems(s.at[p]) :: Renamed(s.mem[y], x, r))
                  + recs[r := recs[r].(parent := c.parent, child0 := c.child0, child1 := c.child1)]
    requires var x := s.Head(p); var c := s.Rec(x);
            && n.Keys == m.Keys
            && (forall y | y in s.mem && y !in Elems(s.at[p]) :: n[y] == Renamed(s.mem[y], x, r))
            && n[r] == m[r].(parent := c.parent, child0 := c.child0, child1 := c.child1)
            && (forall y | y in m && y != r && !(y in s.mem && y !in Elems(s.at[p])) :: n[y] == m[y])
    ensures t == n - {s.Head(p)}
  {
    hide Bins.Inv;
  }

  lemma HeadStays(s: Bins, p: Pos, recs: map<nat, TChunk>, m: map<nat, TChunk>, x: nat, j: nat)
    requires s.Inv() && p in s.at && 0 < j < |s.at[p]| && s.at[p][j] == x && x in s.mem
    requires m.Keys == s.mem.Keys && recs.Keys == Elems(s.at[p]) * s.mem.Keys - {x}
    requires forall y | y in s.mem && y !in Elems(s.at[p]) :: m[y] == s.mem[y]
    requires forall y | y in recs :: m[y] == recs[y]
    requires |DropAt(s.at[p], j)| > 0 && DropAt(s.at[p], j)[0] == s.Head(p) && s.Head(p) in recs
    requires m[s.Head(p)].parent == s.mem[s.Head(p)].parent && m[s.Head(p)].child0 == s.mem[s.Head(p)].child0
             && m[s.Head(p)].child1 == s.mem[s.Head(p)].child1
    ensures Replace(s, p, DropAt(s.at[p], j), recs).mem == m - {x}
  {
    hide TreeIndex, BinWidth, BinPrefix, Shr, OnPath, Bins.Inv, DropAt;
    var h := s.Head(p);
    InRingMember(s, p, x, j);
    forall c: TChunk ensures Renamed(c, h, h) == c { }
  }

  lemma InRingMember(s: Bins, p: Pos, x: nat, j: nat)
    requires p in s.at && j < |s.at[p]| && s.at[p][j] == x
    ensures x in Elems(s.at[p])
  {
  }

  /** The memory that the statements for a leaf replacement leave. */
  lemma LeafMemory(s: Bins, p: Pos, q: Pos)
    requires s.Inv() && p in s.at && Below(s, q, p) && s.at[p] == [s.Head(p)]
    requires q.w > 0 ==> s.Head(Half(q, 0)) == 0 && s.Head(Half(q, 1)) == 0
    ensures |s.at[q]| > 0 && s.at[q][0] in s.mem
    ensures Over(q) in s.at && s.Head(Over(q)) in s.mem && s.Head(p) in s.mem
    ensures var m := s.mem[s.Head(Over(q)) := SetKid(s.mem[s.Head(Over(q))], q.q % 2, 0)];
            LeafInPlace(s, p, q).mem == RelinkMem(m, s.Head(p), s.Head(q)) - {s.Head(p)}
  {
    hide TreeIndex, BinWidth, BinPrefix, Shr, Bins.Inv, RelinkMem, LooseRing, Bins.ElemOk, DropLeaf, Around;
    LeafInPlaceKeeps(s, p, q);
    LeafAround(s, p, q);
    var o := s.Head(Over(q));
    var d := DropLeaf(s, q);
    var m := s.mem[o := SetKid(s.mem[o], q.q % 2, 0)];
    RingInMem(s, q);
    RelinkIsRenaming(d, p, m, s.Head(q));
    LeafMemoryFrom(s, d, p, q, m, RelinkMem(m, s.Head(p), s.Head(q)));
  }

  /** The leaf is cut off, and the chunk to go is as it was. */
  lemma LeafAround(s: Bins, p: Pos, q: Pos)
    requires s.Inv() && p in s.at && Below(s, q, p) && s.at[p] == [s.Head(p)]
    requires q.w > 0 ==> s.Head(Half(q, 0)) == 0 && s.Head(Half(q, 1)) == 0
    ensures q in s.at && Over(q) in s.at && s.Head(Over(q)) in s.mem && s.Head(p) in s.mem && s.Head(q) in s.mem
    ensures var o := s.Head(Over(q)); var d := DropLeaf(s, q); var m := s.mem[o := SetKid(s.mem[o], q.q % 2, 0)];
            && Around(d, p, m, s.Head(q)) && d.mem == m - Elems(s.at[q]) && m.Keys == s.mem.Keys
            && p in d.at && d.Head(p) == s.Head(p) && s.Head(p) in d.mem && s.Head(q) != 0
            && m[s.Head(q)].child0 == 0 && m[s.Head(q)].child1 == 0
            && forall y | y in Elems(s.at[q]) :: y in s.mem && m[y] == s.mem[y]
  {
    hide TreeIndex, BinWidth, BinPrefix, Shr, Bins.Inv, RelinkMem, LooseRing, Bins.ElemOk;
    HeadNonNull(s, q);
    HeadNonNull(s, p);
    NotRoot(s, q, p);
    var o := s.Head(Over(q));
    HeadNonNull(s, Over(q));
    var d := DropLeaf(s, q);
    DropLeafKeeps(s, q);
    DropLeafElsewhere(s, q, p);
    DropLeafElsewhere(s, q, Over(q));
    InRingIff(s, q, o);
    InRingIff(s, q, s.Head(p));
    InRingIff(s, q, s.Head(q));
    InRingIff(s, p, s.Head(q));
    LeafKids(s, q);
    RingInMem(s, q);
    assert d.mem == s.mem[o := SetKid(s.mem[o], q.q % 2, 0)] - Elems(s.at[q]);
  }

  lemma NotRoot(s: Bins, q: Pos, p: Pos)
    requires s.Inv() && p in s.at && Below(s, q, p)
    ensures q.w != BinWidth(q.bin) && Over(q) in s.at
  {
    HeadNonNull(s, p);
    HeadNonNull(s, q);
  }

  lemma LeafKids(s: Bins, q: Pos)
    requires s.Inv() && q in s.at && (q.w > 0 ==> s.Head(Half(q, 0)) == 0 && s.Head(Half(q, 1)) == 0)
    ensures s.Head(q) in s.mem && s.mem[s.Head(q)].child0 == 0 && s.mem[s.Head(q)].child1 == 0
  {
    hide TreeIndex, BinWidth, BinPrefix, Shr, OnPath, Bins.Inv;
    HeadNonNull(s, q);
  }

  lemma LeafMemoryFrom(s: Bins, d: Bins, p: Pos, q: Pos, m: map<nat, TChunk>, n: map<nat, TChunk>)
    requires p in s.at && q in s.at && p != q && d == DropLeaf(s, q) && |s.at[q]| > 0 && s.at[q][0] in s.mem
    requires s.at[p] == [s.Head(p)] && s.Head(p) in d.mem && d.Head(p) == s.Head(p) && p in d.at
    requires d.mem == m - Elems(s.at[q]) && m.Keys == s.mem.Keys && Elems(s.at[q]) <= s.mem.Keys
    requires forall y | y in Elems(s.at[q]) :: m[y] == s.mem[y]
    requires var x, r := s.Head(p), s.Head(q); var c := d.Rec(x);
            && n.Keys == m.Keys
            && (forall y | y in d.mem && y !in Elems(d.at[p]) :: n[y] == Renamed(d.mem[y], x, r))
            && n[r] == m[r].(parent := c.parent, child0 := c.child0, child1 := c.child1)
            && (forall y | y in m && y != r && !(y in d.mem && y !in Elems(d.at[p])) :: n[y] == m[y])
    ensures LeafInPlace(s, p, q).mem == n - {s.Head(p)}
  {
    hide Bins.Inv;
    assert d.at[p] == s.at[p];
    assert Elems(d.at[p]) == {s.Head(p)};
  }

  /** The memory when the last chunk of a place without kids goes. */
  lemma LoneMemory(s: Bins, p: Pos)
    requires s.Inv() && p in s.at && s.at[p] == [s.Head(p)]
    ensures s.Head(p) in s.mem
    ensures DropLeaf(s, p).mem == RelinkMem(s.mem, s.Head(p), 0) - {s.Head(p)}
  {
    hide TreeIndex, BinPrefix, Shr, OnPath, Bins.Inv, RelinkMem;
    HeadNonNull(s, p);
    RootIff(s, p);
    NoNull(s);
    assert Around(s, p, s.mem, 0);
    RelinkToNone(s, p, s.mem);
    Neighbourhood(s, p);
    assert Elems(s.at[p]) == {s.Head(p)};
    HeadNonNull(s, Over(p));
  }

  lemma NoNull(s: Bins)
    requires s.Inv()
    ensures 0 !in s.mem
  {
    hide TreeIndex, BinWidth, BinPrefix, Shr, OnPath, Bins.Trees, Bins.Rings, Bins.RootsOk, Bins.SizesUnique;
  }

  // ---- The ring that is left ----

  lemma CutLeaves(s: Bins, x: nat, j: nat)
    requires s.Inv() && x in s.mem && s.mem[x].bk != x
    requires x in s.pos && s.pos[x] in s.at && j < |s.at[s.pos[x]]| && s.at[s.pos[x]][j] == x
    ensures s.mem[x].fd in RingRecs(s, s.pos[x]) && s.mem[x].bk in RingRecs(s, s.pos[x])
    ensures |DropAt(s.at[s.pos[x]], j)| > 0
    ensures DropAt(s.at[s.pos[x]], j)[0] in Bridge(RingRecs(s, s.pos[x]), s.mem[x].fd, s.mem[x].bk) - {x}
    ensures LeavesRing(s, CutFromRing(s, x, j), x)
  {
    hide Bins.Inv, RingRecs, Bridge, TreeIndex, BinWidth, BinPrefix, LeftOut;
    CutKeeps(s, x, j);
    RingShape(s, s.pos[x]);
    DropLeavesOut(s.at[s.pos[x]], j);
  }

  lemma DropLeavesOut(q: seq<nat>, j: nat)
    requires j < |q| && Distinct(q)
    ensures j > 0 ==> LeftOut(q, DropAt(q, j), q[j]) && q[0] != q[j] && |q| > 1
  {
  }

  lemma DropLeafLeaves(s: Bins, p: Pos, x: nat)
    requires p in s.at && s.at[p] == [x] && x in s.pos && s.pos[x] == p && LastLeaf(s, p) == p
    ensures LeavesRing(s, DropLeaf(s, p), x)
  {
    hide BinWidth;
  }

  lemma LeafInPlaceLeaves(s: Bins, p: Pos, q: Pos, x: nat)
    requires p in s.at && s.at[p] == [x] && x in s.pos && s.pos[x] == p
    requires q in s.at && p != q && |s.at[q]| > 0 && s.at[q][0] in s.mem && LastLeaf(s, p) == q
    ensures LeavesRing(s, LeafInPlace(s, p, q), x)
  {
    hide BinWidth;
    assert LeafInPlace(s, p, q).at == (s.at - {q})[p := s.at[q]];
  }
}
