/** A slab cache as a value: slabs in three queues by how full they are, the free objects of each,
    and which objects callers hold. */
module SlabCache {
  import opened Powers
  import opened Queues
  import opened SlabLayout

  /** A slab, kept under the address of its page. objects lists the control records of its free
      objects; ctls, for the proof, those of all its objects by position. */
  datatype Slab = Slab(count: nat, objects: seq<nat>, ctls: seq<nat>)

  /** word is the memory before objects, ctlObj the object a control record stands for, slabOf
      the slab that a page belongs to. */
  datatype Cache = Cache(lay: Layout, payload: nat, record: nat, slabs: map<nat, Slab>,
                         partial: seq<nat>, full: seq<nat>, free: seq<nat>, slabCount: nat,
                         word: map<nat, nat>, ctlObj: map<nat, nat>, slabOf: map<nat, nat>, live: set<nat>)
  {
    ghost predicate SlabOk(s: nat) {
      s in slabs ==>
        var b := slabs[s];
        && s % PAGE_SIZE == 0 && |b.ctls| == lay.perSlab && b.count + |b.objects| == lay.perSlab
        && (forall i, j | 0 <= i < j < |b.ctls| :: b.ctls[i] != b.ctls[j])
        && (forall i, j | 0 <= i < j < |b.objects| :: b.objects[i] != b.objects[j])
        && (forall i | 0 <= i < |b.objects| :: b.objects[i] in b.ctls)
    }

    /** The control record of an object is found from the object: right before it, or through the
        word before it. */
    ghost predicate CtlOk(s: nat, i: nat) {
      s in slabs && i < |slabs[s].ctls| ==>
        var o, c := ObjAt(lay, s, i), slabs[s].ctls[i];
        if lay.onSlab then c == o - ADDR_BYTES
        else o - ADDR_BYTES in word && word[o - ADDR_BYTES] == c && c in ctlObj && ctlObj[c] == o
    }

    /** An object is held exactly when its control record is not in the list of free ones. */
    ghost predicate LiveOk(s: nat, i: nat) {
      s in slabs && i < |slabs[s].ctls| ==> (ObjAt(lay, s, i) in live <==> slabs[s].ctls[i] !in slabs[s].objects)
    }

    ghost predicate PlaceOk(s: nat) {
      && (s in partial <==> s in slabs && 0 < slabs[s].count < lay.perSlab)
      && (s in full <==> s in slabs && slabs[s].count == lay.perSlab)
      && (s in free <==> s in slabs && slabs[s].count == 0)
    }

    ghost predicate QueuesOk() {
      && (forall i, j | 0 <= i < j < |partial| :: partial[i] != partial[j])
      && (forall i, j | 0 <= i < j < |full| :: full[i] != full[j])
      && (forall i, j | 0 <= i < j < |free| :: free[i] != free[j])
      && slabCount == |slabs|
    }

    /** A page of a slab leads to the slab. */
    ghost predicate PageOk(p: nat) {
      && (p in slabOf ==> slabOf[p] in slabs && HasPage(lay, slabOf[p], p))
      && (forall s | s in slabs && HasPage(lay, s, p) :: p in slabOf && slabOf[p] == s)
    }

    ghost predicate OwnedOk(o: nat) {
      o in live ==> exists s, i {:trigger IsObject(s, i, o)} :: IsObject(s, i, o)
    }

    ghost predicate IsObject(s: nat, i: nat, o: nat) {
      s in slabs && i < lay.perSlab && o == ObjAt(lay, s, i)
    }

    ghost predicate Inv() {
      && Sound(lay, payload, record) && payload > 0
      && (forall s {:trigger SlabOk(s)} :: SlabOk(s))
      && (forall s, i {:trigger CtlOk(s, i)} :: CtlOk(s, i))
      && (forall s, i {:trigger LiveOk(s, i)} :: LiveOk(s, i))
      && (forall s {:trigger PlaceOk(s)} :: PlaceOk(s))
      && QueuesOk()
      && (forall p {:trigger PageOk(p)} :: PageOk(p))
      && (forall o {:trigger OwnedOk(o)} :: OwnedOk(o))
    }
  }

  /** p is a page number of the slab at s. */
  predicate HasPage(lay: Layout, s: nat, p: nat) {
    s / PAGE_SIZE <= p < s / PAGE_SIZE + Pow2(lay.order)
  }

  lemma AtSlab(c: Cache, s: nat)
    requires c.Inv()
    ensures Sound(c.lay, c.payload, c.record) && c.payload > 0 && c.SlabOk(s) && c.PlaceOk(s) && c.QueuesOk()
  {
  }

  lemma AtObject(c: Cache, s: nat, i: nat)
    requires c.Inv()
    ensures c.CtlOk(s, i) && c.LiveOk(s, i)
  {
  }

  lemma AtPage(c: Cache, p: nat, o: nat)
    requires c.Inv()
    ensures c.PageOk(p) && c.OwnedOk(o)
  {
  }

  lemma Whole(c: Cache)
    requires Sound(c.lay, c.payload, c.record) && c.payload > 0
    requires (forall s {:trigger c.SlabOk(s)} :: c.SlabOk(s)) && (forall s, i {:trigger c.CtlOk(s, i)} :: c.CtlOk(s, i))
    requires (forall s, i {:trigger c.LiveOk(s, i)} :: c.LiveOk(s, i))
             && (forall s {:trigger c.PlaceOk(s)} :: c.PlaceOk(s))
    requires c.QueuesOk() && (forall p {:trigger c.PageOk(p)} :: c.PageOk(p))
    requires forall o {:trigger c.OwnedOk(o)} :: c.OwnedOk(o)
    ensures c.Inv()
  {
  }

  // ---- Finding the slab of an object ----

  /** The page of an object leads to its slab. */
  lemma PageOfObject(c: Cache, s: nat, i: nat)
    requires c.Inv() && s in c.slabs && i < c.lay.perSlab
    ensures var p := ObjAt(c.lay, s, i) / PAGE_SIZE; HasPage(c.lay, s, p) && p in c.slabOf && c.slabOf[p] == s
  {
    AtSlab(c, s);
    ObjectsApart(c.lay, c.payload, c.record, s, i, i);
    var o := ObjAt(c.lay, s, i);
    InPages(s, o, Pow2(c.lay.order));
    AtPage(c, o / PAGE_SIZE, 0);
    hide Cache.Inv, ObjAt, Pow2;
  }

  lemma InPages(s: nat, o: nat, n: nat)
    requires s % PAGE_SIZE == 0 && s <= o < s + PAGE_SIZE * n
    ensures s / PAGE_SIZE <= o / PAGE_SIZE < s / PAGE_SIZE + n
  {
  }

  /** Two objects of the cache are apart, with the words before them. */
  lemma CacheObjectsApart(c: Cache, s: nat, i: nat, r: nat, j: nat)
    requires c.Inv()
    requires s in c.slabs && r in c.slabs && i < c.lay.perSlab && j < c.lay.perSlab && (s != r || i != j)
    ensures var x, y := ObjAt(c.lay, s, i), ObjAt(c.lay, r, j);
            x + c.payload <= y - ADDR_BYTES || y + c.payload <= x - ADDR_BYTES
  {
    AtSlab(c, s);
    ObjectsApart(c.lay, c.payload, c.record, s, i, j);
    ObjectsApart(c.lay, c.payload, c.record, r, j, i);
    if s != r { SlabsApart(c, s, r); }
    hide Cache.Inv, ObjAt, SlabBytes;
  }

  lemma SlabsApart(c: Cache, s: nat, r: nat)
    requires c.Inv() && s in c.slabs && r in c.slabs && s != r
    ensures s + SlabBytes(c.lay.order) <= r || r + SlabBytes(c.lay.order) <= s
  {
    AtSlab(c, s);
    AtSlab(c, r);
    AtPage(c, s / PAGE_SIZE, 0);
    AtPage(c, r / PAGE_SIZE, 0);
    assert Pow2(c.lay.order) > 0 by { Pow2Monotone(0, c.lay.order); }
    hide Cache.Inv, Pow2;
    assert !HasPage(c.lay, s, r / PAGE_SIZE) && !HasPage(c.lay, r, s / PAGE_SIZE);
    Apart(s / PAGE_SIZE, r / PAGE_SIZE, Pow2(c.lay.order));
  }

  lemma Apart(a: nat, b: nat, n: nat)
    requires a + n <= b || b + n <= a
    ensures PAGE_SIZE * a + PAGE_SIZE * n <= PAGE_SIZE * b || PAGE_SIZE * b + PAGE_SIZE * n <= PAGE_SIZE * a
  {
  }

  // ---- Taking an object ----

  /** The first free object of slab s is handed out, and the slab moves to its new queue. */
  ghost function Take(c: Cache, s: nat, o: nat): Cache
    requires s in c.slabs && |c.slabs[s].objects| > 0
  {
    var b := c.slabs[s];
    var part := if b.count == 0 then c.partial + [s] else c.partial;
    var n := b.count + 1;
    c.(slabs := c.slabs[s := b.(count := n, objects := b.objects[1..])],
       free := if b.count == 0 then Without(c.free, s) else c.free,
       partial := if n == c.lay.perSlab then Without(part, s) else part,
       full := if n == c.lay.perSlab then c.full + [s] else c.full, live := c.live + {o})
  }

  ghost predicate CanTake(c: Cache, s: nat, i: nat) {
    && s in c.slabs && |c.slabs[s].objects| > 0 && i < |c.slabs[s].ctls| && c.slabs[s].ctls[i] == c.slabs[s].objects[0]
  }

  lemma OneObject(c: Cache, s: nat, i: nat, r: nat, j: nat)
    requires c.Inv() && s in c.slabs && r in c.slabs && i < c.lay.perSlab && j < c.lay.perSlab
    ensures ObjAt(c.lay, s, i) == ObjAt(c.lay, r, j) <==> s == r && i == j
  {
    hide Cache.Inv, ObjAt;
    if s != r || i != j { CacheObjectsApart(c, s, i, r, j); }
  }

  lemma TakeKeeps(c: Cache, s: nat, i: nat)
    requires c.Inv() && CanTake(c, s, i)
    ensures Take(c, s, ObjAt(c.lay, s, i)).Inv() && ObjAt(c.lay, s, i) !in c.live
  {
    var o := ObjAt(c.lay, s, i);
    var e := Take(c, s, o);
    AtSlab(c, s);
    AtObject(c, s, i);
    TakeSlabs(c, s, i);
    hide Cache.Inv, ObjAt, Cache.SlabOk, Cache.PlaceOk, Cache.QueuesOk, Sound, Without, CanTake;
    forall r, j ensures e.CtlOk(r, j) && e.LiveOk(r, j) { TakeObject(c, s, i, r, j); }
    forall p ensures e.PageOk(p) { AtPage(c, p, 0); }
    forall q ensures e.OwnedOk(q) { TakeOwned(c, s, i, q); }
    hide Take, Cache.CtlOk, Cache.LiveOk, Cache.PageOk, Cache.OwnedOk;
    Whole(e);
  }

  lemma TakeSlabs(c: Cache, s: nat, i: nat)
    requires c.Inv() && CanTake(c, s, i)
    ensures var e := Take(c, s, ObjAt(c.lay, s, i));
            e.QueuesOk() && (forall r :: e.SlabOk(r)) && forall r :: e.PlaceOk(r)
  {
    var e := Take(c, s, ObjAt(c.lay, s, i));
    AtSlab(c, s);
    WithoutIs(c.free, s);
    WithoutIs(c.partial, s);
    if c.slabs[s].count == 0 { WithoutIs(c.partial + [s], s); }
    hide Cache.Inv, Without, ObjAt, Sound;
    assert e.QueuesOk();
    forall r ensures e.SlabOk(r) && e.PlaceOk(r) { AtSlab(c, r); }
  }

  lemma TakeObject(c: Cache, s: nat, i: nat, r: nat, j: nat)
    requires c.Inv() && CanTake(c, s, i)
    ensures Take(c, s, ObjAt(c.lay, s, i)).CtlOk(r, j) && Take(c, s, ObjAt(c.lay, s, i)).LiveOk(r, j)
  {
    hide Cache.Inv, Without, ObjAt, Sound, Cache.PlaceOk, Cache.QueuesOk, Cache.SlabOk;
    AtObject(c, r, j);
    Lengths(c, s);
    Lengths(c, r);
    if r in c.slabs && j < |c.slabs[r].ctls| { OneObject(c, s, i, r, j); }
    if r == s && j < |c.slabs[s].ctls| {
      Positions(c, s, i, j);
      Popped(c, s);
    }
  }

  /** The list of free records without its first. */
  lemma Popped(c: Cache, s: nat)
    requires c.Inv() && s in c.slabs && |c.slabs[s].objects| > 0
    ensures var q := c.slabs[s].objects; forall x :: x in q[1..] <==> x in q && x != q[0]
  {
    AtSlab(c, s);
    hide Cache.Inv;
  }

  lemma TakeOwned(c: Cache, s: nat, i: nat, q: nat)
    requires c.Inv() && CanTake(c, s, i)
    ensures Take(c, s, ObjAt(c.lay, s, i)).OwnedOk(q)
  {
    AtSlab(c, s);
    AtPage(c, 0, q);
    hide Cache.Inv, Without, ObjAt, Sound, Cache.PlaceOk, Cache.QueuesOk;
    var e := Take(c, s, ObjAt(c.lay, s, i));
    if q in c.live {
      var r, j :| c.IsObject(r, j, q);
      assert e.IsObject(r, j, q);
    }
    assert e.IsObject(s, i, ObjAt(c.lay, s, i));
  }

  // ---- Giving an object back ----

  /** The object o of slab s, with control record k, is free again. */
  ghost function Put(c: Cache, s: nat, o: nat, k: nat): Cache
    requires s in c.slabs
  {
    var b := c.slabs[s];
    var n := if b.count > 0 then b.count - 1 else 0;
    var part := if b.count == c.lay.perSlab then c.partial else Without(c.partial, s);
    c.(slabs := c.slabs[s := b.(count := n, objects := [k] + b.objects)],
       full := if b.count == c.lay.perSlab then Without(c.full, s) else c.full,
       partial := if n > 0 then part + [s] else part,
       free := if n == 0 then c.free + [s] else c.free, live := c.live - {o})
  }

  ghost predicate CanPut(c: Cache, s: nat, i: nat) {
    s in c.slabs && i < |c.slabs[s].ctls| && c.slabs[s].ctls[i] !in c.slabs[s].objects
  }

  /** Some object of the slab is in use. */
  lemma InUse(c: Cache, s: nat, i: nat)
    requires c.Inv() && CanPut(c, s, i)
    ensures c.slabs[s].count > 0
  {
    AtSlab(c, s);
    var b := c.slabs[s];
    hide Cache.Inv;
    Fewer(b.objects, b.ctls, i);
  }

  /** Different elements of a sequence, without one of them, are fewer. */
  lemma Fewer(q: seq<nat>, r: seq<nat>, i: nat)
    requires i < |r| && r[i] !in q && forall k | 0 <= k < |q| :: q[k] in r
    requires forall j, k | 0 <= j < k < |q| :: q[j] != q[k]
    requires forall j, k | 0 <= j < k < |r| :: r[j] != r[k]
    ensures |q| < |r|
  {
    var a, b := set x | x in q, set x | x in r;
    Size(q, a);
    Size(r, b);
    assert forall x | x in q :: x in r;
    assert r[i] in b && r[i] !in a && a <= b;
    Smaller(a, b);
  }

  lemma {:induction false} Size(q: seq<nat>, a: set<nat>)
    requires a == set x | x in q
    requires forall j, k | 0 <= j < k < |q| :: q[j] != q[k]
    ensures |a| == |q|
  {
    if q != [] {
      var b := a - {q[0]};
      assert b == set x | x in q[1..];
      Size(q[1..], b);
    }
  }

  lemma {:induction false} Smaller(a: set<nat>, b: set<nat>)
    requires a < b
    ensures |a| < |b|
  {
    var x :| x in b && x !in a;
    if a != {} {
      var y :| y in a;
      Smaller(a - {y}, b - {y});
    }
  }

  lemma PutKeeps(c: Cache, s: nat, i: nat)
    requires c.Inv() && CanPut(c, s, i)
    ensures c.slabs[s].count > 0 && Put(c, s, ObjAt(c.lay, s, i), c.slabs[s].ctls[i]).Inv()
    ensures ObjAt(c.lay, s, i) in c.live
  {
    InUse(c, s, i);
    var e := Put(c, s, ObjAt(c.lay, s, i), c.slabs[s].ctls[i]);
    AtSlab(c, s);
    AtObject(c, s, i);
    PutSlabs(c, s, i);
    hide Cache.Inv, ObjAt, Cache.SlabOk, Cache.PlaceOk, Cache.QueuesOk, Sound, Without;
    forall r, j ensures e.CtlOk(r, j) && e.LiveOk(r, j) { PutObject(c, s, i, r, j); }
    forall p ensures e.PageOk(p) { AtPage(c, p, 0); }
    forall q ensures e.OwnedOk(q) { PutOwned(c, s, i, q); }
    hide Put, CanPut, Cache.CtlOk, Cache.LiveOk, Cache.PageOk, Cache.OwnedOk;
    Whole(e);
  }

  lemma PutSlabs(c: Cache, s: nat, i: nat)
    requires c.Inv() && CanPut(c, s, i) && c.slabs[s].count > 0
    ensures var e := Put(c, s, ObjAt(c.lay, s, i), c.slabs[s].ctls[i]);
            e.QueuesOk() && (forall r :: e.SlabOk(r)) && forall r :: e.PlaceOk(r)
  {
    var e := Put(c, s, ObjAt(c.lay, s, i), c.slabs[s].ctls[i]);
    AtSlab(c, s);
    WithoutIs(c.full, s);
    WithoutIs(c.partial, s);
    hide Cache.Inv, Without, ObjAt, Sound;
    assert e.QueuesOk();
    forall r ensures e.SlabOk(r) && e.PlaceOk(r) { AtSlab(c, r); }
  }

  lemma PutObject(c: Cache, s: nat, i: nat, r: nat, j: nat)
    requires c.Inv() && CanPut(c, s, i) && c.slabs[s].count > 0
    ensures var e := Put(c, s, ObjAt(c.lay, s, i), c.slabs[s].ctls[i]); e.CtlOk(r, j) && e.LiveOk(r, j)
  {
    hide Cache.Inv, Without, ObjAt, Sound, Cache.PlaceOk, Cache.QueuesOk, Cache.SlabOk;
    AtObject(c, r, j);
    Lengths(c, s);
    Lengths(c, r);
    if r in c.slabs && j < |c.slabs[r].ctls| { OneObject(c, s, i, r, j); }
    Pushed(c.slabs[s].ctls[i], c.slabs[s].objects);
    if r == s && j < |c.slabs[s].ctls| { Positions(c, s, i, j); }
  }

  lemma Lengths(c: Cache, s: nat)
    requires c.Inv()
    ensures s in c.slabs ==> |c.slabs[s].ctls| == c.lay.perSlab
  {
    AtSlab(c, s);
  }

  lemma Pushed(k: nat, q: seq<nat>)
    ensures forall x :: x in [k] + q <==> x == k || x in q
  {
  }

  lemma Positions(c: Cache, s: nat, i: nat, j: nat)
    requires c.Inv() && s in c.slabs && i < |c.slabs[s].ctls| && j < |c.slabs[s].ctls|
    ensures c.slabs[s].ctls[i] == c.slabs[s].ctls[j] <==> i == j
  {
    AtSlab(c, s);
    hide Cache.Inv;
  }

  lemma PutOwned(c: Cache, s: nat, i: nat, q: nat)
    requires c.Inv() && CanPut(c, s, i) && c.slabs[s].count > 0
    ensures Put(c, s, ObjAt(c.lay, s, i), c.slabs[s].ctls[i]).OwnedOk(q)
  {
    AtPage(c, 0, q);
    hide Cache.Inv, Without, ObjAt, Sound;
    if q in c.live {
      var r, j :| c.IsObject(r, j, q);
      assert Put(c, s, ObjAt(c.lay, s, i), c.slabs[s].ctls[i]).IsObject(r, j, q);
    }
  }

  // ---- What happens to the queues ----

  /** Nothing but the slabs, the queues and the objects held is touched. */
  ghost predicate SameFrame(c: Cache, e: Cache) {
    && e.lay == c.lay && e.slabs.Keys == c.slabs.Keys && e.slabCount == c.slabCount
    && e.word == c.word && e.ctlObj == c.ctlObj && e.slabOf == c.slabOf
  }

  /** From c to e, object i of slab s, the first of its free ones, was handed out. A free slab goes to the
      end of the partial ones, and one with no free object left to the end of the full ones. */
  ghost predicate TookFrom(c: Cache, e: Cache, s: nat, i: nat) {
    && CanTake(c, s, i) && SameFrame(c, e) && e.live == c.live + {ObjAt(c.lay, s, i)}
    && var b := c.slabs[s]; var last := b.count + 1 == c.lay.perSlab;
    && e.slabs == c.slabs[s := Slab(b.count + 1, b.objects[1..], b.ctls)]
    && (if b.count == 0 then LeftOut(c.free, e.free, s) else e.free == c.free)
    && (if last then e.full == c.full + [s] else e.full == c.full)
    && (if b.count == 0 then e.partial == if last then c.partial else c.partial + [s]
        else if last then LeftOut(c.partial, e.partial, s) else e.partial == c.partial)
  }

  /** Which queue a slab is in. */
  lemma QueueOf(c: Cache, s: nat)
    requires c.Inv() && s in c.slabs
    ensures var n := c.slabs[s].count;
            && n + |c.slabs[s].objects| == c.lay.perSlab && (s in c.free <==> n == 0)
            && (s in c.full <==> n == c.lay.perSlab) && (s in c.partial <==> 0 < n < c.lay.perSlab)
  {
    AtSlab(c, s);
    hide Cache.Inv;
  }

  lemma TakeIs(c: Cache, s: nat, i: nat)
    requires c.Inv() && CanTake(c, s, i)
    ensures TookFrom(c, Take(c, s, ObjAt(c.lay, s, i)), s, i)
  {
    hide Cache.Inv, ObjAt, Without, LeftOut;
    QueueOf(c, s);
    if s in c.free { WithoutLeaves(c.free, s); }
    if s in c.partial { WithoutLeaves(c.partial, s); } else { WithoutLast(c.partial, s); }
    assert Take(c, s, ObjAt(c.lay, s, i)).slabs.Keys == c.slabs.Keys;
  }

  /** From c to e, object i of slab s came back to the front of the free ones. A slab that still has objects in
      use goes to the end of the partial ones, and one that has none to the end of the free ones. */
  ghost predicate PutBackTo(c: Cache, e: Cache, s: nat, i: nat) {
    && CanPut(c, s, i) && SameFrame(c, e) && e.live == c.live - {ObjAt(c.lay, s, i)}
    && var b := c.slabs[s]; var was := b.count == c.lay.perSlab;
    && b.count > 0 && e.slabs == c.slabs[s := Slab(b.count - 1, [b.ctls[i]] + b.objects, b.ctls)]
    && (if b.count == 1 then e.free == c.free + [s] else e.free == c.free)
    && (if was then LeftOut(c.full, e.full, s) else e.full == c.full)
    && (if b.count == 1 then if was then e.partial == c.partial else LeftOut(c.partial, e.partial, s)
        else if was then e.partial == c.partial + [s] else MovedBack(c.partial, e.partial, s))
  }

  /** x moved to the end. */
  ghost predicate MovedBack(q: seq<nat>, r: seq<nat>, x: nat) {
    r != [] && r[|r| - 1] == x && LeftOut(q, r[..|r| - 1], x)
  }

  lemma PutIs(c: Cache, s: nat, i: nat)
    requires c.Inv() && CanPut(c, s, i)
    ensures PutBackTo(c, Put(c, s, ObjAt(c.lay, s, i), c.slabs[s].ctls[i]), s, i)
  {
    hide Cache.Inv, ObjAt, Without, LeftOut, MovedBack;
    QueueOf(c, s);
    InUse(c, s, i);
    if s in c.full { WithoutLeaves(c.full, s); }
    if s in c.partial {
      WithoutLeaves(c.partial, s);
      ToTheEnd(c.partial, s);
    }
    assert Put(c, s, ObjAt(c.lay, s, i), c.slabs[s].ctls[i]).slabs.Keys == c.slabs.Keys;
  }

  lemma ToTheEnd(q: seq<nat>, x: nat)
    requires x in q
    ensures MovedBack(q, Without(q, x) + [x], x)
  {
    WithoutLeaves(q, x);
    assert (Without(q, x) + [x])[..|Without(q, x)|] == Without(q, x);
  }

  lemma {:induction false} WithoutLast(q: seq<nat>, x: nat)
    requires x !in q
    ensures Without(q + [x], x) == q
  {
    if q != [] {
      WithoutLast(q[1..], x);
      assert (q + [x])[1..] == q[1..] + [x];
    } else {
      assert q + [x] == [x];
    }
  }

  // ---- Slabs come and go ----

  /** A new slab, with all its objects free, in front of the free ones. */
  ghost function Add(c: Cache, s: nat, b: Slab, word: map<nat, nat>, ctlObj: map<nat, nat>,
                     slabOf: map<nat, nat>): Cache {
    c.(slabs := c.slabs[s := b], free := [s] + c.free, slabCount := c.slabCount + 1, word := word, ctlObj := ctlObj,
       slabOf := slabOf)
  }

  /** What a fresh cluster of pages at s, and its control records, must be. */
  ghost predicate CanAdd(c: Cache, s: nat, b: Slab, word: map<nat, nat>, ctlObj: map<nat, nat>, slabOf: map<nat, nat>) {
    && s !in c.slabs && s % PAGE_SIZE == 0 && b.count == 0 && |b.ctls| == c.lay.perSlab == |b.objects|
    && (forall i, j | 0 <= i < j < |b.ctls| :: b.ctls[i] != b.ctls[j])
    && (forall i, j | 0 <= i < j < |b.objects| :: b.objects[i] != b.objects[j])
    && (forall i | 0 <= i < |b.objects| :: b.objects[i] in b.ctls)
    && (forall i | 0 <= i < |b.ctls| :: b.ctls[i] in b.objects)
    && (forall i | 0 <= i < |b.ctls| :: NewCtl(c.lay, s, i, b.ctls[i], word, ctlObj))
    && (forall x | x in c.word :: x in word && (word[x] == c.word[x] || HasPage(c.lay, s, x / PAGE_SIZE)))
    && (forall x | x in c.ctlObj :: x in ctlObj && ctlObj[x] == c.ctlObj[x])
    && (forall p | HasPage(c.lay, s, p) :: p !in c.slabOf && p in slabOf && slabOf[p] == s)
    && (forall p | !HasPage(c.lay, s, p) ::
          (p in slabOf <==> p in c.slabOf) && (p in c.slabOf ==> slabOf[p] == c.slabOf[p]))
  }

  ghost predicate NewCtl(lay: Layout, s: nat, i: nat, k: nat, word: map<nat, nat>, ctlObj: map<nat, nat>) {
    var o := ObjAt(lay, s, i);
    if lay.onSlab then k == o - ADDR_BYTES
    else o - ADDR_BYTES in word && word[o - ADDR_BYTES] == k && k in ctlObj && ctlObj[k] == o
  }

  lemma AddKeeps(c: Cache, s: nat, b: Slab, word: map<nat, nat>, ctlObj: map<nat, nat>, slabOf: map<nat, nat>)
    requires c.Inv() && CanAdd(c, s, b, word, ctlObj, slabOf)
    ensures Add(c, s, b, word, ctlObj, slabOf).Inv()
  {
    var e := Add(c, s, b, word, ctlObj, slabOf);
    AtSlab(c, s);
    AddSlabs(c, s, b, word, ctlObj, slabOf);
    hide Cache.Inv, ObjAt, Cache.SlabOk, Cache.PlaceOk, Cache.QueuesOk, Sound, NewCtl, CanAdd;
    forall r, j ensures e.CtlOk(r, j) && e.LiveOk(r, j) { AddObject(c, s, b, word, ctlObj, slabOf, r, j); }
    forall p ensures e.PageOk(p) { AddPage(c, s, b, word, ctlObj, slabOf, p); }
    forall q ensures e.OwnedOk(q) { AddOwned(c, s, b, word, ctlObj, slabOf, q); }
    hide Add, Cache.CtlOk, Cache.LiveOk, Cache.PageOk, Cache.OwnedOk;
    Whole(e);
  }

  lemma AddSlabs(c: Cache, s: nat, b: Slab, word: map<nat, nat>, ctlObj: map<nat, nat>, slabOf: map<nat, nat>)
    requires c.Inv() && CanAdd(c, s, b, word, ctlObj, slabOf)
    ensures var e := Add(c, s, b, word, ctlObj, slabOf);
            e.QueuesOk() && (forall r :: e.SlabOk(r)) && forall r :: e.PlaceOk(r)
  {
    var e := Add(c, s, b, word, ctlObj, slabOf);
    AtSlab(c, s);
    hide Cache.Inv, ObjAt, NewCtl, HasPage;
    assert e.QueuesOk();
    forall r ensures e.SlabOk(r) && e.PlaceOk(r) { AtSlab(c, r); }
  }

  lemma AddPage(c: Cache, s: nat, b: Slab, word: map<nat, nat>, ctlObj: map<nat, nat>, slabOf: map<nat, nat>, p: nat)
    requires c.Inv() && CanAdd(c, s, b, word, ctlObj, slabOf)
    ensures Add(c, s, b, word, ctlObj, slabOf).PageOk(p)
  {
    AtPage(c, p, 0);
    hide Cache.Inv, HasPage, NewCtl, ObjAt;
  }

  lemma AddOwned(c: Cache, s: nat, b: Slab, word: map<nat, nat>, ctlObj: map<nat, nat>, slabOf: map<nat, nat>, q: nat)
    requires c.Inv() && CanAdd(c, s, b, word, ctlObj, slabOf)
    ensures Add(c, s, b, word, ctlObj, slabOf).OwnedOk(q)
  {
    AtPage(c, 0, q);
    hide Cache.Inv, ObjAt, NewCtl, HasPage;
    if q in c.live {
      var r, j :| c.IsObject(r, j, q);
      assert Add(c, s, b, word, ctlObj, slabOf).IsObject(r, j, q);
    }
  }

  lemma AddObject(c: Cache, s: nat, b: Slab, word: map<nat, nat>, ctlObj: map<nat, nat>, slabOf: map<nat, nat>, r: nat,
                  j: nat)
    requires c.Inv() && CanAdd(c, s, b, word, ctlObj, slabOf)
    ensures Add(c, s, b, word, ctlObj, slabOf).CtlOk(r, j) && Add(c, s, b, word, ctlObj, slabOf).LiveOk(r, j)
  {
    hide Cache.Inv, Sound, ObjAt, HasPage, CanAdd;
    if r == s { AddHere(c, s, b, word, ctlObj, slabOf, j); }
    else if r in c.slabs { AddElsewhere(c, s, b, word, ctlObj, slabOf, r, j); }
  }

  lemma AddHere(c: Cache, s: nat, b: Slab, word: map<nat, nat>, ctlObj: map<nat, nat>, slabOf: map<nat, nat>, j: nat)
    requires c.Inv() && CanAdd(c, s, b, word, ctlObj, slabOf)
    ensures Add(c, s, b, word, ctlObj, slabOf).CtlOk(s, j) && Add(c, s, b, word, ctlObj, slabOf).LiveOk(s, j)
  {
    hide Cache.Inv, Sound, ObjAt, HasPage, CanAdd;
    if j < |b.ctls| {
      NewFacts(c, s, b, word, ctlObj, slabOf, j);
      NewNotLive(c, s, b, word, ctlObj, slabOf, j);
    }
  }

  lemma NewFacts(c: Cache, s: nat, b: Slab, word: map<nat, nat>, ctlObj: map<nat, nat>, slabOf: map<nat, nat>, j: nat)
    requires CanAdd(c, s, b, word, ctlObj, slabOf) && j < |b.ctls|
    ensures j < c.lay.perSlab && NewCtl(c.lay, s, j, b.ctls[j], word, ctlObj) && b.ctls[j] in b.objects
  {
    hide NewCtl, HasPage;
  }

  lemma AddElsewhere(c: Cache, s: nat, b: Slab, word: map<nat, nat>, ctlObj: map<nat, nat>, slabOf: map<nat, nat>,
                     r: nat, j: nat)
    requires c.Inv() && CanAdd(c, s, b, word, ctlObj, slabOf) && r in c.slabs && r != s
    ensures Add(c, s, b, word, ctlObj, slabOf).CtlOk(r, j) && Add(c, s, b, word, ctlObj, slabOf).LiveOk(r, j)
  {
    AtSlab(c, r);
    AtObject(c, r, j);
    if j < c.lay.perSlab { WordStays(c, s, b, word, ctlObj, slabOf, r, j); }
    SameWords(c, s, b, word, ctlObj, slabOf, ObjAt(c.lay, r, j) - ADDR_BYTES,
              if j < |c.slabs[r].ctls| then c.slabs[r].ctls[j] else 0);
    hide Cache.Inv, Sound, ObjAt, HasPage, CanAdd, Cache.SlabOk;
  }

  lemma SameWords(c: Cache, s: nat, b: Slab, word: map<nat, nat>, ctlObj: map<nat, nat>, slabOf: map<nat, nat>, x: nat,
                  k: nat)
    requires CanAdd(c, s, b, word, ctlObj, slabOf)
    ensures x in c.word && !HasPage(c.lay, s, x / PAGE_SIZE) ==> x in word && word[x] == c.word[x]
    ensures k in c.ctlObj ==> k in ctlObj && ctlObj[k] == c.ctlObj[k]
  {
    hide HasPage, NewCtl, ObjAt;
  }

  /** The words before the objects of another slab are not in the new pages. */
  lemma WordStays(c: Cache, s: nat, b: Slab, word: map<nat, nat>, ctlObj: map<nat, nat>, slabOf: map<nat, nat>, r: nat,
                  j: nat)
    requires c.Inv() && CanAdd(c, s, b, word, ctlObj, slabOf) && r in c.slabs && j < c.lay.perSlab
    ensures !HasPage(c.lay, s, (ObjAt(c.lay, r, j) - ADDR_BYTES) / PAGE_SIZE)
  {
    var x := ObjAt(c.lay, r, j) - ADDR_BYTES;
    AtSlab(c, r);
    ObjectsApart(c.lay, c.payload, c.record, r, j, j);
    InPages(r, x, Pow2(c.lay.order));
    AtPage(c, x / PAGE_SIZE, 0);
    hide Cache.Inv, ObjAt, Pow2;
    assert HasPage(c.lay, r, x / PAGE_SIZE);
  }

  lemma NewNotLive(c: Cache, s: nat, b: Slab, word: map<nat, nat>, ctlObj: map<nat, nat>, slabOf: map<nat, nat>, j: nat)
    requires c.Inv() && CanAdd(c, s, b, word, ctlObj, slabOf) && j < c.lay.perSlab
    ensures ObjAt(c.lay, s, j) !in c.live
  {
    var o := ObjAt(c.lay, s, j);
    AtSlab(c, s);
    ObjectsApart(c.lay, c.payload, c.record, s, j, j);
    InPages(s, o, Pow2(c.lay.order));
    AtPage(c, o / PAGE_SIZE, o);
    if o in c.live {
      var r, i :| c.IsObject(r, i, o);
      PageOfObject(c, r, i);
    }
    hide Cache.Inv, ObjAt, Pow2;
  }

  /** The first free slab is given back to the page allocator. */
  ghost function Drop(c: Cache, slabOf: map<nat, nat>): Cache
    requires c.free != [] && c.slabCount > 0
  {
    c.(slabs := c.slabs - {c.free[0]}, free := c.free[1..], slabCount := c.slabCount - 1, slabOf := slabOf)
  }

  ghost predicate CanDrop(c: Cache, slabOf: map<nat, nat>) {
    && c.free != []
    && (forall p | HasPage(c.lay, c.free[0], p) :: p !in slabOf)
    && (forall p | !HasPage(c.lay, c.free[0], p) ::
          (p in slabOf <==> p in c.slabOf) && (p in c.slabOf ==> slabOf[p] == c.slabOf[p]))
  }

  lemma DropKeeps(c: Cache, slabOf: map<nat, nat>)
    requires c.Inv() && CanDrop(c, slabOf)
    ensures c.slabCount > 0 && c.free[0] in c.slabs && Drop(c, slabOf).Inv()
  {
    var s := c.free[0];
    AtSlab(c, s);
    assert c.slabs.Keys >= {s};
    var e := Drop(c, slabOf);
    DropSlabs(c, slabOf);
    hide Cache.Inv, ObjAt, Cache.SlabOk, Cache.PlaceOk, Cache.QueuesOk, Sound;
    forall r, j ensures e.CtlOk(r, j) && e.LiveOk(r, j) { AtObject(c, r, j); }
    forall p ensures e.PageOk(p) { DropPage(c, slabOf, p); }
    forall q ensures e.OwnedOk(q) { DropOwned(c, slabOf, q); }
    hide Drop, CanDrop, Cache.CtlOk, Cache.LiveOk, Cache.PageOk, Cache.OwnedOk;
    Whole(e);
  }

  lemma DropSlabs(c: Cache, slabOf: map<nat, nat>)
    requires c.Inv() && CanDrop(c, slabOf) && c.slabCount > 0
    ensures Drop(c, slabOf).QueuesOk() && (forall r :: Drop(c, slabOf).SlabOk(r))
            && forall r :: Drop(c, slabOf).PlaceOk(r)
  {
    var e := Drop(c, slabOf);
    AtSlab(c, c.free[0]);
    hide Cache.Inv, ObjAt, HasPage;
    assert e.slabs.Keys == c.slabs.Keys - {c.free[0]};
    assert e.QueuesOk();
    forall r ensures e.SlabOk(r) && e.PlaceOk(r) {
      AtSlab(c, r);
      assert r in e.free <==> r in c.free && r != c.free[0];
    }
  }

  lemma DropPage(c: Cache, slabOf: map<nat, nat>, p: nat)
    requires c.Inv() && CanDrop(c, slabOf) && c.slabCount > 0
    ensures Drop(c, slabOf).PageOk(p)
  {
    AtSlab(c, c.free[0]);
    AtPage(c, p, 0);
    hide Cache.Inv, HasPage, ObjAt;
  }

  /** No object of a free slab is held. */
  lemma DropOwned(c: Cache, slabOf: map<nat, nat>, q: nat)
    requires c.Inv() && CanDrop(c, slabOf) && c.slabCount > 0
    ensures Drop(c, slabOf).OwnedOk(q)
  {
    AtPage(c, 0, q);
    if q in c.live {
      var r, j :| c.IsObject(r, j, q);
      AtSlab(c, r);
      AtObject(c, r, j);
      if c.slabs[r].count == 0 { AllFree(c.slabs[r].objects, c.slabs[r].ctls, j); }
      hide Cache.Inv, HasPage, ObjAt, Sound;
      assert r != c.free[0];
      assert Drop(c, slabOf).IsObject(r, j, q);
    }
  }

  /** A list of different control records as long as the list of all has all of them. */
  lemma AllFree(q: seq<nat>, r: seq<nat>, i: nat)
    requires i < |r| && |q| == |r| && forall k | 0 <= k < |q| :: q[k] in r
    requires forall j, k | 0 <= j < k < |q| :: q[j] != q[k]
    requires forall j, k | 0 <= j < k < |r| :: r[j] != r[k]
    ensures r[i] in q
  {
    if r[i] !in q { Fewer(q, r, i); }
  }
}
