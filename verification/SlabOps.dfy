/** Allocation from a slab cache, changed in place. */
module SlabOps {
  import opened Powers
  import opened Queues
  import opened SlabLayout
  import opened SlabCache

  /** What the allocators give for a new slab: its pages, from base on, memory for its record, and
      as much as there is for the control records. */
  datatype Supply = Supply(pages: bool, base: nat, record: bool, ids: seq<nat>) {
    predicate Suffices(lay: Layout) {
      pages && (lay.onSlab || (record && |ids| >= lay.perSlab))
    }
  }

  class KmemCache {
    const lay: Layout
    const payload: nat
    const record: nat
    const limits: nat
    var slabs: map<nat, Slab>
    var partial: seq<nat>
    var full: seq<nat>
    var free: seq<nat>
    var slabCount: nat
    var word: map<nat, nat>
    var ctlObj: map<nat, nat>
    var slabOf: map<nat, nat>
    ghost var live: set<nat>

    ghost function State(): Cache
      reads this
    {
      Cache(lay, payload, record, slabs, partial, full, free, slabCount, word, ctlObj, slabOf, live)
    }

    ghost predicate Valid()
      reads this
    {
      State().Inv()
    }

    /** `slab_kmem_cache_create`, for a layout that `CalcSlabSize` gave */
    constructor (layout: Layout, size: nat, rec: nat, keep: nat)
      requires Sound(layout, size, rec) && size > 0
      ensures Valid() && live == {} && lay == layout && limits == keep
      ensures slabs == map[] && partial == full == free == [] && slabCount == 0
    {
      lay, payload, record, limits := layout, size, rec, keep;
      slabs, partial, full, free, slabCount := map[], [], [], [], 0;
      word, ctlObj, slabOf, live := map[], map[], map[], {};
    }

    /** The loop over the objects of a new slab, with the control records ids that kmalloc gives. */
    method BuildObjects(base: nat, ids: seq<nat>)
      returns (ok: bool, objects: seq<nat>, ctls: seq<nat>, newWord: map<nat, nat>, newObj: map<nat, nat>)
      requires Valid() && CanGrow(State(), base, ids)
      ensures ok <==> lay.onSlab || |ids| >= lay.perSlab
      ensures ok ==> |ctls| == lay.perSlab && Built(State(), base, ids, ctls, objects, newWord, newObj)
      ensures ok ==> AllNew(lay, base, ids, Slab(0, objects, ctls))
    {
      hide Cache.Inv, ObjAt, HasPage, CanGrow, NewCtl, Built;
      ghost var c := State();
      objects, ctls := [], [];
      newWord, newObj := word, ctlObj;
      BuiltStart(c, base, ids);
      for i := 0 to lay.perSlab
        invariant |ctls| == i == |objects| && Reversed(objects, ctls) && Records(lay, base, ids, ctls)
        invariant Built(c, base, ids, ctls, objects, newWord, newObj) && (lay.onSlab || i <= |ids|)
      {
        if !lay.onSlab && i >= |ids| { return false, objects, ctls, newWord, newObj; }
        BuiltNext(c, base, ids, ctls, objects, newWord, newObj);
        RecordsNext(lay, base, ids, objects, ctls);
        var objp := ObjAt(lay, base, i) - ADDR_BYTES;
        var k := if lay.onSlab then objp else ids[i];
        if !lay.onSlab {
          newWord := newWord[objp := k];
          newObj := newObj[k := objp + ADDR_BYTES];
        }
        objects, ctls := [k] + objects, ctls + [k];
      }
      ok := true;
    }

    /** `slab_kmem_cache_grow`: a slab on the pages from base on. A slab that keeps its control records
        elsewhere needs memory for them and for its own record too. */
    method Grow(mem: Supply) returns (ok: bool)
      requires Valid() && (mem.pages ==> CanGrow(State(), mem.base, mem.ids))
      modifies this`slabs, this`free, this`slabCount, this`word, this`ctlObj, this`slabOf
      ensures Valid() && (ok <==> mem.Suffices(lay))
      ensures !ok ==> State() == old(State())
      ensures ok ==> free == [mem.base] + old(free) && partial == old(partial) && full == old(full) && live == old(live)
      ensures ok ==>
                && mem.base in slabs && slabs == old(slabs)[mem.base := slabs[mem.base]]
                && AllNew(lay, mem.base, mem.ids, slabs[mem.base]) && NewPages(old(State()), State(), mem.base)
                && slabCount == old(slabCount) + 1
    {
      hide Cache.Inv, ObjAt, HasPage, CanGrow, NewCtl, Built;
      if !mem.pages || !(lay.onSlab || mem.record) { return false; }
      var base := mem.base;
      ghost var c := State();
      var built, objects, ctls, newWord, newObj := BuildObjects(base, mem.ids);
      if !built { return false; }
      var b := Slab(0, objects, ctls);
      var newSlabOf := slabOf + PagesOf(base / PAGE_SIZE, Pow2(lay.order), base);
      GrowAdds(c, base, mem.ids, b, newWord, newObj, newSlabOf);
      AddKeeps(c, base, b, newWord, newObj, newSlabOf);
      slabs := slabs[base := b];
      free := [base] + free;
      slabCount := slabCount + 1;
      word, ctlObj, slabOf := newWord, newObj, newSlabOf;
      assert State() == Add(c, base, b, newWord, newObj, newSlabOf);
      return true;
    }

    /** `slab_kmem_cache_alloc`: from a slab in use, else from a free one, else from a new one. */
    method Alloc(mem: Supply) returns (ok: bool, obj: nat)
      requires Valid() && (mem.pages ==> CanGrow(State(), mem.base, mem.ids))
      modifies this`slabs, this`partial, this`full, this`free, this`slabCount, this`word, this`ctlObj, this`slabOf,
               this`live
      ensures Valid()
      ensures ok <==> old(partial) != [] || old(free) != [] || mem.Suffices(lay)
      ensures !ok ==> State() == old(State())
      ensures ok ==> obj !in old(live) && live == old(live) + {obj} && obj in live
      ensures ok && (old(partial) != [] || old(free) != []) ==>
              ctlObj == old(ctlObj) && word == old(word) && slabOf == old(slabOf)
      ensures ok && (old(partial) != [] || old(free) != []) ==>
                var s := if old(partial) != [] then old(partial[0]) else old(free[0]);
                exists i: nat :: TookFrom(old(State()), State(), s, i) && obj == ObjAt(lay, s, i)
                  && State() == Take(old(State()), s, obj)
      ensures ok && old(partial) == [] && old(free) == [] ==>
                && mem.base in slabs && slabs == old(slabs)[mem.base := slabs[mem.base]]
                && obj == ObjAt(lay, mem.base, lay.perSlab - 1) && NewPages(old(State()), State(), mem.base)
                && (exists b :: AllNew(lay, mem.base, mem.ids, b)
                     && slabs[mem.base] == Slab(1, b.objects[1..], b.ctls))
                && free == [] && slabCount == old(slabCount) + 1
                && if lay.perSlab == 1 then partial == [] && full == old(full) + [mem.base]
                   else partial == [mem.base] && full == old(full)
    {
      hide Cache.Inv, ObjAt, HasPage, CanGrow, Sound, TookFrom, AllNew, OldWords;
      ghost var grown := partial == [] && free == [];
      if partial == [] && free == [] {
        ok := Grow(mem);
        if !ok { return ok, 0; }
      }
      ghost var c := State();
      var s := if partial != [] then partial[0] else free[0];
      ghost var i := Chosen(c, s);
      TakeKeeps(c, s, i);
      Lengths(c, s);
      obj := TakeObj(s, i);
      if grown { TookNew(c, State(), s, i, mem.ids); }
      return true, obj;
    }

    /** The queues and the count, and then `alloc_slab_obj`. */
    method TakeObj(s: nat, ghost i: nat) returns (obj: nat)
      requires Valid() && CanTake(State(), s, i)
      modifies this`slabs, this`partial, this`full, this`free, this`live
      ensures obj == ObjAt(lay, s, i) && State() == Take(old(State()), s, obj)
      ensures TookFrom(old(State()), State(), s, i)
    {
      hide Cache.Inv, ObjAt, Sound, TookFrom;
      ghost var c := State();
      TakeIs(c, s, i);
      AtObject(c, s, i);
      AtSlab(c, s);
      var count := slabs[s].count;
      if count == 0 {
        free := Without(free, s);
        partial := partial + [s];
      }
      count := count + 1;
      if count == lay.perSlab {
        partial := Without(partial, s);
        full := full + [s];
      }
      var k := slabs[s].objects[0];
      slabs := slabs[s := slabs[s].(count := count, objects := slabs[s].objects[1..])];
      obj := if lay.onSlab then k + ADDR_BYTES else ctlObj[k];
      live := live + {obj};
    }

    /** `slab_kmem_cache_free` */
    method Free(obj: nat)
      requires Valid() && obj in live
      modifies this`slabs, this`partial, this`full, this`free, this`live
      ensures Valid() && live == old(live) - {obj}
      ensures exists s: nat, i: nat :: PutBackTo(old(State()), State(), s, i) && obj == ObjAt(lay, s, i)
                        && State() == Put(old(State()), s, obj, old(slabs[s].ctls[i]))
    {
      hide Cache.Inv, ObjAt, Sound, HasPage, PutBackTo;
      ghost var c := State();
      ghost var s0, i := Holder(c, obj);
      var s := slabOf[obj / PAGE_SIZE];
      InUse(c, s, i);
      PutKeeps(c, s, i);
      PutIs(c, s, i);
      AtObject(c, s, i);
      if slabs[s].count == lay.perSlab { full := Without(full, s); } else { partial := Without(partial, s); }
      var count := slabs[s].count - 1;
      if count > 0 { partial := partial + [s]; }
      var k := if lay.onSlab then obj - ADDR_BYTES else word[obj - ADDR_BYTES];
      slabs := slabs[s := slabs[s].(count := count, objects := [k] + slabs[s].objects)];
      live := live - {obj};
      if count == 0 { free := free + [s]; }
      assert State() == Put(c, s, obj, c.slabs[s].ctls[i]);
    }

    /** `slab_kmem_cache_reap`: free slabs go back, down to the number to keep. */
    method Reap(force: bool)
      requires Valid()
      modifies this`slabs, this`free, this`slabCount, this`slabOf
      ensures Valid() && live == old(live) && partial == old(partial) && full == old(full)
      ensures free == [] || (!force && slabCount <= limits)
      ensures !force && old(slabCount) >= limits ==> slabCount >= limits
      ensures forall s | s in old(slabs) && old(slabs[s].count) > 0 :: s in slabs && slabs[s] == old(slabs[s])
      ensures forall s | s in slabs :: s in old(slabs) && slabs[s] == old(slabs[s])
      ensures exists n: nat :: n <= |old(free)| && free == old(free)[n..]
    {
      hide Cache.Inv, ObjAt, Sound, HasPage;
      ghost var n := 0;
      while free != []
        invariant n <= |old(free)| && free == old(free)[n..]
        invariant forall s | s in slabs :: s in old(slabs) && slabs[s] == old(slabs[s])
        invariant Valid() && live == old(live) && partial == old(partial) && full == old(full)
        invariant !force && old(slabCount) >= limits ==> slabCount >= limits
        invariant forall s | s in old(slabs) && old(slabs[s].count) > 0 :: s in slabs && slabs[s] == old(slabs[s])
        decreases |free|
      {
        if !force && slabCount <= limits { break; }
        ghost var c := State();
        var s := free[0];
        var newSlabOf := slabOf - PagesOf(s / PAGE_SIZE, Pow2(lay.order), s).Keys;
        FreeSlab(c, s);
        DropIs(c, newSlabOf);
        DropKeeps(c, newSlabOf);
        free := free[1..];
        n := n + 1;
        slabCount := slabCount - 1;
        slabs := slabs - {s};
        slabOf := newSlabOf;
        assert State() == Drop(c, newSlabOf);
      }
    }
  }

  /** Freeing an object just allocated from a slab there was leaves every slab as it was: the
      object goes back under the control record it came from. */
  method AllocThenFree(m: KmemCache, mem: Supply) returns (ok: bool)
    requires m.Valid() && (mem.pages ==> CanGrow(m.State(), mem.base, mem.ids)) && (m.partial != [] || m.free != [])
    modifies m
    ensures m.Valid() && ok && m.slabs == old(m.slabs) && m.live == old(m.live)
  {
    hide Cache.Inv, ObjAt, Sound, HasPage, CanGrow, Take, Put;
    ghost var c := m.State();
    var obj;
    ok, obj := m.Alloc(mem);
    ghost var e := m.State();
    ghost var s: nat, i: nat :| CanTake(c, s, i) && obj == ObjAt(c.lay, s, i) && e == Take(c, s, obj);
    m.Free(obj);
    ghost var r: nat, j: nat :| CanPut(e, r, j) && obj == ObjAt(e.lay, r, j)
      && m.State() == Put(e, r, obj, e.slabs[r].ctls[j]);
    TakeThenPut(c, s, i, r, j, obj);
  }

  lemma TakeThenPut(c: Cache, s: nat, i: nat, r: nat, j: nat, o: nat)
    requires CanTake(c, s, i) && o == ObjAt(c.lay, s, i) && o !in c.live && Take(c, s, o).Inv()
    requires CanPut(Take(c, s, o), r, j) && o == ObjAt(c.lay, r, j)
    ensures var g := Put(Take(c, s, o), r, o, Take(c, s, o).slabs[r].ctls[j]); g.slabs == c.slabs && g.live == c.live
  {
    hide Cache.Inv, ObjAt, Without;
    SamePlace(Take(c, s, o), s, i, r, j);
    var b := c.slabs[s];
    assert [b.objects[0]] + b.objects[1..] == b.objects;
    var g := Put(Take(c, s, o), r, o, Take(c, s, o).slabs[r].ctls[j]);
    assert g.slabs[s] == b;
    assert g.live == c.live;
  }

  lemma SamePlace(c: Cache, s: nat, i: nat, r: nat, j: nat)
    requires c.Inv() && s in c.slabs && r in c.slabs && i < |c.slabs[s].ctls| && j < |c.slabs[r].ctls|
    requires ObjAt(c.lay, s, i) == ObjAt(c.lay, r, j)
    ensures s == r && i == j
  {
    hide Cache.Inv, ObjAt;
    Lengths(c, s);
    Lengths(c, r);
    OneObject(c, s, i, r, j);
  }

  lemma FreeSlab(c: Cache, s: nat)
    requires c.Inv() && c.free != [] && s == c.free[0]
    ensures s in c.slabs && c.slabs[s].count == 0 && c.slabCount > 0
  {
    AtSlab(c, s);
    hide Cache.Inv, Sound;
    assert c.slabs.Keys >= {s};
  }

  lemma DropIs(c: Cache, slabOf: map<nat, nat>)
    requires c.free != [] && slabOf == c.slabOf - PagesOf(c.free[0] / PAGE_SIZE, Pow2(c.lay.order), c.free[0]).Keys
    ensures CanDrop(c, slabOf)
  {
  }

  /** A slab of the first queue that is not empty has a free object. */
  lemma Chosen(c: Cache, s: nat) returns (i: nat)
    requires c.Inv() && (if c.partial != [] then s == c.partial[0] else c.free != [] && s == c.free[0])
    ensures CanTake(c, s, i)
  {
    AtSlab(c, s);
    hide Cache.Inv;
    assert c.slabs[s].objects[0] in c.slabs[s].ctls;
    i :| 0 <= i < |c.slabs[s].ctls| && c.slabs[s].ctls[i] == c.slabs[s].objects[0];
  }

  /** Where an object that is held lies. */
  lemma Holder(c: Cache, o: nat) returns (s: nat, i: nat)
    requires c.Inv() && o in c.live
    ensures CanPut(c, s, i) && o == ObjAt(c.lay, s, i) && o / PAGE_SIZE in c.slabOf && c.slabOf[o / PAGE_SIZE] == s
  {
    hide Cache.Inv, ObjAt, Sound, HasPage;
    AtPage(c, 0, o);
    s, i :| c.IsObject(s, i, o);
    PageOfObject(c, s, i);
    AtObject(c, s, i);
    Lengths(c, s);
  }

  // ---- Building a slab ----

  /** The list of free ones has the last object first. */
  ghost predicate Reversed(objects: seq<nat>, ctls: seq<nat>) {
    |objects| == |ctls| && forall j | 0 <= j < |ctls| :: objects[j] == ctls[|ctls| - 1 - j]
  }

  /** The control record of each object: the word before it, or the next that kmalloc gave. */
  ghost predicate Records(lay: Layout, base: nat, ids: seq<nat>, ctls: seq<nat>) {
    && (!lay.onSlab ==> |ctls| <= |ids|)
    && forall j | 0 <= j < |ctls| :: ctls[j] == if lay.onSlab then ObjAt(lay, base, j) - ADDR_BYTES else ids[j]
  }

  lemma RecordsNext(lay: Layout, base: nat, ids: seq<nat>, objects: seq<nat>, ctls: seq<nat>)
    requires Reversed(objects, ctls) && Records(lay, base, ids, ctls) && (lay.onSlab || |ctls| < |ids|)
    requires ObjAt(lay, base, |ctls|) >= ADDR_BYTES
    ensures var k := if lay.onSlab then ObjAt(lay, base, |ctls|) - ADDR_BYTES else ids[|ctls|];
            Reversed([k] + objects, ctls + [k]) && Records(lay, base, ids, ctls + [k])
  {
  }

  /** A slab as it is made: no object in use. */
  ghost predicate AllNew(lay: Layout, base: nat, ids: seq<nat>, b: Slab) {
    b.count == 0 && |b.ctls| == lay.perSlab && Reversed(b.objects, b.ctls) && Records(lay, base, ids, b.ctls)
  }

  /** What the first object taken from a new slab leaves. */
  lemma TookNew(c: Cache, e: Cache, s: nat, i: nat, ids: seq<nat>)
    requires c.Inv() && TookFrom(c, e, s, i) && AllNew(c.lay, s, ids, c.slabs[s])
    requires c.free == [s] && c.partial == []
    ensures i == c.lay.perSlab - 1 && e.free == []
    ensures if c.lay.perSlab == 1 then e.partial == [] && e.full == c.full + [s]
            else e.partial == [s] && e.full == c.full
  {
    hide Cache.Inv, ObjAt;
    Lengths(c, s);
    Positions(c, s, i, c.lay.perSlab - 1);
  }

  /** The pages of the new slab lead to it, and nothing outside them was written. */
  ghost predicate NewPages(c: Cache, e: Cache, base: nat) {
    && e.slabOf == c.slabOf + PagesOf(base / PAGE_SIZE, Pow2(c.lay.order), base)
    && OldWords(c, base, e.word, e.ctlObj)
  }

  /** A slab under construction. */
  ghost predicate Built(c: Cache, base: nat, ids: seq<nat>, ctls: seq<nat>, objects: seq<nat>,
                        word: map<nat, nat>, ctlObj: map<nat, nat>)
  {
    && |ctls| <= c.lay.perSlab && Listed(objects, ctls) && OldWords(c, base, word, ctlObj)
    && (forall j | 0 <= j < |ctls| :: NewCtl(c.lay, base, j, ctls[j], word, ctlObj))
    && (!c.lay.onSlab ==> |ctls| <= |ids| && ctls == ids[..|ctls|])
  }

  lemma BuiltStart(c: Cache, base: nat, ids: seq<nat>)
    ensures Built(c, base, ids, [], [], c.word, c.ctlObj)
  {
  }

  lemma BuiltNext(c: Cache, base: nat, ids: seq<nat>, ctls: seq<nat>, objects: seq<nat>, word: map<nat, nat>,
                  ctlObj: map<nat, nat>)
    requires c.Inv() && CanGrow(c, base, ids) && Built(c, base, ids, ctls, objects, word, ctlObj)
    requires |ctls| < c.lay.perSlab && (c.lay.onSlab || |ctls| < |ids|)
    ensures ObjAt(c.lay, base, |ctls|) >= ADDR_BYTES
    ensures var o := ObjAt(c.lay, base, |ctls|) - ADDR_BYTES; var k := if c.lay.onSlab then o else ids[|ctls|];
            Built(c, base, ids, ctls + [k], [k] + objects, if c.lay.onSlab then word else word[o := k],
                  if c.lay.onSlab then ctlObj else ctlObj[k := o + ADDR_BYTES])
  {
    hide Cache.Inv, ObjAt, HasPage, Listed, CanGrow;
    var i := |ctls|;
    var o := ObjAt(c.lay, base, i) - ADDR_BYTES;
    var k := if c.lay.onSlab then o else ids[i];
    NewId(c, base, ids, i);
    NewPlace(c, base, i);
    forall j | 0 <= j < i
      ensures ctls[j] != k && ObjAt(c.lay, base, j) - ADDR_BYTES != o && NewCtl(c.lay, base, j, ctls[j], word, ctlObj)
    {
      Differs(c, base, ids, j, i);
    }
    ListedNext(objects, ctls, k);
  }

  /** Objects i and j of a slab lie apart, and their control records are two. */
  lemma Differs(c: Cache, base: nat, ids: seq<nat>, j: nat, i: nat)
    requires c.Inv() && CanGrow(c, base, ids) && j < i < c.lay.perSlab
    ensures ObjAt(c.lay, base, j) != ObjAt(c.lay, base, i)
    ensures i < |ids| ==> ids[j] != ids[i]
  {
    AtSlab(c, 0);
    ObjectsApart(c.lay, c.payload, c.record, base, j, i);
    hide Cache.Inv;
  }

  lemma NewId(c: Cache, base: nat, ids: seq<nat>, i: nat)
    requires CanGrow(c, base, ids)
    ensures base % PAGE_SIZE == 0 && (i < |ids| ==> ids[i] !in c.ctlObj)
  {
  }

  lemma ListedNext(objects: seq<nat>, ctls: seq<nat>, k: nat)
    requires Listed(objects, ctls) && k !in ctls
    ensures Listed([k] + objects, ctls + [k])
  {
  }

  lemma NewPlace(c: Cache, base: nat, i: nat)
    requires c.Inv() && base % PAGE_SIZE == 0 && i < c.lay.perSlab
    ensures ObjAt(c.lay, base, i) >= base + ADDR_BYTES
            && HasPage(c.lay, base, (ObjAt(c.lay, base, i) - ADDR_BYTES) / PAGE_SIZE)
  {
    AtSlab(c, 0);
    ObjectsApart(c.lay, c.payload, c.record, base, i, i);
    InPages(base, ObjAt(c.lay, base, i) - ADDR_BYTES, Pow2(c.lay.order));
    hide Cache.Inv, ObjAt, Pow2;
  }

  lemma GrowAdds(c: Cache, base: nat, ids: seq<nat>, b: Slab, word: map<nat, nat>, ctlObj: map<nat, nat>,
                 slabOf: map<nat, nat>)
    requires c.Inv() && CanGrow(c, base, ids) && Built(c, base, ids, b.ctls, b.objects, word, ctlObj)
    requires b.count == 0 && |b.ctls| == c.lay.perSlab
    requires slabOf == c.slabOf + PagesOf(base / PAGE_SIZE, Pow2(c.lay.order), base)
    ensures CanAdd(c, base, b, word, ctlObj, slabOf)
  {
    hide Cache.Inv, ObjAt, NewCtl, Pow2, HasPage;
    NewSlab(c, base, ids);
    GrowPages(c, base, slabOf);
  }

  lemma NewSlab(c: Cache, base: nat, ids: seq<nat>)
    requires c.Inv() && CanGrow(c, base, ids)
    ensures base !in c.slabs
  {
    AtPage(c, base / PAGE_SIZE, 0);
    Pow2Monotone(0, c.lay.order);
    hide Cache.Inv, Pow2;
  }

  lemma GrowPages(c: Cache, base: nat, slabOf: map<nat, nat>)
    requires slabOf == c.slabOf + PagesOf(base / PAGE_SIZE, Pow2(c.lay.order), base)
    ensures forall p | HasPage(c.lay, base, p) :: p in slabOf && slabOf[p] == base
    ensures forall p | !HasPage(c.lay, base, p) :: (p in slabOf <==> p in c.slabOf)
              && (p in c.slabOf ==> slabOf[p] == c.slabOf[p])
  {
    hide Pow2;
  }

  /** The pages from p on belong to the slab at s. */
  function PagesOf(p: nat, n: nat, s: nat): (m: map<nat, nat>)
    ensures forall x :: (x in m <==> p <= x < p + n) && (x in m ==> m[x] == s)
  {
    if n == 0 then map[] else PagesOf(p, n - 1, s)[p + n - 1 := s]
  }

  /** What the page allocator and kmalloc promise. */
  ghost predicate CanGrow(c: Cache, base: nat, ids: seq<nat>) {
    && base % PAGE_SIZE == 0 && (forall p | HasPage(c.lay, base, p) :: p !in c.slabOf)
    && (forall i | 0 <= i < |ids| :: ids[i] !in c.ctlObj) && (forall i, j | 0 <= i < j < |ids| :: ids[i] != ids[j])
  }

  /** objects lists the elements of ctls, each once. */
  ghost predicate Listed(objects: seq<nat>, ctls: seq<nat>) {
    && |objects| == |ctls| && (forall x :: x in objects <==> x in ctls)
    && (forall i, j | 0 <= i < j < |ctls| :: ctls[i] != ctls[j])
    && (forall i, j | 0 <= i < j < |objects| :: objects[i] != objects[j])
  }

  /** Nothing outside the new pages was written. */
  ghost predicate OldWords(c: Cache, base: nat, word: map<nat, nat>, ctlObj: map<nat, nat>) {
    && (forall x | x in c.word :: x in word && (word[x] == c.word[x] || HasPage(c.lay, base, x / PAGE_SIZE)))
    && (forall x | x in c.ctlObj :: x in ctlObj && ctlObj[x] == c.ctlObj[x])
  }
}
