/** The locked sections of the page cache, changed in place: each is the step of the same name. */
module PageCacheOps {
  import opened Queues
  import opened PageCache

  const WORD: nat := 0x1_0000_0000_0000_0000

  /** Where the file system image lies in memory. */
  datatype Extent = Extent(start: nat, end: nat)
  type Image = x: Extent | x.start <= x.end witness Extent(0, 0)

  class CachePool {
    const image: Image
    var pages: map<nat, CPage>
    var tree: map<Key, nat>
    var lru: seq<nat>
    var disk: map<nat, nat>
    ghost var phase: map<nat, Phase>
    ghost var holder: map<nat, nat>
    ghost var truth: map<Key, nat>
    ghost const first: map<nat, nat>

    ghost function State(): Pool
      reads this
    {
      Pool(pages, tree, lru, disk, phase, holder, truth, first)
    }

    ghost predicate Valid()
      reads this
    {
      State().Inv()
    }

    constructor (contents: map<nat, nat>, place: Image)
      ensures State() == Start(contents) && Valid()
      ensures pages == map[] && tree == map[] && lru == [] && phase == map[] && disk == contents && image == place
    {
      image := place;
      pages, tree, lru, disk := map[], map[], [], contents;
      phase, holder, truth, first := map[], map[], map[], contents;
      new;
      StartInv(contents);
    }

    /** A page that was found: it is waited for while busy, else locked and taken off the LRU queue. */
    method Take(t: nat, a: nat)
      requires Valid() && Roams(State(), t) && a in pages
      modifies this
      ensures State() == Found(old(State()), t, a) && Valid() && Took(old(State()), State(), t, a)
      ensures pages.Keys == old(pages).Keys && forall b | b in old(pages) && b != a :: pages[b] == old(pages)[b]
      ensures forall u: nat | u != t :: State().PhaseOf(u) == old(State()).PhaseOf(u)
      ensures old(pages[a]).busy ==>
                && pages[a] == old(pages[a]).(waiters := old(pages[a]).waiters + [t])
                && State().PhaseOf(t) == Waiting(a) && lru == old(lru)
      ensures !old(pages[a]).busy ==>
                && pages[a] == old(pages[a]).(busy := true) && a in holder && holder[a] == t && a !in lru
                && State().PhaseOf(t) == if old(pages[a]).sync == Invalid then Loading(a) else Holding(a)
    {
      hide Pool.Inv, Roams, Took, Without;
      LruWithout(State(), a);
      FoundKeeps(State(), t, a);
      FoundTakes(State(), t, a);
      AtPage(State(), a);
      hide Pool.LruOk, Pool.WaitersOk, Pool.HolderOk, Pool.SyncOk;
      if pages[a].busy {
        pages := pages[a := pages[a].(waiters := pages[a].waiters + [t])];
        phase := phase[t := Waiting(a)];
      } else {
        pages := pages[a := pages[a].(busy := true)];
        phase := phase[t := if pages[a].sync == Invalid then Loading(a) else Holding(a)];
        DropRef(a);
        lru := Without(lru, a);
        AddRef(a);
        holder := holder[a := t];
      }
      assert State() == Found(old(State()), t, a);
    }

    /** `refcnt_dec_and_test` that leaves references. */
    method DropRef(a: nat)
      requires a in pages && pages[a].refs > 1
      modifies this`pages
      ensures pages == old(pages)[a := old(pages[a]).(refs := old(pages[a].refs) - 1)]
    {
      pages := pages[a := pages[a].(refs := pages[a].refs - 1)];
    }

    /** `refcnt_inc_if_valid` */
    method AddRef(a: nat)
      requires a in pages && pages[a].refs > 0
      modifies this`pages
      ensures pages == old(pages)[a := old(pages[a]).(refs := old(pages[a].refs) + 1)]
    {
      pages := pages[a := pages[a].(refs := pages[a].refs + 1)];
    }

    /** `lookup_pagecache`, up to the first unlock. */
    method Find(t: nat, dev: nat, off: nat)
      requires Valid() && State().PhaseOf(t) == Idle
      modifies this
      ensures State() == Lookup(old(State()), t, BlockKey(dev, off)) && Valid()
      ensures var k := BlockKey(dev, off);
              && (k in old(tree) ==> old(tree)[k] in old(pages) && Took(old(State()), State(), t, old(tree)[k]))
              && (k !in old(tree) ==> Misses(old(State()), State(), t, k))
    {
      hide Pool.Inv, Roams, Took, Found;
      LookupIs(State(), t, BlockKey(dev, off));
      var k := BlockKey(dev, off);
      FreeToRoam(State(), t);
      LookupKeeps(State(), t, k);
      AtKey(State(), k);
      if k in tree { Take(t, tree[k]); } else { phase := phase[t := Allocating(k)]; }
    }

    /** `lookup_pagecache`, after a page was allocated. */
    method Insert(t: nat, a: nat, k: Key)
      requires Valid() && Enabled(State(), t, MRegister(a)) && State().PhaseOf(t).key == k
      modifies this
      ensures State() == Register(old(State()), t, a) && Valid()
      ensures k in old(tree) ==> old(tree)[k] in old(pages) && Took(old(State()), State(), t, old(tree)[k])
      ensures k !in old(tree) ==> Entered(old(State()), State(), t, a, k)
    {
      hide Pool.Inv, Roams, Took, Found;
      RegisterIs(State(), t, a);
      FreeToRoam(State(), t);
      AtKey(State(), k);
      ApplyKeeps(State(), t, MRegister(a));
      if k in tree {
        Take(t, tree[k]);
      } else {
        pages := pages[a := CPage(k, true, Invalid, 0, 1, [])];
        tree := tree[k := a];
        AddRef(a);
        holder := holder[a := t];
        phase := phase[t := Loading(a)];
      }
    }

    /** `wait_on_pagecache_nolock`, after the sleeper woke. */
    method Awake(t: nat, a: nat)
      requires Valid() && Enabled(State(), t, MRetry) && State().PhaseOf(t) == Waiting(a)
      modifies this
      ensures State() == Retry(old(State()), t) && Valid()
      ensures a in old(pages) && Took(old(State()), State(), t, a)
    {
      hide Pool.Inv, Roams, Took, Found;
      FreeToRoam(State(), t);
      Take(t, a);
    }

    /** `fill_pagecache` */
    method Fill(t: nat, a: nat)
      requires Valid() && State().PhaseOf(t) == Loading(a)
      modifies this`pages, this`disk, this`phase
      ensures a in old(pages) && State() == Load(old(State()), t) && Valid()
      ensures pages == old(pages)[a := old(pages[a]).(data := old(State()).Disk(old(pages[a].key.off)), sync := Clean)]
      ensures disk == old(disk) && State().PhaseOf(t) == Holding(a)
      ensures forall u: nat | u != t :: State().PhaseOf(u) == old(State()).PhaseOf(u)
    {
      AtThread(State(), t);
      AtPage(State(), a);
      hide Pool.Inv;
      LoadKeeps(State(), t);
      Strategy(a);
      pages := pages[a := pages[a].(sync := Clean)];
      phase := phase[t := Holding(a)];
    }

    /** `fsimg_strategy`: a dirty page is copied to the image, any other from it, at its offset; the
        device does not matter. The test for the ends of the image asks for an address both before its
        start and behind its end: it holds for no offset, and pages behind the end are copied too. */
    method Strategy(a: nat)
      requires a in pages
      modifies this`pages, this`disk
      ensures old(pages[a].sync) == Dirty ==>
                pages == old(pages) && disk == old(disk)[old(pages[a].key.off) := old(pages[a].data)]
      ensures old(pages[a].sync) != Dirty ==>
                pages == old(pages)[a := old(pages[a]).(data := old(State()).Disk(old(pages[a].key.off)))]
                  && disk == old(disk)
    {
      var k := pages[a].key.off;
      var sp := (image.start + k) % WORD;
      if sp < image.start && image.end <= sp { return; }
      if pages[a].sync == Dirty {
        disk := disk[k := pages[a].data];
      } else {
        pages := pages[a := pages[a].(data := if k in disk then disk[k] else 0)];
      }
    }

    /** The holder changes the page, and calls `pagecache_mark_dirty`. */
    method Change(t: nat, a: nat, v: nat)
      requires Valid() && State().PhaseOf(t) == Holding(a)
      modifies this`pages, this`truth
      ensures a in old(pages) && State() == Modify(old(State()), t, v) && Valid()
      ensures pages == old(pages)[a := old(pages[a]).(data := v, sync := Dirty)]
      ensures truth == old(truth)[old(pages[a].key) := v]
    {
      AtThread(State(), t);
      AtPage(State(), a);
      hide Pool.Inv;
      ModifyKeeps(State(), t, v);
      pages := pages[a := pages[a].(data := v)];
      pages := pages[a := pages[a].(sync := Dirty)];
      truth := truth[pages[a].key := v];
    }

    /** `pagecache_write` */
    method Write(t: nat, a: nat)
      requires Valid() && State().PhaseOf(t) == Holding(a)
      modifies this`pages, this`disk
      ensures a in old(pages) && State() == WriteBack(old(State()), t) && Valid()
      ensures old(pages[a].sync) == Dirty ==>
                && pages == old(pages)[a := old(pages[a]).(sync := Clean)]
                && disk == old(disk)[old(pages[a].key.off) := old(pages[a].data)]
      ensures old(pages[a].sync) != Dirty ==>
                && pages ==
                   old(pages)[a := old(pages[a]).(data := old(State()).Disk(old(pages[a].key.off)), sync := Clean)]
                && disk == old(disk)
    {
      AtThread(State(), t);
      AtPage(State(), a);
      hide Pool.Inv;
      WriteKeeps(State(), t);
      Strategy(a);
      pages := pages[a := pages[a].(sync := Clean)];
    }

    /** `pagecache_put`, the first half: the reference of the holder is never the last one. */
    method PutRef(t: nat, a: nat)
      requires Valid() && State().PhaseOf(t) == Holding(a)
      modifies this`pages, this`phase
      ensures a in old(pages) && old(pages[a].refs) == 2 && State() == Unref(old(State()), t) && Valid()
      ensures pages == old(pages)[a := old(pages[a]).(refs := 1)] && State().PhaseOf(t) == Putting(a)
      ensures forall u: nat | u != t :: State().PhaseOf(u) == old(State()).PhaseOf(u)
    {
      AtThread(State(), t);
      AtPage(State(), a);
      hide Pool.Inv;
      UnrefKeeps(State(), t);
      DropRef(a);
      phase := phase[t := Putting(a)];
    }

    /** `pagecache_put`, the second half. */
    method PutPage(t: nat, a: nat)
      requires Valid() && State().PhaseOf(t) == Putting(a)
      modifies this`pages, this`lru, this`holder, this`phase
      ensures a in old(pages) && State() == Release(old(State()), t) && Valid()
      ensures pages == old(pages)[a := old(pages[a]).(refs := 2, busy := false, waiters := [])]
      ensures lru == old(lru) + [a] && a !in holder && State().PhaseOf(t) == Idle
      ensures forall u: nat | u != t :: State().PhaseOf(u) == old(State()).PhaseOf(u)
    {
      AtThread(State(), t);
      AtPage(State(), a);
      ReleaseIs(State(), t);
      hide Pool.Inv;
      ReleaseKeeps(State(), t);
      AddRef(a);
      lru := lru + [a];
      pages := pages[a := pages[a].(busy := false)];
      WakeAll(a);
      holder := holder - {a};
      phase := phase[t := Idle];
    }

    /** `wque_wakeup` on the sleepers of a page. */
    method WakeAll(a: nat)
      requires a in pages
      modifies this`pages
      ensures pages == old(pages)[a := old(pages[a]).(waiters := [])]
    {
      while pages[a].waiters != []
        invariant a in pages && pages == old(pages)[a := old(pages[a]).(waiters := pages[a].waiters)]
        decreases |pages[a].waiters|
      {
        pages := pages[a := pages[a].(waiters := pages[a].waiters[1..])];
      }
    }
  }
}
