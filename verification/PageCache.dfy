/** The page cache as a state machine over the sections that run under its locks: any number of
    threads look up, load, change, write back and give back pages. Pages are registered under a
    device and an offset; the image that is read and written is addressed by the offset alone. */
module PageCache {
  import opened Queues

  datatype Key = Key(dev: nat, off: nat)
  datatype Sync = Invalid | Clean | Dirty

  const PAGE_SIZE: nat := 4096

  /** The block that holds an offset of a device. */
  function BlockKey(dev: nat, off: nat): (k: Key)
    ensures k.off <= off < k.off + PAGE_SIZE && k.off % PAGE_SIZE == 0
  {
    Key(dev, off - off % PAGE_SIZE)
  }

  /** A cached page; waiters are the threads asleep on it. */
  datatype CPage = CPage(key: Key, busy: bool, sync: Sync, data: nat, refs: nat, waiters: seq<nat>)

  /** Where a thread is between two locked sections. */
  datatype Phase =
    | Idle
    | Allocating(key: Key)
    | Waiting(pg: nat)
    | Loading(pg: nat)
    | Holding(pg: nat)
    | Putting(pg: nat)

  /** The pool, the image, and where each thread is. For the proof: who keeps each busy page, what
      was last written to each block, and what the image held at the start. */
  datatype Pool = Pool(pages: map<nat, CPage>, tree: map<Key, nat>, lru: seq<nat>, disk: map<nat, nat>,
                       phase: map<nat, Phase>, holder: map<nat, nat>, truth: map<Key, nat>, first: map<nat, nat>)
  {
    function PhaseOf(t: nat): Phase {
      if t in phase then phase[t] else Idle
    }

    function Disk(off: nat): nat {
      if off in disk then disk[off] else 0
    }

    function Truth(k: Key): nat {
      if k in truth then truth[k] else if k.off in first then first[k.off] else 0
    }

    /** Thread t has page a locked. */
    predicate Uses(t: nat, a: nat) {
      PhaseOf(t) == Loading(a) || PhaseOf(t) == Holding(a) || PhaseOf(t) == Putting(a)
    }

    ghost predicate TreeOk(k: Key) {
      k in tree ==> tree[k] in pages && pages[tree[k]].key == k
    }

    /** A page is in the tree; it is busy exactly when one thread has it locked. */
    ghost predicate HolderOk(a: nat) {
      && (a in pages ==> pages[a].key in tree && tree[pages[a].key] == a && (pages[a].busy <==> a in holder))
      && (a in holder ==> a in pages && Uses(holder[a], a))
    }

    ghost predicate UserOk(t: nat) {
      && (forall a | Uses(t, a) :: a in holder && holder[a] == t)
      && (PhaseOf(t).Waiting? ==> PhaseOf(t).pg in pages)
    }

    /** The pool has a reference, the thread that has the page locked another, the LRU queue
        another. */
    ghost predicate RefsOk(a: nat) {
      a in pages ==>
        pages[a].refs == 1 + (if a in lru then 1 else 0)
                         + (if a in holder && PhaseOf(holder[a]) != Putting(a) then 1 else 0)
    }

    ghost predicate LruOk() {
      && (forall a :: a in lru <==> a in pages && !pages[a].busy)
      && (forall i, j | 0 <= i < j < |lru| :: lru[i] != lru[j])
    }

    /** A page is invalid exactly while it is being loaded. */
    ghost predicate SyncOk(a: nat) {
      a in pages ==> (pages[a].sync == Invalid <==> a in holder && PhaseOf(holder[a]) == Loading(a))
    }

    /** Only threads that wait for a page sleep on it, and none sleeps on a free page. */
    ghost predicate WaitersOk(a: nat) {
      a in pages ==>
        && (forall i | 0 <= i < |pages[a].waiters| :: PhaseOf(pages[a].waiters[i]) == Waiting(a))
        && (forall i, j | 0 <= i < j < |pages[a].waiters| :: pages[a].waiters[i] != pages[a].waiters[j])
        && (!pages[a].busy ==> pages[a].waiters == [])
    }

    ghost predicate Inv() {
      && (forall k {:trigger TreeOk(k)} :: TreeOk(k))
      && (forall a {:trigger HolderOk(a)} :: HolderOk(a))
      && (forall t {:trigger UserOk(t)} :: UserOk(t))
      && (forall a {:trigger RefsOk(a)} :: RefsOk(a))
      && LruOk()
      && (forall a {:trigger SyncOk(a)} :: SyncOk(a))
      && (forall a {:trigger WaitersOk(a)} :: WaitersOk(a))
    }
  }

  // ---- Contents ----

  /** No two devices are used at one offset. */
  ghost predicate OneDevice(uses: set<Key>) {
    forall k, l | k in uses && l in uses && k.off == l.off :: k == l
  }

  /** The blocks that are registered, or about to be, are among those used. */
  ghost predicate UsedOk(s: Pool, uses: set<Key>) {
    && (forall k | k in s.tree :: k in uses)
    && (forall t: nat {:trigger s.PhaseOf(t)} :: s.PhaseOf(t).Allocating? ==> s.PhaseOf(t).key in uses)
  }

  /** The image holds what was last written to a block that is not in the cache. */
  ghost predicate BackedOk(s: Pool, uses: set<Key>, k: Key) {
    k in uses && k !in s.tree ==> s.Disk(k.off) == s.Truth(k)
  }

  /** A page that is loaded holds what was last written, and one that is not dirty what the image
      holds. */
  ghost predicate DataOk(s: Pool, a: nat) {
    a in s.pages ==>
      var p := s.pages[a];
      && (p.sync != Invalid ==> p.data == s.Truth(p.key))
      && (p.sync != Dirty ==> s.Disk(p.key.off) == s.Truth(p.key))
  }

  /** Cache and image agree, as long as one device at most is used at each offset. */
  ghost predicate Agrees(s: Pool, uses: set<Key>) {
    && OneDevice(uses) && UsedOk(s, uses)
    && (forall k {:trigger BackedOk(s, uses, k)} :: BackedOk(s, uses, k))
    && (forall a {:trigger DataOk(s, a)} :: DataOk(s, a))
  }

  // ---- The steps ----

  /** A free page is locked: it leaves the LRU queue and its reference, and gets one from t. */
  function Acquire(s: Pool, t: nat, a: nat): Pool
    requires a in s.pages
  {
    s.(pages := s.pages[a := s.pages[a].(busy := true)], lru := Without(s.lru, a), holder := s.holder[a := t],
       phase := s.phase[t := if s.pages[a].sync == Invalid then Loading(a) else Holding(a)])
  }

  /** A busy page is waited for. */
  function Sleep(s: Pool, t: nat, a: nat): Pool
    requires a in s.pages
  {
    s.(pages := s.pages[a := s.pages[a].(waiters := s.pages[a].waiters + [t])], phase := s.phase[t := Waiting(a)])
  }

  function Found(s: Pool, t: nat, a: nat): Pool
    requires a in s.pages
  {
    if s.pages[a].busy then Sleep(s, t, a) else Acquire(s, t, a)
  }

  /** The search of `lookup_pagecache`. */
  function Lookup(s: Pool, t: nat, k: Key): Pool {
    if k in s.tree && s.tree[k] in s.pages then Found(s, t, s.tree[k]) else s.(phase := s.phase[t := Allocating(k)])
  }

  /** ... and after a page was allocated at address a: it is registered, or given back when
      another thread was faster. */
  function Register(s: Pool, t: nat, a: nat): Pool
    requires s.PhaseOf(t).Allocating?
  {
    var k := s.PhaseOf(t).key;
    if k in s.tree && s.tree[k] in s.pages then Found(s, t, s.tree[k])
    else
      s.(pages := s.pages[a := CPage(k, true, Invalid, 0, 2, [])], tree := s.tree[k := a], holder := s.holder[a := t],
         phase := s.phase[t := Loading(a)])
  }

  /** A thread that is not asleep any more tries again. */
  function Retry(s: Pool, t: nat): Pool
    requires s.PhaseOf(t).Waiting? && s.PhaseOf(t).pg in s.pages
  {
    Found(s, t, s.PhaseOf(t).pg)
  }

  /** A thread gives up: no memory, or an event while it slept. */
  function GiveUp(s: Pool, t: nat): Pool {
    var p := s.PhaseOf(t);
    var r := s.(phase := s.phase[t := Idle]);
    if p.Waiting? && p.pg in s.pages then
      r.(pages := s.pages[p.pg := s.pages[p.pg].(waiters := Without(s.pages[p.pg].waiters, t))])
    else r
  }

  /** `fill_pagecache` */
  function Load(s: Pool, t: nat): Pool
    requires s.PhaseOf(t).Loading? && s.PhaseOf(t).pg in s.pages
  {
    var a := s.PhaseOf(t).pg;
    s.(pages := s.pages[a := s.pages[a].(data := s.Disk(s.pages[a].key.off), sync := Clean)],
       phase := s.phase[t := Holding(a)])
  }

  /** The holder changes the page and calls `pagecache_mark_dirty`. */
  function Modify(s: Pool, t: nat, v: nat): Pool
    requires s.PhaseOf(t).Holding? && s.PhaseOf(t).pg in s.pages
  {
    var a := s.PhaseOf(t).pg;
    s.(pages := s.pages[a := s.pages[a].(data := v, sync := Dirty)], truth := s.truth[s.pages[a].key := v])
  }

  /** `pagecache_write`: the device is written from a dirty page, and read for a clean one. */
  function WriteBack(s: Pool, t: nat): Pool
    requires s.PhaseOf(t).Holding? && s.PhaseOf(t).pg in s.pages
  {
    var a := s.PhaseOf(t).pg;
    var p := s.pages[a];
    if p.sync == Dirty then s.(pages := s.pages[a := p.(sync := Clean)], disk := s.disk[p.key.off := p.data])
    else s.(pages := s.pages[a := p.(sync := Clean, data := s.Disk(p.key.off))])
  }

  /** `pagecache_put`, up to `dec_pcache_reference`. */
  function Unref(s: Pool, t: nat): Pool
    requires s.PhaseOf(t).Holding? && s.PhaseOf(t).pg in s.pages && s.pages[s.PhaseOf(t).pg].refs > 0
  {
    var a := s.PhaseOf(t).pg;
    s.(pages := s.pages[a := s.pages[a].(refs := s.pages[a].refs - 1)], phase := s.phase[t := Putting(a)])
  }

  /** ... and the rest of it: the page goes to the LRU queue and all sleepers wake. */
  function Release(s: Pool, t: nat): Pool
    requires s.PhaseOf(t).Putting? && s.PhaseOf(t).pg in s.pages
  {
    var a := s.PhaseOf(t).pg;
    s.(pages := s.pages[a := s.pages[a].(refs := s.pages[a].refs + 1, busy := false, waiters := [])],
      lru := s.lru + [a],
       holder := s.holder - {a}, phase := s.phase[t := Idle])
  }

  /** The moves of the machine. */
  datatype Move =
    | MLookup(dev: nat, off: nat)
    | MRegister(a: nat)
    | MRetry
    | MGiveUp
    | MLoad
    | MModify(v: nat)
    | MWriteBack
    | MUnref
    | MRelease

  ghost predicate Enabled(s: Pool, t: nat, m: Move) {
    match m
    case MLookup(_, _) => s.PhaseOf(t) == Idle
    case MRegister(a) => s.PhaseOf(t).Allocating? && a !in s.pages && a !in s.holder
    case MRetry => s.PhaseOf(t).Waiting? && s.PhaseOf(t).pg in s.pages && t !in s.pages[s.PhaseOf(t).pg].waiters
    case MGiveUp => s.PhaseOf(t).Allocating? || s.PhaseOf(t).Waiting?
    case MLoad => s.PhaseOf(t).Loading? && s.PhaseOf(t).pg in s.pages
    case MModify(_) => s.PhaseOf(t).Holding? && s.PhaseOf(t).pg in s.pages
    case MWriteBack => s.PhaseOf(t).Holding? && s.PhaseOf(t).pg in s.pages
    case MUnref => s.PhaseOf(t).Holding? && s.PhaseOf(t).pg in s.pages && s.pages[s.PhaseOf(t).pg].refs > 0
    case MRelease => s.PhaseOf(t).Putting? && s.PhaseOf(t).pg in s.pages
  }

  ghost function Apply(s: Pool, t: nat, m: Move): Pool
    requires Enabled(s, t, m)
  {
    match m
    case MLookup(dev, off) => Lookup(s, t, BlockKey(dev, off))
    case MRegister(a) => Register(s, t, a)
    case MRetry => Retry(s, t)
    case MGiveUp => GiveUp(s, t)
    case MLoad => Load(s, t)
    case MModify(v) => Modify(s, t, v)
    case MWriteBack => WriteBack(s, t)
    case MUnref => Unref(s, t)
    case MRelease => Release(s, t)
  }

  // ---- What the steps do ----

  /** Only page a, and where t is, may have changed. */
  ghost predicate Around(s: Pool, e: Pool, t: nat, a: nat) {
    && e.tree == s.tree && e.first == s.first && e.pages.Keys == s.pages.Keys
    && (forall b | b in s.pages && b != a :: e.pages[b] == s.pages[b])
    && (forall u: nat | u != t :: e.PhaseOf(u) == s.PhaseOf(u))
    && (forall b | b != a :: b in e.holder <==> b in s.holder)
    && (forall b | b != a && b in s.holder :: e.holder[b] == s.holder[b])
  }

  /** Thread t has come upon page a: it sleeps behind the others while the page is busy; else it has
      locked the page, which has left the LRU queue, and may use it, or has to load it first. */
  ghost predicate Took(s: Pool, e: Pool, t: nat, a: nat)
    requires a in s.pages
  {
    && Around(s, e, t, a) && e.disk == s.disk && e.truth == s.truth && a in e.pages
    && (s.pages[a].busy ==>
          && e.pages[a] == s.pages[a].(waiters := s.pages[a].waiters + [t]) && e.PhaseOf(t) == Waiting(a)
          && e.lru == s.lru && e.holder == s.holder)
    && (!s.pages[a].busy ==>
          && e.pages[a] == s.pages[a].(busy := true) && a in e.holder && e.holder[a] == t
          && e.PhaseOf(t) == (if s.pages[a].sync == Invalid then Loading(a) else Holding(a))
          && a !in e.lru && exists i: nat :: i < |s.lru| && s.lru[i] == a && e.lru == s.lru[..i] + s.lru[i + 1..])
  }

  lemma FoundTakes(s: Pool, t: nat, a: nat)
    requires s.Inv() && a in s.pages
    ensures Took(s, Found(s, t, a), t, a)
  {
    AtPage(s, a);
    hide Pool.Inv, Took;
    if s.pages[a].busy { SleepTakes(s, t, a); } else { AcquireTakes(s, t, a); }
  }

  lemma SleepTakes(s: Pool, t: nat, a: nat)
    requires a in s.pages && s.pages[a].busy
    ensures Took(s, Sleep(s, t, a), t, a)
  {
  }

  lemma AcquireTakes(s: Pool, t: nat, a: nat)
    requires a in s.pages && !s.pages[a].busy && s.LruOk()
    ensures Took(s, Acquire(s, t, a), t, a)
  {
    WithoutIs(s.lru, a);
    var i := WithoutAt(s.lru, a);
    hide Pool.LruOk, Without;
  }

  lemma LruWithout(s: Pool, a: nat)
    requires s.Inv()
    ensures a !in Without(s.lru, a)
  {
    WithoutIs(s.lru, a);
  }

  /** A block that is not cached is one to be allocated, and nothing else has changed. */
  ghost predicate Misses(s: Pool, e: Pool, t: nat, k: Key) {
    && e == s.(phase := e.phase) && e.PhaseOf(t) == Allocating(k)
    && forall u: nat | u != t :: e.PhaseOf(u) == s.PhaseOf(u)
  }

  lemma LookupIs(s: Pool, t: nat, k: Key)
    requires s.Inv()
    ensures k in s.tree ==> s.tree[k] in s.pages && Took(s, Lookup(s, t, k), t, s.tree[k])
    ensures k !in s.tree ==> Misses(s, Lookup(s, t, k), t, k)
  {
    AtKey(s, k);
    if k in s.tree { FoundTakes(s, t, s.tree[k]); }
  }

  /** A page that is new is busy, invalid and on no queue, and t has to load it. */
  ghost predicate Entered(s: Pool, e: Pool, t: nat, a: nat, k: Key) {
    && e == s.(pages := e.pages, tree := e.tree, holder := e.holder, phase := e.phase)
    && e.pages == s.pages[a := CPage(k, true, Invalid, 0, 2, [])] && e.tree == s.tree[k := a]
    && e.holder == s.holder[a := t] && e.PhaseOf(t) == Loading(a)
    && forall u: nat | u != t :: e.PhaseOf(u) == s.PhaseOf(u)
  }

  lemma RegisterIs(s: Pool, t: nat, a: nat)
    requires s.Inv() && s.PhaseOf(t).Allocating?
    ensures var k := s.PhaseOf(t).key;
            && (k in s.tree ==> s.tree[k] in s.pages && Took(s, Register(s, t, a), t, s.tree[k]))
            && (k !in s.tree ==> Entered(s, Register(s, t, a), t, a, k))
  {
    var k := s.PhaseOf(t).key;
    AtKey(s, k);
    if k in s.tree { FoundTakes(s, t, s.tree[k]); }
  }

  /** A thread that gives up is idle, and sleeps on no page any more. */
  lemma GiveUpIs(s: Pool, t: nat)
    requires s.Inv() && (s.PhaseOf(t).Allocating? || s.PhaseOf(t).Waiting?)
    ensures var e := GiveUp(s, t);
            && e.PhaseOf(t) == Idle && (forall u: nat | u != t :: e.PhaseOf(u) == s.PhaseOf(u))
            && e == s.(pages := e.pages, phase := e.phase) && e.pages.Keys == s.pages.Keys
            && (forall a | a in s.pages :: e.pages[a] == s.pages[a].(waiters := e.pages[a].waiters)
                  && forall u :: u in e.pages[a].waiters <==> u in s.pages[a].waiters && u != t)
  {
    var e := GiveUp(s, t);
    forall a | a in s.pages ensures forall u :: u in e.pages[a].waiters <==> u in s.pages[a].waiters && u != t {
      AtPage(s, a);
      WithoutIs(s.pages[a].waiters, t);
    }
    hide Pool.Inv;
  }

  /** The page goes to the end of the LRU queue, unlocked and with nobody asleep on it. */
  ghost predicate PutBack(s: Pool, e: Pool, t: nat, a: nat)
    requires a in s.pages
  {
    && Around(s, e, t, a) && e.disk == s.disk && e.truth == s.truth && a in e.pages && a !in e.holder
    && e.pages[a] == s.pages[a].(refs := s.pages[a].refs + 1, busy := false, waiters := [])
    && e.lru == s.lru + [a] && e.PhaseOf(t) == Idle
  }

  lemma ReleaseIs(s: Pool, t: nat)
    requires s.PhaseOf(t).Putting? && s.PhaseOf(t).pg in s.pages
    ensures PutBack(s, Release(s, t), t, s.PhaseOf(t).pg)
  {
  }

  // ---- Every step keeps the invariant ----

  lemma Whole(s: Pool)
    requires (forall k {:trigger s.TreeOk(k)} :: s.TreeOk(k)) && (forall a {:trigger s.HolderOk(a)} :: s.HolderOk(a))
    requires (forall t {:trigger s.UserOk(t)} :: s.UserOk(t)) && (forall a {:trigger s.RefsOk(a)} :: s.RefsOk(a))
    requires s.LruOk()
    requires (forall a {:trigger s.SyncOk(a)} :: s.SyncOk(a)) && (forall a {:trigger s.WaitersOk(a)} :: s.WaitersOk(a))
    ensures s.Inv()
  {
  }

  lemma AtPage(s: Pool, a: nat)
    requires s.Inv()
    ensures s.HolderOk(a) && s.RefsOk(a) && s.SyncOk(a) && s.WaitersOk(a) && s.LruOk()
  {
  }

  lemma AtKey(s: Pool, k: Key)
    requires s.Inv()
    ensures s.TreeOk(k)
  {
  }

  lemma AtThread(s: Pool, t: nat)
    requires s.Inv()
    ensures s.UserOk(t)
  {
  }

  /** The thread is in no page's way and sleeps on none. */
  ghost predicate Roams(s: Pool, t: nat) {
    && !s.PhaseOf(t).Loading? && !s.PhaseOf(t).Holding? && !s.PhaseOf(t).Putting?
    && (forall a | a in s.pages :: t !in s.pages[a].waiters)
  }

  lemma AcquireKeeps(s: Pool, t: nat, a: nat)
    requires s.Inv() && Roams(s, t) && a in s.pages && !s.pages[a].busy
    ensures Acquire(s, t, a).Inv()
  {
    var e := Acquire(s, t, a);
    AtPage(s, a);
    WithoutIs(s.lru, a);
    forall k ensures e.TreeOk(k) { AtKey(s, k); }
    forall u ensures e.UserOk(u) { AtThread(s, u); }
    hide Pool.TreeOk, Pool.UserOk;
    forall b ensures e.HolderOk(b) { AtPage(s, b); }
    hide Pool.HolderOk;
    forall b ensures e.RefsOk(b) && e.SyncOk(b) && e.WaitersOk(b) { AtPage(s, b); AcquireAt(s, t, a, b); }
    hide Pool.RefsOk, Pool.SyncOk, Pool.WaitersOk, Pool.Inv;
    Whole(e);
  }

  lemma AcquireAt(s: Pool, t: nat, a: nat, b: nat)
    requires s.Inv() && Roams(s, t) && a in s.pages && !s.pages[a].busy
    ensures Acquire(s, t, a).RefsOk(b) && Acquire(s, t, a).SyncOk(b) && Acquire(s, t, a).WaitersOk(b)
  {
    AtPage(s, a);
    AtPage(s, b);
    WithoutIs(s.lru, a);
    hide Pool.Inv, Without;
  }

  lemma SleepKeeps(s: Pool, t: nat, a: nat)
    requires s.Inv() && Roams(s, t) && a in s.pages && s.pages[a].busy
    ensures Sleep(s, t, a).Inv()
  {
    var e := Sleep(s, t, a);
    forall k ensures e.TreeOk(k) { AtKey(s, k); }
    forall u ensures e.UserOk(u) { AtThread(s, u); }
    hide Pool.TreeOk, Pool.UserOk;
    forall b ensures e.HolderOk(b) && e.RefsOk(b) && e.SyncOk(b) && e.WaitersOk(b) { SleepAt(s, t, a, b); }
    AtPage(s, a);
    hide Pool.RefsOk, Pool.SyncOk, Pool.WaitersOk, Pool.HolderOk, Pool.Inv;
    Whole(e);
  }

  lemma SleepAt(s: Pool, t: nat, a: nat, b: nat)
    requires s.Inv() && Roams(s, t) && a in s.pages && s.pages[a].busy
    ensures Sleep(s, t, a).HolderOk(b) && Sleep(s, t, a).RefsOk(b) && Sleep(s, t, a).SyncOk(b)
            && Sleep(s, t, a).WaitersOk(b)
  {
    AtPage(s, a);
    AtPage(s, b);
    hide Pool.Inv;
  }

  lemma NewKeeps(s: Pool, t: nat, a: nat)
    requires s.Inv() && s.PhaseOf(t).Allocating? && a !in s.pages && a !in s.holder
    requires s.PhaseOf(t).key in s.tree ==> s.tree[s.PhaseOf(t).key] !in s.pages
    ensures Register(s, t, a).Inv()
  {
    var e := Register(s, t, a);
    AtThread(s, t);
    AtPage(s, a);
    AtKey(s, s.PhaseOf(t).key);
    assert e.LruOk();
    forall k ensures e.TreeOk(k) { AtKey(s, k); }
    hide Pool.TreeOk, Pool.LruOk;
    forall u ensures e.UserOk(u) { AtThread(s, u); }
    hide Pool.UserOk, Register;
    forall b ensures e.HolderOk(b) && e.RefsOk(b) && e.SyncOk(b) && e.WaitersOk(b) { NewAt(s, t, a, b); }
    hide Pool.Inv, Pool.HolderOk, Pool.RefsOk, Pool.SyncOk, Pool.WaitersOk;
    Whole(e);
  }

  lemma NewAt(s: Pool, t: nat, a: nat, b: nat)
    requires s.Inv() && s.PhaseOf(t).Allocating? && a !in s.pages && a !in s.holder
    requires s.PhaseOf(t).key in s.tree ==> s.tree[s.PhaseOf(t).key] !in s.pages
    ensures var e := Register(s, t, a); e.HolderOk(b) && e.RefsOk(b) && e.SyncOk(b) && e.WaitersOk(b)
  {
    AtThread(s, t);
    AtPage(s, a);
    AtKey(s, s.PhaseOf(t).key);
    AtPage(s, b);
    hide Pool.Inv;
  }

  lemma LoadKeeps(s: Pool, t: nat)
    requires s.Inv() && s.PhaseOf(t).Loading? && s.PhaseOf(t).pg in s.pages
    ensures Load(s, t).Inv()
  {
    var e := Load(s, t);
    AtThread(s, t);
    AtPage(s, s.PhaseOf(t).pg);
    AtKey(s, s.pages[s.PhaseOf(t).pg].key);
    assert e.LruOk();
    forall k ensures e.TreeOk(k) { AtKey(s, k); }
    hide Pool.TreeOk, Pool.LruOk;
    forall u ensures e.UserOk(u) { AtThread(s, u); }
    hide Pool.UserOk, Load;
    forall b ensures e.HolderOk(b) && e.RefsOk(b) && e.SyncOk(b) && e.WaitersOk(b) { LoadAt(s, t, b); }
    hide Pool.Inv, Pool.HolderOk, Pool.RefsOk, Pool.SyncOk, Pool.WaitersOk;
    Whole(e);
  }

  lemma LoadAt(s: Pool, t: nat, b: nat)
    requires s.Inv() && s.PhaseOf(t).Loading? && s.PhaseOf(t).pg in s.pages
    ensures var e := Load(s, t); e.HolderOk(b) && e.RefsOk(b) && e.SyncOk(b) && e.WaitersOk(b)
  {
    AtThread(s, t);
    AtPage(s, s.PhaseOf(t).pg);
    AtKey(s, s.pages[s.PhaseOf(t).pg].key);
    AtPage(s, b);
    hide Pool.Inv;
  }

  lemma ModifyKeeps(s: Pool, t: nat, v: nat)
    requires s.Inv() && s.PhaseOf(t).Holding? && s.PhaseOf(t).pg in s.pages
    ensures Modify(s, t, v).Inv()
  {
    var e := Modify(s, t, v);
    AtThread(s, t);
    AtPage(s, s.PhaseOf(t).pg);
    AtKey(s, s.pages[s.PhaseOf(t).pg].key);
    assert e.LruOk();
    forall k ensures e.TreeOk(k) { AtKey(s, k); }
    hide Pool.TreeOk, Pool.LruOk;
    forall u ensures e.UserOk(u) { AtThread(s, u); }
    hide Pool.UserOk;
    forall b ensures e.HolderOk(b) && e.RefsOk(b) && e.SyncOk(b) && e.WaitersOk(b) { AtPage(s, b); }
    hide Pool.Inv, Pool.HolderOk, Pool.RefsOk, Pool.SyncOk, Pool.WaitersOk;
    Whole(e);
  }

  lemma WriteKeeps(s: Pool, t: nat)
    requires s.Inv() && s.PhaseOf(t).Holding? && s.PhaseOf(t).pg in s.pages
    ensures WriteBack(s, t).Inv()
  {
    var e := WriteBack(s, t);
    AtThread(s, t);
    AtPage(s, s.PhaseOf(t).pg);
    AtKey(s, s.pages[s.PhaseOf(t).pg].key);
    assert e.LruOk();
    forall k ensures e.TreeOk(k) { AtKey(s, k); }
    hide Pool.TreeOk, Pool.LruOk;
    forall u ensures e.UserOk(u) { AtThread(s, u); }
    hide Pool.UserOk, WriteBack;
    forall b ensures e.HolderOk(b) && e.RefsOk(b) && e.SyncOk(b) && e.WaitersOk(b) { WriteAt(s, t, b); }
    hide Pool.Inv, Pool.HolderOk, Pool.RefsOk, Pool.SyncOk, Pool.WaitersOk;
    Whole(e);
  }

  lemma WriteAt(s: Pool, t: nat, b: nat)
    requires s.Inv() && s.PhaseOf(t).Holding? && s.PhaseOf(t).pg in s.pages
    ensures var e := WriteBack(s, t); e.HolderOk(b) && e.RefsOk(b) && e.SyncOk(b) && e.WaitersOk(b)
  {
    hide Pool.Inv;
    AtThread(s, t);
    AtPage(s, s.PhaseOf(t).pg);
    AtKey(s, s.pages[s.PhaseOf(t).pg].key);
    AtPage(s, b);
  }

  lemma UnrefKeeps(s: Pool, t: nat)
    requires s.Inv() && s.PhaseOf(t).Holding? && s.PhaseOf(t).pg in s.pages && s.pages[s.PhaseOf(t).pg].refs > 0
    ensures Unref(s, t).Inv()
  {
    var e := Unref(s, t);
    AtThread(s, t);
    AtPage(s, s.PhaseOf(t).pg);
    AtKey(s, s.pages[s.PhaseOf(t).pg].key);
    assert e.LruOk();
    forall k ensures e.TreeOk(k) { AtKey(s, k); }
    hide Pool.TreeOk, Pool.LruOk;
    forall u ensures e.UserOk(u) { AtThread(s, u); }
    hide Pool.UserOk, Unref;
    forall b ensures e.HolderOk(b) && e.RefsOk(b) && e.SyncOk(b) && e.WaitersOk(b) { UnrefAt(s, t, b); }
    hide Pool.Inv, Pool.HolderOk, Pool.RefsOk, Pool.SyncOk, Pool.WaitersOk;
    Whole(e);
  }

  lemma UnrefAt(s: Pool, t: nat, b: nat)
    requires s.Inv() && s.PhaseOf(t).Holding? && s.PhaseOf(t).pg in s.pages && s.pages[s.PhaseOf(t).pg].refs > 0
    ensures var e := Unref(s, t); e.HolderOk(b) && e.RefsOk(b) && e.SyncOk(b) && e.WaitersOk(b)
  {
    AtThread(s, t);
    AtPage(s, s.PhaseOf(t).pg);
    AtKey(s, s.pages[s.PhaseOf(t).pg].key);
    AtPage(s, b);
    hide Pool.Inv;
  }

  lemma ReleaseKeeps(s: Pool, t: nat)
    requires s.Inv() && s.PhaseOf(t).Putting? && s.PhaseOf(t).pg in s.pages
    ensures Release(s, t).Inv()
  {
    var e := Release(s, t);
    AtThread(s, t);
    AtPage(s, s.PhaseOf(t).pg);
    AtKey(s, s.pages[s.PhaseOf(t).pg].key);
    assert e.LruOk();
    forall k ensures e.TreeOk(k) { AtKey(s, k); }
    hide Pool.TreeOk, Pool.LruOk;
    forall u ensures e.UserOk(u) { AtThread(s, u); }
    hide Pool.UserOk, Release;
    forall b ensures e.HolderOk(b) && e.RefsOk(b) && e.SyncOk(b) && e.WaitersOk(b) { ReleaseAt(s, t, b); }
    hide Pool.Inv, Pool.HolderOk, Pool.RefsOk, Pool.SyncOk, Pool.WaitersOk;
    Whole(e);
  }

  lemma ReleaseAt(s: Pool, t: nat, b: nat)
    requires s.Inv() && s.PhaseOf(t).Putting? && s.PhaseOf(t).pg in s.pages
    ensures var e := Release(s, t); e.HolderOk(b) && e.RefsOk(b) && e.SyncOk(b) && e.WaitersOk(b)
  {
    AtThread(s, t);
    AtPage(s, s.PhaseOf(t).pg);
    AtKey(s, s.pages[s.PhaseOf(t).pg].key);
    AtPage(s, b);
    hide Pool.Inv;
  }

  lemma GiveUpKeeps(s: Pool, t: nat)
    requires s.Inv() && (s.PhaseOf(t).Allocating? || s.PhaseOf(t).Waiting?)
    ensures GiveUp(s, t).Inv()
  {
    var e := GiveUp(s, t);
    AtThread(s, t);
    if s.PhaseOf(t).Waiting? {
      AtPage(s, s.PhaseOf(t).pg);
      WithoutIs(s.pages[s.PhaseOf(t).pg].waiters, t);
    }
    AtPage(s, 0);
    assert e.LruOk();
    forall k ensures e.TreeOk(k) { AtKey(s, k); }
    hide Pool.TreeOk, Pool.LruOk;
    forall u ensures e.UserOk(u) { AtThread(s, u); }
    hide Pool.UserOk;
    forall b ensures e.HolderOk(b) && e.RefsOk(b) && e.SyncOk(b) && e.WaitersOk(b) { GiveUpAt(s, t, b); }
    hide Pool.Inv, Pool.HolderOk, Pool.RefsOk, Pool.SyncOk, Pool.WaitersOk;
    Whole(e);
  }

  lemma GiveUpAt(s: Pool, t: nat, b: nat)
    requires s.Inv() && (s.PhaseOf(t).Allocating? || s.PhaseOf(t).Waiting?)
    ensures var e := GiveUp(s, t); e.HolderOk(b) && e.RefsOk(b) && e.SyncOk(b) && e.WaitersOk(b)
  {
    AtPage(s, b);
    AtThread(s, t);
    if b in s.pages && s.PhaseOf(t) == Waiting(b) {
      var q := s.pages[b].waiters;
      WithoutIs(q, t);
      forall i | 0 <= i < |Without(q, t)| ensures Without(q, t)[i] in q && Without(q, t)[i] != t {
        assert Without(q, t)[i] in Without(q, t);
      }
    }
    hide Pool.Inv, Without;
  }

  /** A thread that neither has a page nor sleeps is free to take one. */
  lemma FreeToRoam(s: Pool, t: nat)
    requires s.Inv()
    requires s.PhaseOf(t).Idle? || s.PhaseOf(t).Allocating?
          || (s.PhaseOf(t).Waiting? && s.PhaseOf(t).pg in s.pages && t !in s.pages[s.PhaseOf(t).pg].waiters)
    ensures Roams(s, t)
  {
    forall a | a in s.pages ensures t !in s.pages[a].waiters { AtPage(s, a); }
  }

  lemma FoundKeeps(s: Pool, t: nat, a: nat)
    requires s.Inv() && Roams(s, t) && a in s.pages
    ensures Found(s, t, a).Inv()
  {
    if s.pages[a].busy { SleepKeeps(s, t, a); } else { AcquireKeeps(s, t, a); }
  }

  lemma LookupKeeps(s: Pool, t: nat, k: Key)
    requires s.Inv() && s.PhaseOf(t) == Idle
    ensures Lookup(s, t, k).Inv()
  {
    hide Pool.Inv, Found, Roams;
    FreeToRoam(s, t);
    if k in s.tree && s.tree[k] in s.pages {
      FoundKeeps(s, t, s.tree[k]);
    } else {
      var e := Lookup(s, t, k);
      LookupLru(s, t, k);
      hide Pool.TreeOk, Pool.UserOk, Pool.HolderOk, Pool.RefsOk, Pool.SyncOk, Pool.WaitersOk, Pool.LruOk, Lookup;
      forall j ensures e.TreeOk(j) { LookupAt(s, t, k, j, 0, 0); }
      forall u ensures e.UserOk(u) { LookupAt(s, t, k, k, u, 0); }
      forall b ensures e.HolderOk(b) && e.RefsOk(b) && e.SyncOk(b) && e.WaitersOk(b) { LookupAt(s, t, k, k, 0, b); }
      Whole(e);
    }
  }

  lemma LookupLru(s: Pool, t: nat, k: Key)
    requires s.Inv() && !(k in s.tree && s.tree[k] in s.pages)
    ensures Lookup(s, t, k).LruOk()
  {
    AtPage(s, 0);
    hide Pool.Inv;
  }

  lemma LookupAt(s: Pool, t: nat, k: Key, j: Key, u: nat, b: nat)
    requires s.Inv() && s.PhaseOf(t) == Idle && !(k in s.tree && s.tree[k] in s.pages)
    ensures var e := Lookup(s, t, k);
            e.TreeOk(j) && e.UserOk(u) && e.HolderOk(b) && e.RefsOk(b) && e.SyncOk(b) && e.WaitersOk(b)
  {
    AtKey(s, j);
    AtThread(s, u);
    AtPage(s, b);
    hide Pool.Inv;
  }

  /** Every move of every thread keeps the invariant. */
  lemma ApplyKeeps(s: Pool, t: nat, m: Move)
    requires s.Inv() && Enabled(s, t, m)
    ensures Apply(s, t, m).Inv()
  {
    hide Pool.Inv;
    match m
    case MLookup(dev, off) => LookupKeeps(s, t, BlockKey(dev, off));
    case MRegister(a) =>
      FreeToRoam(s, t);
      var k := s.PhaseOf(t).key;
      if k in s.tree && s.tree[k] in s.pages { FoundKeeps(s, t, s.tree[k]); } else { NewKeeps(s, t, a); }
    case MRetry =>
      FreeToRoam(s, t);
      FoundKeeps(s, t, s.PhaseOf(t).pg);
    case MGiveUp => GiveUpKeeps(s, t);
    case MLoad => LoadKeeps(s, t);
    case MModify(v) => ModifyKeeps(s, t, v);
    case MWriteBack => WriteKeeps(s, t);
    case MUnref => UnrefKeeps(s, t);
    case MRelease => ReleaseKeeps(s, t);
  }

  // ---- Whole runs ----

  /** An empty pool over an image. */
  function Start(disk: map<nat, nat>): Pool {
    Pool(map[], map[], [], disk, map[], map[], map[], disk)
  }

  /** run leads from s to e. */
  ghost predicate Runs(s: Pool, run: seq<(nat, Move)>, e: Pool)
    decreases |run|
  {
    if run == [] then e == s
    else Enabled(s, run[0].0, run[0].1) && Runs(Apply(s, run[0].0, run[0].1), run[1..], e)
  }

  lemma {:induction false} RunsKeep(s: Pool, run: seq<(nat, Move)>, e: Pool)
    requires s.Inv() && Runs(s, run, e)
    ensures e.Inv()
    decreases |run|
  {
    hide Pool.Inv, Apply, Enabled;
    if run != [] {
      ApplyKeeps(s, run[0].0, run[0].1);
      RunsKeep(Apply(s, run[0].0, run[0].1), run[1..], e);
    }
  }

  /** What the last change of block k in a run wrote, or what the device held before. */
  ghost function LastWritten(s: Pool, run: seq<(nat, Move)>, k: Key, v: nat): nat
    decreases |run|
  {
    if run == [] || !Enabled(s, run[0].0, run[0].1) then v
    else
      var t, m := run[0].0, run[0].1;
      LastWritten(Apply(s, t, m), run[1..], k,
                  if m.MModify? && s.pages[s.PhaseOf(t).pg].key == k then m.v else v)
  }

  lemma {:induction false} TruthIsLastWritten(s: Pool, run: seq<(nat, Move)>, e: Pool, k: Key)
    requires Runs(s, run, e)
    ensures e.Truth(k) == LastWritten(s, run, k, s.Truth(k))
    decreases |run|
  {
    if run != [] {
      var t, m := run[0].0, run[0].1;
      OneTruth(s, t, m, k);
      TruthIsLastWritten(Apply(s, t, m), run[1..], e, k);
    }
  }

  lemma OneTruth(s: Pool, t: nat, m: Move, k: Key)
    requires Enabled(s, t, m)
    ensures Apply(s, t, m).Truth(k) == if m.MModify? && s.pages[s.PhaseOf(t).pg].key == k then m.v else s.Truth(k)
  {
  }

  // ---- What readers see ----

  /** The run looks up blocks of uses only. */
  ghost predicate Within(run: seq<(nat, Move)>, uses: set<Key>) {
    forall i | 0 <= i < |run| && run[i].1.MLookup? :: BlockKey(run[i].1.dev, run[i].1.off) in uses
  }

  /** Steps that take a page, or leave it: neither contents nor image change. */
  lemma SameContents(s: Pool, e: Pool, uses: set<Key>)
    requires Agrees(s, uses) && e.disk == s.disk && e.truth == s.truth && e.first == s.first && e.tree == s.tree
    requires e.pages.Keys == s.pages.Keys && UsedOk(e, uses)
    requires forall a | a in s.pages ::
               e.pages[a].key == s.pages[a].key && e.pages[a].data == s.pages[a].data
                 && e.pages[a].sync == s.pages[a].sync
    ensures Agrees(e, uses)
  {
    forall k ensures BackedOk(e, uses, k) { assert BackedOk(s, uses, k); }
    forall a ensures DataOk(e, a) { assert DataOk(s, a); }
  }

  lemma NewAgrees(s: Pool, t: nat, a: nat, uses: set<Key>)
    requires s.Inv() && Agrees(s, uses) && s.PhaseOf(t).Allocating? && a !in s.pages && a !in s.holder
    requires s.PhaseOf(t).key in s.tree ==> s.tree[s.PhaseOf(t).key] !in s.pages
    ensures Agrees(Register(s, t, a), uses)
  {
    var e := Register(s, t, a);
    var key := s.PhaseOf(t).key;
    AtKey(s, key);
    hide Pool.Inv;
    assert BackedOk(s, uses, key);
    forall k ensures BackedOk(e, uses, k) { assert BackedOk(s, uses, k); }
    forall b ensures DataOk(e, b) { assert DataOk(s, b); }
    forall u: nat | e.PhaseOf(u).Allocating? ensures e.PhaseOf(u).key in uses { assert e.PhaseOf(u) == s.PhaseOf(u); }
  }

  /** Loading, changing and writing back touch one block, and no other one used has its offset. */
  lemma OneBlock(s: Pool, a: nat, uses: set<Key>)
    requires s.Inv() && Agrees(s, uses) && a in s.pages
    ensures forall b | b in s.pages && s.pages[b].key == s.pages[a].key :: b == a
    ensures forall b | b in s.pages && s.pages[b].key.off == s.pages[a].key.off :: b == a
    ensures forall k | k in uses && k.off == s.pages[a].key.off :: k in s.tree
    ensures s.pages[a].key in uses
  {
    forall b ensures b in s.pages ==> s.pages[b].key in s.tree && s.tree[s.pages[b].key] == b { AtPage(s, b); }
    hide Pool.Inv;
  }

  /** Only page a and its block may have changed. */
  lemma OnlyBlock(s: Pool, e: Pool, a: nat, uses: set<Key>)
    requires s.Inv() && Agrees(s, uses) && a in s.pages && UsedOk(e, uses) && e.tree == s.tree && e.first == s.first
    requires a in e.pages && e.pages == s.pages[a := e.pages[a]] && e.pages[a].key == s.pages[a].key
    requires e.disk == s.disk || e.disk == s.disk[s.pages[a].key.off := e.Disk(s.pages[a].key.off)]
    requires e.truth == s.truth || e.truth == s.truth[s.pages[a].key := e.Truth(s.pages[a].key)]
    requires DataOk(e, a)
    ensures Agrees(e, uses)
  {
    OneBlock(s, a, uses);
    hide Pool.Inv;
    forall k ensures BackedOk(e, uses, k) { assert BackedOk(s, uses, k); }
    forall b ensures DataOk(e, b) { assert DataOk(s, b); }
  }

  lemma StillUsed(s: Pool, e: Pool, t: nat, uses: set<Key>)
    requires Agrees(s, uses) && e.tree == s.tree && !e.PhaseOf(t).Allocating?
    requires forall u: nat | u != t :: e.PhaseOf(u) == s.PhaseOf(u)
    ensures UsedOk(e, uses)
  {
  }

  lemma LoadAgrees(s: Pool, t: nat, uses: set<Key>)
    requires s.Inv() && Agrees(s, uses) && s.PhaseOf(t).Loading? && s.PhaseOf(t).pg in s.pages
    ensures Agrees(Load(s, t), uses)
  {
    var a := s.PhaseOf(t).pg;
    AtThread(s, t);
    AtPage(s, a);
    hide Pool.Inv;
    assert DataOk(s, a);
    StillUsed(s, Load(s, t), t, uses);
    hide Agrees, UsedOk;
    OnlyBlock(s, Load(s, t), a, uses);
  }

  lemma ModifyAgrees(s: Pool, t: nat, v: nat, uses: set<Key>)
    requires s.Inv() && Agrees(s, uses) && s.PhaseOf(t).Holding? && s.PhaseOf(t).pg in s.pages
    ensures Agrees(Modify(s, t, v), uses)
  {
    hide Pool.Inv;
    StillUsed(s, Modify(s, t, v), t, uses);
    hide Agrees, UsedOk;
    OnlyBlock(s, Modify(s, t, v), s.PhaseOf(t).pg, uses);
  }

  lemma WriteAgrees(s: Pool, t: nat, uses: set<Key>)
    requires s.Inv() && Agrees(s, uses) && s.PhaseOf(t).Holding? && s.PhaseOf(t).pg in s.pages
    ensures Agrees(WriteBack(s, t), uses)
  {
    hide Pool.Inv, Agrees, UsedOk, DataOk;
    var a, e := s.PhaseOf(t).pg, WriteBack(s, t);
    StillUsed(s, e, t, uses);
    WrittenPage(s, t, uses);
    OnlyBlock(s, e, a, uses);
  }

  lemma WrittenPage(s: Pool, t: nat, uses: set<Key>)
    requires Agrees(s, uses) && s.PhaseOf(t).Holding? && s.PhaseOf(t).pg in s.pages
    ensures DataOk(WriteBack(s, t), s.PhaseOf(t).pg)
  {
    assert DataOk(s, s.PhaseOf(t).pg);
    hide Agrees;
  }

  lemma FoundAgrees(s: Pool, t: nat, a: nat, uses: set<Key>)
    requires Agrees(s, uses) && a in s.pages
    ensures Agrees(Found(s, t, a), uses)
  {
    hide Agrees, UsedOk, Without;
    var e := if s.pages[a].busy then Sleep(s, t, a) else Acquire(s, t, a);
    StillUsed(s, e, t, uses);
    SameContents(s, e, uses);
  }

  lemma LookupAgrees(s: Pool, t: nat, k: Key, uses: set<Key>)
    requires Agrees(s, uses) && k in uses
    ensures Agrees(Lookup(s, t, k), uses)
  {
    if k in s.tree && s.tree[k] in s.pages {
      FoundAgrees(s, t, s.tree[k], uses);
    } else {
      var e := Lookup(s, t, k);
      forall u: nat | e.PhaseOf(u).Allocating? ensures e.PhaseOf(u).key in uses {
        assert u != t ==> e.PhaseOf(u) == s.PhaseOf(u);
      }
      hide Agrees;
      SameContents(s, e, uses);
    }
  }

  lemma GiveUpAgrees(s: Pool, t: nat, uses: set<Key>)
    requires Agrees(s, uses) && (s.PhaseOf(t).Allocating? || s.PhaseOf(t).Waiting?)
    ensures Agrees(GiveUp(s, t), uses)
  {
    hide Agrees, UsedOk, Without;
    StillUsed(s, GiveUp(s, t), t, uses);
    SameContents(s, GiveUp(s, t), uses);
  }

  lemma UnrefAgrees(s: Pool, t: nat, uses: set<Key>)
    requires Agrees(s, uses) && s.PhaseOf(t).Holding? && s.PhaseOf(t).pg in s.pages && s.pages[s.PhaseOf(t).pg].refs > 0
    ensures Agrees(Unref(s, t), uses)
  {
    hide Agrees, UsedOk, Without;
    StillUsed(s, Unref(s, t), t, uses);
    SameContents(s, Unref(s, t), uses);
  }

  lemma ReleaseAgrees(s: Pool, t: nat, uses: set<Key>)
    requires Agrees(s, uses) && s.PhaseOf(t).Putting? && s.PhaseOf(t).pg in s.pages
    ensures Agrees(Release(s, t), uses)
  {
    hide Agrees, UsedOk, Without;
    StillUsed(s, Release(s, t), t, uses);
    SameContents(s, Release(s, t), uses);
  }

  lemma ApplyAgrees(s: Pool, t: nat, m: Move, uses: set<Key>)
    requires s.Inv() && Agrees(s, uses) && Enabled(s, t, m) && (m.MLookup? ==> BlockKey(m.dev, m.off) in uses)
    ensures Agrees(Apply(s, t, m), uses)
  {
    hide Pool.Inv, Agrees, Found, Load, Modify, WriteBack, Unref, Release, GiveUp;
    match m
    case MLookup(dev, off) => LookupAgrees(s, t, BlockKey(dev, off), uses);
    case MRegister(a) =>
      var k := s.PhaseOf(t).key;
      if k in s.tree && s.tree[k] in s.pages { FoundAgrees(s, t, s.tree[k], uses); } else { NewAgrees(s, t, a, uses); }
    case MRetry => FoundAgrees(s, t, s.PhaseOf(t).pg, uses);
    case MLoad => LoadAgrees(s, t, uses);
    case MModify(v) => ModifyAgrees(s, t, v, uses);
    case MWriteBack => WriteAgrees(s, t, uses);
    case MUnref => UnrefAgrees(s, t, uses);
    case MRelease => ReleaseAgrees(s, t, uses);
    case MGiveUp => GiveUpAgrees(s, t, uses);
  }

  lemma {:induction false} RunsAgree(s: Pool, run: seq<(nat, Move)>, e: Pool, uses: set<Key>)
    requires s.Inv() && Agrees(s, uses) && Within(run, uses) && Runs(s, run, e)
    ensures Agrees(e, uses)
    decreases |run|
  {
    hide Pool.Inv, Apply, Enabled, Agrees;
    if run != [] {
      var t, m := run[0].0, run[0].1;
      ApplyKeeps(s, t, m);
      assert m.MLookup? ==> BlockKey(m.dev, m.off) in uses;
      ApplyAgrees(s, t, m, uses);
      assert forall i | 0 <= i < |run[1..]| :: run[1..][i] == run[i + 1];
      RunsAgree(Apply(s, t, m), run[1..], e, uses);
    }
  }

  /** Thread t, if it has a block locked, finds in it what the run wrote last to that block, or else
      what the image held at the start. */
  ghost predicate Sees(disk: map<nat, nat>, run: seq<(nat, Move)>, e: Pool, t: nat) {
    e.PhaseOf(t).Holding? ==>
      && e.PhaseOf(t).pg in e.pages
      && var p := e.pages[e.PhaseOf(t).pg];
         p.data == LastWritten(Start(disk), run, p.key, Start(disk).Truth(p.key))
  }

  /** The image holds what was last written to block k, unless it is dirty in the cache. */
  ghost predicate Saved(disk: map<nat, nat>, run: seq<(nat, Move)>, e: Pool, k: Key) {
    (k in e.tree && e.tree[k] in e.pages ==> e.pages[e.tree[k]].sync != Dirty) ==>
      e.Disk(k.off) == LastWritten(Start(disk), run, k, Start(disk).Truth(k))
  }

  /** Whatever the threads did, in whatever order, a reader sees the last write. */
  lemma ReaderSeesLastWrite(uses: set<Key>, disk: map<nat, nat>, run: seq<(nat, Move)>, e: Pool, t: nat)
    requires OneDevice(uses) && Within(run, uses) && Runs(Start(disk), run, e)
    ensures Sees(disk, run, e, t)
  {
    if e.PhaseOf(t).Holding? {
      StartInv(disk);
      StartAgrees(disk, uses);
      RunsKeep(Start(disk), run, e);
      RunsAgree(Start(disk), run, e, uses);
      AtThread(e, t);
      var a := e.PhaseOf(t).pg;
      AtPage(e, a);
      assert DataOk(e, a);
      TruthIsLastWritten(Start(disk), run, e, e.pages[a].key);
      hide Pool.Inv, Runs, Agrees;
    }
  }

  /** ... and what is not dirty is saved. */
  lemma CleanIsOnDevice(uses: set<Key>, disk: map<nat, nat>, run: seq<(nat, Move)>, e: Pool, k: Key)
    requires OneDevice(uses) && Within(run, uses) && Runs(Start(disk), run, e) && k in uses
    ensures Saved(disk, run, e, k)
  {
    StartInv(disk);
    StartAgrees(disk, uses);
    RunsKeep(Start(disk), run, e);
    RunsAgree(Start(disk), run, e, uses);
    AtKey(e, k);
    assert BackedOk(e, uses, k);
    if k in e.tree { assert DataOk(e, e.tree[k]); }
    TruthIsLastWritten(Start(disk), run, e, k);
    hide Pool.Inv, Runs, Agrees;
  }

  lemma StartAgrees(disk: map<nat, nat>, uses: set<Key>)
    requires OneDevice(uses)
    ensures Agrees(Start(disk), uses)
  {
  }

  lemma StartInv(disk: map<nat, nat>)
    ensures Start(disk).Inv()
  {
  }

  /** At most one thread has a page, and at most one page stands for a block. */
  lemma OneHolderOnePage(disk: map<nat, nat>, run: seq<(nat, Move)>, e: Pool, t: nat, u: nat, a: nat, b: nat)
    requires Runs(Start(disk), run, e)
    ensures e.Uses(t, a) && e.Uses(u, a) ==> t == u
    ensures a in e.pages && b in e.pages && e.pages[a].key == e.pages[b].key ==> a == b
    ensures a in e.pages && !e.pages[a].busy ==> e.pages[a].waiters == [] && a in e.lru && e.pages[a].refs == 2
  {
    StartInv(disk);
    RunsKeep(Start(disk), run, e);
    AtThread(e, t);
    AtThread(e, u);
    AtPage(e, a);
    AtPage(e, b);
    hide Pool.Inv, Runs;
  }

  // ---- Two devices at one offset ----

  /** After any run, a thread that looks up a block that is in the cache and free has it locked at
      once; one that is in use it waits for, and as soon as that is given back it may try again. */
  lemma LookupGets(disk: map<nat, nat>, run: seq<(nat, Move)>, s: Pool, t: nat, k: Key)
    requires Runs(Start(disk), run, s) && s.PhaseOf(t) == Idle && k in s.tree && k.off % PAGE_SIZE == 0
    ensures s.tree[k] in s.pages && s.pages[s.tree[k]].key == k && Enabled(s, t, MLookup(k.dev, k.off))
    ensures var a, e := s.tree[k], Apply(s, t, MLookup(k.dev, k.off));
            && (!s.pages[a].busy ==>
                  e.PhaseOf(t) == Holding(a) && e.pages[a].busy && e.pages[a].key == k && a !in e.lru)
            && (s.pages[a].busy ==> e.PhaseOf(t) == Waiting(a) && t in e.pages[a].waiters)
  {
    StartInv(disk);
    RunsKeep(Start(disk), run, s);
    AtKey(s, k);
    AtPage(s, s.tree[k]);
    LookupIs(s, t, k);
    assert BlockKey(k.dev, k.off) == k;
    hide Pool.Inv, Lookup;
    var w := s.pages[s.tree[k]].waiters + [t];
    assert w[|w| - 1] == t;
  }

  /** When a page is given back, all that slept on it may try again, and the first to do so has it. */
  lemma PutThenRetry(disk: map<nat, nat>, run: seq<(nat, Move)>, s: Pool, t: nat, u: nat)
    requires Runs(Start(disk), run, s) && Enabled(s, t, MRelease) && s.PhaseOf(u) == Waiting(s.PhaseOf(t).pg)
    ensures Enabled(Apply(s, t, MRelease), u, MRetry)
    ensures var a, e := s.PhaseOf(t).pg, Apply(Apply(s, t, MRelease), u, MRetry);
            e.PhaseOf(u) == Holding(a) && a in e.pages && e.pages[a].busy
  {
    StartInv(disk);
    RunsKeep(Start(disk), run, s);
    ApplyKeeps(s, t, MRelease);
    var a, f := s.PhaseOf(t).pg, Apply(s, t, MRelease);
    AtThread(s, t);
    AtPage(s, a);
    AtPage(f, a);
    ReleaseIs(s, t);
    FoundTakes(f, u, a);
    hide Pool.Inv, Found, Release;
  }

  /** In all runs over these blocks readers see the last write. */
  ghost predicate AllSee(uses: set<Key>) {
    forall disk: map<nat, nat>, run: seq<(nat, Move)>, e: Pool, t: nat
        {:trigger Runs(Start(disk), run, e), e.PhaseOf(t)} ::
      Within(run, uses) && Runs(Start(disk), run, e) ==> Sees(disk, run, e, t)
  }

  /** In all runs over these blocks what is not dirty is saved. */
  ghost predicate AllSaved(uses: set<Key>) {
    forall disk: map<nat, nat>, run: seq<(nat, Move)>, e: Pool, k: Key
        {:trigger Runs(Start(disk), run, e), e.Truth(k)} ::
      k in uses && Within(run, uses) && Runs(Start(disk), run, e) ==> Saved(disk, run, e, k)
  }

  ghost predicate Blocks(uses: set<Key>) {
    forall k | k in uses :: k.off % PAGE_SIZE == 0
  }

  /** Contents are right in all runs over some blocks if and only if no two devices are used at one
      offset. */
  lemma ContentsRightIff(uses: set<Key>)
    requires Blocks(uses)
    ensures AllSee(uses) <==> OneDevice(uses)
    ensures AllSaved(uses) <==> OneDevice(uses)
  {
    hide Runs, Within, Sees, Saved;
    if OneDevice(uses) {
      forall disk: map<nat, nat>, run: seq<(nat, Move)>, e: Pool, t: nat
        | Within(run, uses) && Runs(Start(disk), run, e)
        ensures Sees(disk, run, e, t)
      {
        ReaderSeesLastWrite(uses, disk, run, e, t);
      }
      forall disk: map<nat, nat>, run: seq<(nat, Move)>, e: Pool, k: Key
        | k in uses && Within(run, uses) && Runs(Start(disk), run, e)
        ensures Saved(disk, run, e, k)
      {
        CleanIsOnDevice(uses, disk, run, e, k);
      }
    } else {
      var k, l :| k in uses && l in uses && k.off == l.off && k != l;
      var d, e := TwoDevices(k, l);
      TwoWithin(k, l, uses);
      assert Runs(Start(map[]), WriteRun(k), d) && d.Truth(l) == 0;
      assert Runs(Start(map[]), WriteRun(k) + ReadRun(l), e) && e.PhaseOf(2).Holding?;
    }
  }

  /** Thread t gets block k, which is not in the cache, on page a. */
  function OpenRun(t: nat, a: nat, k: Key): seq<(nat, Move)> {
    [(t, MLookup(k.dev, k.off)), (t, MRegister(a)), (t, MLoad)]
  }

  /** Thread 1 writes 5 to block k and saves it. */
  function WriteRun(k: Key): seq<(nat, Move)> {
    OpenRun(1, 1, k) + [(1, MModify(5)), (1, MWriteBack)]
  }

  /** Thread 2 reads block l. */
  function ReadRun(l: Key): seq<(nat, Move)> {
    OpenRun(2, 2, l)
  }

  lemma TwoWithin(k: Key, l: Key, uses: set<Key>)
    requires k in uses && l in uses && k.off % PAGE_SIZE == 0 && l.off % PAGE_SIZE == 0
    ensures Within(WriteRun(k), uses) && Within(WriteRun(k) + ReadRun(l), uses)
  {
  }

  /** What thread 1 saved for one device is what thread 2 reads for the other, and it overwrites what
      the image held for that one. */
  lemma TwoDevices(k: Key, l: Key) returns (d: Pool, e: Pool)
    requires k.off == l.off && k != l && k.off % PAGE_SIZE == 0
    ensures Runs(Start(map[]), WriteRun(k), d) && !Saved(map[], WriteRun(k), d, l) && d.Truth(l) == 0
    ensures Runs(Start(map[]), WriteRun(k) + ReadRun(l), e) && e.PhaseOf(2).Holding?
    ensures !Sees(map[], WriteRun(k) + ReadRun(l), e, 2)
  {
    hide Runs, LastWritten, WriteRun, ReadRun;
    d := Written(k);
    e := Read(d, k, l);
    RunsOn(Start(map[]), WriteRun(k), d, ReadRun(l), e);
    TruthIsLastWritten(Start(map[]), WriteRun(k), d, l);
    TruthIsLastWritten(Start(map[]), WriteRun(k) + ReadRun(l), e, l);
  }

  lemma {:induction false} RunsOn(s: Pool, run: seq<(nat, Move)>, d: Pool, more: seq<(nat, Move)>, e: Pool)
    requires Runs(s, run, d) && Runs(d, more, e)
    ensures Runs(s, run + more, e)
    decreases |run|
  {
    hide Apply, Enabled;
    if run == [] {
      assert run + more == more;
    } else {
      assert (run + more)[1..] == run[1..] + more && (run + more)[0] == run[0];
      RunsOn(Apply(s, run[0].0, run[0].1), run[1..], d, more, e);
    }
  }

  lemma OneMore(s: Pool, t: nat, m: Move, more: seq<(nat, Move)>, e: Pool)
    requires Enabled(s, t, m) && Runs(Apply(s, t, m), more, e)
    ensures Runs(s, [(t, m)] + more, e)
  {
    assert ([(t, m)] + more)[1..] == more;
  }

  /** The pool after the first run. */
  function AfterWrite(k: Key): Pool {
    Pool(map[1 := CPage(k, true, Clean, 5, 2, [])], map[k := 1], [], map[k.off := 5], map[1 := Holding(1)],
         map[1 := 1], map[k := 5], map[])
  }

  function AfterOpen(s: Pool, t: nat, a: nat, k: Key): Pool {
    s.(pages := s.pages[a := CPage(k, true, Clean, s.Disk(k.off), 2, [])], tree := s.tree[k := a],
       holder := s.holder[a := t], phase := s.phase[t := Holding(a)])
  }

  /** The pool after the search, and after the registration. */
  lemma OpenSteps(s: Pool, t: nat, a: nat, k: Key)
    requires k.off % PAGE_SIZE == 0 && s.PhaseOf(t) == Idle && k !in s.tree && a !in s.pages && a !in s.holder
    ensures Enabled(s, t, MLookup(k.dev, k.off))
    ensures var s1 := Apply(s, t, MLookup(k.dev, k.off));
            && Enabled(s1, t, MRegister(a))
            && var s2 := Apply(s1, t, MRegister(a));
               Enabled(s2, t, MLoad) && Apply(s2, t, MLoad) == AfterOpen(s, t, a, k)
  {
    OpenLooks(s, t, k);
    OpenRegisters(s.(phase := s.phase[t := Allocating(k)]), t, a, k);
    hide Found;
  }

  lemma OpenLooks(s: Pool, t: nat, k: Key)
    requires k.off % PAGE_SIZE == 0 && k !in s.tree
    ensures Lookup(s, t, BlockKey(k.dev, k.off)) == s.(phase := s.phase[t := Allocating(k)])
  {
    assert BlockKey(k.dev, k.off) == k;
  }

  lemma OpenRegisters(s: Pool, t: nat, a: nat, k: Key)
    requires s.PhaseOf(t) == Allocating(k) && k !in s.tree && a !in s.pages
    ensures var e := Register(s, t, a);
            && e.PhaseOf(t) == Loading(a) && a in e.pages && e.pages[a] == CPage(k, true, Invalid, 0, 2, [])
            && Load(e, t) == AfterOpen(s, t, a, k)
  {
    hide Found;
  }

  lemma Opens(s: Pool, t: nat, a: nat, k: Key)
    requires k.off % PAGE_SIZE == 0 && s.PhaseOf(t) == Idle && k !in s.tree && a !in s.pages && a !in s.holder
    ensures Runs(s, OpenRun(t, a, k), AfterOpen(s, t, a, k))
  {
    OpenSteps(s, t, a, k);
    hide Runs, Apply, Enabled, AfterOpen;
    var s1 := Apply(s, t, MLookup(k.dev, k.off));
    var s2 := Apply(s1, t, MRegister(a));
    var e := Apply(s2, t, MLoad);
    NoMove(e);
    var last: seq<(nat, Move)> := [(t, MLoad)];
    OneMore(s2, t, MLoad, [], e);
    assert last + [] == last;
    OneMore(s1, t, MRegister(a), last, e);
    OneMore(s, t, MLookup(k.dev, k.off), [(t, MRegister(a))] + last, e);
    assert [(t, MLookup(k.dev, k.off))] + ([(t, MRegister(a))] + last) == OpenRun(t, a, k);
  }

  lemma Written(k: Key) returns (d: Pool)
    requires k.off % PAGE_SIZE == 0
    ensures Runs(Start(map[]), WriteRun(k), d) && d == AfterWrite(k)
  {
    hide Runs;
    Opens(Start(map[]), 1, 1, k);
    var s := AfterOpen(Start(map[]), 1, 1, k);
    var s1 := Apply(s, 1, MModify(5));
    d := Apply(s1, 1, MWriteBack);
    NoMove(d);
    var last: seq<(nat, Move)> := [(1, MWriteBack)];
    OneMore(s1, 1, MWriteBack, [], d);
    assert last + [] == last;
    OneMore(s, 1, MModify(5), last, d);
    assert [(1, MModify(5))] + last == [(1, MModify(5)), (1, MWriteBack)];
    RunsOn(Start(map[]), OpenRun(1, 1, k), s, [(1, MModify(5)), (1, MWriteBack)], d);
  }

  lemma NoMove(d: Pool)
    ensures Runs(d, [], d)
  {
  }

  lemma Read(d: Pool, k: Key, l: Key) returns (e: Pool)
    requires k.off == l.off && k != l && k.off % PAGE_SIZE == 0 && d == AfterWrite(k)
    ensures Runs(d, ReadRun(l), e) && e.PhaseOf(2) == Holding(2)
    ensures 2 in e.pages && e.pages[2].key == l && e.pages[2].data == 5 && e.Truth(l) == 0
  {
    Opens(d, 2, 2, l);
    e := AfterOpen(d, 2, 2, l);
    hide Runs;
  }
}
