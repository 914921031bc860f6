/** The page frame database: the registered memory regions, searched in tree order. */
module PageFrameDb {
  import opened Powers
  import opened BuddyPool
  import opened BuddyTheorems
  import opened PageBuddy

  /** A block handed out: the region and the page index in it. */
  datatype Location = Location(region: nat, index: nat)

  /** The search for a page frame number; Stopped stands for the kernel stopping itself. */
  datatype Lookup = Found(place: Location) | NotFound | Stopped

  /** The page frame numbers of a region, from min up to max. */
  datatype Span = Span(min: nat, max: nat)

  /** The order of the tree: a region is found before those at lower addresses. */
  predicate Descending(spans: seq<Span>) {
    && (forall i | 0 <= i < |spans| :: spans[i].min <= spans[i].max)
    && (forall i, j | 0 <= i < j < |spans| :: spans[j].max <= spans[i].min)
  }

  /** Two regions share no memory. */
  ghost predicate Separate(p: PagePool, q: PagePool) {
    && p != q && p.frames != q.frames && p.pageList != q.pageList && p.freeNr != q.freeNr
    && p.frames as object != q.pageList && p.frames as object != q.freeNr && p.pageList as object != q.freeNr
    && q.frames as object != p.pageList && q.frames as object != p.freeNr && q.pageList as object != p.freeNr
  }

  ghost predicate Apart(regions: seq<PagePool>) {
    forall i, j | 0 <= i < j < |regions| :: Separate(regions[i], regions[j])
  }

  /** Region i stands for the i-th span. */
  ghost predicate Match(regions: seq<PagePool>, spans: seq<Span>) {
    && |spans| == |regions|
    && forall i | 0 <= i < |regions| :: spans[i].max == spans[i].min + regions[i].frames.Length
  }

  function Inserted<T>(s: seq<T>, i: nat, x: T): seq<T>
    requires i <= |s|
  {
    s[..i] + [x] + s[i..]
  }

  function Removed<T>(s: seq<T>, i: nat): seq<T>
    requires i < |s|
  {
    s[..i] + s[i + 1..]
  }

  lemma InsertedAt<T>(s: seq<T>, i: nat, x: T)
    requires i <= |s|
    ensures |Inserted(s, i, x)| == |s| + 1
    ensures forall j: nat | j <= |s| :: Inserted(s, i, x)[j] == if j < i then s[j] else if j == i then x else s[j - 1]
    ensures forall y | y in Inserted(s, i, x) :: y == x || y in s
  {
  }

  lemma RemovedAt<T>(s: seq<T>, i: nat)
    requires i < |s|
    ensures |Removed(s, i)| == |s| - 1
    ensures forall j: nat | j < |s| - 1 :: Removed(s, i)[j] == if j < i then s[j] else s[j + 1]
    ensures forall y | y in Removed(s, i) :: y in s
  {
  }

  lemma InsertedDescends(spans: seq<Span>, i: nat, s: Span)
    requires Descending(spans) && i <= |spans| && s.min <= s.max
    requires forall j | 0 <= j < i :: s.max <= spans[j].min
    requires i < |spans| ==> spans[i].max <= s.min
    ensures Descending(Inserted(spans, i, s))
  {
    InsertedAt(spans, i, s);
    var t := Inserted(spans, i, s);
    forall j, k | 0 <= j < k < |t| ensures t[k].max <= t[j].min {
      assert t[j] == if j < i then spans[j] else if j == i then s else spans[j - 1];
      assert t[k] == if k < i then spans[k] else if k == i then s else spans[k - 1];
      if j == i { assert spans[k - 1].max <= spans[i].max; }
    }
  }

  /** A page lies in one region. */
  lemma OneSpan(spans: seq<Span>, i: nat, pfn: nat)
    requires Descending(spans) && i < |spans| && spans[i].min <= pfn < spans[i].max
    ensures forall s | s in spans && s.min <= pfn < s.max :: s == spans[i]
  {
  }

  lemma InsertedApart(regions: seq<PagePool>, i: nat, p: PagePool)
    requires i <= |regions| && Apart(regions) && forall q | q in regions :: Separate(p, q) && Separate(q, p)
    ensures Apart(Inserted(regions, i, p))
  {
    hide Separate;
  }

  lemma InsertedMatch(regions: seq<PagePool>, spans: seq<Span>, i: nat, p: PagePool, s: Span)
    requires Match(regions, spans) && i <= |regions| && s.max == s.min + p.frames.Length
    ensures Match(Inserted(regions, i, p), Inserted(spans, i, s))
  {
  }

  class FrameDb {
    const orders: nat
    var regions: seq<PagePool>
    var spans: seq<Span>

    /** Regions are sound and share nothing, neither page frames nor memory. */
    ghost predicate Valid()
      reads this, regions, Arrays()
    {
      && Match(regions, spans) && Descending(spans) && Apart(regions)
      && (forall p | p in regions :: p.Valid() && p.pageList.Length == orders)
    }

    ghost function Arrays(): set<object>
      reads this
    {
      (set p | p in regions :: p.frames as object) + (set p | p in regions :: p.pageList as object)
      + (set p | p in regions :: p.freeNr as object)
    }

    /** `__PFDB_INITIALIZER`: no region is registered. */
    constructor (orders: nat)
      ensures Valid() && regions == [] && this.orders == orders
    {
      this.orders := orders;
      regions, spans := [], [];
    }

    /** `RB_INSERT`: the place of a region among those registered. */
    method PlaceFor(s: Span) returns (i: nat)
      requires Descending(spans) && s.min < s.max
      requires forall r | r in spans :: s.max <= r.min || r.max <= s.min
      ensures i <= |spans| && Descending(Inserted(spans, i, s))
    {
      i := 0;
      while i < |spans| && s.max <= spans[i].min
        invariant i <= |spans| && forall j | 0 <= j < i :: s.max <= spans[j].min
      {
        i := i + 1;
      }
      InsertedDescends(spans, i, s);
    }

    /** `pfdb_add`: a region of n pages from page frame number min on is registered; its pages from
        `managed` on stay reserved. */
    method AddRegion(min: nat, n: nat, managed: nat) returns (i: nat)
      requires Valid() && 0 < orders && managed <= n && 0 < n
      requires forall r | r in spans :: min + n <= r.min || r.max <= min
      modifies this
      ensures i <= |old(regions)| && i < |regions| && fresh(regions[i])
      ensures regions == Inserted(old(regions), i, regions[i])
      ensures spans == Inserted(old(spans), i, Span(min, min + n))
      ensures regions[i].Free() == Pages(0, managed) && regions[i].availablePages == managed
      ensures Valid()
    {
      hide AtRest, Pool.FreeSet, PagePool.Valid, PagePool.Free, Descending, Inserted;
      i := PlaceFor(Span(min, min + n));
      var p := new PagePool(n, orders, managed);
      assert forall q | q in regions :: Separate(p, q) && Separate(q, p);
      hide Separate, Apart;
      Register(i, p, Span(min, min + n));
    }

    /** The region p enters at place i. */
    method Register(i: nat, p: PagePool, s: Span)
      requires Valid() && i <= |regions| && p.Valid() && p.pageList.Length == orders
      requires forall q | q in regions :: Separate(p, q) && Separate(q, p)
      requires Descending(Inserted(spans, i, s)) && s.max == s.min + p.frames.Length
      modifies this
      ensures Valid() && regions == Inserted(old(regions), i, p) && spans == Inserted(old(spans), i, s)
      ensures i < |regions| && regions[i] == p
    {
      hide AtRest, Pool.FreeSet, PagePool.Valid, PagePool.Free, Descending, Separate;
      InsertedAt(regions, i, p);
      InsertedApart(regions, i, p);
      InsertedMatch(regions, spans, i, p, s);
      hide Apart, Match;
      regions := Inserted(regions, i, p);
      spans := Inserted(spans, i, s);
      assert regions[i] == p;
    }

    /** `pfdb_remove`, for a region that is registered: refused exactly while some block of it is
        in use. */
    method RemoveRegion(i: nat) returns (r: Result<()>)
      requires Valid() && i < |regions|
      modifies this
      ensures Valid()
      ensures var p := old(regions)[i];
              r == if exists h | 0 <= h < p.frames.Length :: p.frames[h].used then Err(EBusy) else Ok(())
      ensures r.Err? ==> regions == old(regions) && spans == old(spans)
      ensures r.Ok? ==> regions == Removed(old(regions), i) && spans == Removed(old(spans), i)
    {
      hide AtRest, Pool.FreeSet, PagePool.Valid, Separate;
      r := regions[i].CheckRemovable();
      if r.Ok? {
        RemovedAt(regions, i);
        RemovedAt(spans, i);
        regions := Removed(regions, i);
        spans := Removed(spans, i);
      }
    }

    /** The region's frames, lists and counters are as they were. */
    twostate predicate Kept(p: PagePool)
      reads p, p.frames, p.pageList, p.freeNr
    {
      p.State({}) == old(p.State({})) && p.Books() == old(p.Books())
    }

    /** What a search finds: nothing exactly for a page outside all regions, and the kernel stops exactly
        for the last page of a region. */
    ghost predicate Located(l: Lookup, pfn: nat)
      reads this
    {
      && (l == Stopped <==> exists s :: s in spans && s.min <= pfn && pfn + 1 == s.max)
      && (l == NotFound <==> forall s | s in spans :: !(s.min <= pfn < s.max))
      && (l.Found? ==> var i, h := l.place.region, l.place.index;
            && i < |spans| && i < |regions| && pfn == spans[i].min + h && pfn + 1 < spans[i].max
            && h < regions[i].frames.Length)
    }

    /** `pfn_to_page_frame` and the searches like it, whatever shape the tree has: the comparison
        asserts that a region goes on behind the page that it holds. */
    method FindPage(pfn: nat) returns (l: Lookup)
      requires Valid()
      ensures Located(l, pfn)
    {
      hide AtRest, PagePool.Valid, Separate;
      var lo, hi := 0, |spans|;
      while lo < hi
        invariant 0 <= lo <= hi <= |spans|
        invariant forall i | 0 <= i < lo :: pfn < spans[i].min
        invariant forall i | hi <= i < |spans| :: spans[i].max <= pfn
      {
        var mid :| lo <= mid < hi;
        var s := spans[mid];
        if pfn + 1 <= s.min {
          lo := mid + 1;
        } else if s.max <= pfn {
          hi := mid;
        } else {
          OneSpan(spans, mid, pfn);
          return if pfn + 1 < s.max then Found(Location(mid, pfn - s.min)) else Stopped;
        }
      }
      return NotFound;
    }

    /** Page h is freed if it was reserved, and else refused. */
    twostate predicate Unmarked(p: PagePool, h: nat, ok: bool)
      reads p, p.frames, p.pageList, p.freeNr
    {
      && h < p.frames.Length && (ok <==> old(p.frames[h].reserved))
      && if ok then p.Free() == old(p.Free()) + {h} else Kept(p)
    }

    /** One region is changed; the others are not. */
    method UnmarkAt(i: nat, h: nat) returns (r: Result<()>)
      requires Valid() && i < |regions| && h < regions[i].frames.Length
      modifies regions, Arrays()
      ensures regions == old(regions) && Unmarked(regions[i], h, r.Ok?) && (r.Err? ==> r == Err(ENoLck))
      ensures forall j | 0 <= j < |regions| && j != i :: Kept(regions[j])
      ensures Valid()
    {
      hide AtRest, Pool.FreeSet, Live, PagePool.State, PagePool.Books;
      var ent := regions[i];
      r := ent.UnmarkPageReserved(h);
      assert forall p | p in regions && p != ent ::
          unchanged(p) && unchanged(p.frames) && unchanged(p.pageList) && unchanged(p.freeNr);
    }

    /** `unmark_page_frame_reserved` with its search: no page outside the regions is freed, and the last
        page of a region cannot be. */
    method UnmarkPage(pfn: nat) returns (l: Lookup, r: Result<()>)
      requires Valid()
      modifies regions, Arrays()
      ensures regions == old(regions) && spans == old(spans) && Located(l, pfn)
      ensures l.Found? ==> Unmarked(regions[l.place.region], l.place.index, r.Ok?)
      ensures r.Err? ==> r == Err(ENoLck)
      ensures forall j | 0 <= j < |regions| && (l.Found? ==> j != l.place.region) :: Kept(regions[j])
      ensures Valid()
    {
      hide FrameDb.Valid, PagePool.State, PagePool.Books, PagePool.Free;
      r := Ok(());
      l := FindPage(pfn);
      if l.Found? {
        r := UnmarkAt(l.place.region, l.place.index);
      }
    }

    /** Page h heads a used block of the order, for the usage. */
    ghost predicate InUse(p: PagePool, h: nat, order: nat, usage: Usage)
      reads p, p.frames
    {
      && h < p.frames.Length && p.frames[h].used && p.frames[h].order == order && p.frames[h].ucase == {usage}
    }

    /** One region is asked; the others do not change. */
    method AskRegion(i: nat, order: nat, usage: Usage) returns (r: Result<nat>)
      requires Valid() && i < |regions|
      modifies regions, Arrays()
      ensures Valid() && regions == old(regions)
      ensures order >= orders ==> r == Err(EInval)
      ensures order < orders ==> (r == Err(ENoMem) <==> !HasRun(old(regions[i].Free()), order))
      ensures r.Err? ==> Kept(regions[i])
      ensures forall j | 0 <= j < |regions| && j != i :: Kept(regions[j])
      ensures r.Ok? ==>
                && Aligned(r.value, order) && Block(r.value, order) <= old(regions[i].Free())
                && regions[i].Free() == old(regions[i].Free()) - Block(r.value, order)
                && InUse(regions[i], r.value, order, usage)
    {
      hide AtRest, Pool.FreeSet, HasRun, Aligned, Pow2;
      var ent := regions[i];
      r := ent.DequeuePage(order, usage);
      assert forall p | p in regions && p != ent ::
          unchanged(p) && unchanged(p.frames) && unchanged(p.pageList) && unchanged(p.freeNr);
    }

    /** `pfdb_buddy_dequeue`: the first region with a large enough run serves the request. */
    method BuddyDequeue(order: nat, usage: Usage) returns (r: Result<Location>)
      requires Valid()
      modifies regions, Arrays()
      ensures Valid() && regions == old(regions)
      ensures order >= orders && regions != [] ==> r == Err(EInval)
      ensures order < orders ==>
                (r == Err(ENoMem) <==> forall j | 0 <= j < |regions| :: !HasRun(old(regions[j].Free()), order))
      ensures r.Err? ==> forall j | 0 <= j < |regions| :: Kept(regions[j])
      ensures r.Ok? ==>
                && r.value.region < |regions|
                && var p := regions[r.value.region]; var h := r.value.index;
                && Aligned(h, order) && Block(h, order) <= old(p.Free())
                && p.Free() == old(p.Free()) - Block(h, order)
                && InUse(p, h, order, usage)
                && (forall i | 0 <= i < r.value.region :: !HasRun(old(regions[i].Free()), order))
                && (forall i | 0 <= i < |regions| && i != r.value.region :: Kept(regions[i]))
    {
      hide FrameDb.Valid, PagePool.State, PagePool.Books, Pool.FreeSet, HasRun, Aligned, Pow2, Block, FrameDb.InUse;
      var i := 0;
      while i < |regions|
        invariant 0 <= i <= |regions| && Valid() && regions == old(regions)
        invariant forall j | 0 <= j < |regions| :: Kept(regions[j])
        invariant forall j | 0 <= j < i :: !HasRun(old(regions[j].Free()), order)
        invariant i > 0 ==> order < orders
      {
        var res := AskRegion(i, order, usage);
        match res {
          case Ok(h) =>
            return Ok(Location(i, h));
          case Err(e) =>
            if e != ENoMem { return Err(e); }
        }
        i := i + 1;
      }
      return Err(ENoMem);
    }
  }
}
