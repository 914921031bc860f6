/** Mapping and unmapping of address ranges, page by page. */
module PageRanges {
  import opened Sv39
  import opened AddressSpace
  import opened PageTable

  /** The bytes of j pages of level k. */
  function Bytes(k: nat, j: nat): nat {
    if j == 0 then 0 else Bytes(k, j - 1) + PageBytes(k)
  }

  /** The page size that `hal_pgtbl_enter` chooses for a range: the largest one to which both ends
      of both ranges are aligned, or the smallest there is. */
  function LevelFor(va: nat, pa: nat, len: nat): (k: nat)
    ensures k <= 2 && (k > 0 ==> Fits(va, pa, len, k)) && forall j | k < j <= 2 :: !Fits(va, pa, len, j)
  {
    if Fits(va, pa, len, 2) then 2 else if Fits(va, pa, len, 1) then 1 else 0
  }

  predicate Fits(va: nat, pa: nat, len: nat, k: nat) {
    PageAligned(va, k) && PageAligned(pa, k) && PageAligned(va + len, k) && PageAligned(pa + len, k)
  }

  /** In bytes: 1GiB if all four ends are multiples of it, else 2MiB if they are multiples of that. */
  lemma LevelForIs(va: nat, pa: nat, len: nat)
    ensures LevelFor(va, pa, len) == 2 <==>
              va % 0x4000_0000 == 0 && pa % 0x4000_0000 == 0 && (va + len) % 0x4000_0000 == 0
              && (pa + len) % 0x4000_0000 == 0
    ensures LevelFor(va, pa, len) >= 1 <==>
              va % 0x20_0000 == 0 && pa % 0x20_0000 == 0 && (va + len) % 0x20_0000 == 0 && (pa + len) % 0x20_0000 == 0
  {
    IndexIs(va);
    hide PageBytes;
    Aligned1G(va);
    Aligned1G(pa);
    Aligned1G(va + len);
    Aligned1G(pa + len);
  }

  /** The map after i pages of level k from page number n on are mapped one after the other. */
  ghost function Mapped(pages: map<Page, Leaf>, k: nat, n: nat, i: nat, m: Leaf): map<Page, Leaf> {
    if i == 0 then pages
    else Mapped(pages, k, n, i - 1, m)[Page(k, n + i - 1) := m.(paddr := m.paddr + Bytes(k, i - 1))]
  }

  lemma {:induction false} BytesIs(k: nat, j: nat)
    requires k <= 2
    ensures k == 0 ==> Bytes(k, j) == 4096 * j
    ensures k == 1 ==> Bytes(k, j) == 0x20_0000 * j
    ensures k == 2 ==> Bytes(k, j) == 0x4000_0000 * j
  {
    Spans();
    if j > 0 { BytesIs(k, j - 1); }
  }

  /** Pages n to n + i - 1 of level k lead one after the other to the memory from that of m on, and the other
      pages are as they were. */
  ghost predicate InARow(was: map<Page, Leaf>, now: map<Page, Leaf>, k: nat, n: nat, i: nat, m: Leaf) {
    && (forall p: Page :: p in now <==> p in was || (p.lvl == k && n <= p.n < n + i))
    && (forall p: Page | p in now && p.lvl == k && n <= p.n < n + i ::
          now[p] == Leaf(m.paddr + PageBytes(k) * (p.n - n), m.prot, m.attr))
    && (forall p: Page | p in was && !(p.lvl == k && n <= p.n < n + i) :: now[p] == was[p])
  }

  lemma {:induction false} MappedIs(pages: map<Page, Leaf>, k: nat, n: nat, i: nat, m: Leaf)
    ensures InARow(pages, Mapped(pages, k, n, i, m), k, n, i, m)
  {
    hide PageBytes, InARow;
    if i > 0 {
      MappedIs(pages, k, n, i - 1, m);
      BytesAre(k, i - 1);
      RowNext(pages, Mapped(pages, k, n, i - 1, m), k, n, i - 1, m);
    } else {
      RowStart(pages, k, n, m);
    }
  }

  lemma RowStart(pages: map<Page, Leaf>, k: nat, n: nat, m: Leaf)
    ensures InARow(pages, pages, k, n, 0, m)
  {
  }

  lemma RowNext(was: map<Page, Leaf>, now: map<Page, Leaf>, k: nat, n: nat, i: nat, m: Leaf)
    requires InARow(was, now, k, n, i, m)
    ensures InARow(was, now[Page(k, n + i) := Leaf(m.paddr + PageBytes(k) * i, m.prot, m.attr)], k, n, i + 1, m)
  {
    hide PageBytes;
    var g := now[Page(k, n + i) := Leaf(m.paddr + PageBytes(k) * i, m.prot, m.attr)];
    forall p: Page | p in g && p.lvl == k && n <= p.n < n + i + 1
      ensures g[p] == Leaf(m.paddr + PageBytes(k) * (p.n - n), m.prot, m.attr)
    {
      if p.n == n + i { assert p == Page(k, n + i); }
    }
  }

  lemma {:induction false} BytesAre(k: nat, j: nat)
    ensures Bytes(k, j) == PageBytes(k) * j
  {
    hide PageBytes;
    if j > 0 { BytesAre(k, j - 1); }
  }

  /** Pages mapped by the run itself are in nobody's way. */
  lemma {:induction false} MeetsMapped(pages: map<Page, Leaf>, k: nat, n: nat, i: nat, m: Leaf, x: nat)
    requires x >= n + i
    ensures Meets(Mapped(pages, k, n, i, m), k, x) <==> Meets(pages, k, x)
  {
    if i > 0 {
      MeetsMapped(pages, k, n, i - 1, m, x);
      MeetsOther(Mapped(pages, k, n, i - 1, m), k, n + i - 1, m.(paddr := m.paddr + Bytes(k, i - 1)), x);
    }
  }

  lemma MeetsOther(pages: map<Page, Leaf>, k: nat, n: nat, m: Leaf, x: nat)
    requires x != n
    ensures Meets(pages[Page(k, n) := m], k, x) <==> Meets(pages, k, x)
  {
    var g := pages[Page(k, n) := m];
    if Meets(g, k, x) {
      var p :| p in g && p.lvl <= k && Up(p.n, k - p.lvl) == x;
      assert p != Page(k, n);
    }
    if Meets(pages, k, x) {
      var p :| p in pages && p.lvl <= k && Up(p.n, k - p.lvl) == x;
      assert p in g;
    }
  }

  /** The pages of the run are no larger ones. */
  lemma {:induction false} ShadowedMapped(pages: map<Page, Leaf>, k: nat, n: nat, i: nat, m: Leaf, x: nat)
    ensures Shadowed(Mapped(pages, k, n, i, m), k, x) <==> Shadowed(pages, k, x)
  {
    if i > 0 {
      var g := Mapped(pages, k, n, i - 1, m);
      ShadowedMapped(pages, k, n, i - 1, m, x);
      ShadowedOther(g, k, n + i - 1, m.(paddr := m.paddr + Bytes(k, i - 1)), x);
    }
  }

  lemma ShadowedOther(pages: map<Page, Leaf>, k: nat, n: nat, m: Leaf, x: nat)
    ensures Shadowed(pages[Page(k, n) := m], k, x) <==> Shadowed(pages, k, x)
  {
    var g := pages[Page(k, n) := m];
    if Shadowed(g, k, x) {
      var p :| p in g && p.lvl > k && Up(x, p.lvl - k) == p.n;
      assert p in pages;
    }
    if Shadowed(pages, k, x) {
      var p :| p in pages && p.lvl > k && Up(x, p.lvl - k) == p.n;
      assert p in g;
    }
  }

  /** One page further. */
  lemma VpnStep(va: nat, k: nat)
    requires k <= 2 && Vpn(va) + Span(k) < VPNS
    ensures Vpn(va + PageBytes(k)) == Vpn(va) + Span(k)
    ensures Up(Vpn(va + PageBytes(k)), k) == Up(Vpn(va), k) + 1
  {
    Spans();
    var a := va / PAGE_SIZE;
    assert (va + PageBytes(k)) / PAGE_SIZE == a + Span(k) by { PageUnits(va, k); }
    WrapStep(a, Span(k));
    UpStep(Vpn(va), k);
  }

  lemma PageUnits(va: nat, k: nat)
    requires k <= 2
    ensures (va + PageBytes(k)) / PAGE_SIZE == va / PAGE_SIZE + Span(k)
  {
    Spans();
    hide PageBytes, Span;
  }

  lemma WrapStep(a: nat, d: nat)
    requires a % VPNS + d < VPNS
    ensures (a + d) % VPNS == a % VPNS + d
  {
    var q := a / VPNS;
    assert a + d == VPNS * q + (a % VPNS + d);
  }

  lemma UpStep(v: nat, k: nat)
    requires k <= 2
    ensures Up(v + Span(k), k) == Up(v, k) + 1
  {
    Spans();
    hide Span;
    assert Up(v, 1) == Up(v, 0) / 512 && Up(v, 2) == Up(v, 1) / 512;
    var w := v + Span(k);
    assert Up(w, 1) == Up(w, 0) / 512 && Up(w, 2) == Up(w, 1) / 512;
  }

  lemma {:induction false} UpMonotone(v: nat, w: nat, k: nat)
    requires v <= w
    ensures Up(v, k) <= Up(w, k)
  {
    if k > 0 { UpMonotone(v, w, k - 1); }
  }

  lemma RangeBytes(va: nat, pa: nat, len: nat, k: nat)
    requires k == LevelFor(va, pa, len) && va % PAGE_SIZE == 0 && pa % PAGE_SIZE == 0 && len % PAGE_SIZE == 0
    ensures len == Bytes(k, PagesIn(len, k)) && PageAligned(va, k) && PageAligned(pa, k)
  {
    Spans();
    assert Fits(va, pa, len, k) || k == 0;
    Rest(va, len, PageBytes(k));
    BytesIs(k, PagesIn(len, k));
    hide PageBytes, Span, Bytes;
    assert k == 0 || k == 1 || k == 2;
  }

  lemma Rest(va: nat, len: nat, d: nat)
    requires d == 4096 || d == 0x20_0000 || d == 0x4000_0000
    requires va % d == 0 && ((va + len) % d == 0 || len % d == 0)
    ensures len % d == 0 && len == d * (len / d)
  {
  }

  lemma RangeStep(k: nat, j: nat)
    requires k <= 2
    ensures j == 0 ==> Bytes(k, j) == 0
    ensures j > 0 ==> Bytes(k, j) == Bytes(k, j - 1) + PageBytes(k)
    ensures j > 0 ==> Bytes(k, j) / PAGE_SIZE == Bytes(k, j - 1) / PAGE_SIZE + Span(k) && Span(k) >= 1
    ensures j > 0 ==> PageBytes(k) >= PAGE_SIZE
  {
    Spans();
    if j > 0 { PageUnits(Bytes(k, j - 1), k); }
    hide PageBytes, Span;
  }

  lemma MappedNone(pages: map<Page, Leaf>, k: nat, n: nat, m: Leaf)
    ensures Mapped(pages, k, n, 0, m) == pages
  {
  }

  lemma MappedNext(pages: map<Page, Leaf>, k: nat, n: nat, i: nat, m: Leaf)
    ensures Mapped(pages, k, n, i + 1, m) ==
            Mapped(pages, k, n, i, m)[Page(k, n + i) := m.(paddr := m.paddr + Bytes(k, i))]
  {
  }

  lemma NextAligned(a: nat, k: nat)
    requires k <= 2 && PageAligned(a, k)
    ensures PageAligned(a + PageBytes(k), k)
  {
    Spans();
    hide PageBytes, Span;
    assert k == 0 || k == 1 || k == 2;
  }

  lemma FrameBound(pa: nat, base: nat, len: nat)
    requires pa + PAGE_SIZE <= base + len && (base + len) / PAGE_SIZE <= PPNS
    ensures pa / PAGE_SIZE < PPNS
  {
  }

  /** Page number n + i cannot be mapped at level k. */
  ghost predicate Blocked(pages: map<Page, Leaf>, k: nat, n: nat, i: nat) {
    Meets(pages, k, n + i)
  }

  /** Page number n + i lies in a larger page. */
  ghost predicate Inside(pages: map<Page, Leaf>, k: nat, n: nat, i: nat) {
    Shadowed(pages, k, n + i)
  }

  /** The number of pages of level k in a range. */
  function PagesIn(len: nat, k: nat): nat {
    len / PageBytes(k)
  }

  predicate RangeOk(va: nat, pa: nat, len: nat) {
    && va % PAGE_SIZE == 0 && pa % PAGE_SIZE == 0 && len % PAGE_SIZE == 0
    && Vpn(va) + len / PAGE_SIZE <= VPNS && (pa + len) / PAGE_SIZE <= PPNS
  }

  /** The loop of `hal_pgtbl_enter` after i pages. */
  ghost predicate Cursor(va: nat, pa: nat, len: nat, k: nat, i: nat, cur: nat, curPa: nat) {
    var c := PagesIn(len, k);
    && i <= c && cur == va + Bytes(k, i) && curPa == pa + Bytes(k, i) && va + len == cur + Bytes(k, c - i)
    && PageAligned(cur, k) && PageAligned(curPa, k)
    && (i < c ==> Up(Vpn(cur), k) == Up(Vpn(va), k) + i && Vpn(va) <= Vpn(cur))
    && (i < c ==> Vpn(cur) + Bytes(k, c - i) / PAGE_SIZE <= Vpn(va) + len / PAGE_SIZE)
  }

  lemma CursorStart(va: nat, pa: nat, len: nat, k: nat)
    requires RangeOk(va, pa, len) && k == LevelFor(va, pa, len)
    ensures Cursor(va, pa, len, k, 0, va, pa)
  {
    RangeBytes(va, pa, len, k);
    hide PageBytes, Vpn, Up;
    assert Bytes(k, 0) == 0;
  }

  lemma CursorNext(va: nat, pa: nat, len: nat, k: nat, i: nat, cur: nat, curPa: nat)
    requires RangeOk(va, pa, len) && k <= 2 && Cursor(va, pa, len, k, i, cur, curPa) && i < PagesIn(len, k)
    ensures Cursor(va, pa, len, k, i + 1, cur + PageBytes(k), curPa + PageBytes(k))
  {
    var c := PagesIn(len, k);
    RangeStep(k, c - i);
    if i + 1 < c {
      RangeStep(k, c - i - 1);
      VpnStep(cur, k);
    }
    NextAligned(cur, k);
    NextAligned(curPa, k);
    RangeStep(k, i + 1);
    hide PageBytes, Vpn, Up, Bytes, Span;
  }

  lemma CursorUse(va: nat, pa: nat, len: nat, k: nat, i: nat, cur: nat, curPa: nat)
    requires RangeOk(va, pa, len) && k <= 2 && Cursor(va, pa, len, k, i, cur, curPa)
    ensures i < PagesIn(len, k) <==> cur < va + len
    ensures i <= PagesIn(len, k) && PageAligned(cur, k) && PageAligned(curPa, k)
    ensures i < PagesIn(len, k) ==> Up(Vpn(cur), k) == Up(Vpn(va), k) + i && curPa / PAGE_SIZE < PPNS
    ensures i < PagesIn(len, k) ==> Vpn(va) <= Vpn(cur) < Vpn(va) + len / PAGE_SIZE
    ensures curPa == pa + Bytes(k, i)
  {
    RangeStep(k, PagesIn(len, k) - i);
    if cur < va + len {
      FrameBound(curPa, pa, len);
    }
    hide PageBytes, Vpn, Up, Bytes, Span;
  }

  // ---- The tables that a range needs ----

  /** The places of the tables that i pages of level k from page number n on need. */
  ghost function RangeTables(k: nat, n: nat, i: nat): set<Slot> {
    if i == 0 then {} else RangeTables(k, n, i - 1) + TablesFor(k, n + i - 1)
  }

  /** How many of these tables are missing. */
  ghost function Need(at: map<Slot, nat>, k: nat, n: nat, i: nat): nat {
    |RangeTables(k, n, i) - at.Keys|
  }

  /** None of the first i pages is in anybody's way, nor inside a larger one. */
  ghost predicate Clear(pages: map<Page, Leaf>, k: nat, n: nat, i: nat) {
    forall j: nat | j < i :: !Blocked(pages, k, n, j) && !Inside(pages, k, n, j)
  }

  /** The first i pages can be mapped with f free pages; access tells whether the mapping grants any. */
  ghost predicate Reaches(pages: map<Page, Leaf>, at: map<Slot, nat>, f: nat, access: bool, k: nat, n: nat, i: nat) {
    Clear(pages, k, n, i) && Need(at, k, n, i) <= f && (access || i == 0)
  }

  /** With each page, exactly the tables are added that it misses then. */
  lemma NeedNext(at: map<Slot, nat>, g: map<Slot, nat>, k: nat, n: nat, i: nat)
    requires g.Keys == at.Keys + RangeTables(k, n, i)
    ensures Need(at, k, n, i + 1) == Need(at, k, n, i) + Missing(g, k, n + i)
    ensures at.Keys + RangeTables(k, n, i + 1) == g.Keys + TablesFor(k, n + i)
  {
    hide TablesFor;
    assert RangeTables(k, n, i + 1) == RangeTables(k, n, i) + TablesFor(k, n + i);
    hide RangeTables;
    Shares(RangeTables(k, n, i), TablesFor(k, n + i), at.Keys, g.Keys);
  }

  lemma Shares(a: set<Slot>, b: set<Slot>, keys: set<Slot>, both: set<Slot>)
    requires both == keys + a
    ensures |a + b - keys| == |a - keys| + |b - both| && keys + (a + b) == both + b
  {
    assert a + b - keys == (a - keys) + (b - both);
  }

  lemma {:induction false} NeedGrows(at: map<Slot, nat>, k: nat, n: nat, i: nat, j: nat)
    requires i <= j
    ensures Need(at, k, n, i) <= Need(at, k, n, j)
  {
    TablesGrow(k, n, i, j);
    hide RangeTables, TablesFor;
    Fewer(RangeTables(k, n, i) - at.Keys, RangeTables(k, n, j) - at.Keys);
  }

  lemma {:induction false} TablesGrow(k: nat, n: nat, i: nat, j: nat)
    requires i <= j
    ensures RangeTables(k, n, i) <= RangeTables(k, n, j)
  {
    hide TablesFor;
    if i < j { TablesGrow(k, n, i, j - 1); }
  }

  /** The tables of a range, counted level by level: as many as there are table numbers between
      the one of the first page and the one of the last. */
  function Breadth(k: nat, n: nat, i: nat, l: nat): nat {
    if i == 0 || l < k || l >= 2 then 0 else
      UpMonotone(n, n + i - 1, l + 1 - k);
      Up(n + i - 1, l + 1 - k) - Up(n, l + 1 - k) + 1
  }

  /** No range needs more tables than that. */
  lemma NeedBound(at: map<Slot, nat>, k: nat, n: nat, i: nat)
    requires k <= 2
    ensures Need(at, k, n, i) <= Breadth(k, n, i, 0) + Breadth(k, n, i, 1)
  {
    TableCount(k, n, i);
    hide RangeTables, Breadth;
    Fewer(RangeTables(k, n, i) - at.Keys, RangeTables(k, n, i));
  }

  lemma {:induction false} TableCount(k: nat, n: nat, i: nat)
    requires k <= 2
    ensures |RangeTables(k, n, i)| <= Breadth(k, n, i, 0) + Breadth(k, n, i, 1)
  {
    if i > 0 {
      TableCount(k, n, i - 1);
      RangeNext(k, n, i);
      if k <= 1 { AtEachLevel(k, n, i, 1); }
      if k == 0 { AtEachLevel(k, n, i, 0); }
      hide Up, RangeTables, Breadth;
      var o, s := RangeTables(k, n, i - 1), Slot(1, Up(n + i - 1, 2 - k));
      if k <= 1 { AddOne(o, s); }
      if k == 0 { AddOne(o + {s}, Slot(0, Up(n + i - 1, 1))); }
    }
  }

  lemma RangeNext(k: nat, n: nat, i: nat)
    requires 0 < i && k <= 2
    ensures var o, s := RangeTables(k, n, i - 1), Slot(1, Up(n + i - 1, 2 - k));
            RangeTables(k, n, i) ==
            if k == 0 then o + {s} + {Slot(0, Up(n + i - 1, 1))} else if k == 1 then o + {s} else o
    ensures Breadth(k, n, i, 0) >= Breadth(k, n, i - 1, 0) && (k > 0 ==> Breadth(k, n, i, 0) == 0)
    ensures Breadth(k, n, i, 1) >= Breadth(k, n, i - 1, 1)
  {
    TablesAre(k, n + i - 1);
    if k <= 1 { AtEachLevel(k, n, i, 1); }
    if k == 0 { AtEachLevel(k, n, i, 0); }
    hide Up, TablesFor;
  }

  lemma AddOne(a: set<Slot>, s: Slot)
    ensures |a + {s}| == |a| + (if s in a then 0 else 1)
  {
    if s in a { assert a + {s} == a; }
  }

  lemma TablesAre(k: nat, n: nat)
    requires k <= 2
    ensures k == 0 ==> TablesFor(k, n) == {Slot(1, Up(n, 2)), Slot(0, Up(n, 1))}
    ensures k == 1 ==> TablesFor(k, n) == {Slot(1, Up(n, 1))}
    ensures k == 2 ==> TablesFor(k, n) == {}
  {
    hide Up;
    assert TablesFrom(k, n, 2) == {};
    assert k <= 1 ==> TablesFrom(k, n, 1) == TablesFrom(k, n, 2) + {Slot(1, Up(n, 2 - k))};
    assert k == 0 ==> TablesFrom(k, n, 0) == TablesFrom(k, n, 1) + {Slot(0, Up(n, 1))};
  }

  lemma AtEachLevel(k: nat, n: nat, i: nat, l: nat)
    requires 0 < i && k <= l < 2
    ensures Breadth(k, n, i - 1, l) <= Breadth(k, n, i, l)
    ensures Slot(l, Up(n + i - 1, l + 1 - k)) in RangeTables(k, n, i - 1)
            || Breadth(k, n, i, l) == Breadth(k, n, i - 1, l) + 1
  {
    hide Up, TablesFor;
    if i > 1 {
      NextUp(n + i - 2, l + 1 - k);
      TablesAre(k, n + i - 2);
    }
  }

  lemma {:induction false} NextUp(v: nat, k: nat)
    ensures Up(v, k) <= Up(v + 1, k) <= Up(v, k) + 1
  {
    if k > 0 { NextUp(v, k - 1); }
  }

  /** An aligned range of 1GiB, in pages of 4KiB, needs 513 tables at most. */
  lemma GigabyteNeeds(at: map<Slot, nat>, n: nat, i: nat)
    requires n % 0x4_0000 == 0 && i == 0x4_0000
    ensures Need(at, 0, n, i) <= 513
  {
    hide Need, RangeTables;
    NeedBound(at, 0, n, i);
    Spread(n);
  }

  lemma Spread(n: nat)
    requires n % 0x4_0000 == 0
    ensures Up(n + 0x3_ffff, 1) == Up(n, 1) + 511 && Up(n + 0x3_ffff, 2) == Up(n, 2)
  {
    var e := n + 0x3_ffff;
    assert Up(n, 1) == Up(n, 0) / 512 && Up(n, 2) == Up(n, 1) / 512;
    assert Up(e, 1) == Up(e, 0) / 512 && Up(e, 2) == Up(e, 1) / 512;
    hide Up;
  }

  /** The mapping grants some access. */
  predicate Grants(m: Leaf) {
    m.prot != NO_ACCESS
  }

  /** What the loop of `hal_pgtbl_enter` has done after i pages. */
  ghost predicate Entered(t: AddressMap, pages: map<Page, Leaf>, at: map<Slot, nat>, f: nat, k: nat, n: nat, i: nat,
                          m: Leaf)
    reads t
  {
    && t.Valid() && t.pages == Mapped(pages, k, n, i, m) && t.at.Keys == at.Keys + RangeTables(k, n, i)
    && Reaches(pages, at, f, Grants(m), k, n, i) && |t.free| == f - Need(at, k, n, i)
  }

  lemma EnterStart(t: AddressMap, k: nat, n: nat, m: Leaf)
    requires t.Valid()
    ensures Entered(t, t.pages, t.at, |t.free|, k, n, 0, m)
  {
    hide AddressMap.Valid;
    assert RangeTables(k, n, 0) - t.at.Keys == {};
  }

  /** One page was mapped. */
  lemma EnterNext(t: AddressMap, g: map<Slot, nat>, pages: map<Page, Leaf>, at: map<Slot, nat>, f: nat,
                  k: nat, n: nat, i: nat, m: Leaf)
    requires t.Valid() && t.pages == Mapped(pages, k, n, i + 1, m)
    requires g.Keys == at.Keys + RangeTables(k, n, i) && t.at.Keys == g.Keys + TablesFor(k, n + i)
    requires Clear(pages, k, n, i) && !Blocked(pages, k, n, i) && !Inside(pages, k, n, i) && Grants(m)
    requires Need(at, k, n, i) + Missing(g, k, n + i) <= f
    requires |t.free| == f - Need(at, k, n, i) - Missing(g, k, n + i)
    ensures Entered(t, pages, at, f, k, n, i + 1, m)
  {
    hide AddressMap.Valid, Mapped, Blocked, Inside, RangeTables, Need, Missing, TablesFor;
    NeedNext(at, g, k, n, i);
  }

  /** The ways in which a run over c pages ends after i of them. */
  ghost predicate Ends(st: Status, pages: map<Page, Leaf>, at: map<Slot, nat>, f: nat, access: bool, k: nat, n: nat,
                       c: nat, i: nat) {
    && i <= c && Reaches(pages, at, f, access, k, n, i)
    && match st
       case Ok => i == c
       case Astray => i < c && Inside(pages, k, n, i)
       case Ebusy => i < c && Blocked(pages, k, n, i) && !Inside(pages, k, n, i)
       case Stuck => i < c && Need(at, k, n, i + 1) > f && Clear(pages, k, n, i + 1)
       case Hollow => i < c && Need(at, k, n, i + 1) <= f && Clear(pages, k, n, i + 1) && !access
       case _ => false
  }

  /** There is one way only. */
  lemma OneEnd(s: Status, r: Status, pages: map<Page, Leaf>, at: map<Slot, nat>, f: nat, access: bool, k: nat, n: nat,
               c: nat, i: nat, j: nat)
    requires Ends(s, pages, at, f, access, k, n, c, i) && Ends(r, pages, at, f, access, k, n, c, j)
    ensures s == r && i == j
  {
    hide Need, Blocked, Inside;
    if i < j {
      NeedGrows(at, k, n, i + 1, j);
    } else if j < i {
      NeedGrows(at, k, n, j + 1, i);
    }
  }

  /** What stops at one page: by its number, whether a page lies in the way, and what is free. */
  lemma PageEnds(st: Status, pages: map<Page, Leaf>, at: map<Slot, nat>, g: map<Slot, nat>, f: nat, access: bool,
                 k: nat, n: nat, c: nat, i: nat)
    requires i < c && Reaches(pages, at, f, access, k, n, i) && g.Keys == at.Keys + RangeTables(k, n, i)
    requires st == Astray <==> Inside(pages, k, n, i)
    requires st == Ebusy <==> st != Astray && Blocked(pages, k, n, i)
    requires st == Stuck <==> st != Astray && Missing(g, k, n + i) > f - Need(at, k, n, i)
    requires st == Hollow <==> st != Astray && st != Ebusy && st != Stuck && !access
    requires st != Ok && st != Einval && st != Enoent
    ensures Ends(st, pages, at, f, access, k, n, c, i)
  {
    hide Need, Blocked, Inside, RangeTables, Missing;
    NeedNext(at, g, k, n, i);
  }

  /** The choice of the page size in `hal_pgtbl_enter`. */
  method ChooseLevel(va: nat, pa: nat, len: nat) returns (k: nat)
    ensures k == LevelFor(va, pa, len)
  {
    hide PageAligned;
    k := 0;
    if Fits(va, pa, len, 1) { k := 1; }
    if Fits(va, pa, len, 2) { k := 2; }
  }

  /** `hal_pgtbl_enter`: all of the range is mapped, or something stops it at the first page that is not
      clear. What it is depends on nothing but the pages mapped, the tables that are missing and the
      number of free pages. */
  method Enter(t: AddressMap, va: nat, m: Leaf, len: nat) returns (st: Status, ghost done: nat)
    requires t.Valid() && RangeOk(va, m.paddr, len)
    modifies t
    ensures t.lost == old(t.lost) && (st != Stuck && st != Hollow ==> t.Valid())
    ensures t.Supply() == old(t.Supply()) && |t.free| + t.nrPages == old(|t.free| + t.nrPages)
    ensures var k := LevelFor(va, m.paddr, len); var n, c := Up(Vpn(va), k), PagesIn(len, k);
            && Ends(st, old(t.pages), old(t.at), |old(t.free)|, Grants(m), k, n, c, done)
            && t.pages == Mapped(old(t.pages), k, n, done, m) && InARow(old(t.pages), t.pages, k, n, done, m)
            && (st == Ok ==> t.nrPages == old(t.nrPages) + Need(old(t.at), k, n, c))
            && (st == Ok <==> Reaches(old(t.pages), old(t.at), |old(t.free)|, Grants(m), k, n, c))
            && forall r, i: nat | Ends(r, old(t.pages), old(t.at), |old(t.free)|, Grants(m), k, n, c, i) ::
                 r == st && i == done
  {
    hide Up, Vpn, Mapped, PageBytes, PageAligned, PagesIn, Span, Covers, Cursor, RangeOk, Meets, Shadowed, Ends;
    hide AddressMap.Valid, RangeTables, Need, Missing, TablesFor, WalkFails, Clear, Dangles, AddressMap.Supply;
    hide PageWord, InARow;
    hide LevelFor, Fits;
    var k := ChooseLevel(va, m.paddr, len);
    ghost var pages0, at0, f, access := t.pages, t.at, |t.free|, Grants(m);
    ghost var v, n, c := Vpn(va), Up(Vpn(va), k), PagesIn(len, k);
    var cur: nat, pa: nat := va, m.paddr;
    done := 0;
    CursorStart(va, m.paddr, len, k);
    MappedNone(pages0, k, n, m);
    EnterStart(t, k, n, m);
    CursorUse(va, m.paddr, len, k, done, cur, pa);
    st := Ok;
    while cur < va + len
      invariant Cursor(va, m.paddr, len, k, done, cur, pa) && done <= c
      invariant Entered(t, pages0, at0, f, k, n, done, m) && t.lost == old(t.lost) && st == Ok
      invariant t.Supply() == old(t.Supply()) && |t.free| + t.nrPages == old(|t.free| + t.nrPages)
      decreases c - done
    {
      CursorUse(va, m.paddr, len, k, done, cur, pa);
      MeetsMapped(pages0, k, n, done, m, n + done);
      ShadowedMapped(pages0, k, n, done, m, n + done);
      ghost var g := t.at;
      NeedNext(at0, g, k, n, done);
      st := t.Map(cur, m.(paddr := pa), k);
      if st != Ok {
        PageEnds(st, pages0, at0, g, f, access, k, n, c, done);
        break;
      }
      MappedNext(pages0, k, n, done, m);
      EnterNext(t, g, pages0, at0, f, k, n, done, m);
      CursorNext(va, m.paddr, len, k, done, cur, pa);
      cur, pa := cur + PageBytes(k), pa + PageBytes(k);
      done := done + 1;
    }
    if st == Ok {
      CursorUse(va, m.paddr, len, k, done, cur, pa);
      AllEnd(pages0, at0, f, access, k, n, c);
    }
    MappedIs(pages0, k, n, done, m);
    TheOnlyEnd(st, pages0, at0, f, access, k, n, c, done);
  }

  lemma TheOnlyEnd(st: Status, pages: map<Page, Leaf>, at: map<Slot, nat>, f: nat, access: bool, k: nat, n: nat, c: nat,
                   done: nat)
    requires Ends(st, pages, at, f, access, k, n, c, done)
    ensures st == Ok <==> Reaches(pages, at, f, access, k, n, c)
    ensures st == Ok ==> done == c
    ensures forall r, i: nat | Ends(r, pages, at, f, access, k, n, c, i) :: r == st && i == done
  {
    forall r, i: nat | Ends(r, pages, at, f, access, k, n, c, i) ensures r == st && i == done {
      OneEnd(r, st, pages, at, f, access, k, n, c, i, done);
    }
    if Reaches(pages, at, f, access, k, n, c) { AllEnd(pages, at, f, access, k, n, c); }
  }

  lemma AllEnd(pages: map<Page, Leaf>, at: map<Slot, nat>, f: nat, access: bool, k: nat, n: nat, c: nat)
    requires Reaches(pages, at, f, access, k, n, c)
    ensures Ends(Ok, pages, at, f, access, k, n, c, c)
  {
  }

  // ---- Unmapping ----

  /** run lists the pages from v on, one next to the other, n 4KiB pages in all. */
  ghost predicate Lined(pages: map<Page, Leaf>, v: nat, run: seq<Page>, n: nat)
    decreases |run|
  {
    if run == [] then n == 0
    else
      var p := run[0];
      && p in pages && p.lvl <= 2 && Covers(p, v) && Span(p.lvl) <= n
      && Lined(pages, v + Span(p.lvl), run[1..], n - Span(p.lvl))
  }

  /** A page further on is another one. */
  lemma {:induction false} LinedWithout(pages: map<Page, Leaf>, v: nat, run: seq<Page>, n: nat, p: Page)
    requires Lined(pages, v, run, n) && Up(v, p.lvl) > p.n
    ensures Lined(pages - {p}, v, run, n) && p !in run
    decreases |run|
  {
    hide Up;
    if run != [] {
      UpMonotone(v, v + Span(run[0].lvl), p.lvl);
      LinedWithout(pages, v + Span(run[0].lvl), run[1..], n - Span(run[0].lvl), p);
    }
  }

  ghost function Elems(run: seq<Page>): set<Page> {
    set p | p in run
  }

  /** `hal_pgtbl_remove` for a range that mapped pages make up. */
  method Remove(t: AddressMap, va: nat, len: nat, ghost run: seq<Page>)
    requires t.Valid() && Vpn(va) + len / PAGE_SIZE <= VPNS
    requires va % PAGE_SIZE == 0 && len % PAGE_SIZE == 0 ==> Lined(t.pages, Vpn(va), run, len / PAGE_SIZE)
    modifies t
    ensures t.Valid()
    ensures t.Supply() == old(t.Supply()) && |t.free| + t.nrPages == old(|t.free| + t.nrPages)
    ensures t.pages == if va % PAGE_SIZE == 0 && (va + len) % PAGE_SIZE == 0 then old(t.pages) - Elems(run)
                       else old(t.pages)
  {
    hide Up, Vpn, Covers, PageBytes, Span, Space.Inv, Loses;
    if va % PAGE_SIZE != 0 || (va + len) % PAGE_SIZE != 0 { return; }
    ghost var pages0 := t.pages;
    ghost var done := 0;
    var cur: nat := va;
    assert Elems(run[..0]) == {};
    LenAligned(va, len);
    while cur < va + len
      invariant done <= |run| && t.Valid() && t.pages == pages0 - Elems(run[..done])
      invariant t.Supply() == old(t.Supply()) && |t.free| + t.nrPages == old(|t.free| + t.nrPages)
      invariant cur % PAGE_SIZE == 0 && cur <= va + len && (va + len - cur) % PAGE_SIZE == 0
      invariant Lined(t.pages, if cur < va + len then Vpn(cur) else VPNS, run[done..], (va + len - cur) / PAGE_SIZE)
      invariant cur < va + len ==> Vpn(cur) + (va + len - cur) / PAGE_SIZE <= VPNS
      decreases va + len - cur
    {
      ghost var p, v, n := run[done], Vpn(cur), (va + len - cur) / PAGE_SIZE;
      var st, m, lvl := t.Extract(cur);
      OnePage(t.State(), v, lvl, p);
      t.Unmap(cur, p);
      RemoveStep(va + len - cur, lvl);
      UpStep(v, lvl);
      LinedWithout(pages0 - Elems(run[..done]), v + Span(lvl), run[done..][1..], n - Span(lvl), p);
      assert run[done..][1..] == run[done + 1..];
      assert Elems(run[..done + 1]) == Elems(run[..done]) + {p};
      if n > Span(lvl) { VpnStep(cur, lvl); } else { LinedNone(t.pages, v + Span(lvl), VPNS, run[done + 1..]); }
      done := done + 1;
      cur := cur + PageBytes(lvl);
    }
    assert run[..done] == run;
  }

  /** Nothing is left when all pages are done. */
  lemma LinedNone(pages: map<Page, Leaf>, v: nat, w: nat, run: seq<Page>)
    requires Lined(pages, v, run, 0)
    ensures Lined(pages, w, run, 0) && run == []
  {
  }

  lemma LenAligned(va: nat, len: nat)
    requires va % PAGE_SIZE == 0 && (va + len) % PAGE_SIZE == 0
    ensures len % PAGE_SIZE == 0
  {
  }

  lemma RemoveStep(rem: nat, k: nat)
    requires rem % PAGE_SIZE == 0 && k <= 2 && Span(k) <= rem / PAGE_SIZE
    ensures 0 < PageBytes(k) <= rem && (rem - PageBytes(k)) % PAGE_SIZE == 0 && PageBytes(k) % PAGE_SIZE == 0
    ensures (rem - PageBytes(k)) / PAGE_SIZE == rem / PAGE_SIZE - Span(k) && Span(k) >= 1
  {
    Spans();
    hide PageBytes, Span;
  }

  // ---- Round trip ----

  /** Unmapping a page just mapped restores the map. A table made on the way is kept for good
      when its own parent is not emptied, even though it holds nothing. */
  method MapThenUnmap(t: AddressMap, va: nat, m: Leaf, k: nat) returns (st: Status)
    requires t.Valid() && k <= 2 && m.paddr / PAGE_SIZE < PPNS
    modifies t
    ensures t.pages == old(t.pages) && (st != Stuck && st != Hollow ==> t.Valid())
    ensures t.Supply() == old(t.Supply()) && |t.free| + t.nrPages == old(|t.free| + t.nrPages)
    ensures st == Einval <==> !PageAligned(va, k) || !PageAligned(m.paddr, k)
    ensures st == Astray <==> st != Einval && Shadowed(old(t.pages), k, Up(Vpn(va), k))
    ensures st == Ebusy <==> st != Einval && st != Astray && Meets(old(t.pages), k, Up(Vpn(va), k))
    ensures st == Stuck <==>
              st != Einval && st != Astray && Missing(old(t.at), k, Up(Vpn(va), k)) > |old(t.free)|
    ensures st == Hollow <==> st != Einval && st != Astray && st != Ebusy && st != Stuck && m.prot == NO_ACCESS
    ensures st != Enoent
    ensures st == Ok ==> |t.lost| == |old(t.lost)| + (if Loses(old(t.pages), Page(k, Up(Vpn(va), k))) then 1 else 0)
    ensures st != Ok ==> t.lost == old(t.lost)
  {
    hide Up, Vpn, Space.Inv, Loses, Covers, Missing, Shadowed, Dangles;
    st := t.Map(va, m, k);
    if st == Ok {
      var p := Page(k, Up(Vpn(va), k));
      assert p !in old(t.pages) by { PageMeets(old(t.pages), k, p.n); }
      PageCovers(Vpn(va), k);
      assert t.pages - {p} == old(t.pages);
      t.Unmap(va, p);
    }
  }

  lemma PageMeets(pages: map<Page, Leaf>, k: nat, n: nat)
    ensures Page(k, n) in pages ==> Meets(pages, k, n)
  {
    var p := Page(k, n);
    assert Up(p.n, k - p.lvl) == n;
  }

  /** A space with no page but that of its root stops the kernel at the first page to be mapped. */
  method StuckForExample(m: Leaf) returns (t: AddressMap, st: Status)
    requires m.prot != NO_ACCESS && m.paddr == 0
    ensures fresh(t) && st == Stuck && t.pages == map[]
  {
    hide Space.Inv;
    t := new AddressMap([4096]);
    FirstPage();
    SomeMissing(t.at);
    st := t.Map(0, m, 0);
  }

  lemma FirstPage()
    ensures Vpn(0) == 0 && Up(0, 0) == 0 && Up(0, 1) == 0 && Up(1, 1) == 0 && Up(1, 0) == 1
    ensures PageAligned(0, 0) && PageAligned(0, 1) && PageAligned(0x20_0000, 1) && Vpn(0x20_0000) == 512
    ensures PageAligned(0x20_0000, 0) && Up(512, 1) == 1 && Up(512, 0) == 512
  {
  }

  lemma FewMissing(at: map<Slot, nat>, k: nat, n: nat)
    requires k <= 2
    ensures Missing(at, k, n) <= 2 - k
  {
    TablesAre(k, n);
    hide TablesFor;
    Fewer(TablesFor(k, n) - at.Keys, TablesFor(k, n));
  }

  lemma SomeMissing(at: map<Slot, nat>)
    requires at.Keys == {TOP}
    ensures Missing(at, 0, 0) > 0
  {
    TablesAre(0, 0);
    hide TablesFor;
    assert Slot(0, Up(0, 1)) in TablesFor(0, 0) - at.Keys;
  }

  /** With a large page mapped, a small one inside it sends the walk into the frame of the large one. */
  method AstrayForExample(m: Leaf) returns (t: AddressMap, st: Status)
    requires m.prot != NO_ACCESS && m.paddr == 0
    ensures fresh(t) && st == Astray && t.Valid() && t.pages == map[Page(1, 1) := m]
  {
    hide Space.Inv, Missing, TablesFor, Up, Vpn, PageAligned, WalkFails, Dangles;
    FirstPage();
    t := new AddressMap([4096, 8192, 12288]);
    FewMissing(t.at, 1, 1);
    assert Page(1, 1) !in t.pages;
    st := t.Map(0x20_0000, m, 1);
    assert Page(1, 1) in t.pages && Up(512, 1) == 1;
    st := t.Map(0x20_0000, m, 0);
  }

  /** With one large page mapped, mapping and unmapping a small one elsewhere loses a table. */
  method LosesForExample(m: Leaf) returns (t: AddressMap)
    requires m.prot != NO_ACCESS && m.paddr == 0
    ensures fresh(t) && t.Valid() && t.pages == map[Page(1, 1) := m] && |t.lost| == 1
  {
    hide Space.Inv, Missing, TablesFor, Up, Vpn, PageAligned, WalkFails;
    FirstPage();
    t := new AddressMap([4096, 8192, 12288, 16384, 20480]);
    FewMissing(t.at, 1, 1);
    assert Page(1, 1) !in t.pages;
    var st := t.Map(0x20_0000, m, 1);
    FewMissing(t.at, 0, 0);
    assert Page(1, 1) in t.pages && !Covers(Page(1, 1), 0);
    assert Loses(t.pages, Page(0, 0));
    st := MapThenUnmap(t, 0, m, 0);
  }
}
