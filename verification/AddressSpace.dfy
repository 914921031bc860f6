/** An address space as a value: page tables in memory, and the finite map of pages that they
    stand for. */
module AddressSpace {
  import opened Sv39

  /** A place for a table: its level and the index fields above it. */
  datatype Slot = Slot(lvl: nat, q: nat)

  /** A page of 4096 * 512^lvl bytes, by number. */
  datatype Page = Page(lvl: nat, n: nat)

  const TOP: Slot := Slot(2, 0)
  const NONE: Slot := Slot(3, 0)

  function Below(s: Slot, i: nat): Slot
    requires s.lvl > 0
  {
    Slot(s.lvl - 1, ENTRIES * s.q + i)
  }

  function Above(s: Slot): Slot {
    Slot(s.lvl + 1, s.q / ENTRIES)
  }

  /** Page p contains the 4KiB page v. */
  predicate Covers(p: Page, v: nat) {
    Up(v, p.lvl) == p.n
  }

  /** In bytes: page n of level k covers the addresses from n times its size on, below n + 1 times. */
  lemma CoversBytes(k: nat, n: nat, va: nat)
    requires k <= 2
    ensures Covers(Page(k, n), Vpn(va)) <==> n * PageBytes(k) <= va % 0x80_0000_0000 < (n + 1) * PageBytes(k)
  {
    IndexIs(va);
    var v := Vpn(va);
    assert Up(v, 1) == Up(v, 0) / 512 && Up(v, 2) == Up(v, 1) / 512;
    hide Up, PageBytes, Vpn;
    LowBits(va);
    var w := va % 0x80_0000_0000;
    assert v == w / 4096;
    assert v / 512 == w / 0x20_0000 && v / 512 / 512 == w / 0x4000_0000;
    InPage(w, n);
  }

  lemma LowBits(va: nat)
    ensures Vpn(va) == va % 0x80_0000_0000 / 4096
  {
    var q := va / 0x80_0000_0000;
    assert va == 0x80_0000_0000 * q + va % 0x80_0000_0000;
    assert va / 4096 == 0x800_0000 * q + va % 0x80_0000_0000 / 4096;
  }

  lemma InPage(w: nat, n: nat)
    ensures w / 0x1000 == n <==> n * 0x1000 <= w < (n + 1) * 0x1000
    ensures w / 0x20_0000 == n <==> n * 0x20_0000 <= w < (n + 1) * 0x20_0000
    ensures w / 0x4000_0000 == n <==> n * 0x4000_0000 <= w < (n + 1) * 0x4000_0000
  {
  }

  /** The table at level lvl on the way to page v. */
  function OnWay(v: nat, lvl: nat): Slot {
    Slot(lvl, Up(v, lvl + 1))
  }

  /** The number of valid entries. */
  function Valids(t: seq<nat>): nat {
    if t == [] then 0 else Valids(t[1..]) + if IsValid(t[0]) then 1 else 0
  }

  function Zeros(n: nat): (t: seq<nat>)
    ensures |t| == n && forall i | 0 <= i < n :: t[i] == 0
    ensures Valids(t) == 0
  {
    if n == 0 then [] else [0] + Zeros(n - 1)
  }

  /** tables and count are the pages that hold tables and their use counts, free the pages the
      allocator can still give, nr the `nr_pages` statistic. For the proof: which table stands
      where, which pages are mapped, and which tables hang on no other and were not freed. */
  datatype Space = Space(root: nat, tables: map<nat, seq<nat>>, count: map<nat, nat>, nr: nat, free: seq<nat>,
                         at: map<Slot, nat>, pages: map<Page, Leaf>, lost: set<nat>)
  {
    ghost function Entry(s: Slot, i: nat): nat {
      if s in at && at[s] in tables && i < |tables[at[s]]| then tables[at[s]][i] else 0
    }

    ghost predicate SlotOk(s: Slot) {
      s in at ==>
        && s.lvl <= 2 && (s.lvl == 2 ==> s == TOP) && (s.lvl < 2 ==> Above(s) in at)
        && at[s] in tables && at[s] in count && |tables[at[s]]| == ENTRIES
    }

    /** A valid entry that maps no page refers to the table below, and each table below has one. */
    ghost predicate PtrOk(s: Slot, i: nat) {
      s in at && i < ENTRIES ==>
        && ((IsValid(Entry(s, i)) && !IsLeaf(Entry(s, i))) <==> (s.lvl > 0 && Below(s, i) in at))
        && (s.lvl > 0 && Below(s, i) in at ==> at[Below(s, i)] == PteAddr(Entry(s, i)))
    }

    /** The entries for pages are the pages mapped. */
    ghost predicate LeafOk(s: Slot, i: nat) {
      s in at && i < ENTRIES ==>
        var p := Page(s.lvl, ENTRIES * s.q + i);
        && (IsValid(Entry(s, i)) && IsLeaf(Entry(s, i)) <==> p in pages)
        && (p in pages ==> pages[p] == DecodePte(Entry(s, i)))
    }

    ghost predicate PageOk(p: Page) {
      p in pages ==> p.lvl <= 2 && Slot(p.lvl, p.n / ENTRIES) in at
    }

    /** One use for being a table, one for each valid entry. */
    ghost predicate CountOk(s: Slot) {
      s in at && at[s] in tables && at[s] in count ==> count[at[s]] == 1 + Valids(tables[at[s]])
    }

    ghost predicate FullOk(s: Slot, hole: Slot) {
      s in at && s.lvl < 2 && s != hole && at[s] in tables ==> Valids(tables[at[s]]) > 0
    }

    ghost predicate AllSlots() { forall s {:trigger SlotOk(s)} :: SlotOk(s) }
    ghost predicate AllPtrs() { forall s, i {:trigger PtrOk(s, i)} :: PtrOk(s, i) }
    ghost predicate AllLeaves() { forall s, i {:trigger LeafOk(s, i)} :: LeafOk(s, i) }
    ghost predicate AllPages() { forall p {:trigger PageOk(p)} :: PageOk(p) }
    ghost predicate AllCounts() { forall s {:trigger CountOk(s)} :: CountOk(s) }
    ghost predicate AllFull(hole: Slot) { forall s {:trigger FullOk(s, hole)} :: FullOk(s, hole) }

    ghost predicate Distinct() {
      forall s, r {:trigger at[s], at[r]} | s in at && r in at && at[s] == at[r] :: s == r
    }

    /** Memory: every table page is at a slot, or lost; the statistic counts both. */
    ghost predicate Memory() {
      && TOP in at && at[TOP] == root
      && (forall s | s in at :: Frame(at[s]) && at[s] !in lost)
      && (forall t | t in lost :: t in tables && t in count && count[t] == 1 && Frame(t))
      && nr == |at| + |lost|
      && (forall k | 0 <= k < |free| :: Frame(free[k]) && free[k] !in tables)
      && (forall j, k | 0 <= j < k < |free| :: free[j] != free[k])
    }

    /** hole is the one table that may be empty for the moment, if any. */
    ghost predicate Inv(hole: Slot) {
      AllSlots() && AllPtrs() && AllLeaves() && AllPages() && AllCounts() && AllFull(hole) && Distinct() && Memory()
    }
  }

  lemma SlotAt(h: Space, hole: Slot, s: Slot)
    requires h.Inv(hole)
    ensures h.SlotOk(s) && h.CountOk(s) && h.FullOk(s, hole)
    ensures TOP in h.at && h.at[TOP] == h.root
    ensures s in h.at ==> Frame(h.at[s]) && h.at[s] !in h.lost
  {
  }

  lemma EntryAt(h: Space, hole: Slot, s: Slot, i: nat)
    requires h.Inv(hole)
    ensures h.PtrOk(s, i) && h.LeafOk(s, i)
  {
  }

  lemma PagesAt(h: Space, hole: Slot, p: Page, s: Slot)
    requires h.Inv(hole)
    ensures h.PageOk(p) && h.SlotOk(s)
  {
  }

  lemma PageWay(v: nat, p: Page)
    requires Covers(p, v)
    ensures OnWay(v, p.lvl) == Slot(p.lvl, p.n / ENTRIES)
  {
  }

  // ---- Reading the tables ----

  /** The tables above a table on the way to v are on the way to v. */
  lemma {:induction false} WayUp(h: Space, hole: Slot, v: nat, l: nat, k: nat)
    requires h.Inv(hole) && OnWay(v, l) in h.at && l <= k <= 2
    ensures OnWay(v, k) in h.at
    decreases k
  {
    hide Space.Inv;
    if l < k {
      WayUp(h, hole, v, l, k - 1);
      SlotAt(h, hole, OnWay(v, k - 1));
    }
  }

  lemma WayEntry(v: nat, l: nat)
    ensures ENTRIES * OnWay(v, l).q + Up(v, l) % ENTRIES == Up(v, l)
    ensures l > 0 ==> Below(OnWay(v, l), Up(v, l) % ENTRIES) == OnWay(v, l - 1)
    ensures Above(OnWay(v, l)) == OnWay(v, l + 1)
  {
  }

  /** The page that covers v is found where the walk ends. */
  lemma WalkFinds(h: Space, hole: Slot, v: nat, l: nat, p: Page)
    requires h.Inv(hole) && OnWay(v, l) in h.at && p in h.pages && Covers(p, v)
    requires !IsValid(h.Entry(OnWay(v, l), Up(v, l) % ENTRIES)) || IsLeaf(h.Entry(OnWay(v, l), Up(v, l) % ENTRIES))
    ensures p == Page(l, Up(v, l)) && IsValid(h.Entry(OnWay(v, l), Up(v, l) % ENTRIES))
    ensures h.pages[p] == DecodePte(h.Entry(OnWay(v, l), Up(v, l) % ENTRIES))
  {
    hide Space.Inv, Up;
    assert h.PageOk(p) && h.SlotOk(OnWay(v, l)) by { PagesAt(h, hole, p, OnWay(v, l)); }
    assert OnWay(v, p.lvl) in h.at by { PageWay(v, p); }
    WayEntry(v, l);
    WayEntry(v, p.lvl);
    if p.lvl < l {
      WayUp(h, hole, v, p.lvl, l - 1);
    } else if p.lvl > l {
      WayUp(h, hole, v, l, p.lvl - 1);
    }
    EntryAt(h, hole, OnWay(v, l), Up(v, l) % ENTRIES);
    EntryAt(h, hole, OnWay(v, p.lvl), Up(v, p.lvl) % ENTRIES);
  }

  /** The shape of the tables: each has one use more than valid entries, each but the root is
      referred to from the one above and is not empty, what an entry refers to is a table and not
      a page given back, and the statistic counts at least the tables there are. */
  lemma TableShape(h: Space, s: Slot, i: nat)
    requires h.Inv(NONE) && s in h.at && i < ENTRIES
    ensures h.at[s] in h.tables && h.at[s] in h.count && h.count[h.at[s]] == 1 + Valids(h.tables[h.at[s]])
    ensures s != TOP ==> Valids(h.tables[h.at[s]]) > 0 && Above(s) in h.at && s.lvl < 2
    ensures s != TOP ==> var e := h.Entry(Above(s), s.q % ENTRIES); IsValid(e) && !IsLeaf(e) && PteAddr(e) == h.at[s]
    ensures IsValid(h.Entry(s, i)) && !IsLeaf(h.Entry(s, i)) ==>
              && s.lvl > 0 && Below(s, i) in h.at && PteAddr(h.Entry(s, i)) == h.at[Below(s, i)]
              && PteAddr(h.Entry(s, i)) in h.tables && PteAddr(h.Entry(s, i)) !in h.free
    ensures forall r | r in h.at && r != s :: h.at[r] != h.at[s]
    ensures h.nr == |h.at| + |h.lost|
  {
    hide IsValid, IsLeaf, PteAddr, DecodePte, Valids, Frame;
    SlotAt(h, NONE, s);
    EntryAt(h, NONE, s, i);
    if s != TOP {
      EntryAt(h, NONE, Above(s), s.q % ENTRIES);
      assert Below(Above(s), s.q % ENTRIES) == s;
    }
    if s.lvl > 0 && Below(s, i) in h.at { SlotAt(h, NONE, Below(s, i)); }
  }

  /** p lies in the part of the address space that a table at s covers. */
  predicate Under(p: Page, s: Slot) {
    p.lvl <= s.lvl && Up(p.n, s.lvl + 1 - p.lvl) == s.q
  }

  lemma {:induction false} SomeValid(t: seq<nat>) returns (i: nat)
    requires Valids(t) > 0
    ensures i < |t| && IsValid(t[i])
  {
    if IsValid(t[0]) {
      i := 0;
    } else {
      i := SomeValid(t[1..]);
      i := i + 1;
    }
  }

  /** A table that is not empty leads to a page. */
  lemma {:induction false} LeadsToPage(h: Space, hole: Slot, s: Slot) returns (p: Page)
    requires h.Inv(hole) && s in h.at && h.at[s] in h.tables && Valids(h.tables[h.at[s]]) > 0
    requires hole.lvl >= s.lvl
    ensures p in h.pages && Under(p, s)
    decreases s.lvl
  {
    hide Space.Inv, Valids, Frame;
    SlotAt(h, hole, s);
    var i := SomeValid(h.tables[h.at[s]]);
    EntryAt(h, hole, s, i);
    if IsLeaf(h.Entry(s, i)) {
      p := Page(s.lvl, ENTRIES * s.q + i);
      assert Up(p.n, 1) == Up(p.n, 0) / ENTRIES;
    } else {
      var b := Below(s, i);
      SlotAt(h, hole, b);
      p := LeadsToPage(h, hole, b);
      assert Up(p.n, s.lvl + 1 - p.lvl) == Up(p.n, b.lvl + 1 - p.lvl) / ENTRIES;
    }
  }

  /** A page below a slot hangs on a table there. */
  lemma {:induction false} UnderTable(h: Space, hole: Slot, p: Page, s: Slot)
    requires h.Inv(hole) && p in h.pages && Under(p, s) && s.lvl <= 2
    ensures s in h.at
    decreases s.lvl
  {
    hide Space.Inv, Frame;
    PagesAt(h, hole, p, s);
    assert Up(p.n, 1) == Up(p.n, 0) / ENTRIES;
    if p.lvl < s.lvl {
      var b := Slot(s.lvl - 1, Up(p.n, s.lvl - p.lvl));
      UnderTable(h, hole, p, b);
      SlotAt(h, hole, b);
    }
  }

  // ---- One entry written ----

  function Put(t: seq<nat>, i: nat, e: nat): (u: seq<nat>)
    requires i < |t|
  {
    t[i := e]
  }

  lemma {:induction false} SetEntry(t: seq<nat>, i: nat, e: nat)
    requires i < |t|
    ensures |Put(t, i, e)| == |t|
    ensures Valids(Put(t, i, e)) == Valids(t) - (if IsValid(t[i]) then 1 else 0) + (if IsValid(e) then 1 else 0)
    decreases i
  {
    var u := t[i := e];
    if i == 0 {
      assert u[1..] == t[1..];
    } else {
      assert u[1..] == t[1..][i - 1 := e];
      SetEntry(t[1..], i - 1, e);
    }
  }

  /** Entry i of table s becomes e, and the use count follows. */
  ghost function Write(h: Space, s: Slot, i: nat, e: nat): Space
    requires s in h.at && h.at[s] in h.tables && h.at[s] in h.count && i < |h.tables[h.at[s]]|
  {
    var c := h.at[s];
    h.(tables := h.tables[c := Put(h.tables[c], i, e)],
       count := h.count[c := if IsValid(e) then h.count[c] + 1 else if h.count[c] > 0 then h.count[c] - 1 else 0])
  }

  /** A new table, taken from the allocator, stands at slot b. */
  ghost function Hang(h: Space, b: Slot): Space
    requires |h.free| > 0
  {
    var t := h.free[0];
    h.(tables := h.tables[t := Zeros(ENTRIES)], count := h.count[t := 1], nr := h.nr + 1, free := h.free[1..],
       at := h.at[b := t])
  }

  /** The table at slot b hangs on no other any more. */
  ghost function Unhang(h: Space, b: Slot): Space
    requires b in h.at
  {
    h.(at := h.at - {b}, lost := h.lost + {h.at[b]})
  }

  /** The last use of a lost table is dropped: the page goes back to the allocator. */
  ghost function Reclaim(h: Space, t: nat): Space
    requires t in h.lost && h.nr > 0
  {
    h.(tables := h.tables - {t}, count := h.count - {t}, nr := h.nr - 1, free := h.free + [t], lost := h.lost - {t})
  }

  /** What holds of everything but the entries. */
  ghost predicate Frames(h: Space, hole: Slot) {
    h.AllSlots() && h.AllCounts() && h.AllFull(hole) && h.AllPages() && h.Distinct() && h.Memory()
  }

  lemma Whole(h: Space, hole: Slot)
    requires Frames(h, hole) && h.AllPtrs() && h.AllLeaves()
    ensures h.Inv(hole)
  {
  }

  lemma Parts(h: Space, hole: Slot)
    requires h.Inv(hole)
    ensures Frames(h, hole)
  {
  }

  lemma FrameAt(h: Space, hole: Slot, s: Slot)
    requires Frames(h, hole)
    ensures h.SlotOk(s) && h.CountOk(s) && h.FullOk(s, hole)
    ensures TOP in h.at && h.at[TOP] == h.root && h.Distinct() && h.Memory()
    ensures s in h.at ==> Frame(h.at[s]) && h.at[s] !in h.lost
  {
  }

  ghost predicate CanWrite(h: Space, s: Slot, i: nat, e: nat) {
    && s in h.at && i < ENTRIES && h.at[s] in h.tables && h.at[s] in h.count && |h.tables[h.at[s]]| == ENTRIES
    && (IsValid(e) <==> !IsValid(h.Entry(s, i)))
  }

  lemma WriteEntry(h: Space, hole: Slot, s: Slot, i: nat, e: nat, r: Slot, j: nat)
    requires Frames(h, hole) && CanWrite(h, s, i, e) && r in h.at && j < ENTRIES
    ensures Write(h, s, i, e).Entry(r, j) == if r == s && j == i then e else h.Entry(r, j)
  {
    FrameAt(h, hole, r);
    hide Frames, IsValid;
  }

  lemma WriteKeeps(h: Space, hole: Slot, s: Slot, i: nat, e: nat, hole1: Slot)
    requires Frames(h, hole) && CanWrite(h, s, i, e)
    requires hole1 == (if IsValid(e) then NONE else s) && (hole == NONE || (IsValid(e) && hole == s))
    ensures Frames(Write(h, s, i, e), hole1)
  {
    var g := Write(h, s, i, e);
    assert h.AllPages() && h.Distinct() && h.Memory();
    hide Space.SlotOk, Space.CountOk, Space.FullOk, Space.PageOk, Write, CanWrite, IsValid;
    forall r ensures g.SlotOk(r) && g.CountOk(r) && g.FullOk(r, hole1) { WriteSlot(h, hole, s, i, e, hole1, r); }
    WriteMemory(h, hole, s, i, e);
    hide Space.Memory, Space.Distinct;
  }

  lemma WriteSlot(h: Space, hole: Slot, s: Slot, i: nat, e: nat, hole1: Slot, r: Slot)
    requires Frames(h, hole) && CanWrite(h, s, i, e)
    requires hole1 == (if IsValid(e) then NONE else s) && (hole == NONE || (IsValid(e) && hole == s))
    ensures Write(h, s, i, e).SlotOk(r) && Write(h, s, i, e).CountOk(r) && Write(h, s, i, e).FullOk(r, hole1)
  {
    FrameAt(h, hole, r);
    FrameAt(h, hole, s);
    SetEntry(h.tables[h.at[s]], i, e);
    hide Frames, IsValid, Valids, Put, Space.Memory;
  }

  lemma WriteMemory(h: Space, hole: Slot, s: Slot, i: nat, e: nat)
    requires Frames(h, hole) && CanWrite(h, s, i, e)
    ensures Write(h, s, i, e).Memory() && Write(h, s, i, e).Distinct() && Write(h, s, i, e).AllPages()
  {
    FrameAt(h, hole, s);
    assert h.AllPages();
    forall p ensures Write(h, s, i, e).PageOk(p) { assert h.PageOk(p); }
    hide Frames, IsValid, Put, Frame, Space.SlotOk, Space.CountOk, Space.FullOk;
  }

  /** A table that is no longer empty, or is the root, is no exception. */
  lemma NoHole(h: Space, s: Slot)
    requires h.Inv(s) && s in h.at && (s.lvl == 2 || (h.at[s] in h.tables && Valids(h.tables[h.at[s]]) > 0))
    ensures h.Inv(NONE)
  {
    Parts(h, s);
    hide Space.Inv, Space.PtrOk, Space.LeafOk, Space.SlotOk, Space.CountOk, Space.PageOk, Valids;
    assert h.AllPtrs() && h.AllLeaves() by { Entries(h, s); }
    forall r ensures h.FullOk(r, NONE) { assert h.FullOk(r, s); }
    Whole(h, NONE);
  }

  lemma Entries(h: Space, hole: Slot)
    requires h.Inv(hole)
    ensures h.AllPtrs() && h.AllLeaves()
  {
  }

  // ---- Mapping a page ----

  ghost function AddLeaf(h: Space, s: Slot, i: nat, m: Leaf): Space
    requires s in h.at && h.at[s] in h.tables && h.at[s] in h.count && i < |h.tables[h.at[s]]|
  {
    Write(h, s, i, LeafPte(m)).(pages := h.pages[Page(s.lvl, ENTRIES * s.q + i) := m])
  }

  ghost predicate CanAddLeaf(h: Space, s: Slot, i: nat, m: Leaf) {
    CanWrite(h, s, i, LeafPte(m)) && IsValid(LeafPte(m)) && IsLeaf(LeafPte(m)) && DecodePte(LeafPte(m)) == m
  }

  lemma SamePage(r: Slot, j: nat, s: Slot, i: nat)
    requires i < ENTRIES && j < ENTRIES
    ensures Page(r.lvl, ENTRIES * r.q + j) == Page(s.lvl, ENTRIES * s.q + i) <==> r == s && j == i
  {
  }

  lemma AddLeafKeeps(h: Space, hole: Slot, s: Slot, i: nat, m: Leaf)
    requires h.Inv(hole) && (hole == NONE || hole == s) && CanAddLeaf(h, s, i, m)
    ensures AddLeaf(h, s, i, m).Inv(NONE)
  {
    var g := AddLeaf(h, s, i, m);
    Parts(h, hole);
    WriteKeeps(h, hole, s, i, LeafPte(m), NONE);
    AddLeafFrames(h, s, i, m);
    hide Space.Inv, Space.PtrOk, Space.LeafOk, Frames, AddLeaf, CanAddLeaf;
    forall r, j ensures g.PtrOk(r, j) && g.LeafOk(r, j) { AddLeafEntry(h, hole, s, i, m, r, j); }
    Whole(g, NONE);
  }

  lemma AddLeafFrames(h: Space, s: Slot, i: nat, m: Leaf)
    requires CanAddLeaf(h, s, i, m) && Frames(Write(h, s, i, LeafPte(m)), NONE)
    ensures Frames(AddLeaf(h, s, i, m), NONE)
  {
    hide LeafPte, DecodePte, IsValid, IsLeaf, Valids, Put, Write, Frame, Frames;
    var w := Write(h, s, i, LeafPte(m));
    var g := AddLeaf(h, s, i, m);
    FrameAt(w, NONE, s);
    WriteRest(h, s, i, LeafPte(m));
    hide Space.CountOk, Space.FullOk, Space.Memory, Space.Distinct;
    forall p ensures g.PageOk(p) { PageAtFrame(w, NONE, p); }
    OtherPages(w, g, NONE);
  }

  lemma PageAtFrame(w: Space, hole: Slot, p: Page)
    requires Frames(w, hole)
    ensures w.PageOk(p)
  {
  }

  /** Only which pages are mapped differs. */
  lemma OtherPages(w: Space, g: Space, hole: Slot)
    requires Frames(w, hole) && g == w.(pages := g.pages) && g.AllPages()
    ensures Frames(g, hole)
  {
    FrameAt(w, hole, TOP);
    forall r ensures g.SlotOk(r) && g.CountOk(r) && g.FullOk(r, hole) { FrameAt(w, hole, r); }
    hide Space.SlotOk, Space.CountOk, Space.FullOk, Space.PageOk, Frame;
  }

  lemma WriteRest(h: Space, s: Slot, i: nat, e: nat)
    requires s in h.at && h.at[s] in h.tables && h.at[s] in h.count && i < |h.tables[h.at[s]]|
    ensures var w := Write(h, s, i, e);
            && w == h.(tables := w.tables, count := w.count) && w.tables.Keys == h.tables.Keys
            && w.tables[h.at[s]] == Put(h.tables[h.at[s]], i, e)
  {
  }

  lemma AddLeafEntry(h: Space, hole: Slot, s: Slot, i: nat, m: Leaf, r: Slot, j: nat)
    requires h.Inv(hole) && CanAddLeaf(h, s, i, m)
    ensures AddLeaf(h, s, i, m).PtrOk(r, j) && AddLeaf(h, s, i, m).LeafOk(r, j)
  {
    hide Space.Inv, Frames, LeafPte, DecodePte, IsValid, IsLeaf, Valids, Put, Write;
    Parts(h, hole);
    EntryAt(h, hole, r, j);
    WriteRest(h, s, i, LeafPte(m));
    if r in h.at && j < ENTRIES {
      WriteEntry(h, hole, s, i, LeafPte(m), r, j);
      SamePage(r, j, s, i);
    }
    EntryAt(h, hole, s, i);
    assert AddLeaf(h, s, i, m).Entry(r, j) == Write(h, s, i, LeafPte(m)).Entry(r, j);
  }

  // ---- Unmapping a page ----

  ghost function ClearLeaf(h: Space, s: Slot, i: nat): Space
    requires s in h.at && h.at[s] in h.tables && h.at[s] in h.count && i < |h.tables[h.at[s]]|
  {
    Write(h, s, i, 0).(pages := h.pages - {Page(s.lvl, ENTRIES * s.q + i)})
  }

  ghost predicate CanClear(h: Space, s: Slot, i: nat) {
    CanWrite(h, s, i, 0) && !IsValid(0) && !IsLeaf(0)
  }

  lemma ClearLeafKeeps(h: Space, s: Slot, i: nat)
    requires h.Inv(NONE) && CanClear(h, s, i) && IsLeaf(h.Entry(s, i))
    ensures ClearLeaf(h, s, i).Inv(s)
  {
    var g := ClearLeaf(h, s, i);
    Parts(h, NONE);
    WriteKeeps(h, NONE, s, i, 0, s);
    ClearLeafFrames(h, s, i);
    hide Space.Inv, Space.PtrOk, Space.LeafOk, Frames, ClearLeaf, CanClear;
    forall r, j ensures g.PtrOk(r, j) && g.LeafOk(r, j) { ClearLeafEntry(h, s, i, r, j); }
    Whole(g, s);
  }

  lemma ClearLeafFrames(h: Space, s: Slot, i: nat)
    requires CanClear(h, s, i) && Frames(Write(h, s, i, 0), s)
    ensures Frames(ClearLeaf(h, s, i), s)
  {
    var w := Write(h, s, i, 0);
    var g := ClearLeaf(h, s, i);
    FrameAt(w, s, s);
    WriteRest(h, s, i, 0);
    forall p ensures g.PageOk(p) { PageAtFrame(w, s, p); }
    hide IsValid, IsLeaf, Valids, Put, Write, Frame, Frames;
    OtherPages(w, g, s);
  }

  lemma ClearLeafEntry(h: Space, s: Slot, i: nat, r: Slot, j: nat)
    requires h.Inv(NONE) && CanClear(h, s, i) && IsLeaf(h.Entry(s, i))
    ensures ClearLeaf(h, s, i).PtrOk(r, j) && ClearLeaf(h, s, i).LeafOk(r, j)
  {
    Parts(h, NONE);
    EntryAt(h, NONE, r, j);
    WriteRest(h, s, i, 0);
    if r in h.at && j < ENTRIES {
      WriteEntry(h, NONE, s, i, 0, r, j);
      SamePage(r, j, s, i);
    }
    EntryAt(h, NONE, s, i);
    hide Space.Inv, Frames, DecodePte, IsValid, IsLeaf, Valids, Put, Write;
    assert ClearLeaf(h, s, i).Entry(r, j) == Write(h, s, i, 0).Entry(r, j);
  }

  // ---- A new table ----

  ghost function AddTable(h: Space, s: Slot, i: nat): Space
    requires s in h.at && h.at[s] in h.tables && h.at[s] in h.count && i < |h.tables[h.at[s]]|
    requires s.lvl > 0 && |h.free| > 0
  {
    Hang(Write(h, s, i, TablePte(h.free[0])), Below(s, i))
  }

  ghost predicate CanAddTable(h: Space, s: Slot, i: nat) {
    && s.lvl > 0 && |h.free| > 0 && var e := TablePte(h.free[0]);
       CanWrite(h, s, i, e) && IsValid(e) && !IsLeaf(e) && PteAddr(e) == h.free[0]
  }

  lemma AddTableKeeps(h: Space, hole: Slot, s: Slot, i: nat)
    requires h.Inv(hole) && (hole == NONE || hole == s) && CanAddTable(h, s, i)
    ensures AddTable(h, s, i).Inv(Below(s, i)) && Below(s, i) in AddTable(h, s, i).at
  {
    var g := AddTable(h, s, i);
    var w := Write(h, s, i, TablePte(h.free[0]));
    var b := Below(s, i);
    Parts(h, hole);
    WriteKeeps(h, hole, s, i, TablePte(h.free[0]), NONE);
    NothingBelow(h, hole, s, i);
    WriteRest(h, s, i, TablePte(h.free[0]));
    SlotAt(h, hole, s);
    hide Space.Inv, Space.PtrOk, Space.LeafOk, Frames, AddTable, CanAddTable, Write, IsValid, IsLeaf;
    assert g == Hang(w, b) && b in g.at by { AddTableIs(h, s, i); }
    HangKeeps(w, b);
    forall r, j ensures g.PtrOk(r, j) && g.LeafOk(r, j) { AddTableEntry(h, hole, s, i, r, j); }
    Whole(g, b);
  }

  lemma AddTableIs(h: Space, s: Slot, i: nat)
    requires CanAddTable(h, s, i)
    ensures var w := Write(h, s, i, TablePte(h.free[0])); |w.free| > 0 && AddTable(h, s, i) == Hang(w, Below(s, i))
    ensures Below(s, i) in AddTable(h, s, i).at
  {
  }

  lemma HangKeeps(w: Space, b: Slot)
    requires Frames(w, NONE) && |w.free| > 0 && b !in w.at && b.lvl < 2 && Above(b) in w.at
    ensures Frames(Hang(w, b), b)
  {
    var g := Hang(w, b);
    forall r ensures g.SlotOk(r) && g.CountOk(r) && g.FullOk(r, b) { HangSlot(w, b, r); }
    forall p ensures g.PageOk(p) { HangPage(w, b, p); }
    HangMemory(w, b);
    hide Space.SlotOk, Space.CountOk, Space.FullOk, Space.PageOk, Space.Distinct, Space.Memory, Hang;
  }

  lemma HangSlot(w: Space, b: Slot, r: Slot)
    requires Frames(w, NONE) && |w.free| > 0 && b !in w.at && b.lvl < 2 && Above(b) in w.at
    ensures Hang(w, b).SlotOk(r) && Hang(w, b).CountOk(r) && Hang(w, b).FullOk(r, b)
  {
    hide Frames, Zeros;
    FrameAt(w, NONE, r);
  }

  lemma HangPage(w: Space, b: Slot, p: Page)
    requires Frames(w, NONE) && |w.free| > 0
    ensures Hang(w, b).PageOk(p)
  {
    assert w.PageOk(p);
  }

  lemma HangMemory(w: Space, b: Slot)
    requires Frames(w, NONE) && |w.free| > 0 && b !in w.at && b.lvl < 2
    ensures Hang(w, b).Distinct() && Hang(w, b).Memory()
  {
    hide Frames, Space.SlotOk, Space.CountOk, Space.FullOk, Zeros, Frame;
    FrameAt(w, NONE, TOP);
    forall r ensures r in w.at ==> w.at[r] in w.tables { InTables(w, r); }
  }

  lemma InTables(w: Space, r: Slot)
    requires Frames(w, NONE)
    ensures r in w.at ==> w.at[r] in w.tables
  {
    FrameAt(w, NONE, r);
  }

  lemma AddTableEntry(h: Space, hole: Slot, s: Slot, i: nat, r: Slot, j: nat)
    requires h.Inv(hole) && CanAddTable(h, s, i)
    ensures AddTable(h, s, i).PtrOk(r, j) && AddTable(h, s, i).LeafOk(r, j)
  {
    hide Space.Inv, TablePte, DecodePte, IsLeaf, IsValid, PteAddr, AddTable, Space.Entry, CanWrite, CanAddTable;
    RoomAt(h, hole, s, i);
    AddTableAt(h, s, i);
    if j < ENTRIES {
      if r == Below(s, i) {
        AddedEntry(h, hole, s, i, r, j);
        EmptyTable(h, hole, s, i, r, j);
      } else if r in h.at {
        AddTableOld(h, hole, s, i, r, j);
        EntryAt(h, hole, r, j);
        if r.lvl > 0 && Below(r, j) == Below(s, i) { BelowIs(r, j, s, i); }
      }
    }
  }

  /** Where a table can be hung there is none, and no page. */
  lemma RoomAt(h: Space, hole: Slot, s: Slot, i: nat)
    requires h.Inv(hole) && CanAddTable(h, s, i)
    ensures s.lvl > 0 && |h.free| > 0 && s in h.at && i < ENTRIES && Below(s, i) !in h.at
    ensures Page(s.lvl, ENTRIES * s.q + i) !in h.pages
  {
    hide Space.Inv;
    NothingBelow(h, hole, s, i);
  }

  /** The entries of the tables there were. */
  lemma AddTableOld(h: Space, hole: Slot, s: Slot, i: nat, r: Slot, j: nat)
    requires h.Inv(hole) && CanAddTable(h, s, i) && j < ENTRIES && r in h.at
    ensures AddTable(h, s, i).Entry(r, j) == if r == s && j == i then TablePte(h.free[0]) else h.Entry(r, j)
    ensures var e := AddTable(h, s, i).Entry(r, j);
            r == s && j == i ==> IsValid(e) && !IsLeaf(e) && PteAddr(e) == h.free[0]
    ensures r == s && j == i ==> Page(r.lvl, ENTRIES * r.q + j) !in h.pages
  {
    NothingBelow(h, hole, s, i);
    Parts(h, hole);
    AddedEntry(h, hole, s, i, r, j);
    WriteEntry(h, hole, s, i, TablePte(h.free[0]), r, j);
    hide Space.Inv, Frames, TablePte, Write, AddTable, Space.Entry, PteAddr;
  }

  lemma AddTableAt(h: Space, s: Slot, i: nat)
    requires CanAddTable(h, s, i)
    ensures AddTable(h, s, i).at == h.at[Below(s, i) := h.free[0]] && AddTable(h, s, i).pages == h.pages
  {
  }

  lemma AddedEntry(h: Space, hole: Slot, s: Slot, i: nat, r: Slot, j: nat)
    requires h.Inv(hole) && CanAddTable(h, s, i) && j < ENTRIES
    requires Below(s, i) !in h.at
    ensures r in h.at ==> AddTable(h, s, i).Entry(r, j) == Write(h, s, i, TablePte(h.free[0])).Entry(r, j)
    ensures r == Below(s, i) ==> AddTable(h, s, i).Entry(r, j) == 0
  {
    Parts(h, hole);
    FrameAt(h, hole, r);
    WriteRest(h, s, i, TablePte(h.free[0]));
    hide Space.Inv, Frames, TablePte, Put, Write, Frame;
  }

  /** Nothing is known below a table that is new. */
  lemma EmptyTable(h: Space, hole: Slot, s: Slot, i: nat, r: Slot, j: nat)
    requires h.Inv(hole) && CanAddTable(h, s, i)
    ensures r == Below(s, i) && j < ENTRIES ==> Page(r.lvl, ENTRIES * r.q + j) !in h.pages
    ensures r == Below(s, i) && j < ENTRIES && r.lvl > 0 ==> Below(r, j) !in h.at && Below(r, j) != Below(s, i)
    ensures !IsValid(0)
  {
    NothingBelow(h, hole, s, i);
    if r == Below(s, i) && j < ENTRIES {
      var p := Page(r.lvl, ENTRIES * r.q + j);
      assert Slot(p.lvl, p.n / ENTRIES) == r;
      if r.lvl > 0 { assert Above(Below(r, j)) == r; }
    }
  }

  /** An entry that is not valid: no table and no page is below it. */
  lemma NothingBelow(h: Space, hole: Slot, s: Slot, i: nat)
    requires h.Inv(hole) && s in h.at && i < ENTRIES && !IsValid(h.Entry(s, i))
    ensures Page(s.lvl, ENTRIES * s.q + i) !in h.pages
    ensures s.lvl > 0 ==> Below(s, i) !in h.at && Above(Below(s, i)) == s
    ensures s.lvl > 0 ==> forall r | r in h.at :: Above(r) != Below(s, i)
    ensures s.lvl > 0 ==> forall p | p in h.pages :: Slot(p.lvl, p.n / ENTRIES) != Below(s, i)
  {
    EntryAt(h, hole, s, i);
    SlotAt(h, hole, s);
    forall r | r in h.at && s.lvl > 0 ensures Above(r) != Below(s, i) { SlotAt(h, hole, r); }
    forall p | p in h.pages && s.lvl > 0 ensures Slot(p.lvl, p.n / ENTRIES) != Below(s, i) { PagesAt(h, hole, p, s); }
    hide Space.Inv, IsValid, IsLeaf;
  }

  lemma BelowIs(s: Slot, i: nat, r: Slot, j: nat)
    requires i < ENTRIES && j < ENTRIES && s.lvl > 0 && r.lvl > 0 && Below(s, i) == Below(r, j)
    ensures s == r && i == j
  {
  }

  // ---- A table given up ----

  ghost function CutTable(h: Space, s: Slot, i: nat): Space
    requires s in h.at && h.at[s] in h.tables && h.at[s] in h.count && i < |h.tables[h.at[s]]|
    requires s.lvl > 0 && Below(s, i) in h.at
  {
    Write(Unhang(h, Below(s, i)), s, i, 0)
  }

  ghost predicate CanCut(h: Space, s: Slot, i: nat) {
    && s.lvl > 0 && Below(s, i) in h.at && CanClear(h, s, i)
    && h.at[Below(s, i)] in h.tables && Valids(h.tables[h.at[Below(s, i)]]) == 0
  }

  lemma CutTableKeeps(h: Space, s: Slot, i: nat)
    requires CanCut(h, s, i) && h.Inv(Below(s, i))
    ensures CutTable(h, s, i).Inv(s)
  {
    var b := Below(s, i);
    var u := Unhang(h, b);
    var g := CutTable(h, s, i);
    Parts(h, b);
    SlotAt(h, b, s);
    BelowEmpty(h, s, i);
    hide Space.Inv, Space.PtrOk, Space.LeafOk, Frames, IsValid, IsLeaf, Valids;
    UnhangKeeps(h, b);
    WriteKeeps(u, NONE, s, i, 0, s);
    hide CanCut, CanClear, CanWrite, Write;
    forall r, j ensures g.PtrOk(r, j) && g.LeafOk(r, j) { CutTableEntry(h, s, i, r, j); }
    Whole(g, s);
  }

  lemma UnhangKeeps(h: Space, b: Slot)
    requires Frames(h, b) && b in h.at && b.lvl < 2 && h.at[b] in h.tables && Valids(h.tables[h.at[b]]) == 0
    requires forall r | r in h.at :: Above(r) != b
    requires forall p | p in h.pages :: Slot(p.lvl, p.n / ENTRIES) != b
    ensures Frames(Unhang(h, b), NONE)
  {
    var g := Unhang(h, b);
    UnhangMemory(h, b);
    forall p ensures g.PageOk(p) { PageAtFrame(h, b, p); }
    forall r ensures g.SlotOk(r) && g.CountOk(r) && g.FullOk(r, NONE) { FrameAt(h, b, r); }
    hide Space.SlotOk, Space.CountOk, Space.FullOk, Space.PageOk, Space.Memory, Space.Distinct, Valids, Frame;
  }

  lemma UnhangMemory(h: Space, b: Slot)
    requires Frames(h, b) && b in h.at && b.lvl < 2 && h.at[b] in h.tables && Valids(h.tables[h.at[b]]) == 0
    ensures Unhang(h, b).Distinct() && Unhang(h, b).Memory()
  {
    FrameAt(h, b, b);
    hide Frames, Valids, Frame;
  }

  /** Nothing hangs on an empty table. */
  lemma BelowEmpty(h: Space, s: Slot, i: nat)
    requires CanCut(h, s, i) && h.Inv(Below(s, i))
    ensures forall r | r in h.at :: Above(r) != Below(s, i)
    ensures forall p | p in h.pages :: Slot(p.lvl, p.n / ENTRIES) != Below(s, i)
  {
    var b := Below(s, i);
    SlotAt(h, b, b);
    hide Space.Inv, Space.PtrOk, Space.LeafOk;
    forall r | r in h.at ensures Above(r) != b { if Above(r) == b { NoTableBelow(h, b, r); } }
    forall p | p in h.pages ensures Slot(p.lvl, p.n / ENTRIES) != b {
      if Slot(p.lvl, p.n / ENTRIES) == b { NoPageBelow(h, b, p); }
    }
  }

  lemma NoTableBelow(h: Space, b: Slot, r: Slot)
    requires h.Inv(b) && b in h.at && Above(r) == b && h.at[b] in h.tables && Valids(h.tables[h.at[b]]) == 0
    ensures r !in h.at
  {
    SlotAt(h, b, b);
    EntryAt(h, b, b, r.q % ENTRIES);
    NoneValid(h.tables[h.at[b]], r.q % ENTRIES);
    assert r == Below(b, r.q % ENTRIES);
  }

  lemma NoPageBelow(h: Space, b: Slot, p: Page)
    requires h.Inv(b) && b in h.at && Slot(p.lvl, p.n / ENTRIES) == b && h.at[b] in h.tables
    requires Valids(h.tables[h.at[b]]) == 0
    ensures p !in h.pages
  {
    SlotAt(h, b, b);
    EntryAt(h, b, b, p.n % ENTRIES);
    NoneValid(h.tables[h.at[b]], p.n % ENTRIES);
    assert p == Page(b.lvl, ENTRIES * b.q + p.n % ENTRIES);
  }

  lemma {:induction false} NoneValid(t: seq<nat>, i: nat)
    requires Valids(t) == 0 && i < |t|
    ensures !IsValid(t[i])
  {
    if i > 0 { NoneValid(t[1..], i - 1); }
  }

  lemma CutTableEntry(h: Space, s: Slot, i: nat, r: Slot, j: nat)
    requires CanCut(h, s, i) && h.Inv(Below(s, i))
    ensures CutTable(h, s, i).PtrOk(r, j) && CutTable(h, s, i).LeafOk(r, j)
  {
    var b := Below(s, i);
    EntryAt(h, b, r, j);
    EntryAt(h, b, s, i);
    BelowEmpty(h, s, i);
    CutIs(h, s, i);
    if r in h.at && r != b && j < ENTRIES {
      CutEntry(h, s, i, r, j);
      SamePage(r, j, s, i);
      if r.lvl > 0 && Below(r, j) == b { BelowIs(r, j, s, i); }
    }
    hide Space.Inv, DecodePte, IsLeaf, IsValid, Valids, CutTable, Space.Entry;
  }

  lemma CutIs(h: Space, s: Slot, i: nat)
    requires CanCut(h, s, i)
    ensures CutTable(h, s, i).at == h.at - {Below(s, i)} && CutTable(h, s, i).pages == h.pages
  {
  }

  lemma CutEntry(h: Space, s: Slot, i: nat, r: Slot, j: nat)
    requires CanCut(h, s, i) && h.Inv(Below(s, i)) && r in h.at && r != Below(s, i) && j < ENTRIES
    ensures CutTable(h, s, i).Entry(r, j) == if r == s && j == i then 0 else h.Entry(r, j)
  {
    var b := Below(s, i);
    var u := Unhang(h, b);
    Parts(h, b);
    SlotAt(h, b, s);
    BelowEmpty(h, s, i);
    UnhangKeeps(h, b);
    WriteEntry(u, NONE, s, i, 0, r, j);
    hide Space.Inv, Frames, IsValid, IsLeaf, Valids, Write, CanWrite;
  }

  /** A lost table goes back to the allocator. */
  lemma ReclaimKeeps(h: Space, hole: Slot, t: nat)
    requires h.Inv(hole) && t in h.lost
    ensures h.nr > 0 && Reclaim(h, t).Inv(hole)
  {
    Parts(h, hole);
    ReclaimFrames(h, hole, t);
    var g := Reclaim(h, t);
    forall r, j ensures g.PtrOk(r, j) && g.LeafOk(r, j) {
      EntryAt(h, hole, r, j);
      SlotAt(h, hole, r);
      assert g.Entry(r, j) == h.Entry(r, j);
    }
    hide Space.Inv, Space.PtrOk, Space.LeafOk, Frames;
    Whole(g, hole);
  }

  lemma ReclaimFrames(h: Space, hole: Slot, t: nat)
    requires Frames(h, hole) && t in h.lost
    ensures h.nr > 0 && Frames(Reclaim(h, t), hole)
  {
    FrameAt(h, hole, TOP);
    assert h.nr > 0;
    var g := Reclaim(h, t);
    forall p ensures g.PageOk(p) { PageAtFrame(h, hole, p); }
    forall r ensures g.SlotOk(r) && g.CountOk(r) && g.FullOk(r, hole) { FrameAt(h, hole, r); }
    hide Space.SlotOk, Space.CountOk, Space.FullOk, Space.PageOk, Valids, Frame;
  }
}
