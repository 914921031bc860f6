/** The page table of an address space, changed in place: lookup, mapping and unmapping. */
module PageTable {
  import opened Sv39
  import opened AddressSpace

  /** The last three are no codes that a caller sees. Stuck: the kernel stopped itself, for want of a
      page for a table. Astray: the walk took the frame of a mapped page for a table; what it does next
      depends on what the page holds. Hollow: an entry that grants no access was written; it counts as a
      reference to a table, so that the next walk through it will go astray. */
  datatype Status = Ok | Einval | Ebusy | Enoent | Stuck | Astray | Hollow

  const NO_ACCESS: Prot := Prot(false, false, false)

  /** The page k, n lies in a larger one that is mapped. */
  ghost predicate Shadowed(pages: map<Page, Leaf>, k: nat, n: nat) {
    exists p :: p in pages && p.lvl > k && Up(n, p.lvl - k) == p.n
  }

  /** The entry for the page of v at level k refers to paddr as if a table stood there. */
  ghost predicate Dangles(h: Space, v: nat, k: nat, paddr: nat) {
    && OnWay(v, k) in h.at && (k > 0 ==> OnWay(v, k - 1) !in h.at)
    && var e := h.Entry(OnWay(v, k), Up(v, k) % ENTRIES); IsValid(e) && !IsLeaf(e) && PteAddr(e) == paddr
  }

  /** The places of the tables from level l up to the root's that the page k, n needs below the
      root. */
  ghost function TablesFrom(k: nat, n: nat, l: nat): set<Slot>
    decreases 2 - l
  {
    if l >= 2 || l < k then {} else TablesFrom(k, n, l + 1) + {Slot(l, Up(n, l + 1 - k))}
  }

  ghost function TablesFor(k: nat, n: nat): set<Slot> {
    TablesFrom(k, n, k)
  }

  /** How many tables the page k, n still needs. */
  ghost function Missing(at: map<Slot, nat>, k: nat, n: nat): nat {
    |TablesFor(k, n) - at.Keys|
  }

  /** The walk of `remove_table_reference` along the way to v stops at an entry that is not valid. */
  ghost predicate WalkFails(h: Space, v: nat, k: nat) {
    exists l :: k < l <= 2 && OnWay(v, l) in h.at && !IsValid(h.Entry(OnWay(v, l), Up(v, l) % ENTRIES))
  }

  /** Nothing but word i of the table c has changed. */
  ghost predicate OneWord(t: map<nat, seq<nat>>, u: map<nat, seq<nat>>, c: nat, i: nat) {
    && u.Keys == t.Keys && c in u && |u[c]| == |t[c]| && i < |u[c]|
    && (forall d | d in t && d != c :: u[d] == t[d])
    && (forall j | 0 <= j < |t[c]| && j != i :: u[c][j] == t[c][j])
  }

  /** Some mapped page meets the page k, n. */
  ghost predicate Meets(pages: map<Page, Leaf>, k: nat, n: nat) {
    exists p :: p in pages && p.lvl <= k && Up(p.n, k - p.lvl) == n
  }

  /** No page of pages lies under a table at s. */
  ghost predicate Bare(pages: map<Page, Leaf>, s: Slot) {
    forall p | p in pages :: !Under(p, s)
  }

  /** What is left after page p was unmapped makes `remove_table_reference` lose a table: the
      table of p has become empty, and the address space has not. */
  ghost predicate Loses(left: map<Page, Leaf>, p: Page) {
    p.lvl < 2 && Bare(left, Slot(p.lvl, p.n / ENTRIES)) && left != map[]
  }

  class AddressMap {
    const root: nat
    var tables: map<nat, seq<nat>>
    var count: map<nat, nat>
    var nrPages: nat
    var free: seq<nat>
    ghost var at: map<Slot, nat>
    ghost var pages: map<Page, Leaf>
    ghost var lost: set<nat>

    ghost function State(): Space
      reads this
    {
      Space(root, tables, count, nrPages, free, at, pages, lost)
    }

    ghost predicate Valid()
      reads this
    {
      State().Inv(NONE)
    }

    /** The pages that hold tables and those that the allocator can still give. */
    ghost function Supply(): set<nat>
      reads this
    {
      tables.Keys + set t | t in free
    }

    /** `pgtbl_alloc_pgtbl`, with the pages that the allocator can give. */
    constructor (supply: seq<nat>)
      requires |supply| > 0 && forall k | 0 <= k < |supply| :: Frame(supply[k])
      requires forall j, k | 0 <= j < k < |supply| :: supply[j] != supply[k]
      ensures Valid() && pages == map[] && nrPages == 1 && lost == {} && free == supply[1..] && at.Keys == {TOP}
      ensures Supply() == set t | t in supply
    {
      root := supply[0];
      tables := map[supply[0] := Zeros(ENTRIES)];
      count := map[supply[0] := 1];
      nrPages := 1;
      free := supply[1..];
      at := map[TOP := supply[0]];
      pages := map[];
      lost := {};
      new;
      NewSpace(State());
    }

    /** `hal_pgtbl_extract`: the page that covers va, with its level. */
    method Extract(va: nat) returns (st: Status, m: Leaf, lvl: nat)
      requires Valid()
      ensures st == Ok || st == Enoent
      ensures st == Ok ==> lvl <= 2 && Page(lvl, Up(Vpn(va), lvl)) in pages && pages[Page(lvl, Up(Vpn(va), lvl))] == m
      ensures st == Enoent <==> forall p | p in pages :: !Covers(p, Vpn(va))
    {
      hide Space.Inv, Space.AllSlots, Up, Vpn, IsValid, IsLeaf, DecodePte, PteAddr;
      ghost var h := State();
      ghost var v := Vpn(va);
      var cur := root;
      lvl := 2;
      RootOnWay(h, NONE, va);
      m := Leaf(0, Prot(false, false, false), Attr(false, false, false));
      while true
        invariant lvl <= 2 && OnWay(v, lvl) in h.at && cur == h.at[OnWay(v, lvl)]
        decreases lvl
      {
        SlotAt(h, NONE, OnWay(v, lvl));
        EntryAt(h, NONE, OnWay(v, lvl), Index(va, lvl));
        WayEntry(v, lvl);
        var pte := tables[cur][Index(va, lvl)];
        if !IsValid(pte) {
          forall p | p in h.pages ensures !Covers(p, v) { if Covers(p, v) { WalkFinds(h, NONE, v, lvl, p); } }
          return Enoent, m, lvl;
        }
        if IsLeaf(pte) {
          PageCovers(v, lvl);
          return Ok, DecodePte(pte), lvl;
        }
        cur := PteAddr(pte);
        lvl := lvl - 1;
      }
    }

    /** `pgtbl_alloc_pgtbl_page` */
    method AllocTable() returns (t: nat)
      requires |free| > 0
      modifies this`free, this`tables, this`count, this`nrPages
      ensures t == old(free[0]) && free == old(free[1..]) && nrPages == old(nrPages) + 1
      ensures tables == old(tables)[t := Zeros(ENTRIES)] && count == old(count)[t := 1]
    {
      t := free[0];
      free := free[1..];
      tables := tables[t := Zeros(ENTRIES)];
      count := count[t := 1];
      nrPages := nrPages + 1;
    }

    /** `grow_pgtbl` at the level of the page: the entry is written, unless it is in use. */
    method GrowLeaf(cur: nat, lvl: nat, va: nat, m: Leaf, ghost hole: Slot) returns (st: Status)
      requires State().Inv(hole) && lvl <= 2 && (hole == NONE || hole == OnWay(Vpn(va), lvl))
      requires OnWay(Vpn(va), lvl) in at && cur == at[OnWay(Vpn(va), lvl)]
      requires Frame(m.paddr)
      modifies this`tables, this`count, this`pages
      ensures st == Ebusy <==> IsValid(old(State()).Entry(OnWay(Vpn(va), lvl), Index(va, lvl)))
      ensures st == Ebusy ==> State() == old(State())
      ensures st == Hollow <==> st != Ebusy && m.prot == NO_ACCESS
      ensures st == Hollow ==> !Valid() && Dangles(State(), Vpn(va), lvl, m.paddr) && pages == old(pages)
      ensures st != Ebusy && st != Hollow ==>
                st == Ok && Valid() && pages == old(pages)[Page(lvl, Up(Vpn(va), lvl)) := m]
      ensures st != Ebusy ==>
                OneWord(old(tables), tables, cur, Index(va, lvl)) && PageWord(tables[cur][Index(va, lvl)], m)
    {
      hide Space.Inv, Up, Vpn, IsValid, IsLeaf, DecodePte, PteAddr, LeafPte, Frame, PageWord;
      LeafWord(m);
      ghost var h := State();
      ghost var s := OnWay(Vpn(va), lvl);
      SlotAt(h, hole, s);
      WayEntry(Vpn(va), lvl);
      var idx := Index(va, lvl);
      var pte := tables[cur][idx];
      if IsValid(pte) { return Ebusy; }
      LeafRoundTrip(m);
      if m.prot == NO_ACCESS {
        tables := tables[cur := Put(tables[cur], idx, LeafPte(m))];
        count := count[cur := count[cur] + 1];
        NothingBelow(h, hole, s, idx);
        HollowEntry(h, State(), s, idx, m);
        return Hollow;
      }
      AddLeafKeeps(h, hole, s, idx, m);
      tables := tables[cur := Put(tables[cur], idx, LeafPte(m))];
      count := count[cur := count[cur] + 1];
      pages := pages[Page(lvl, ENTRIES * s.q + idx) := m];
      assert State() == AddLeaf(h, s, idx, m);
      return Ok;
    }

    /** `grow_pgtbl` above the level of the page: the next table, made if it is missing. A page entry
        here is followed like any other. */
    method GrowTable(cur: nat, lvl: nat, va: nat, ghost hole: Slot) returns (st: Status, next: nat, ghost made: bool)
      requires State().Inv(hole) && 0 < lvl <= 2 && (hole == NONE || hole == OnWay(Vpn(va), lvl))
      requires OnWay(Vpn(va), lvl) in at && cur == at[OnWay(Vpn(va), lvl)]
      modifies this`tables, this`count, this`free, this`nrPages, this`at
      ensures st == Astray <==> Page(lvl, Up(Vpn(va), lvl)) in pages
      ensures st == Astray ==> next == pages[Page(lvl, Up(Vpn(va), lvl))].paddr
      ensures st == Stuck <==> st != Astray && OnWay(Vpn(va), lvl - 1) !in old(at) && old(free) == []
      ensures st == Stuck ==> !IsValid(State().Entry(OnWay(Vpn(va), lvl), Index(va, lvl)))
      ensures st == Ok || st == Stuck || st == Astray
      ensures st == Ok ==> OnWay(Vpn(va), lvl - 1) in at && next == at[OnWay(Vpn(va), lvl - 1)]
      ensures made <==> st == Ok && OnWay(Vpn(va), lvl - 1) !in old(at)
      ensures !made ==> State() == old(State())
      ensures made ==> !IsValid(old(State()).Entry(OnWay(Vpn(va), lvl), Index(va, lvl)))
      ensures made ==> State().Inv(OnWay(Vpn(va), lvl - 1)) && next in tables && tables[next] == Zeros(ENTRIES)
      ensures made ==> at.Keys == old(at).Keys + {OnWay(Vpn(va), lvl - 1)} && old(free) != [] && free == old(free)[1..]
      ensures Supply() == old(Supply()) && |free| + nrPages == old(|free| + nrPages)
    {
      hide Space.Inv, Up, Vpn, IsValid, IsLeaf, PteAddr, TablePte, Frame, Valids, Put, Zeros;
      ghost var h := State();
      ghost var s := OnWay(Vpn(va), lvl);
      SlotAt(h, hole, s);
      WayEntry(Vpn(va), lvl);
      var idx := Index(va, lvl);
      var pte := tables[cur][idx];
      EntryAt(h, hole, s, idx);
      if IsValid(pte) {
        return if IsLeaf(pte) then Astray else Ok, PteAddr(pte), false;
      }
      if free == [] {
        return Stuck, 0, false;
      }
      next := HangTable(cur, idx, hole, s);
      return Ok, next, true;
    }

    /** A new table is allocated and entered at index idx of the table at s. */
    method HangTable(cur: nat, idx: nat, ghost hole: Slot, ghost s: Slot) returns (next: nat)
      requires State().Inv(hole) && (hole == NONE || hole == s) && free != []
      requires s in at && cur == at[s] && 0 < s.lvl <= 2 && idx < ENTRIES && !IsValid(State().Entry(s, idx))
      modifies this`tables, this`count, this`free, this`nrPages, this`at
      ensures State().Inv(Below(s, idx)) && Below(s, idx) in at && next == at[Below(s, idx)]
      ensures next in tables && tables[next] == Zeros(ENTRIES)
      ensures at.Keys == old(at).Keys + {Below(s, idx)} && free == old(free)[1..]
      ensures cur in tables && idx < |tables[cur]| && TableWord(tables[cur][idx], next)
      ensures Supply() == old(Supply()) && |free| + nrPages == old(|free| + nrPages)
    {
      hide Space.Inv, IsValid, IsLeaf, DecodePte, PteAddr, TablePte, Frame, Valids, Put, Zeros, Write, Hang, AddTable;
      hide TableWord;
      ghost var h := State();
      SlotAt(h, hole, s);
      FreeFrame(h, hole);
      TableRoundTrip(free[0]);
      TablePteWord(free[0]);
      AddTableKeeps(h, hole, s, idx);
      AddTableParts(h, s, idx);
      next := AllocTable();
      count := count[cur := count[cur] + 1];
      tables := tables[cur := Put(tables[cur], idx, TablePte(next))];
      at := at[Below(s, idx) := next];
      TwoUpdates(h.tables, cur, Put(h.tables[cur], idx, TablePte(next)), next, Zeros(ENTRIES));
      TwoUpdates(h.count, cur, h.count[cur] + 1, next, 1);
      assert State() == AddTable(h, s, idx);
      PutAt(h.tables[cur], idx, TablePte(next));
    }

    /** The turns of the loop of `map_vaddr_to_paddr` above the level of the page. */
    method GrowWay(va: nat, k: nat) returns (st: Status, cur: nat, ghost hole: Slot, ghost made: bool)
      requires Valid() && k <= 2
      modifies this`tables, this`count, this`free, this`nrPages, this`at
      ensures st == Ok || st == Astray || st == Stuck
      ensures st == Astray <==> Shadowed(pages, k, Up(Vpn(va), k))
      ensures st == Astray ==> State() == old(State())
      ensures st == Stuck ==> Missing(old(at), k, Up(Vpn(va), k)) > |old(free)| && !Meets(pages, k, Up(Vpn(va), k))
      ensures st == Stuck ==> free == [] && WalkFails(State(), Vpn(va), k)
      ensures st == Ok ==> Underway(old(State()), State(), hole, made, k, Vpn(va), k, cur)
      ensures Supply() == old(Supply()) && |free| + nrPages == old(|free| + nrPages)
    {
      hide Space.Inv, Up, Vpn, IsValid, IsLeaf, DecodePte, PteAddr, TablePte, Frame, Valids, Meets, Covers, TablesFrom;
      hide Missing, TablesFor, WalkFails, Zeros, Shadowed, NoneAbove, Underway;
      ghost var h := State();
      ghost var v := Vpn(va);
      cur := root;
      var lvl: nat := 2;
      hole, made := NONE, false;
      UnderwayStart(h, k, va);
      NoneAboveTop(h, v);
      while lvl > k
        invariant k <= lvl <= 2 && Underway(h, State(), hole, made, k, v, lvl, cur) && NoneAbove(h.pages, v, lvl)
        invariant Supply() == old(Supply()) && |free| + nrPages == old(|free| + nrPages)
      {
        ghost var g := State();
        UnderwayIs(h, g, hole, made, k, va, lvl, cur);
        ghost var was := cur;
        ChildOfNew(h, g, hole, made, k, va, lvl, was);
        ghost var made1;
        st, cur, made1 := GrowTable(cur, lvl, va, hole);
        if st == Astray {
          LargerPage(h.pages, k, v, lvl);
          return;
        }
        NoneHere(h.pages, v, lvl);
        if st == Stuck {
          NoneLeft(h, g, hole, made, k, va, lvl, was);
          return;
        }
        if made1 {
          Further(h, g, State(), hole, made, k, va, lvl, was, cur);
          made, hole := true, OnWay(v, lvl - 1);
        } else {
          Found(h, g, hole, made, k, va, lvl, was, cur);
        }
        lvl := lvl - 1;
      }
      NotShadowed(h, v, k, k);
      return Ok, cur, hole, made;
    }

    /** `map_vaddr_to_paddr` for a page of level k. Without a page for a table that it needs, its
        clean-up walks into an entry that is not valid and stops the kernel. */
    method Map(va: nat, m: Leaf, k: nat) returns (st: Status)
      requires Valid() && k <= 2 && m.paddr / PAGE_SIZE < PPNS
      modifies this
      ensures st == Einval <==> !PageAligned(va, k) || !PageAligned(m.paddr, k)
      ensures st == Astray <==> st != Einval && Shadowed(old(pages), k, Up(Vpn(va), k))
      ensures st == Ebusy <==> st != Einval && st != Astray && Meets(old(pages), k, Up(Vpn(va), k))
      ensures st == Stuck <==> st != Einval && st != Astray && Missing(old(at), k, Up(Vpn(va), k)) > |old(free)|
      ensures st == Hollow <==> st != Einval && st != Astray && st != Ebusy && st != Stuck && m.prot == NO_ACCESS
      ensures st != Enoent && lost == old(lost)
      ensures st == Einval || st == Ebusy || st == Astray ==> State() == old(State())
      ensures (st != Stuck && st != Hollow ==> Valid()) && (st == Hollow ==> !Valid())
      ensures st == Ok ==> pages == old(pages)[Page(k, Up(Vpn(va), k)) := m]
      ensures st == Ok ==> PageWord(State().Entry(OnWay(Vpn(va), k), Index(va, k)), m)
      ensures st == Ok ==> at.Keys == old(at).Keys + TablesFor(k, Up(Vpn(va), k))
      ensures st == Ok ==> |free| == |old(free)| - Missing(old(at), k, Up(Vpn(va), k))
      ensures Supply() == old(Supply()) && |free| + nrPages == old(|free| + nrPages)
      ensures st == Hollow ==> pages == old(pages) && Dangles(State(), Vpn(va), k, m.paddr)
      ensures st == Stuck ==> pages == old(pages) && free == [] && WalkFails(State(), Vpn(va), k)
    {
      hide Space.Inv, Up, Vpn, IsValid, IsLeaf, Frame, Meets, Missing, TablesFor, WalkFails, Shadowed, Dangles;
      hide Underway, PageWord;
      ghost var h := State();
      if !PageAligned(va, k) || !PageAligned(m.paddr, k) { return Einval; }
      PageOfFrames(m.paddr, k);
      var cur;
      ghost var hole, made;
      st, cur, hole, made := GrowWay(va, k);
      if st != Ok { return; }
      UnderwayIs(h, State(), hole, made, k, va, k, cur);
      Arrived(h, State(), hole, made, k, Vpn(va), cur);
      MeetsIff(State(), hole, va, k);
      st := GrowLeaf(cur, k, va, m, hole);
    }

    /** The first loop of `remove_table_reference`: the tables on the way to va. */
    method Descend(va: nat) returns (path: array<nat>, lvl: nat)
      requires Valid() && exists p :: p in pages && Covers(p, Vpn(va))
      ensures fresh(path) && path.Length == LEVELS && lvl <= 2 && Page(lvl, Up(Vpn(va), lvl)) in pages
      ensures forall j | lvl <= j <= 2 :: OnWay(Vpn(va), j) in at && path[j] == at[OnWay(Vpn(va), j)]
    {
      hide Space.Inv, Up, Vpn, IsValid, IsLeaf, DecodePte, PteAddr, Covers;
      ghost var h := State();
      ghost var v := Vpn(va);
      ghost var p :| p in h.pages && Covers(p, v);
      path := new nat[LEVELS];
      lvl := 2;
      RootOnWay(h, NONE, va);
      path[2] := root;
      while true
        invariant lvl <= 2
        invariant forall j | lvl <= j <= 2 :: OnWay(v, j) in h.at && path[j] == h.at[OnWay(v, j)]
        decreases lvl
      {
        SlotAt(h, NONE, OnWay(v, lvl));
        EntryAt(h, NONE, OnWay(v, lvl), Index(va, lvl));
        WayEntry(v, lvl);
        var pte := tables[path[lvl]][Index(va, lvl)];
        if !IsValid(pte) || IsLeaf(pte) { WalkFinds(h, NONE, v, lvl, p); }
        if lvl == 0 || IsLeaf(pte) { break; }
        lvl := lvl - 1;
        path[lvl] := PteAddr(pte);
      }
    }

    /** `pfdb_dec_page_use_count`: a page whose last use is dropped goes back to the allocator. */
    method DropUse(t: nat) returns (last: bool)
      requires t in count && count[t] > 0
      modifies this`count, this`tables, this`free
      ensures last <==> old(count[t]) == 1
      ensures !last ==> count == old(count)[t := old(count[t]) - 1] && tables == old(tables) && free == old(free)
      ensures last ==> count == old(count) - {t} && tables == old(tables) - {t} && free == old(free) + [t]
    {
      last := count[t] == 1;
      if last {
        count := count - {t};
        tables := tables - {t};
        free := free + [t];
      } else {
        count := count[t := count[t] - 1];
      }
    }

    /** The entry for page p is cleared. */
    method ClearAt(va: nat, cur: nat, lvl: nat, ghost p: Page)
      requires Valid() && lvl <= 2 && OnWay(Vpn(va), lvl) in at && cur == at[OnWay(Vpn(va), lvl)]
      requires p == Page(lvl, Up(Vpn(va), lvl)) && p in pages
      modifies this`tables, this`count, this`pages
      ensures State().Inv(OnWay(Vpn(va), lvl)) && pages == old(pages) - {p}
      ensures cur in tables && cur in count && count[cur] == 1 + Valids(tables[cur]) && tables.Keys == old(tables).Keys
    {
      hide Space.Inv, Up, Vpn, IsLeaf, DecodePte, PteAddr, Valids, Frame;
      ghost var h := State();
      ghost var s := OnWay(Vpn(va), lvl);
      var idx := Index(va, lvl);
      WayEntry(Vpn(va), lvl);
      SlotAt(h, NONE, s);
      EntryAt(h, NONE, s, idx);
      ZeroPte();
      ClearLeafKeeps(h, s, idx);
      SomeUse(h, NONE, s, idx);
      tables := tables[cur := Put(tables[cur], idx, 0)];
      count := count[cur := count[cur] - 1];
      pages := pages - {p};
      assert State() == ClearLeaf(h, s, idx);
      SlotAt(State(), s, s);
    }

    /** The entry for the empty table below is cleared. */
    method CutAt(va: nat, cur: nat, lvl: nat)
      requires 0 < lvl <= 2 && State().Inv(OnWay(Vpn(va), lvl - 1)) && OnWay(Vpn(va), lvl - 1) in at
      requires OnWay(Vpn(va), lvl) in at && cur == at[OnWay(Vpn(va), lvl)]
      requires var t := at[OnWay(Vpn(va), lvl - 1)]; t in tables && Valids(tables[t]) == 0
      modifies this`tables, this`count, this`at, this`lost
      ensures State().Inv(OnWay(Vpn(va), lvl)) && at == old(at) - {OnWay(Vpn(va), lvl - 1)}
      ensures old(at[OnWay(Vpn(va), lvl - 1)]) !in old(lost) && lost == old(lost) + {old(at[OnWay(Vpn(va), lvl - 1)])}
      ensures cur in tables && cur in count && count[cur] == 1 + Valids(tables[cur]) && tables.Keys == old(tables).Keys
      ensures forall t | t in lost :: t in tables && t in count && count[t] == 1
    {
      hide Space.Inv, Up, Vpn, IsLeaf, DecodePte, PteAddr, Valids, Frame;
      ghost var h := State();
      ghost var s, b := OnWay(Vpn(va), lvl), OnWay(Vpn(va), lvl - 1);
      var idx := Index(va, lvl);
      WayEntry(Vpn(va), lvl);
      SlotAt(h, b, s);
      SlotAt(h, b, b);
      EntryAt(h, b, s, idx);
      ZeroPte();
      CutTableKeeps(h, s, idx);
      SomeUse(h, b, s, idx);
      tables := tables[cur := Put(tables[cur], idx, 0)];
      count := count[cur := count[cur] - 1];
      lost := lost + {at[b]};
      at := at - {b};
      assert State() == CutTable(h, s, idx);
      SlotAt(State(), s, s);
      LostPages(State(), s);
    }

    /** The second loop of `remove_table_reference`, above the table of page p, which is empty. */
    method GiveUpTables(va: nat, path: array<nat>, min: nat, ghost p: Page)
      requires path.Length == LEVELS && min == p.lvl <= 2 && Slot(p.lvl, p.n / ENTRIES) == OnWay(Vpn(va), p.lvl)
      requires State().Inv(OnWay(Vpn(va), p.lvl)) && Bare(pages, OnWay(Vpn(va), p.lvl))
      requires forall j | p.lvl <= j <= 2 :: OnWay(Vpn(va), j) in at && path[j] == at[OnWay(Vpn(va), j)]
      requires path[p.lvl] in tables && Valids(tables[path[p.lvl]]) == 0
      modifies this
      ensures Valid() && pages == old(pages)
      ensures Supply() == old(Supply()) && |free| + nrPages == old(|free| + nrPages)
      ensures |free| >= |old(free)|
      ensures lost >= old(lost) && |lost| == |old(lost)| + (if Loses(pages, p) then 1 else 0)
    {
      hide Space.Inv, Up, Vpn, IsValid, IsLeaf, DecodePte, PteAddr, Valids, Frame, Loses, Bare;
      ghost var h := State();
      ghost var v := Vpn(va);
      RootOnWay(h, OnWay(v, p.lvl), va);
      var lvl := min + 1;
      while lvl <= 2
        invariant p.lvl < lvl <= 3 && State().Inv(OnWay(v, lvl - 1)) && OnWay(v, lvl - 1) in at
        invariant path[lvl - 1] == at[OnWay(v, lvl - 1)] && path[lvl - 1] in tables
                  && Valids(tables[path[lvl - 1]]) == 0
        invariant forall j | lvl <= j <= 2 :: OnWay(v, j) in at && path[j] == at[OnWay(v, j)]
        invariant pages == h.pages && lost == h.lost && |free| >= |h.free|
        invariant Supply() == old(Supply()) && |free| + nrPages == old(|free| + nrPages)
      {
        CutAt(va, path[lvl], lvl);
        if count[path[lvl]] > 1 {
          LostOne(State(), OnWay(v, lvl), p);
          return;
        }
        SlotAt(State(), OnWay(v, lvl), OnWay(v, lvl));
        DropTable(path[lvl - 1], OnWay(v, lvl));
        lvl := lvl + 1;
      }
      AllGone(State(), OnWay(v, 2), p);
    }

    /** The last use of a table that hangs on no other is dropped. */
    method DropTable(t: nat, ghost hole: Slot)
      requires State().Inv(hole) && t in lost
      modifies this`count, this`tables, this`free, this`nrPages, this`lost
      ensures State().Inv(hole) && lost == old(lost) - {t} && free == old(free) + [t]
      ensures nrPages == old(nrPages) - 1 && tables == old(tables) - {t}
      ensures forall u | u in old(tables) && u != t :: u in tables && tables[u] == old(tables[u])
    {
      hide Space.Inv, Frame;
      ghost var h := State();
      ReclaimKeeps(h, hole, t);
      LostPages(h, hole);
      var last := DropUse(t);
      nrPages := nrPages - 1;
      lost := lost - {t};
      assert State() == Reclaim(h, t);
    }

    /** `remove_table_reference`, for an address that is mapped. A table that it empties goes back
        to the allocator only if the table above it is emptied too. */
    method Unmap(va: nat, ghost p: Page)
      requires Valid() && p in pages && Covers(p, Vpn(va))
      modifies this
      ensures Valid() && pages == old(pages) - {p}
      ensures Supply() == old(Supply()) && |free| + nrPages == old(|free| + nrPages)
      ensures |free| >= |old(free)|
      ensures lost >= old(lost) && |lost| == |old(lost)| + (if Loses(pages, p) then 1 else 0)
    {
      hide Space.Inv, Up, Vpn, IsValid, IsLeaf, DecodePte, PteAddr, Covers, Valids, Frame, Loses, Bare;
      var path, lvl := Descend(va);
      OnePage(State(), Vpn(va), lvl, p);
      ClearAt(va, path[lvl], lvl, p);
      if count[path[lvl]] > 1 {
        StillFull(State(), OnWay(Vpn(va), lvl), p);
      } else {
        NowBare(State(), OnWay(Vpn(va), lvl), p);
        GiveUpTables(va, path, lvl, p);
      }
    }
  }

  lemma ZeroPte()
    ensures !IsValid(0) && !IsLeaf(0)
  {
    assert Drop(0, 1) == 0 && Drop(0, 2) == 0 && Drop(0, 3) == 0;
  }

  lemma {:induction false} ValidCounts(t: seq<nat>, i: nat)
    requires i < |t| && IsValid(t[i])
    ensures Valids(t) > 0
  {
    if i > 0 { ValidCounts(t[1..], i - 1); }
  }

  lemma SomeUse(h: Space, hole: Slot, s: Slot, i: nat)
    requires h.Inv(hole) && s in h.at && i < ENTRIES && IsValid(h.Entry(s, i))
    ensures h.at[s] in h.tables && h.at[s] in h.count && h.count[h.at[s]] > 1
  {
    SlotAt(h, hole, s);
    ValidCounts(h.tables[h.at[s]], i);
  }

  lemma LostPages(h: Space, hole: Slot)
    requires h.Inv(hole)
    ensures forall t | t in h.lost :: t in h.tables && t in h.count && h.count[t] == 1
  {
  }

  /** One page covers an address. */
  lemma OnePage(h: Space, v: nat, lvl: nat, p: Page)
    requires h.Inv(NONE) && p in h.pages && Covers(p, v) && lvl <= 2 && Page(lvl, Up(v, lvl)) in h.pages
    ensures p == Page(lvl, Up(v, lvl)) && Slot(p.lvl, p.n / ENTRIES) == OnWay(v, lvl)
  {
    hide Space.Inv, IsValid, IsLeaf, DecodePte;
    var q := Page(lvl, Up(v, lvl));
    PagesAt(h, NONE, q, OnWay(v, lvl));
    WayEntry(v, lvl);
    EntryAt(h, NONE, OnWay(v, lvl), Up(v, lvl) % ENTRIES);
    WalkFinds(h, NONE, v, lvl, p);
  }

  /** Other pages are left in the table of p. */
  lemma StillFull(h: Space, s: Slot, p: Page)
    requires h.Inv(s) && s in h.at && h.at[s] in h.tables && Valids(h.tables[h.at[s]]) > 0
    requires s == Slot(p.lvl, p.n / ENTRIES)
    ensures h.Inv(NONE) && !Loses(h.pages, p)
  {
    hide Space.Inv, Under, Valids;
    NoHole(h, s);
    var q := LeadsToPage(h, s, s);
  }

  /** An empty table has no page under it. */
  lemma NowBare(h: Space, s: Slot, p: Page)
    requires h.Inv(s) && s in h.at && h.at[s] in h.tables && Valids(h.tables[h.at[s]]) == 0
    requires s == Slot(p.lvl, p.n / ENTRIES)
    ensures Bare(h.pages, s)
  {
    hide Space.Inv, Valids;
    forall q | q in h.pages ensures !Under(q, s) { if Under(q, s) { BareAt(h, s, q); } }
  }

  lemma BareAt(h: Space, s: Slot, q: Page)
    requires h.Inv(s) && s in h.at && h.at[s] in h.tables && Valids(h.tables[h.at[s]]) == 0 && Under(q, s)
    ensures q !in h.pages
  {
    hide Space.Inv, Valids, DecodePte, PteAddr, IsLeaf;
    SlotAt(h, s, s);
    var m := Up(q.n, s.lvl - q.lvl);
    assert Up(q.n, s.lvl + 1 - q.lvl) == m / ENTRIES;
    EntryAt(h, s, s, m % ENTRIES);
    NoneValid(h.tables[h.at[s]], m % ENTRIES);
    assert q.lvl == s.lvl ==> q == Page(s.lvl, ENTRIES * s.q + m % ENTRIES);
    if q in h.pages && q.lvl < s.lvl { UnderTable(h, s, q, Below(s, m % ENTRIES)); }
  }

  /** The table given up was not the last one: it is lost. */
  lemma LostOne(h: Space, s: Slot, p: Page)
    requires h.Inv(s) && s in h.at && h.at[s] in h.tables && Valids(h.tables[h.at[s]]) > 0
    requires p.lvl < s.lvl && Bare(h.pages, Slot(p.lvl, p.n / ENTRIES))
    ensures h.Inv(NONE) && Loses(h.pages, p)
  {
    SlotAt(h, s, s);
    hide Space.Inv, Under, Valids, Bare;
    NoHole(h, s);
    var q := LeadsToPage(h, s, s);
  }

  lemma AllGone(h: Space, s: Slot, p: Page)
    requires h.Inv(s) && s == TOP && s in h.at && h.at[s] in h.tables && Valids(h.tables[h.at[s]]) == 0
    ensures h.Inv(NONE) && !Loses(h.pages, p)
  {
    hide Space.Inv, Valids, Up;
    NoHole(h, s);
    forall q ensures q !in h.pages {
      if q in h.pages {
        UnderTop(h, s, q);
        BareAt(h, s, q);
      }
    }
  }

  lemma UnderTop(h: Space, hole: Slot, q: Page)
    requires h.Inv(hole) && q in h.pages
    ensures Under(q, TOP)
  {
    hide Space.Inv;
    PagesAt(h, hole, q, TOP);
    SlotUnderTop(h, hole, Slot(q.lvl, q.n / ENTRIES));
    UpAdds(q.n, 1, 2 - q.lvl);
    assert Up(q.n, 1) == Up(q.n, 0) / ENTRIES;
  }

  lemma {:induction false} SlotUnderTop(h: Space, hole: Slot, s: Slot)
    requires h.Inv(hole) && s in h.at
    ensures s.lvl <= 2 && Up(s.q, 2 - s.lvl) == 0
    decreases 2 - s.lvl
  {
    hide Space.Inv;
    SlotAt(h, hole, s);
    if s.lvl < 2 {
      SlotUnderTop(h, hole, Above(s));
      UpAdds(s.q, 1, 1 - s.lvl);
      assert Up(s.q, 1) == Up(s.q, 0) / ENTRIES;
    }
  }

  lemma TwoUpdates<T>(m: map<nat, T>, a: nat, x: T, b: nat, y: T)
    requires a != b
    ensures m[a := x][b := y] == m[b := y][a := x]
  {
  }

  lemma PutAt(t: seq<nat>, i: nat, e: nat)
    requires i < |t|
    ensures |Put(t, i, e)| == |t| && Put(t, i, e)[i] == e
  {
  }

  lemma AddTableParts(h: Space, s: Slot, i: nat)
    requires CanAddTable(h, s, i)
    ensures var c, t, b := h.at[s], h.free[0], Below(s, i);
            AddTable(h, s, i) == Space(h.root, h.tables[c := Put(h.tables[c], i, TablePte(t))][t := Zeros(ENTRIES)],
                                       h.count[c := h.count[c] + 1][t := 1], h.nr + 1, h.free[1..], h.at[b := t],
                                       h.pages, h.lost)
  {
    hide IsValid, IsLeaf, PteAddr, TablePte, Put, Zeros;
  }

  lemma FreeFrame(h: Space, hole: Slot)
    requires h.Inv(hole) && |h.free| > 0
    ensures Frame(h.free[0]) && h.free[0] !in h.tables
  {
  }

  lemma ZeroEntry(h: Space, s: Slot, i: nat)
    requires s in h.at && h.at[s] in h.tables && h.tables[h.at[s]] == Zeros(ENTRIES) && i < ENTRIES
    ensures !IsValid(h.Entry(s, i))
  {
  }

  lemma PageOfFrames(paddr: nat, k: nat)
    requires PageAligned(paddr, k) && k <= 2 && paddr / PAGE_SIZE < PPNS
    ensures Frame(paddr)
  {
    hide PageBytes, Span;
    Spans();
    assert k == 0 || k == 1 || k == 2;
    Aligned2M(paddr);
    Aligned1G(paddr);
  }

  lemma Aligned2M(a: nat)
    ensures a % 0x20_0000 == 0 ==> a % 4096 == 0
  {
    if a % 0x20_0000 == 0 { Multiple(512 * (a / 0x20_0000), a); }
  }

  lemma Aligned1G(a: nat)
    ensures a % 0x4000_0000 == 0 ==> a % 4096 == 0 && a % 0x20_0000 == 0
  {
    if a % 0x4000_0000 == 0 {
      Multiple(0x4_0000 * (a / 0x4000_0000), a);
      Multiple2M(512 * (a / 0x4000_0000), a);
    }
  }

  lemma Multiple(m: nat, a: nat)
    requires a == 4096 * m
    ensures a % 4096 == 0
  {
  }

  lemma Multiple2M(m: nat, a: nat)
    requires a == 0x20_0000 * m
    ensures a % 0x20_0000 == 0
  {
  }

  lemma Spans()
    ensures Span(0) == 1 && Span(1) == 512 && Span(2) == 0x4_0000 && Span(3) == VPNS
    ensures PageBytes(0) == 4096 && PageBytes(1) == 0x20_0000 && PageBytes(2) == 0x4000_0000
  {
    assert Span(1) == 512 * Span(0);
    assert Span(2) == 512 * Span(1);
    assert Span(3) == 512 * Span(2);
  }

  /** The entry for a page is in use exactly when some mapped page lies in it. */
  lemma MeetsIff(h: Space, hole: Slot, va: nat, k: nat)
    requires h.Inv(hole) && k <= 2 && OnWay(Vpn(va), k) in h.at && (hole == NONE || hole == OnWay(Vpn(va), k))
    requires hole != NONE ==> !IsValid(h.Entry(OnWay(Vpn(va), k), Index(va, k)))
    ensures IsValid(h.Entry(OnWay(Vpn(va), k), Index(va, k))) <==> Meets(h.pages, k, Up(Vpn(va), k))
  {
    hide Space.Inv, Vpn, IsLeaf, DecodePte, PteAddr, TablePte, Frame, Valids, IsValid;
    var v := Vpn(va);
    var s := OnWay(v, k);
    var i := Index(va, k);
    var n := Up(v, k);
    WayEntry(v, k);
    SlotAt(h, hole, s);
    EntryAt(h, hole, s, i);
    if Meets(h.pages, k, n) {
      var p :| p in h.pages && p.lvl <= k && Up(p.n, k - p.lvl) == n;
      assert p.lvl == k ==> p == Page(k, n);
      if p.lvl < k { UnderTable(h, hole, p, Below(s, i)); }
      assert IsValid(h.Entry(s, i));
    }
    if IsValid(h.Entry(s, i)) {
      if IsLeaf(h.Entry(s, i)) {
        assert Page(k, n) in h.pages && Up(n, 0) == n;
      } else {
        SlotAt(h, hole, Below(s, i));
        var p := LeadsToPage(h, hole, Below(s, i));
        assert p.lvl <= k && Up(p.n, k - p.lvl) == n;
      }
    }
  }

  // ---- The tables that a page needs ----

  /** The loop of `map_vaddr_to_paddr` above level lvl has made the tables that were missing. */
  ghost predicate Underway(h: Space, g: Space, hole: Slot, made: bool, k: nat, v: nat, lvl: nat, cur: nat) {
    && h.Inv(NONE) && g.Inv(hole) && OnWay(v, lvl) in g.at && cur == g.at[OnWay(v, lvl)]
    && g.pages == h.pages && g.lost == h.lost
    && g.at.Keys == h.at.Keys + TablesFrom(k, Up(v, k), lvl)
    && |g.free| == |h.free| - |TablesFrom(k, Up(v, k), lvl) - h.at.Keys|
    && (!made ==> hole == NONE && g == h)
    && (made ==> hole == OnWay(v, lvl) && cur in g.tables && g.tables[cur] == Zeros(ENTRIES))
  }

  lemma UnderwayStart(h: Space, k: nat, va: nat)
    requires h.Inv(NONE) && k <= 2
    ensures Underway(h, h, NONE, false, k, Vpn(va), 2, h.root)
  {
    hide Space.Inv, Vpn, Up;
    RootOnWay(h, NONE, va);
    NoTables(k, Up(Vpn(va), k), h.at.Keys);
  }

  /** A table just made has no valid entry. */
  lemma UnderwayIs(h: Space, g: Space, hole: Slot, made: bool, k: nat, va: nat, lvl: nat, cur: nat)
    requires Underway(h, g, hole, made, k, Vpn(va), lvl, cur)
    ensures g.Inv(hole) && (hole == NONE || hole == OnWay(Vpn(va), lvl)) && g.pages == h.pages && g.lost == h.lost
    ensures OnWay(Vpn(va), lvl) in g.at && cur == g.at[OnWay(Vpn(va), lvl)]
    ensures !made ==> hole == NONE && g == h
    ensures made ==> hole == OnWay(Vpn(va), lvl)
    ensures hole != NONE ==> !IsValid(g.Entry(OnWay(Vpn(va), lvl), Index(va, lvl)))
  {
    hide Space.Inv, Up, Vpn, IsValid, TablesFrom, Zeros;
    if made { ZeroEntry(g, OnWay(Vpn(va), lvl), Index(va, lvl)); }
  }

  /** A table just made has no table and no page below it. */
  lemma ChildOfNew(h: Space, g: Space, hole: Slot, made: bool, k: nat, va: nat, lvl: nat, cur: nat)
    requires 0 < lvl <= 2 && Underway(h, g, hole, made, k, Vpn(va), lvl, cur)
    ensures made ==> OnWay(Vpn(va), lvl - 1) !in g.at && Page(lvl, Up(Vpn(va), lvl)) !in g.pages
  {
    hide Space.Inv, Up, Vpn, IsValid, IsLeaf, DecodePte, PteAddr, TablesFrom, Zeros;
    var s := OnWay(Vpn(va), lvl);
    WayEntry(Vpn(va), lvl);
    EntryAt(g, hole, s, Index(va, lvl));
    if made { ZeroEntry(g, s, Index(va, lvl)); }
  }

  lemma NoTables(k: nat, n: nat, keys: set<Slot>)
    ensures TablesFrom(k, n, 2) == {} && |TablesFrom(k, n, 2) - keys| == 0
  {
  }

  /** One level further down there is one table more. */
  lemma NextTable(k: nat, v: nat, l: nat, keys: set<Slot>)
    requires k < l <= 2
    ensures var n, s := Up(v, k), OnWay(v, l - 1);
            && TablesFrom(k, n, l - 1) == TablesFrom(k, n, l) + {s}
            && |TablesFrom(k, n, l - 1) - keys| == |TablesFrom(k, n, l) - keys| + (if s in keys then 0 else 1)
  {
    hide Up;
    UpAdds(v, k, l - k);
    Higher(k, Up(v, k), l);
    OneMore(TablesFrom(k, Up(v, k), l), OnWay(v, l - 1), keys);
  }

  lemma OneMore(a: set<Slot>, s: Slot, keys: set<Slot>)
    requires s !in a
    ensures |a + {s} - keys| == |a - keys| + (if s in keys then 0 else 1)
  {
    assert a + {s} - keys == if s in keys then a - keys else (a - keys) + {s};
  }

  lemma {:induction false} Higher(k: nat, n: nat, l: nat)
    ensures forall s | s in TablesFrom(k, n, l) :: s.lvl >= l
    decreases 2 - l
  {
    if l < 2 && l >= k { Higher(k, n, l + 1); }
  }

  lemma {:induction false} MoreMissing(k: nat, n: nat, l: nat, keys: set<Slot>)
    requires k <= l
    ensures |TablesFrom(k, n, l) - keys| <= |TablesFor(k, n) - keys|
    decreases l
  {
    if k < l {
      MoreMissing(k, n, l - 1, keys);
      Fewer(TablesFrom(k, n, l) - keys, TablesFrom(k, n, l - 1) - keys);
    }
  }

  lemma Fewer(a: set<Slot>, b: set<Slot>)
    requires a <= b
    ensures |a| <= |b|
  {
    assert b == a + (b - a);
  }

  /** The next table down was there already. */
  lemma Found(h: Space, g: Space, hole: Slot, made: bool, k: nat, va: nat, lvl: nat, was: nat, cur: nat)
    requires k < lvl <= 2 && Underway(h, g, hole, made, k, Vpn(va), lvl, was) && !made
    requires OnWay(Vpn(va), lvl - 1) in g.at && cur == g.at[OnWay(Vpn(va), lvl - 1)]
    ensures Underway(h, g, hole, made, k, Vpn(va), lvl - 1, cur)
  {
    hide Space.Inv, Up, Vpn, TablesFrom, Zeros;
    NextTable(k, Vpn(va), lvl, h.at.Keys);
  }

  /** The next table down was made. */
  lemma Further(h: Space, g: Space, f: Space, hole: Slot, made: bool, k: nat, va: nat, lvl: nat, was: nat, cur: nat)
    requires k < lvl <= 2 && Underway(h, g, hole, made, k, Vpn(va), lvl, was) && g.free != []
    requires var s := OnWay(Vpn(va), lvl - 1);
             && s !in g.at && s in f.at && cur == f.at[s] && f.pages == g.pages && f.lost == g.lost
             && f.Inv(s) && cur in f.tables && f.tables[cur] == Zeros(ENTRIES)
             && f.at.Keys == g.at.Keys + {s} && f.free == g.free[1..]
    ensures Underway(h, f, OnWay(Vpn(va), lvl - 1), true, k, Vpn(va), lvl - 1, cur)
  {
    hide Space.Inv, Up, Vpn, TablesFrom, Zeros;
    NextTable(k, Vpn(va), lvl, h.at.Keys);
  }

  /** There is no page for the next table, which is missing: more are missing than there are pages. */
  lemma NoneLeft(h: Space, g: Space, hole: Slot, made: bool, k: nat, va: nat, lvl: nat, cur: nat)
    requires k < lvl <= 2 && Underway(h, g, hole, made, k, Vpn(va), lvl, cur)
    requires OnWay(Vpn(va), lvl - 1) !in g.at && g.free == []
    requires NoneAbove(h.pages, Vpn(va), lvl - 1)
    requires !IsValid(g.Entry(OnWay(Vpn(va), lvl), Index(va, lvl)))
    ensures Missing(h.at, k, Up(Vpn(va), k)) > |h.free| && !Meets(h.pages, k, Up(Vpn(va), k))
    ensures g.pages == h.pages && g.lost == h.lost && WalkFails(g, Vpn(va), k)
    ensures !Shadowed(h.pages, k, Up(Vpn(va), k))
  {
    hide Space.Inv, Up, Vpn, TablesFrom, Zeros, Meets, IsValid, Shadowed, NoneAbove;
    NextTable(k, Vpn(va), lvl, h.at.Keys);
    MoreMissing(k, Up(Vpn(va), k), lvl - 1, h.at.Keys);
    NoTableNoPage(h, NONE, Vpn(va), lvl - 1, k);
    NotShadowed(h, Vpn(va), lvl - 1, k);
  }

  /** At the level of the page, no table is missing any more. */
  lemma Arrived(h: Space, g: Space, hole: Slot, made: bool, k: nat, v: nat, cur: nat)
    requires Underway(h, g, hole, made, k, v, k, cur)
    ensures g.at.Keys == h.at.Keys + TablesFor(k, Up(v, k))
    ensures |g.free| == |h.free| - Missing(h.at, k, Up(v, k)) && Missing(h.at, k, Up(v, k)) <= |h.free|
  {
  }

  /** Where a table on the way is missing, nothing is mapped. */
  lemma NoTableNoPage(h: Space, hole: Slot, v: nat, l: nat, k: nat)
    requires h.Inv(hole) && k <= l <= 2 && OnWay(v, l) !in h.at
    ensures !Meets(h.pages, k, Up(v, k))
  {
    hide Space.Inv, Up, Under;
    if Meets(h.pages, k, Up(v, k)) {
      var p :| p in h.pages && p.lvl <= k && Up(p.n, k - p.lvl) == Up(v, k);
      OverPage(p, v, l, k);
      UnderTable(h, hole, p, OnWay(v, l));
    }
  }

  lemma OverPage(p: Page, v: nat, l: nat, k: nat)
    requires p.lvl <= k <= l && Up(p.n, k - p.lvl) == Up(v, k)
    ensures Under(p, OnWay(v, l))
  {
    hide Up;
    UpAdds(p.n, k - p.lvl, l + 1 - k);
    UpAdds(v, k, l + 1 - k);
  }

  // ---- Larger pages, and entries that grant no access ----

  /** No page of a level above l covers v. */
  ghost predicate NoneAbove(pages: map<Page, Leaf>, v: nat, l: nat) {
    forall p | p in pages && Covers(p, v) :: p.lvl <= l
  }

  lemma NoneAboveTop(h: Space, v: nat)
    requires h.Inv(NONE)
    ensures NoneAbove(h.pages, v, 2)
  {
    hide Space.Inv, Covers;
    forall p | p in h.pages && Covers(p, v) ensures p.lvl <= 2 { PagesAt(h, NONE, p, TOP); }
  }

  lemma NoneHere(pages: map<Page, Leaf>, v: nat, l: nat)
    requires NoneAbove(pages, v, l) && l > 0 && Page(l, Up(v, l)) !in pages
    ensures NoneAbove(pages, v, l - 1)
  {
    hide Up;
  }

  lemma LargerPage(pages: map<Page, Leaf>, k: nat, v: nat, l: nat)
    requires k < l && Page(l, Up(v, l)) in pages
    ensures Shadowed(pages, k, Up(v, k))
  {
    hide Up;
    UpAdds(v, k, l - k);
    assert Page(l, Up(v, l)) in pages;
  }

  /** At the level of the page, or where a table on the way is missing, no larger page is left. */
  lemma NotShadowed(h: Space, v: nat, l: nat, k: nat)
    requires h.Inv(NONE) && k <= l <= 2 && NoneAbove(h.pages, v, l) && (l == k || OnWay(v, l) !in h.at)
    ensures !Shadowed(h.pages, k, Up(v, k))
  {
    hide Space.Inv, Up, NoneAbove, OnWay;
    forall p | p in h.pages && p.lvl > k ensures Up(Up(v, k), p.lvl - k) != p.n {
      UpAdds(v, k, p.lvl - k);
      NotLarger(h, v, l, k, p);
    }
  }

  lemma NotLarger(h: Space, v: nat, l: nat, k: nat, p: Page)
    requires h.Inv(NONE) && k <= l <= 2 && NoneAbove(h.pages, v, l) && (l == k || OnWay(v, l) !in h.at)
    requires p in h.pages && p.lvl > k
    ensures Up(v, p.lvl) != p.n
  {
    hide Space.Inv, Up;
    if Covers(p, v) {
      PagesAt(h, NONE, p, TOP);
      PageWay(v, p);
      WayUp(h, NONE, v, p.lvl, l);
    }
  }

  /** The entry for a page without access reads as a reference to a table that is not there. */
  lemma HollowEntry(h: Space, g: Space, s: Slot, i: nat, m: Leaf)
    requires s in h.at && i < ENTRIES && h.at[s] in h.tables && |h.tables[h.at[s]]| == ENTRIES && Frame(m.paddr)
    requires g.at == h.at && g.tables == h.tables[h.at[s] := Put(h.tables[h.at[s]], i, LeafPte(m))]
    requires m.prot == NO_ACCESS && (s.lvl > 0 ==> Below(s, i) !in h.at)
    ensures IsValid(g.Entry(s, i)) && !IsLeaf(g.Entry(s, i)) && PteAddr(g.Entry(s, i)) == m.paddr && !g.Inv(NONE)
  {
    LeafRoundTrip(m);
    hide LeafPte, IsValid, IsLeaf, PteAddr, Frame;
    assert g.Entry(s, i) == LeafPte(m);
    assert DecodePte(LeafPte(m)).paddr == m.paddr;
    assert !g.PtrOk(s, i);
  }

  lemma PageCovers(v: nat, lvl: nat)
    ensures Covers(Page(lvl, Up(v, lvl)), v)
  {
  }

  lemma NewSpace(h: Space)
    requires Frame(h.root) && h.tables == map[h.root := Zeros(ENTRIES)] && h.count == map[h.root := 1] && h.nr == 1
    requires h.at == map[TOP := h.root] && h.pages == map[] && h.lost == {}
    requires forall k | 0 <= k < |h.free| :: Frame(h.free[k]) && h.free[k] !in h.tables
    requires forall j, k | 0 <= j < k < |h.free| :: h.free[j] != h.free[k]
    ensures h.Inv(NONE)
  {
    hide Frame;
  }

  lemma RootOnWay(h: Space, hole: Slot, va: nat)
    requires h.Inv(hole)
    ensures OnWay(Vpn(va), 2) == TOP && TOP in h.at && h.at[TOP] == h.root
  {
    VpnTop(va);
    SlotAt(h, hole, TOP);
  }
}
