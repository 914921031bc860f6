/** Sv39 address arithmetic and page table entries. */
module Sv39 {
  const PAGE_SIZE: nat := 4096
  const ENTRIES: nat := 512
  const LEVELS: nat := 3
  const VPNS: nat := 0x800_0000
  const PPNS: nat := 0x1000_0000_0000

  datatype Prot = Prot(read: bool, write: bool, execute: bool)
  datatype Attr = Attr(supervisor: bool, accessed: bool, dirty: bool)

  /** What a page is mapped to. */
  datatype Leaf = Leaf(paddr: nat, prot: Prot, attr: Attr)

  /** The virtual page number in a 39-bit linear address. */
  function Vpn(va: nat): nat {
    va / PAGE_SIZE % VPNS
  }

  /** k levels up: drops the index fields of the k lowest levels. */
  function Up(v: nat, k: nat): nat {
    if k == 0 then v else Up(v, k - 1) / ENTRIES
  }

  /** 512 to the k */
  function Span(k: nat): (n: nat)
    ensures n > 0
  {
    if k == 0 then 1 else ENTRIES * Span(k - 1)
  }

  /** `rv64_pgtbl_calc_index_val` */
  function Index(va: nat, lvl: nat): nat {
    Up(Vpn(va), lvl) % ENTRIES
  }

  /** `rv64_pgtbl_calc_pagesize` */
  function PageBytes(lvl: nat): (n: nat)
    ensures n > 0
  {
    PAGE_SIZE * Span(lvl)
  }

  predicate PageAligned(a: nat, lvl: nat) {
    a % PageBytes(lvl) == 0
  }

  // ---- Entries ----

  /** A number from its lowest bit and the rest. */
  function Cat(b: bool, rest: nat): (e: nat)
    ensures e / 2 == rest && (e % 2 == 1 <==> b)
  {
    2 * rest + if b then 1 else 0
  }

  /** `e >> k` */
  function Drop(e: nat, k: nat): nat {
    if k == 0 then e else Drop(e, k - 1) / 2
  }

  predicate BitAt(e: nat, k: nat) {
    Drop(e, k) % 2 == 1
  }

  /** The page number of a physical address as an entry holds it. */
  function Ppn(paddr: nat): nat {
    paddr / PAGE_SIZE % PPNS
  }

  /** An entry: the bits V, R, W, X, U, G, A, D, two bits for software, the page number. */
  function Pte(v: bool, p: Prot, user: bool, accessed: bool, dirty: bool, ppn: nat): nat {
    Cat(v, Cat(p.read, Cat(p.write, Cat(p.execute, Cat(user, Cat(false, Cat(accessed, Cat(dirty,
      Cat(false, Cat(false, ppn))))))))))
  }

  /** A valid entry for a page: `vmprot_and_vmflags_to_pte`, with the page number. */
  function LeafPte(m: Leaf): nat {
    Pte(true, m.prot, !m.attr.supervisor, m.attr.accessed, m.attr.dirty, Ppn(m.paddr))
  }

  /** A valid entry for a lower table. */
  function TablePte(paddr: nat): nat {
    Pte(true, Prot(false, false, false), false, true, true, Ppn(paddr))
  }

  predicate IsValid(e: nat) {
    BitAt(e, 0)
  }

  /** `RV64_PTE_IS_LEAF` */
  predicate IsLeaf(e: nat) {
    BitAt(e, 1) || BitAt(e, 2) || BitAt(e, 3)
  }

  /** `RV64_PTE_TO_PADDR` */
  function PteAddr(e: nat): nat {
    Drop(e, 10) % PPNS * PAGE_SIZE
  }

  /** `pte_to_vmprot_and_vmflags`, for a valid entry */
  function DecodePte(e: nat): Leaf {
    Leaf(PteAddr(e), Prot(BitAt(e, 1), BitAt(e, 2), BitAt(e, 3)), Attr(!BitAt(e, 4), BitAt(e, 6), BitAt(e, 7)))
  }

  /** A page frame address that an entry can hold. */
  predicate Frame(paddr: nat) {
    paddr % PAGE_SIZE == 0 && paddr / PAGE_SIZE < PPNS
  }

  lemma PteFields(v: bool, p: Prot, user: bool, accessed: bool, dirty: bool, ppn: nat)
    requires ppn < PPNS
    ensures var e := Pte(v, p, user, accessed, dirty, ppn);
            && BitAt(e, 0) == v && BitAt(e, 1) == p.read && BitAt(e, 2) == p.write && BitAt(e, 3) == p.execute
            && BitAt(e, 4) == user && BitAt(e, 6) == accessed && BitAt(e, 7) == dirty && Drop(e, 10) == ppn
  {
    var e9 := Cat(false, ppn);
    var e8 := Cat(false, e9);
    var e7 := Cat(dirty, e8);
    var e6 := Cat(accessed, e7);
    var e5 := Cat(false, e6);
    var e4 := Cat(user, e5);
    var e3 := Cat(p.execute, e4);
    var e2 := Cat(p.write, e3);
    var e1 := Cat(p.read, e2);
    var e := Cat(v, e1);
    hide Cat;
    assert Drop(e, 0) == e;
    assert Drop(e, 1) == e1;
    assert Drop(e, 2) == e2;
    assert Drop(e, 3) == e3;
    assert Drop(e, 4) == e4;
    assert Drop(e, 5) == e5;
    assert Drop(e, 6) == e6;
    assert Drop(e, 7) == e7;
    assert Drop(e, 8) == e8;
    assert Drop(e, 9) == e9;
  }

  /** What an entry for a page decodes to. It is told from an entry for a table exactly when
      some access is allowed. */
  lemma LeafRoundTrip(m: Leaf)
    requires Frame(m.paddr)
    ensures IsValid(LeafPte(m)) && DecodePte(LeafPte(m)) == m
    ensures IsLeaf(LeafPte(m)) <==> m.prot != Prot(false, false, false)
    ensures PageWord(LeafPte(m), m)
  {
    LeafWord(m);
    PteFields(true, m.prot, !m.attr.supervisor, m.attr.accessed, m.attr.dirty, Ppn(m.paddr));
    hide Pte, BitAt, Drop;
    assert Ppn(m.paddr) * PAGE_SIZE == m.paddr;
  }

  lemma TableRoundTrip(paddr: nat)
    requires Frame(paddr)
    ensures IsValid(TablePte(paddr)) && !IsLeaf(TablePte(paddr)) && PteAddr(TablePte(paddr)) == paddr
    ensures TableWord(TablePte(paddr), paddr)
  {
    TablePteWord(paddr);
    PteFields(true, Prot(false, false, false), false, true, true, Ppn(paddr));
    hide Pte, BitAt, Drop;
    assert Ppn(paddr) * PAGE_SIZE == paddr;
  }

  // ---- The words in memory ----

  /** The value of bit k. */
  function Flag(b: bool, value: nat): nat {
    if b then value else 0
  }

  /** The word for a page, as section 4.4 of the manual lays it out: V, R, W, X, U, A and D have the
      values 1, 2, 4, 8, 16, 64 and 128, and the page number starts at 1024. */
  predicate PageWord(e: nat, m: Leaf) {
    e == 1 + Flag(m.prot.read, 2) + Flag(m.prot.write, 4) + Flag(m.prot.execute, 8) + Flag(!m.attr.supervisor, 16)
         + Flag(m.attr.accessed, 64) + Flag(m.attr.dirty, 128) + 1024 * (m.paddr / 4096)
  }

  /** The word for a table: V, A and D, and the page number. */
  predicate TableWord(e: nat, paddr: nat) {
    e == 1 + 64 + 128 + 1024 * (paddr / 4096)
  }

  lemma PteNumber(v: bool, p: Prot, user: bool, accessed: bool, dirty: bool, ppn: nat)
    ensures Pte(v, p, user, accessed, dirty, ppn) ==
            Flag(v, 1) + Flag(p.read, 2) + Flag(p.write, 4) + Flag(p.execute, 8) + Flag(user, 16)
            + Flag(accessed, 64) + Flag(dirty, 128) + 1024 * ppn
  {
  }

  lemma LeafWord(m: Leaf)
    requires Frame(m.paddr)
    ensures PageWord(LeafPte(m), m)
  {
    PteNumber(true, m.prot, !m.attr.supervisor, m.attr.accessed, m.attr.dirty, Ppn(m.paddr));
    hide Pte;
  }

  lemma TablePteWord(paddr: nat)
    requires Frame(paddr)
    ensures TableWord(TablePte(paddr), paddr)
  {
    PteNumber(true, Prot(false, false, false), false, true, true, Ppn(paddr));
    hide Pte;
  }

  /** Bit by bit, the word for a page. */
  lemma LeafBits(m: Leaf)
    requires Frame(m.paddr)
    ensures var e := LeafPte(m);
            && e % 2 == 1 && (e / 2 % 2 == 1 <==> m.prot.read) && (e / 4 % 2 == 1 <==> m.prot.write)
            && (e / 8 % 2 == 1 <==> m.prot.execute) && (e / 16 % 2 == 1 <==> !m.attr.supervisor)
            && e / 32 % 2 == 0 && (e / 64 % 2 == 1 <==> m.attr.accessed) && (e / 128 % 2 == 1 <==> m.attr.dirty)
            && e / 256 % 4 == 0 && e / 1024 == m.paddr / 4096
  {
    LeafWord(m);
    hide LeafPte;
    PlaceBits(m.prot.read, m.prot.write, m.prot.execute, !m.attr.supervisor, m.attr.accessed, m.attr.dirty, LeafPte(m),
              m.paddr / 4096);
  }

  lemma PlaceBits(r: bool, w: bool, x: bool, u: bool, a: bool, d: bool, e: nat, n: nat)
    requires e == 1 + Flag(r, 2) + Flag(w, 4) + Flag(x, 8) + Flag(u, 16) + Flag(a, 64) + Flag(d, 128) + 1024 * n
    ensures e % 2 == 1 && (e / 2 % 2 == 1 <==> r) && (e / 4 % 2 == 1 <==> w) && (e / 8 % 2 == 1 <==> x)
    ensures (e / 16 % 2 == 1 <==> u) && e / 32 % 2 == 0 && (e / 64 % 2 == 1 <==> a) && (e / 128 % 2 == 1 <==> d)
    ensures e / 256 % 4 == 0 && e / 1024 == n
  {
    var e8 := 4 * n;
    var e7 := Odd(d, e8);
    var e6 := Odd(a, e7);
    var e5 := 2 * e6;
    var e4 := Odd(u, e5);
    var e3 := Odd(x, e4);
    var e2 := Odd(w, e3);
    var e1 := Odd(r, e2);
    assert e == 1 + 2 * e1;
    Halves(e, e1, e2, e3, e4);
    Quarters(e, e4, e6, e7);
    hide Flag;
  }

  lemma Odd(b: bool, rest: nat) returns (e: nat)
    ensures e == Flag(b, 1) + 2 * rest && (e % 2 == 1 <==> b) && e / 2 == rest
    ensures Flag(b, 2) == 2 * Flag(b, 1) && Flag(b, 4) == 4 * Flag(b, 1) && Flag(b, 8) == 8 * Flag(b, 1)
    ensures Flag(b, 16) == 16 * Flag(b, 1) && Flag(b, 64) == 64 * Flag(b, 1) && Flag(b, 128) == 128 * Flag(b, 1)
  {
    e := Flag(b, 1) + 2 * rest;
  }

  lemma Halves(e: nat, e1: nat, e2: nat, e3: nat, e4: nat)
    requires e / 2 == e1 && e1 / 2 == e2 && e2 / 2 == e3 && e3 / 2 == e4
    ensures e / 4 == e2 && e / 8 == e3 && e / 16 == e4
  {
  }

  lemma Quarters(e: nat, e4: nat, e6: nat, e7: nat)
    requires e / 16 == e4 && e4 / 4 == e6 && e6 / 2 == e7
    ensures e / 32 == e4 / 2 && e / 64 == e6 && e / 128 == e7 && e / 256 == e7 / 2 && e / 1024 == e7 / 8
  {
  }

  /** ... and the word for a table. */
  lemma TableBits(paddr: nat)
    requires Frame(paddr)
    ensures var e := TablePte(paddr);
            && e % 2 == 1 && e / 2 % 32 == 0 && e / 64 % 2 == 1 && e / 128 % 2 == 1 && e / 256 % 4 == 0
            && e / 1024 == paddr / 4096
  {
    TablePteWord(paddr);
    hide TablePte;
  }

  /** What any word reads as. */
  lemma DecodeIs(e: nat)
    ensures IsValid(e) <==> e % 2 == 1
    ensures IsLeaf(e) <==> e / 2 % 8 != 0
    ensures var m := DecodePte(e);
            && (m.prot.read <==> e / 2 % 2 == 1) && (m.prot.write <==> e / 4 % 2 == 1)
            && (m.prot.execute <==> e / 8 % 2 == 1) && (m.attr.supervisor <==> e / 16 % 2 == 0)
            && (m.attr.accessed <==> e / 64 % 2 == 1) && (m.attr.dirty <==> e / 128 % 2 == 1)
            && m.paddr == e / 1024 % PPNS * 4096 && PteAddr(e) == m.paddr
  {
    Drops(e);
    ThreeBits(e / 2);
    FourthOf(e);
    hide Drop;
  }

  lemma ThreeBits(x: nat)
    ensures x % 8 != 0 <==> x % 2 == 1 || x / 2 % 2 == 1 || x / 4 % 2 == 1
  {
  }

  lemma FourthOf(e: nat)
    ensures e / 2 / 2 == e / 4 && e / 2 / 4 == e / 8
  {
  }

  lemma Drops(e: nat)
    ensures Drop(e, 0) == e && Drop(e, 1) == e / 2 && Drop(e, 2) == e / 4 && Drop(e, 3) == e / 8
    ensures Drop(e, 4) == e / 16 && Drop(e, 6) == e / 64 && Drop(e, 7) == e / 128 && Drop(e, 10) == e / 1024
  {
    assert Drop(e, 1) == Drop(e, 0) / 2 && Drop(e, 2) == Drop(e, 1) / 2 && Drop(e, 3) == Drop(e, 2) / 2;
    assert Drop(e, 4) == Drop(e, 3) / 2 && Drop(e, 5) == Drop(e, 4) / 2 && Drop(e, 6) == Drop(e, 5) / 2;
    assert Drop(e, 7) == Drop(e, 6) / 2 && Drop(e, 8) == Drop(e, 7) / 2 && Drop(e, 9) == Drop(e, 8) / 2;
    assert Drop(e, 10) == Drop(e, 9) / 2;
    hide Drop;
  }

  /** The index fields of a virtual address, and the size of a page of each level. */
  lemma IndexIs(va: nat)
    ensures Index(va, 0) == va / 4096 % 512
    ensures Index(va, 1) == va / 0x20_0000 % 512
    ensures Index(va, 2) == va / 0x4000_0000 % 512
    ensures PageBytes(0) == 0x1000 && PageBytes(1) == 0x20_0000 && PageBytes(2) == 0x4000_0000
  {
    var v := Vpn(va);
    assert Up(v, 1) == Up(v, 0) / 512 && Up(v, 2) == Up(v, 1) / 512;
    assert Span(1) == 512 * Span(0) && Span(2) == 512 * Span(1);
    Fields(va, v);
    hide Up, Span, Vpn;
  }

  lemma Fields(va: nat, v: nat)
    requires v == va / 4096 % 0x800_0000
    ensures v % 512 == va / 4096 % 512
    ensures v / 512 % 512 == va / 0x20_0000 % 512
    ensures v / 512 / 512 % 512 == va / 0x4000_0000 % 512
  {
    var a := va / 4096;
    assert va / 0x20_0000 == a / 512 && va / 0x4000_0000 == a / 512 / 512;
    var q := a / 0x800_0000;
    assert a == 0x800_0000 * q + v;
    assert a / 512 == 0x4_0000 * q + v / 512;
    assert a / 512 / 512 == 512 * q + v / 512 / 512;
  }

  // ---- Page numbers ----

  lemma {:induction false} UpAdds(v: nat, j: nat, k: nat)
    ensures Up(Up(v, j), k) == Up(v, j + k)
  {
    if k > 0 { UpAdds(v, j, k - 1); }
  }

  lemma {:induction false} UpBelow(v: nat, k: nat, n: nat)
    requires v < Span(k + n)
    ensures Up(v, k) < Span(n)
  {
    if k > 0 { UpBelow(v, k - 1, n + 1); }
  }

  lemma VpnTop(va: nat)
    ensures Vpn(va) < Span(3) && Up(Vpn(va), 3) == 0
  {
    assert Span(3) == 512 * Span(2) && Span(2) == 512 * Span(1) && Span(1) == 512 * Span(0);
    UpBelow(Vpn(va), 3, 0);
  }
}
