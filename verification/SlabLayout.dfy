/** How a slab cache lays objects out: object size, pages of a slab, objects in a slab. */
module SlabLayout {
  import opened Powers

  const PAGE_SIZE: nat := 4096
  const MAX_ORDER: nat := 11
  const TYPE_DIVISOR: nat := 8
  const ADDR_BYTES: nat := 8

  datatype Layout = Layout(onSlab: bool, objSize: nat, order: nat, perSlab: nat)

  function SlabBytes(order: nat): (n: nat)
    ensures n >= PAGE_SIZE
  {
    PAGE_SIZE * Pow2(order)
  }

  function RoundUp(n: nat): (r: nat)
    ensures n <= r < n + ADDR_BYTES && r % ADDR_BYTES == 0
  {
    (n + ADDR_BYTES - 1) / ADDR_BYTES * ADDR_BYTES
  }

  /** The bytes that objects of a size leave unused in a slab. */
  function Waste(order: nat, objSize: nat): nat
    requires objSize > 0
  {
    SlabBytes(order) % objSize
  }

  predicate Holds(order: nat, objSize: nat) {
    objSize <= SlabBytes(order)
  }

  /** Little enough is wasted. */
  predicate Tight(order: nat, objSize: nat)
    requires objSize > 0
  {
    Holds(order, objSize) && Waste(order, objSize) <= SlabBytes(order) / TYPE_DIVISOR
  }

  /** The order that `cacl_off_slab_size` should choose: the first tight one, and without any the
      first of those that waste least. */
  ghost predicate BestOrder(order: nat, objSize: nat)
    requires objSize > 0
  {
    && order < MAX_ORDER && Holds(order, objSize)
    && (if Tight(order, objSize) then forall j | 0 <= j < order :: !Tight(j, objSize)
        else forall j | 0 <= j < MAX_ORDER :: !Tight(j, objSize)
               && (Holds(j, objSize) ==> Waste(order, objSize) <= Waste(j, objSize))
               && (Holds(j, objSize) && j < order ==> Waste(order, objSize) < Waste(j, objSize)))
  }

  /** The remainder as it is computed. */
  function Rest(bytes: nat, objSize: nat): int
    requires objSize > 0
  {
    bytes - bytes / objSize * objSize
  }

  /** `cacl_off_slab_size`, without colouring */
  method OffSlabOrder(objSize: nat) returns (found: bool, order: nat)
    requires objSize > 0
    ensures found <==> exists k :: 0 <= k < MAX_ORDER && Holds(k, objSize)
    ensures found ==> BestOrder(order, objSize)
  {
    hide SlabBytes, Waste, Rest;
    var none := SlabBytes(MAX_ORDER);
    var remains := none;
    var k := 0;
    order := 0;
    while k < MAX_ORDER
      invariant k <= MAX_ORDER && order <= k
      invariant forall j | 0 <= j < k :: !Tight(j, objSize)
      invariant remains == none <==> forall j | 0 <= j < k :: !Holds(j, objSize)
      invariant remains != none ==> order < k && Holds(order, objSize) && remains == Waste(order, objSize)
      invariant remains != none ==> forall j | 0 <= j < k && Holds(j, objSize) ::
                  remains <= Waste(j, objSize) && (j < order ==> remains < Waste(j, objSize))
    {
      var bytes := SlabBytes(k);
      if objSize <= bytes {
        var rest := Rest(bytes, objSize);
        RestIsWaste(k, objSize);
        assert Holds(k, objSize);
        if rest <= bytes / TYPE_DIVISOR {
          return true, k;
        }
        if remains > rest {
          order := k;
          remains := rest;
        }
      }
      k := k + 1;
    }
    found := remains != none;
  }

  lemma RestIsWaste(k: nat, objSize: nat)
    requires objSize > 0
    ensures Rest(SlabBytes(k), objSize) == Waste(k, objSize)
    ensures k < MAX_ORDER ==> Waste(k, objSize) < SlabBytes(MAX_ORDER)
  {
    RestIs(SlabBytes(k), objSize);
    if k < MAX_ORDER { Grows(k, MAX_ORDER); }
    hide SlabBytes, Rest;
  }

  lemma Grows(k: nat, m: nat)
    requires k <= m
    ensures SlabBytes(k) <= SlabBytes(m)
  {
    Pow2Monotone(k, m);
  }

  lemma RestIs(bytes: nat, objSize: nat)
    requires objSize > 0
    ensures Rest(bytes, objSize) == bytes % objSize <= bytes
  {
  }

  /** What a layout must give: room for an object and the word before it, and in an on-page slab
      for the record behind the objects. */
  ghost predicate Sound(lay: Layout, payload: nat, record: nat) {
    && lay.perSlab >= 1 && payload + ADDR_BYTES <= lay.objSize && lay.objSize % ADDR_BYTES == 0
    && (lay.onSlab ==> lay.order == 0)
    && lay.objSize * lay.perSlab + (if lay.onSlab then record else 0) <= SlabBytes(lay.order)
  }

  /** `calc_slab_size`, without alignment and colouring. It fails only for objects that no slab
      can hold, and it fills the slab: one object more would not fit. */
  method CalcSlabSize(payload: nat, record: nat) returns (ok: bool, lay: Layout)
    requires record <= PAGE_SIZE / 2
    ensures ok ==> Sound(lay, payload, record) && lay.order < MAX_ORDER
    ensures ok ==> lay.objSize * (lay.perSlab + 1) + (if lay.onSlab then record else 0) > SlabBytes(lay.order)
    ensures ok ==> lay.objSize < payload + 2 * ADDR_BYTES && (lay.onSlab <==> payload < PAGE_SIZE / TYPE_DIVISOR)
    ensures ok && !lay.onSlab ==> lay.objSize > 0 && BestOrder(lay.order, lay.objSize)
    ensures !ok <==> RoundUp(payload + ADDR_BYTES) > SlabBytes(MAX_ORDER - 1)
  {
    hide BestOrder;
    var objSize := RoundUp(payload + ADDR_BYTES);
    Pow2Monotone(0, MAX_ORDER - 1);
    if PAGE_SIZE / TYPE_DIVISOR > payload {
      lay := Layout(true, objSize, 0, (PAGE_SIZE - record) / objSize);
      Fill(PAGE_SIZE - record, objSize);
      return true, lay;
    }
    var found, order := OffSlabOrder(objSize);
    LargestHolds(objSize);
    assert found ==> Holds(order, objSize) && order < MAX_ORDER by { OrderHolds(found, order, objSize); }
    if !found { return false, Layout(false, 0, 0, 0); }
    lay := Layout(false, objSize, order, SlabBytes(order) / objSize);
    Fill(SlabBytes(order), objSize);
    return true, lay;
  }

  lemma OrderHolds(found: bool, order: nat, objSize: nat)
    requires objSize > 0 && (found ==> BestOrder(order, objSize))
    ensures found ==> Holds(order, objSize) && order < MAX_ORDER
  {
  }

  lemma Fill(bytes: nat, objSize: nat)
    requires 0 < objSize <= bytes
    ensures var n := bytes / objSize; n >= 1 && objSize * n <= bytes < objSize * (n + 1)
  {
    var n := bytes / objSize;
    assert bytes == objSize * n + bytes % objSize;
    assert n == 0 ==> objSize * n == 0;
  }

  /** What fits in any slab fits in the largest. */
  lemma LargestHolds(objSize: nat)
    ensures (exists k :: 0 <= k < MAX_ORDER && Holds(k, objSize)) <==> Holds(MAX_ORDER - 1, objSize)
  {
    if exists k :: 0 <= k < MAX_ORDER && Holds(k, objSize) {
      var k :| 0 <= k < MAX_ORDER && Holds(k, objSize);
      Pow2Monotone(k, MAX_ORDER - 1);
    }
  }

  // ---- Addresses ----

  function Offset(d: nat, i: nat): nat {
    d * i
  }

  /** The address of object i of the slab at base; the word before it leads back to its control
      record. */
  function ObjAt(lay: Layout, base: nat, i: nat): nat {
    base + Offset(lay.objSize, i) + ADDR_BYTES
  }

  /** Objects of one slab lie in the slab, before the record, and apart from each other with the
      words before them. */
  lemma ObjectsApart(lay: Layout, payload: nat, record: nat, base: nat, i: nat, j: nat)
    requires Sound(lay, payload, record) && i < lay.perSlab && j < lay.perSlab
    ensures base + ADDR_BYTES <= ObjAt(lay, base, i)
    ensures ObjAt(lay, base, i) + payload + (if lay.onSlab then record else 0) <= base + SlabBytes(lay.order)
    ensures i < j ==> ObjAt(lay, base, i) + payload <= ObjAt(lay, base, j) - ADDR_BYTES
    ensures i != j ==> ObjAt(lay, base, i) != ObjAt(lay, base, j)
  {
    Steps(lay.objSize, i, lay.perSlab);
    if i < j { Steps(lay.objSize, i, j); }
    if j < i { Steps(lay.objSize, j, i); }
    assert Offset(lay.objSize, lay.perSlab) + (if lay.onSlab then record else 0) <= SlabBytes(lay.order);
    hide SlabBytes, Offset;
  }

  /** The objects of a slab follow each other from its start on, each behind one word. */
  lemma ObjectsFollow(lay: Layout, base: nat, i: nat)
    ensures ObjAt(lay, base, 0) == base + ADDR_BYTES
    ensures ObjAt(lay, base, i + 1) == ObjAt(lay, base, i) + lay.objSize
  {
    assert lay.objSize * (i + 1) == lay.objSize * i + lay.objSize;
  }

  lemma Steps(d: nat, i: nat, j: nat)
    requires i < j
    ensures Offset(d, i) + d <= Offset(d, j)
  {
    assert d * j == d * i + d + d * (j - i - 1);
  }
}
