/** Size classes, slabs and object addresses: the arithmetic under kernel/memory/slab.cpp. A class is named by its exponent,
    a slab by the index of its first page. */
module SlabGeometry {
  import opened Common
  import opened BitUtils
  import opened BuddyBlocks
  import opened BuddyAllocator

  /** The largest class: the largest block of the buddy system. */
  const MAX_CLASS: nat := 30
  const MAX_ALLOC_SIZE: nat := 0x4000_0000

  function SlabOrder(e: nat): nat
  {
    if e <= 12 then 0 else e - 12
  }

  function NumObjects(e: nat): (n: nat)
    ensures n > 0
  {
    if e <= 12 then Pow2(12 - e) else 1
  }

  function PagesPerSlab(objectSize: nat): nat
  {
    if objectSize <= PAGE_SIZE then 1 else objectSize / PAGE_SIZE
  }

  function ObjectAddr(slab: nat, e: nat, i: nat): nat
  {
    slab * PAGE_SIZE + i * Pow2(e)
  }

  /** A slab is exactly full of objects, and is one block of the buddy system. */
  lemma SlabFits(e: nat)
    ensures Pow2(SlabOrder(e)) * PAGE_SIZE == NumObjects(e) * Pow2(e)
    ensures PagesPerSlab(Pow2(e)) == Pow2(SlabOrder(e))
    ensures PagesPerSlab(Pow2(e)) * PAGE_SIZE / Pow2(e) == NumObjects(e)
  {
    assert Pow2(12) == PAGE_SIZE;
    hide Pow2;
    if e <= 12 {
      Pow2Add(12 - e, e);
      Pow2Monotone(e, 12);
      assert Pow2(0) == 1 by { PowZero(); }
      DivModUnique(PAGE_SIZE, Pow2(e), NumObjects(e), 0);
    } else {
      Pow2Add(e - 12, 12);
      Pow2Monotone(13, e);
      DivModUnique(Pow2(e), PAGE_SIZE, Pow2(e - 12), 0);
      DivModUnique(Pow2(e), Pow2(e), 1, 0);
    }
  }

  lemma MaxClassSize()
    ensures Pow2(MAX_CLASS) == MAX_ALLOC_SIZE && Pow2(MAX_ORDER) * PAGE_SIZE == MAX_ALLOC_SIZE
  {
    assert Pow2(10) == 1024;
    Pow2Add(10, 10);
    Pow2Add(20, 10);
    Pow2Add(18, 12);
    assert Pow2(12) == PAGE_SIZE;
  }

  /** The buddy system gives a slab its own order. */
  lemma SlabRequest(e: nat)
    requires e <= MAX_CLASS
    ensures PagesPerSlab(Pow2(e)) * PAGE_SIZE < U64
    ensures CalculateOrder(PagesForBytes(PagesPerSlab(Pow2(e)) * PAGE_SIZE)) == SlabOrder(e)
  {
    hide Pow2, CalculateOrder, PagesForBytes, PagesPerSlab;
    SlabFits(e);
    MaxClassSize();
    Pow2Monotone(SlabOrder(e), MAX_ORDER);
    PagesExact(Pow2(SlabOrder(e)));
    OrderOfBlock(SlabOrder(e));
  }

  lemma PagesExact(pages: nat)
    requires pages * PAGE_SIZE <= MAX_ALLOC_SIZE
    ensures PagesForBytes(pages * PAGE_SIZE) == pages
  {
    DivModUnique(pages * PAGE_SIZE + PAGE_SIZE - 1, PAGE_SIZE, pages, PAGE_SIZE - 1);
  }

  lemma OrderOfBlock(k: nat)
    requires k <= MAX_ORDER
    ensures CalculateOrder(Pow2(k)) == k
  {
    hide Pow2, CalculateOrder;
    Pow2Monotone(k, MAX_ORDER);
    Pow2BelowU32(MAX_ORDER);
    CalculateOrderLeast(Pow2(k));
    var c := CalculateOrder(Pow2(k));
    if 0 <= c < k {
      Pow2Monotone(c, k);
    } else if c > k {
      Pow2Monotone(k, c - 1);
    }
  }

  /** An object lies in its slab's pages; its offset is a multiple of the object size. */
  lemma ObjectInSlab(slab: nat, e: nat, i: nat)
    requires i < NumObjects(e)
    ensures var addr := ObjectAddr(slab, e, i);
            && slab <= addr / PAGE_SIZE < slab + Pow2(SlabOrder(e))
            && (addr - slab * PAGE_SIZE) % Pow2(e) == 0 && (addr - slab * PAGE_SIZE) / Pow2(e) == i
            && addr + Pow2(e) <= (slab + Pow2(SlabOrder(e))) * PAGE_SIZE
  {
    SlabFits(e);
    hide Pow2, NumObjects;
    var s, n, m := Pow2(e), NumObjects(e), Pow2(SlabOrder(e));
    DivModUnique(i * s, s, i, 0);
    assert (i + 1) * s <= n * s by { MulUp(i + 1, n, s); }
    assert (i + 1) * s == i * s + s;
    PageBetween(slab, i * s, m);
    assert (slab + m) * PAGE_SIZE == slab * PAGE_SIZE + m * PAGE_SIZE;
  }

  lemma MulUp(x: nat, y: nat, s: nat)
    requires x <= y
    ensures x * s <= y * s
  {
  }

  lemma PageBetween(slab: nat, offset: nat, m: nat)
    requires offset < m * PAGE_SIZE
    ensures slab <= (slab * PAGE_SIZE + offset) / PAGE_SIZE < slab + m
  {
  }

  /** Conversely, an aligned offset within the slab is that of an object. */
  lemma OffsetIsObject(slab: nat, e: nat, addr: nat)
    requires slab <= addr / PAGE_SIZE < slab + Pow2(SlabOrder(e)) && (addr - slab * PAGE_SIZE) % Pow2(e) == 0
    ensures (addr - slab * PAGE_SIZE) / Pow2(e) < NumObjects(e)
    ensures addr == ObjectAddr(slab, e, (addr - slab * PAGE_SIZE) / Pow2(e))
  {
    SlabFits(e);
    hide Pow2, NumObjects;
    var s, n, m := Pow2(e), NumObjects(e), Pow2(SlabOrder(e));
    var offset := addr - slab * PAGE_SIZE;
    var i := offset / s;
    assert offset == i * s;
    assert offset < m * PAGE_SIZE by { OffsetBelow(slab, addr, m); }
    if i >= n {
      MulUp(n, i, s);
    }
  }

  lemma OffsetBelow(slab: nat, addr: nat, m: nat)
    requires slab <= addr / PAGE_SIZE < slab + m
    ensures 0 <= addr - slab * PAGE_SIZE < m * PAGE_SIZE
  {
    assert addr < (addr / PAGE_SIZE + 1) * PAGE_SIZE;
    assert (addr / PAGE_SIZE + 1) * PAGE_SIZE <= (slab + m) * PAGE_SIZE;
  }

  /** Natural alignment: every object of a slab at a naturally aligned block is a multiple of its own size. */
  lemma ObjectAligned(slab: nat, e: nat, i: nat)
    requires Aligned(slab, SlabOrder(e)) && i < NumObjects(e)
    ensures RoundDown(ObjectAddr(slab, e, i), e) == ObjectAddr(slab, e, i)
  {
    assert Pow2(12) == PAGE_SIZE;
    if e <= 12 {
      Pow2Add(12 - e, e);
      var x := slab * Pow2(12 - e) + i;
      hide RoundDown, Pow2;
      Distribute(slab, Pow2(12 - e), i, Pow2(e));
      RoundDownScaled(x, 0, e);
      assert RoundDown(x, 0) == x by { RoundDownZero(x); }
    } else {
      hide RoundDown, Pow2;
      RoundDownScaled(slab, e - 12, 12);
    }
  }

  lemma RoundDownZero(x: nat)
    ensures RoundDown(x, 0) == x
  {
  }

  lemma Distribute(a: nat, b: nat, i: nat, s: nat)
    ensures (a * b + i) * s == a * (b * s) + i * s
  {
  }

  lemma {:induction false} CoarserAligned(x: nat, a: nat, e: nat)
    requires a <= e && RoundDown(x, e) == x
    ensures RoundDown(x, a) == x
  {
    if a > 0 {
      CoarserAligned(x / 2, a - 1, e - 1);
    }
  }
}
