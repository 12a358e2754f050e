/** The slab allocator of kernel/memory/slab.cpp on top of the buddy system (the path without heap debugging). */
module SlabAllocation {
  import opened Common
  import opened BitUtils
  import opened BuddyBlocks
  import opened BuddyAllocator
  import opened SlabGeometry
  import opened Slabs
  import opened SlabObjects

  class SlabAllocator {
    const buddy: BuddySystem
    var caches: map<nat, Cache>
    var slabs: map<nat, Slab>
    var owner: map<nat, nat>
    var alignedToRaw: map<nat, nat>

    /** All but the fill levels of one slab, for the steps in between. */
    ghost predicate ValidBut(id: nat)
      reads this, buddy
    {
      && buddy.Valid() && |buddy.used| <= MAX_PAGES && alignedToRaw.Keys <= {0}
      && AllCounted(slabs) && (forall q :: q in slabs && q != id ==> slabs[q].status == Level(slabs[q]))
      && CachesOk(caches, slabs) && Backed(slabs, buddy.live) && OwnersOk(owner, slabs)
    }

    /** Each slab is in exactly the list of its fill level and its free list is right; slabs are blocks of the buddy system,
        their pages point back to them, and no address but null stands for another one: objects are naturally aligned. */
    ghost predicate Valid()
      reads this, buddy
    {
      && buddy.Valid() && |buddy.used| <= MAX_PAGES && alignedToRaw.Keys <= {0}
      && SlabsOk(slabs) && CachesOk(caches, slabs) && Backed(slabs, buddy.live) && OwnersOk(owner, slabs)
    }

    ghost function Live(): set<nat>
      reads this
    {
      LiveObjects(slabs)
    }

    constructor (b: BuddySystem)
      requires b.Valid() && |b.used| <= MAX_PAGES
      ensures Valid() && buddy == b && Live() == {} && slabs == map[] && caches == map[]
    {
      buddy, caches, slabs, owner, alignedToRaw := b, map[], map[], map[], map[];
    }

    method MoveList(id: nat, to: SlabStatus)
      requires id in slabs && CachesOk(caches, slabs)
      modifies this`caches, this`slabs
      ensures slabs == old(slabs)[id := old(slabs)[id].(status := to)] && CachesOk(caches, slabs) && caches.Keys == old(caches).Keys
    {
      hide CacheOk, Moved;
      var slab := slabs[id];
      MovedOk(caches, slabs, id, slab.(status := to));
      caches := caches[slab.exponent := Moved(caches[slab.exponent], id, slab.status, to)];
      slabs := slabs[id := slab.(status := to)];
    }

    /** move_list, as far as the rest of the allocator is concerned. */
    method Restatus(id: nat, to: SlabStatus)
      requires ValidBut(id) && id in slabs
      modifies this`caches, this`slabs
      ensures ValidBut(id) && Live() == old(Live()) && caches.Keys == old(caches).Keys
      ensures slabs == old(slabs)[id := old(slabs)[id].(status := to)]
    {
      hide Pow2, LiveBlocks, CacheOk, Partition, Coalesced, NumObjects, SlabOrder, Level, LiveObjects, InSlab;
      ghost var before := slabs;
      SameShape(owner, slabs, id, slabs[id].(status := to));
      MoveList(id, to);
      SameFlags(before, slabs);
    }

    /** A new slab from the buddy system, at the end of the free list. */
    method Grow(e: nat) returns (ok: bool)
      requires Valid() && e in caches && e <= MAX_CLASS
      modifies this`caches, this`slabs, this`owner, buddy
      ensures Valid() && Live() == old(Live()) && caches.Keys == old(caches).Keys
      ensures ok <==> !NoBlock(old(buddy.used), SlabOrder(e))
      ensures !ok ==> caches == old(caches) && slabs == old(slabs)
      ensures ok ==> caches[e].free != [] && caches[e].partial == old(caches)[e].partial
    {
      hide Pow2, LiveBlocks, CachesOk, SlabsOk, Partition, Coalesced, CalculateOrder, NumObjects, SlabOrder, LiveObjects,
        OwnersOk, Pointed, NewSlab;
      SlabRequest(e);
      SlabFits(e);
      var bytesPerSlab := PagesPerSlab(Pow2(e)) * PAGE_SIZE;
      var addr := buddy.Allocate(bytesPerSlab);
      if addr == 0 {
        return false;
      }
      var page := addr / PAGE_SIZE;
      assert page !in slabs;
      MarkPages(page, PagesPerSlab(Pow2(e)));
      GrownOwners(buddy.live, buddy.used, buddy.registered, old(owner), owner, slabs, page, e);
      GrownSlabs(caches, slabs, page, e);
      caches := caches[e := caches[e].(free := caches[e].free + [page])];
      slabs := slabs[page := NewSlab(e)];
      ok := true;
    }

    /** Back pointers for every page of a slab. */
    method MarkPages(page: nat, n: nat)
      modifies this`owner
      ensures Pointed(old(owner), owner, page, n)
    {
      var i := 0;
      while i < n
        invariant i <= n && Pointed(old(owner), owner, page, i)
      {
        owner := owner[page + i := page];
        i := i + 1;
      }
    }

    /** Takes the first free object of a slab of the partial list. */
    method AllocObject(id: nat) returns (addr: nat, ghost i: nat)
      requires ValidBut(id) && id in slabs && slabs[id].status == Partial && slabs[id].freeIndex != []
      modifies this`slabs
      ensures ValidBut(id) && id in slabs && slabs[id].status == Partial && slabs[id].numInUse > 0
      ensures slabs.Keys == old(slabs).Keys && slabs[id].exponent == old(slabs)[id].exponent
      ensures i < |slabs[id].inUse| && addr == ObjectAddr(id, slabs[id].exponent, i)
      ensures addr !in old(Live()) && Live() == old(Live()) + {addr}
    {
      hide Pow2, LiveBlocks, CacheOk, Partition, Coalesced, NumObjects;
      var slab := slabs[id];
      TakenCounted(slab);
      i := slab.freeIndex[0];
      addr := id * PAGE_SIZE + slab.freeIndex[0] * Pow2(slab.exponent);
      FlagChanged(owner, slabs, id, Taken(slab), i);
      StatusKept(caches, slabs, id, Taken(slab));
      SameShape(owner, slabs, id, Taken(slab));
      slabs := slabs[id := Taken(slab)];
    }

    /** A slab with a free object at the front of the partial list: one that is there, else a free one, else a new one. It
        fails exactly when no slab has room and the buddy system has no block. */
    method PartialSlab(e: nat) returns (ok: bool, id: nat)
      requires Valid() && e in caches && e <= MAX_CLASS
      modifies this`caches, this`slabs, this`owner, buddy
      ensures caches.Keys == old(caches).Keys && Live() == old(Live())
      ensures ok <==> HasRoom(old(slabs), e) || !NoBlock(old(buddy.used), SlabOrder(e))
      ensures !ok ==> Valid()
      ensures ok ==> ValidBut(id) && id in slabs && slabs[id].exponent == e && slabs[id].status == Partial && slabs[id].freeIndex != []
    {
      hide Pow2, LiveBlocks, CachesOk, Partition, Coalesced, NumObjects, SlabOrder, NoBlock, OwnersOk, LiveObjects,
        Backed, HasRoom;
      RoomIffListed(caches, slabs, e);
      if caches[e].partial == [] {
        if caches[e].free == [] {
          var grown := Grow(e);
          if !grown {
            return false, 0;
          }
        }
        FirstInList(caches, slabs, e, Free);
        var free := caches[e].free[0];
        ghost var before, was := slabs, caches;
        Restatus(free, Partial);
        OnlyPartial(was, before, caches, slabs, e, free);
      }
      FirstInList(caches, slabs, e, Partial);
      id := caches[e].partial[0];
      RoomLeft(slabs[id]);
      ok := true;
    }

    /** MCache::alloc. */
    method CacheAlloc(e: nat) returns (addr: nat, ghost id: nat, ghost i: nat)
      requires Valid() && e in caches && e <= MAX_CLASS
      modifies this`caches, this`slabs, this`owner, buddy
      ensures Valid() && caches.Keys == old(caches).Keys
      ensures addr == 0 <==> NoBlock(old(buddy.used), SlabOrder(e)) && !HasRoom(old(slabs), e)
      ensures addr == 0 ==> Live() == old(Live())
      ensures addr != 0 ==> id in slabs && slabs[id].exponent == e && i < NumObjects(e) && addr == ObjectAddr(id, e, i)
      ensures addr != 0 ==> addr !in old(Live()) && Live() == old(Live()) + {addr}
    {
      hide Pow2, LiveBlocks, CachesOk, Partition, Coalesced, NumObjects, SlabOrder, NoBlock, OwnersOk, AllCounted,
        SlabsOk, LiveObjects, Level, HasRoom;
      addr, id, i := 0, 0, 0;
      var ok, slab := PartialSlab(e);
      if !ok {
        return;
      }
      id := slab;
      PositiveSlab(buddy.live, buddy.used, buddy.registered, slabs, slab);
      addr, i := AllocObject(slab);
      CountOf(slabs, slab);
      PutAway(slab);
    }

    /** A slab that has become full leaves the partial list. */
    method PutAway(id: nat)
      requires ValidBut(id) && id in slabs && slabs[id].status == Partial && slabs[id].numInUse > 0
      modifies this`caches, this`slabs
      ensures Valid() && Live() == old(Live()) && caches.Keys == old(caches).Keys
      ensures id in slabs && slabs[id].exponent == old(slabs)[id].exponent
    {
      hide Pow2, LiveBlocks, CachesOk, Partition, Coalesced, NumObjects, SlabOrder, OwnersOk, LiveObjects, Backed;
      if slabs[id].numInUse == |slabs[id].inUse| {
        Restatus(id, Full);
      }
    }

    /** alloc with a positive alignment: null exactly for an empty, misaligned or oversized request and when memory has run
        out; otherwise the address of a new object that is large enough, naturally aligned and the only thing that changes.
        The bytes it zeroes are the object's. */
    method Alloc(size: nat, zeroed: bool, align: nat) returns (addr: nat, zeroedBytes: nat, ghost e: nat)
      requires Valid() && align > 0
      modifies this`caches, this`slabs, this`owner, this`alignedToRaw, buddy
      ensures Valid()
      ensures addr == 0 <==>
              || size == 0 || And(align, align - 1) != 0 || size + align - 1 > MAX_ALLOC_SIZE
              || (NoBlock(old(buddy.used), SlabOrder(ClassOf(size, align))) && !HasRoom(old(slabs), ClassOf(size, align)))
      ensures addr == 0 ==> Live() == old(Live())
      ensures addr != 0 ==> e == ClassOf(size, align) && size <= Pow2(e) && addr % align == 0
      ensures addr != 0 ==> addr !in old(Live()) && Live() == old(Live()) + {addr} && IsObject(slabs, addr, e)
      ensures zeroedBytes == if zeroed && addr != 0 then Pow2(e) else 0
    {
      hide Pow2, LiveBlocks, CachesOk, Partition, Coalesced, NumObjects, SlabOrder, NoBlock, OwnersOk, SlabsOk,
        LiveObjects, And, ObjectAddr, AlignUp, BitWidthCeil, HasRoom;
      addr, zeroedBytes, e := 0, 0, 0;
      if size == 0 || (align != 1 && And(align, align - 1) != 0) || size > MAX_ALLOC_SIZE - (align - 1) {
        OneIsPowerOfTwo();
        return;
      }
      OneIsPowerOfTwo();
      ClassFits(size, align);
      var exponent := BitWidthCeil(size + align - 1);
      e := exponent;
      if exponent !in caches {
        NewCacheOk(caches, slabs, exponent);
        caches := caches[exponent := Cache([], [], [])];
      }
      ghost var id, i;
      addr, id, i := CacheAlloc(exponent);
      if addr == 0 {
        return;
      }
      NaturallyAligned(buddy.live, buddy.used, buddy.registered, slabs, id, i, align);
      if align != 1 {
        var alignedAddr := AlignUp(addr, align);
        alignedToRaw := if alignedAddr != addr then alignedToRaw[alignedAddr := addr] else alignedToRaw;
        addr := alignedAddr;
      }
      if zeroed {
        zeroedBytes := Pow2(exponent);
      }
    }

    /** alloc with alignment 0, which passes its checks: the aligned address is null whatever the object's is, so the caller
        gets null and the object is lost, unless there was none to be had. The bytes it zeroes are at that null address. */
    method AllocAlignZero(size: nat, zeroed: bool) returns (addr: nat, zeroedBytes: nat, ghost lost: set<nat>)
      requires Valid() && size < U64
      modifies this`caches, this`slabs, this`owner, this`alignedToRaw, buddy
      ensures Valid() && addr == 0 && lost !! old(Live()) && Live() == old(Live()) + lost
      ensures lost == {} <==>
              || size == 0 || size > MAX_ALLOC_SIZE + 1
              || (NoBlock(old(buddy.used), SlabOrder(BitWidthCeil(size - 1))) && !HasRoom(old(slabs), BitWidthCeil(size - 1)))
      ensures zeroedBytes == if zeroed && lost != {} then Pow2(BitWidthCeil(size - 1)) else 0
    {
      hide Pow2, LiveBlocks, CachesOk, Partition, Coalesced, NumObjects, SlabOrder, NoBlock, OwnersOk, SlabsOk,
        LiveObjects, ObjectAddr, AlignUp, BitWidthCeil, HasRoom;
      addr, zeroedBytes, lost := 0, 0, {};
      if size == 0 || size > (MAX_ALLOC_SIZE + U64 - (U64 - 1)) % U64 {
        return;
      }
      var exponent := BitWidthCeil(size - 1);
      ClassOfRest(size);
      if exponent !in caches {
        NewCacheOk(caches, slabs, exponent);
        caches := caches[exponent := Cache([], [], [])];
      }
      ghost var id, i;
      addr, id, i := CacheAlloc(exponent);
      if addr == 0 {
        return;
      }
      lost := {addr};
      AlignUpZero(addr);
      alignedToRaw := alignedToRaw[AlignUp(addr, 0) := addr];
      addr := AlignUp(addr, 0);
      if zeroed {
        zeroedBytes := Pow2(exponent);
      }
    }

    /** free: an address that is not that of a live object (null, foreign, inside an object, already freed) changes nothing. */
    method FreeAddress(addr: nat)
      requires Valid()
      modifies this`caches, this`slabs, this`alignedToRaw
      ensures Valid() && caches.Keys == old(caches).Keys
      ensures addr in old(Live()) ==> Live() == old(Live()) - {addr}
      ensures addr !in old(Live()) ==> caches == old(caches) && slabs == old(slabs)
    {
      hide Pow2, LiveBlocks, CacheOk, Partition, Coalesced, NumObjects, SlabOrder, ObjectAddr, LiveObjects, OwnersOk;
      CountedSlabs(slabs);
      FoundIffLive(owner, slabs, addr);
      if addr == 0 {
        NullNotFound(buddy.live, buddy.used, buddy.registered, owner, slabs);
        return;
      }
      var raw := RawAddress(alignedToRaw, addr);
      alignedToRaw := alignedToRaw - {addr};
      var page := raw / PAGE_SIZE;
      if page >= |buddy.used| || page !in owner {
        OwnersInMemory(buddy.live, buddy.used, buddy.registered, owner, slabs, page);
        return;
      }
      OwnerFound(owner, slabs, raw);
      var id: nat := owner[page];
      var slab := slabs[id];
      var offset := raw - id * PAGE_SIZE;
      if offset % Pow2(slab.exponent) != 0 {
        return;
      }
      var i := offset / Pow2(slab.exponent);
      if i >= |slab.inUse| || !slab.inUse[i] {
        return;
      }
      FreeObject(id, i, raw);
    }

    /** Gives one object back; a full slab becomes partial, an empty one free. */
    method FreeObject(id: nat, i: nat, ghost addr: nat)
      requires Valid() && id in slabs && i < |slabs[id].inUse| && slabs[id].inUse[i]
      requires addr == ObjectAddr(id, slabs[id].exponent, i)
      modifies this`caches, this`slabs
      ensures Valid() && caches.Keys == old(caches).Keys && Live() == old(Live()) - {addr}
    {
      hide Pow2, LiveBlocks, CacheOk, Partition, Coalesced, NumObjects, SlabOrder, ObjectAddr;
      CountedSlabs(slabs);
      var slab := slabs[id];
      ReturnedCounted(slab, i);
      FlagChanged(owner, slabs, id, Returned(slab, i), i);
      StatusKept(caches, slabs, id, Returned(slab, i));
      SameShape(owner, slabs, id, Returned(slab, i));
      slabs := slabs[id := Returned(slab, i)];
      Settle(id);
    }

    method Settle(id: nat)
      requires ValidBut(id) && id in slabs && slabs[id].numInUse < |slabs[id].inUse| && slabs[id].status != Free
      modifies this`caches, this`slabs
      ensures Valid() && caches.Keys == old(caches).Keys && Live() == old(Live())
    {
      hide Pow2, LiveBlocks, CachesOk, Partition, Coalesced, NumObjects, SlabOrder, OwnersOk, LiveObjects, Backed;
      if slabs[id].status == Full {
        Restatus(id, Partial);
      }
      if slabs[id].numInUse == 0 {
        Restatus(id, Free);
      }
    }

    /** make_ool_buffer: null exactly for an empty or oversized payload and when memory has run out; otherwise a new zeroed
        object, and every page that delivery to a user task maps for the payload belongs to it. */
    method MakeOolBuffer(size: nat) returns (addr: nat, zeroedBytes: nat, ghost e: nat)
      requires Valid()
      modifies this`caches, this`slabs, this`owner, this`alignedToRaw, buddy
      ensures Valid()
      ensures addr == 0 <==>
              || size == 0 || size + PAGE_SIZE - 1 > MAX_ALLOC_SIZE
              || (NoBlock(old(buddy.used), SlabOrder(ClassOf(size, PAGE_SIZE))) && !HasRoom(old(slabs), ClassOf(size, PAGE_SIZE)))
      ensures addr == 0 ==> Live() == old(Live())
      ensures addr != 0 ==> e == ClassOf(size, PAGE_SIZE) && size <= Pow2(e) && zeroedBytes == Pow2(e)
      ensures addr != 0 ==> addr !in old(Live()) && Live() == old(Live()) + {addr} && IsObject(slabs, addr, e)
      ensures addr != 0 ==> addr % PAGE_SIZE == 0 && size < CalcRequiredPages(addr, size) * PAGE_SIZE <= Pow2(e)
    {
      hide Pow2, CachesOk, Partition, Coalesced, LiveBlocks, OwnersOk, SlabsOk, LiveObjects, And, IsObject, NoBlock,
        CalcRequiredPages;
      if size == 0 {
        return 0, 0, 0;
      }
      PageIsPowerOfTwo();
      addr, zeroedBytes, e := Alloc(size, true, PAGE_SIZE);
      if addr != 0 {
        OolPagesInside(addr, size);
      }
    }

    /** What was allocated and freed again leaves the live objects as they were. */
    method AllocThenFree(size: nat, zeroed: bool, align: nat) returns (addr: nat)
      requires Valid() && align > 0
      modifies this`caches, this`slabs, this`owner, this`alignedToRaw, buddy
      ensures Valid() && Live() == old(Live())
      ensures addr == 0 <==>
              || size == 0 || And(align, align - 1) != 0 || size + align - 1 > MAX_ALLOC_SIZE
              || (NoBlock(old(buddy.used), SlabOrder(ClassOf(size, align))) && !HasRoom(old(slabs), ClassOf(size, align)))
      ensures addr != 0 ==> addr !in Live() && addr % align == 0
    {
      hide Pow2, CachesOk, Partition, Coalesced, LiveBlocks, OwnersOk, SlabsOk, LiveObjects, And, IsObject, NoBlock;
      var bytes;
      ghost var e;
      addr, bytes, e := Alloc(size, zeroed, align);
      if addr != 0 {
        FreeAddress(addr);
      }
    }
  }

  /** A slab that keeps its class and status keeps its list. */
  lemma StatusKept(caches: map<nat, Cache>, slabs: map<nat, Slab>, id: nat, slab: Slab)
    requires CachesOk(caches, slabs) && id in slabs && slab.exponent == slabs[id].exponent && slab.status == slabs[id].status
    ensures CachesOk(caches, slabs[id := slab])
  {
    MovedOk(caches, slabs, id, slab);
    assert caches[slab.exponent := caches[slab.exponent]] == caches;
  }

  /** A slab that keeps its class keeps its pages. */
  lemma SameShape(owner: map<nat, nat>, slabs: map<nat, Slab>, id: nat, slab: Slab)
    requires OwnersOk(owner, slabs) && id in slabs && slab.exponent == slabs[id].exponent
    ensures OwnersOk(owner, slabs[id := slab])
  {
    hide Pow2, SlabOrder;
    var slabs' := slabs[id := slab];
    forall q: nat, p: nat
      ensures InSlab(slabs', q, p) <==> InSlab(slabs, q, p)
    {
    }
    forall p | p in owner
      ensures InSlab(slabs', owner[p], p)
    {
      assert InSlab(slabs, owner[p], p);
    }
  }

  /** Some slab of class e has a free object. */
  ghost predicate HasRoom(slabs: map<nat, Slab>, e: nat)
  {
    exists id :: id in slabs && slabs[id].exponent == e && slabs[id].numInUse < |slabs[id].inUse|
  }

  /** The lists say where there is room. */
  lemma RoomIffListed(caches: map<nat, Cache>, slabs: map<nat, Slab>, e: nat)
    requires CachesOk(caches, slabs) && SlabsOk(slabs) && e in caches
    ensures HasRoom(slabs, e) <==> caches[e].partial != [] || caches[e].free != []
  {
    hide NumObjects, CachesOk;
    if HasRoom(slabs, e) {
      var id :| id in slabs && slabs[id].exponent == e && slabs[id].numInUse < |slabs[id].inUse|;
      assert SlabOk(slabs[id]);
      ListedSomewhere(caches, slabs, e, id);
    }
    if caches[e].partial != [] {
      FirstInList(caches, slabs, e, Partial);
      assert SlabOk(slabs[caches[e].partial[0]]);
    } else if caches[e].free != [] {
      FirstInList(caches, slabs, e, Free);
      FreeHasRoom(slabs[caches[e].free[0]]);
    }
  }

  lemma FreeHasRoom(s: Slab)
    requires SlabOk(s) && s.status == Free
    ensures s.numInUse < |s.inUse|
  {
    hide NumObjects;
    assert |s.inUse| == NumObjects(s.exponent) > 0;
  }

  lemma ListedSomewhere(caches: map<nat, Cache>, slabs: map<nat, Slab>, e: nat, id: nat)
    requires CachesOk(caches, slabs) && e in caches && id in slabs && slabs[id].exponent == e
    ensures slabs[id].status == Partial ==> caches[e].partial != []
    ensures slabs[id].status == Free ==> caches[e].free != []
  {
    assert ListOk(ListFor(caches[e], Partial), slabs, e, Partial) && ListOk(ListFor(caches[e], Free), slabs, e, Free);
  }

  ghost predicate NoBlock(used: seq<bool>, order: nat)
  {
    forall p: nat :: Aligned(p, order) ==> !RunFree(used, p, Pow2(order))
  }

  /** The pages from `page` on point to `page`, the others where they did. */
  ghost predicate Pointed(owner: map<nat, nat>, owner': map<nat, nat>, page: nat, n: nat)
  {
    && (forall p :: page <= p < page + n ==> p in owner' && owner'[p] == page)
    && (forall p :: !(page <= p < page + n) ==> (p in owner' <==> p in owner) && (p in owner ==> owner'[p] == owner[p]))
  }

  lemma GrownSlabs(caches: map<nat, Cache>, slabs: map<nat, Slab>, page: nat, e: nat)
    requires CachesOk(caches, slabs) && SlabsOk(slabs) && page !in slabs && e in caches && e <= MAX_CLASS
    ensures var slabs' := slabs[page := NewSlab(e)];
            && SlabsOk(slabs') && CachesOk(caches[e := caches[e].(free := caches[e].free + [page])], slabs')
            && LiveObjects(slabs') == LiveObjects(slabs) && NewSlab(e).exponent == e
  {
    hide Pow2, CachesOk, NumObjects, LiveObjects;
    NewSlabOk(e);
    GrownOk(caches, slabs, page, NewSlab(e));
    SameFlags(slabs, slabs[page := NewSlab(e)]);
  }

  lemma GrownOwners(live: map<nat, nat>, used: seq<bool>, registered: set<nat>, owner: map<nat, nat>,
                    owner': map<nat, nat>, slabs: map<nat, Slab>, page: nat, e: nat)
    requires LiveBlocks(live, used, registered) && Backed(slabs, live) && page !in slabs && page in live && live[page] == SlabOrder(e)
    requires OwnersOk(owner, slabs) && Pointed(owner, owner', page, Pow2(SlabOrder(e)))
    ensures OwnersOk(owner', slabs[page := NewSlab(e)])
  {
    hide Pow2, LiveBlocks, SlabOrder, NumObjects;
    var slabs' := slabs[page := NewSlab(e)];
    forall id: nat, p: nat | InSlab(slabs', id, p)
      ensures p in owner' && owner'[p] == id
    {
      if id != page {
        assert InSlab(slabs, id, p);
        if page <= p < page + Pow2(SlabOrder(e)) {
          FreshBlock(live, used, registered, slabs, page, id, p);
        }
      }
    }
    forall p | p in owner'
      ensures InSlab(slabs', owner'[p], p)
    {
      if !(page <= p < page + Pow2(SlabOrder(e))) {
        assert InSlab(slabs, owner[p], p);
      }
    }
  }

  lemma FirstInList(caches: map<nat, Cache>, slabs: map<nat, Slab>, e: nat, status: SlabStatus)
    requires CachesOk(caches, slabs) && e in caches && ListFor(caches[e], status) != []
    ensures var id := ListFor(caches[e], status)[0]; id in slabs && slabs[id].exponent == e && slabs[id].status == status
  {
    assert ListOk(ListFor(caches[e], status), slabs, e, status);
    assert ListFor(caches[e], status)[0] in ListFor(caches[e], status);
  }

  /** With an empty partial list, the slab moved there is the only one in it. */
  lemma OnlyPartial(caches: map<nat, Cache>, slabs: map<nat, Slab>, caches': map<nat, Cache>, slabs': map<nat, Slab>,
                    e: nat, id: nat)
    requires CachesOk(caches, slabs) && CachesOk(caches', slabs') && e in caches && e in caches' && id in slabs && slabs[id].exponent == e
    requires caches[e].partial == [] && slabs' == slabs[id := slabs[id].(status := Partial)]
    ensures caches'[e].partial != [] && caches'[e].partial[0] == id
  {
    assert ListOk(ListFor(caches[e], Partial), slabs, e, Partial) && ListOk(ListFor(caches'[e], Partial), slabs', e, Partial);
    assert id in caches'[e].partial;
    assert caches'[e].partial[0] in caches'[e].partial;
    assert caches'[e].partial[0] in slabs && slabs[caches'[e].partial[0]].exponent == e;
  }

  /** A slab that is counted as partial, or was free a moment ago, has a free object. */
  lemma RoomLeft(s: Slab)
    requires Counted(s) && (Level(s) == Partial || Level(s) == Free)
    ensures s.freeIndex != []
  {
    hide NumObjects;
  }

  lemma PositiveSlab(live: map<nat, nat>, used: seq<bool>, registered: set<nat>, slabs: map<nat, Slab>, id: nat)
    requires LiveBlocks(live, used, registered) && Backed(slabs, live) && id in slabs
    ensures id > 0
  {
  }

  lemma CountOf(slabs: map<nat, Slab>, id: nat)
    requires AllCounted(slabs) && id in slabs
    ensures |slabs[id].inUse| == NumObjects(slabs[id].exponent)
  {
    assert Counted(slabs[id]);
  }

  /** The class of a request: the least power of two that holds it with room to align it. */
  function ClassOf(size: nat, align: nat): nat
    requires size + align > 0
  {
    BitWidthCeil(size + align - 1)
  }

  lemma ClassOfRest(size: nat)
    requires 0 < size <= MAX_ALLOC_SIZE + 1
    ensures BitWidthCeil(size - 1) <= MAX_CLASS
  {
    if size > 1 {
      ClassFits(size - 1, 1);
    }
  }

  lemma ClassFits(size: nat, align: nat)
    requires size > 0 && align > 0 && size + align - 1 <= MAX_ALLOC_SIZE
    ensures ClassOf(size, align) <= MAX_CLASS && size <= Pow2(ClassOf(size, align)) && align <= Pow2(ClassOf(size, align))
  {
    hide Pow2;
    MaxClassSize();
    CeilLogAgainst(size + align - 1, MAX_CLASS);
  }

  /** An object of the class is already aligned: align_up leaves its address alone. */
  lemma AlreadyAligned(slab: nat, e: nat, i: nat, align: nat, used: seq<bool>)
    requires Aligned(slab, SlabOrder(e)) && i < NumObjects(e) && e <= MAX_CLASS
    requires align > 0 && And(align, align - 1) == 0 && align <= Pow2(e)
    requires RunUsed(used, slab, Pow2(SlabOrder(e))) && |used| <= MAX_PAGES
    ensures align < U32 && AlignUp(ObjectAddr(slab, e, i), align) == ObjectAddr(slab, e, i)
    ensures ObjectAddr(slab, e, i) % align == 0
  {
    var addr, a := ObjectAddr(slab, e, i), BitWidth(align) - 1;
    PowerOfTwoTest(align);
    hide Pow2, RoundDown, AlignUp, And, BitWidth, NumObjects;
    ObjectAligned(slab, e, i);
    ObjectInSlab(slab, e, i);
    assert a <= e by {
      if a > e {
        Pow2Monotone(e, a);
      }
    }
    CoarserAligned(addr, a, e);
    AddressBelow4G(slab, e, i, used);
    AlignUpExact(addr, a, addr);
    RoundDownIsMod(addr, a);
  }

  lemma AddressBelow4G(slab: nat, e: nat, i: nat, used: seq<bool>)
    requires i < NumObjects(e) && RunUsed(used, slab, Pow2(SlabOrder(e))) && |used| <= MAX_PAGES
    ensures ObjectAddr(slab, e, i) < U32
  {
    hide Pow2, NumObjects;
    ObjectInSlab(slab, e, i);
    assert slab + Pow2(SlabOrder(e)) <= |used|;
    MulUp(slab + Pow2(SlabOrder(e)), MAX_PAGES, PAGE_SIZE);
  }

  /** addr is where an object of class e starts. */
  ghost predicate IsObject(slabs: map<nat, Slab>, addr: nat, e: nat)
  {
    exists id, i: nat :: id in slabs && slabs[id].exponent == e && i < NumObjects(e) && addr == ObjectAddr(id, e, i)
  }

  lemma OneIsPowerOfTwo()
    ensures And(1, 0) == 0
  {
  }

  lemma NaturallyAligned(live: map<nat, nat>, used: seq<bool>, registered: set<nat>, slabs: map<nat, Slab>, id: nat,
                         i: nat, align: nat)
    requires LiveBlocks(live, used, registered) && Backed(slabs, live) && |used| <= MAX_PAGES
    requires id in slabs && slabs[id].exponent <= MAX_CLASS && i < NumObjects(slabs[id].exponent)
    requires align > 0 && And(align, align - 1) == 0 && align <= Pow2(slabs[id].exponent)
    ensures var addr := ObjectAddr(id, slabs[id].exponent, i);
            align < U32 && AlignUp(addr, align) == addr && addr % align == 0 && IsObject(slabs, addr, slabs[id].exponent)
  {
    hide Pow2, And, NumObjects, AlignUp, ObjectAddr;
    assert RunUsed(used, id, Pow2(live[id])) && Aligned(id, live[id]);
    AlreadyAligned(id, slabs[id].exponent, i, align, used);
  }

  function RawAddress(alignedToRaw: map<nat, nat>, addr: nat): nat
  {
    if addr in alignedToRaw then alignedToRaw[addr] else addr
  }

  lemma CountedSlabs(slabs: map<nat, Slab>)
    requires SlabsOk(slabs)
    ensures AllCounted(slabs)
  {
  }

  /** Page 0 is no slab's. */
  lemma NullNotFound(live: map<nat, nat>, used: seq<bool>, registered: set<nat>, owner: map<nat, nat>,
                     slabs: map<nat, Slab>)
    requires LiveBlocks(live, used, registered) && Backed(slabs, live) && OwnersOk(owner, slabs)
    ensures !Found(owner, slabs, 0)
  {
    hide Pow2;
    if 0 in owner {
      assert InSlab(slabs, owner[0], 0);
      PositiveSlab(live, used, registered, slabs, owner[0]);
    }
  }

  /** Slab pages are pages of the memory the buddy system manages. */
  lemma OwnersInMemory(live: map<nat, nat>, used: seq<bool>, registered: set<nat>, owner: map<nat, nat>,
                       slabs: map<nat, Slab>, page: nat)
    requires LiveBlocks(live, used, registered) && Backed(slabs, live) && OwnersOk(owner, slabs)
    ensures page in owner ==> page < |used|
  {
    hide Pow2;
    if page in owner {
      assert InSlab(slabs, owner[page], page);
      assert RunUsed(used, owner[page], Pow2(live[owner[page]]));
    }
  }

  lemma OwnerFound(owner: map<nat, nat>, slabs: map<nat, Slab>, addr: nat)
    requires OwnersOk(owner, slabs) && AllCounted(slabs) && addr / PAGE_SIZE in owner
    ensures var id := owner[addr / PAGE_SIZE];
            && id in slabs && addr >= id * PAGE_SIZE
            && var e := slabs[id].exponent;
            ((addr - id * PAGE_SIZE) % Pow2(e) == 0 ==>
              (addr - id * PAGE_SIZE) / Pow2(e) < |slabs[id].inUse| && addr == ObjectAddr(id, e, (addr - id * PAGE_SIZE) / Pow2(e)))
  {
    hide Pow2, NumObjects;
    var id: nat := owner[addr / PAGE_SIZE];
    assert InSlab(slabs, id, addr / PAGE_SIZE);
    assert Counted(slabs[id]);
    if (addr - id * PAGE_SIZE) % Pow2(slabs[id].exponent) == 0 {
      OffsetIsObject(id, slabs[id].exponent, addr);
    }
  }

  /** The page after the last byte is counted even when it starts exactly there. */
  function CalcRequiredPages(start: nat, size: nat): nat
  {
    var end := start + size;
    (end - end % PAGE_SIZE + PAGE_SIZE - (start - start % PAGE_SIZE)) / PAGE_SIZE
  }

  lemma PageIsPowerOfTwo()
    ensures And(PAGE_SIZE, PAGE_SIZE - 1) == 0
  {
    hide Pow2, BitWidth, And;
    PageSizeIsPow2();
    PowerPasses(12);
  }

  lemma PowerPasses(k: nat)
    ensures And(Pow2(k), Pow2(k) - 1) == 0
  {
    hide Pow2, And;
    var x, r := Pow2(k), BitWidth(Pow2(k));
    PowerOfTwoTest(x);
    Pow2Succ(k);
    if r - 1 > k {
      Pow2Monotone(k + 1, r - 1);
    } else if r - 1 < k {
      Pow2Monotone(r, k);
    }
  }

  lemma OolPagesInside(addr: nat, size: nat)
    requires addr % PAGE_SIZE == 0 && size > 0 && size <= Pow2(ClassOf(size, PAGE_SIZE)) && size + PAGE_SIZE - 1 <= MAX_ALLOC_SIZE
    ensures size < CalcRequiredPages(addr, size) * PAGE_SIZE <= Pow2(ClassOf(size, PAGE_SIZE))
  {
    hide Pow2, BitWidthCeil, CalcRequiredPages;
    var e := ClassOf(size, PAGE_SIZE);
    PageSizeIsPow2();
    CeilLogAgainst(size + PAGE_SIZE - 1, MAX_CLASS);
    assert e >= 12 by {
      if e < 12 {
        Pow2Monotone(e, 12);
      }
    }
    Pow2Add(e - 12, 12);
    PagesCounted(addr, size);
    WholePages(size / PAGE_SIZE, Pow2(e - 12), size);
  }

  lemma PagesCounted(addr: nat, size: nat)
    requires addr % PAGE_SIZE == 0
    ensures CalcRequiredPages(addr, size) == size / PAGE_SIZE + 1
  {
  }

  lemma WholePages(k: nat, m: nat, size: nat)
    requires k == size / PAGE_SIZE && size + PAGE_SIZE - 1 <= m * PAGE_SIZE
    ensures (k + 1) * PAGE_SIZE <= m * PAGE_SIZE || size == 0
  {
  }
}
