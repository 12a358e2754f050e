/** Objects in slabs: where they are, that they do not overlap, and how free() finds them again. */
module SlabObjects {
  import opened BitUtils
  import opened BuddyBlocks
  import opened BuddyAllocator
  import opened SlabGeometry
  import opened Slabs

  /** Page p belongs to slab id. */
  predicate InSlab(slabs: map<nat, Slab>, id: nat, p: nat)
  {
    id in slabs && id <= p < id + Pow2(SlabOrder(slabs[id].exponent))
  }

  ghost predicate SlabsOk(slabs: map<nat, Slab>)
  {
    forall id :: id in slabs ==> SlabOk(slabs[id])
  }

  ghost predicate AllCounted(slabs: map<nat, Slab>)
  {
    forall id :: id in slabs ==> Counted(slabs[id])
  }

  /** Every slab is a live block of the buddy system. */
  ghost predicate Backed(slabs: map<nat, Slab>, live: map<nat, nat>)
  {
    forall id :: id in slabs ==> id in live && live[id] == SlabOrder(slabs[id].exponent)
  }

  /** The back pointers of the pages lead to the slab they belong to, and no other page has one. */
  ghost predicate OwnersOk(owner: map<nat, nat>, slabs: map<nat, Slab>)
  {
    && (forall p :: p in owner ==> InSlab(slabs, owner[p], p))
    && (forall id, p :: InSlab(slabs, id, p) ==> p in owner && owner[p] == id)
  }

  /** The addresses of the allocated objects. */
  ghost function LiveObjects(slabs: map<nat, Slab>): set<nat>
  {
    set id, i | id in slabs && 0 <= i < |slabs[id].inUse| && slabs[id].inUse[i] :: ObjectAddr(id, slabs[id].exponent, i)
  }

  /** What free() finds behind an address: the slab of its page, and the object when the address is an object's. */
  lemma Located(owner: map<nat, nat>, slabs: map<nat, Slab>, id: nat, i: nat)
    requires AllCounted(slabs) && OwnersOk(owner, slabs) && id in slabs && i < |slabs[id].inUse|
    ensures var e := slabs[id].exponent;
            var addr := ObjectAddr(id, e, i);
            && addr / PAGE_SIZE in owner && owner[addr / PAGE_SIZE] == id
            && addr >= id * PAGE_SIZE && (addr - id * PAGE_SIZE) % Pow2(e) == 0 && (addr - id * PAGE_SIZE) / Pow2(e) == i
  {
    hide Pow2, NumObjects;
    assert Counted(slabs[id]);
    ObjectInSlab(id, slabs[id].exponent, i);
    assert InSlab(slabs, id, ObjectAddr(id, slabs[id].exponent, i) / PAGE_SIZE);
  }

  /** Different objects have different addresses. */
  lemma AddressesUnique(owner: map<nat, nat>, slabs: map<nat, Slab>, id: nat, i: nat, id': nat, i': nat)
    requires AllCounted(slabs) && OwnersOk(owner, slabs)
    requires id in slabs && i < |slabs[id].inUse| && id' in slabs && i' < |slabs[id'].inUse|
    requires ObjectAddr(id, slabs[id].exponent, i) == ObjectAddr(id', slabs[id'].exponent, i')
    ensures id == id' && i == i'
  {
    hide Pow2, ObjectAddr, AllCounted, OwnersOk;
    Located(owner, slabs, id, i);
    Located(owner, slabs, id', i');
  }

  /** Live objects never overlap. */
  lemma ObjectsApart(owner: map<nat, nat>, slabs: map<nat, Slab>, id: nat, i: nat, id': nat, i': nat)
    requires AllCounted(slabs) && OwnersOk(owner, slabs)
    requires id in slabs && i < |slabs[id].inUse| && id' in slabs && i' < |slabs[id'].inUse| && (id != id' || i != i')
    ensures var a, a' := ObjectAddr(id, slabs[id].exponent, i), ObjectAddr(id', slabs[id'].exponent, i');
            a + Pow2(slabs[id].exponent) <= a' || a' + Pow2(slabs[id'].exponent) <= a
  {
    hide Pow2, NumObjects;
    var e, e' := slabs[id].exponent, slabs[id'].exponent;
    assert Counted(slabs[id]) && Counted(slabs[id']);
    ObjectInSlab(id, e, i);
    ObjectInSlab(id', e', i');
    if id == id' {
      StepsApart(i, i', Pow2(e));
    } else {
      SlabsApart(owner, slabs, id, id');
      if id + Pow2(SlabOrder(e)) <= id' {
        MulUp(id + Pow2(SlabOrder(e)), id', PAGE_SIZE);
      } else {
        MulUp(id' + Pow2(SlabOrder(e')), id, PAGE_SIZE);
      }
    }
  }

  lemma StepsApart(i: nat, j: nat, s: nat)
    requires i != j
    ensures i * s + s <= j * s || j * s + s <= i * s
  {
    if i < j {
      MulUp(i + 1, j, s);
      assert (i + 1) * s == i * s + s;
    } else {
      MulUp(j + 1, i, s);
      assert (j + 1) * s == j * s + s;
    }
  }

  lemma SlabsApart(owner: map<nat, nat>, slabs: map<nat, Slab>, id: nat, id': nat)
    requires OwnersOk(owner, slabs) && id in slabs && id' in slabs && id != id'
    ensures id + Pow2(SlabOrder(slabs[id].exponent)) <= id' || id' + Pow2(SlabOrder(slabs[id'].exponent)) <= id
  {
    hide Pow2, SlabOrder;
    if id < id' {
      assert InSlab(slabs, id', id') && !InSlab(slabs, id, id');
    } else {
      assert InSlab(slabs, id, id) && !InSlab(slabs, id', id);
    }
  }

  /** A fresh block of the buddy system shares no page with a slab. */
  lemma FreshBlock(live: map<nat, nat>, used: seq<bool>, registered: set<nat>, slabs: map<nat, Slab>, page: nat,
                   id: nat, p: nat)
    requires LiveBlocks(live, used, registered) && Backed(slabs, live) && page in live && page !in slabs
    requires page <= p < page + Pow2(live[page])
    ensures !InSlab(slabs, id, p)
  {
    hide Pow2, RoundDown, LiveBlocks;
    if InSlab(slabs, id, p) {
      SameBlock(live, used, registered, id, page, p);
    }
  }

  lemma SameBlock(live: map<nat, nat>, used: seq<bool>, registered: set<nat>, a: nat, b: nat, p: nat)
    requires LiveBlocks(live, used, registered) && a in live && b in live
    requires a <= p < a + Pow2(live[a]) && b <= p < b + Pow2(live[b])
    ensures a == b
  {
    hide Pow2, RoundDown;
    assert Aligned(a, live[a]) && Aligned(b, live[b]);
    RoundDownUnique(p, live[a], a);
    RoundDownUnique(p, live[b], b);
    assert Base(p, live[a]) == a && Base(p, live[b]) == b;
  }

  // ----- what a change of one slab does to the live objects

  /** free()'s way to an object: the slab of the page, the offset, the index. */
  predicate Found(owner: map<nat, nat>, slabs: map<nat, Slab>, addr: nat)
  {
    && addr / PAGE_SIZE in owner && owner[addr / PAGE_SIZE] in slabs
    && var id := owner[addr / PAGE_SIZE];
       var slab := slabs[id];
       && addr >= id * PAGE_SIZE && (addr - id * PAGE_SIZE) % Pow2(slab.exponent) == 0
       && var i := (addr - id * PAGE_SIZE) / Pow2(slab.exponent);
          i < |slab.inUse| && slab.inUse[i]
  }

  /** Exactly the live objects are found; null, foreign, interior and freed addresses are not. */
  lemma FoundIffLive(owner: map<nat, nat>, slabs: map<nat, Slab>, addr: nat)
    requires AllCounted(slabs) && OwnersOk(owner, slabs)
    ensures Found(owner, slabs, addr) <==> addr in LiveObjects(slabs)
  {
    hide Pow2;
    if addr in LiveObjects(slabs) {
      var id, i :| id in slabs && 0 <= i < |slabs[id].inUse| && slabs[id].inUse[i] && addr == ObjectAddr(id, slabs[id].exponent, i);
      Located(owner, slabs, id, i);
    }
    if Found(owner, slabs, addr) {
      var id := owner[addr / PAGE_SIZE];
      var e := slabs[id].exponent;
      assert InSlab(slabs, id, addr / PAGE_SIZE);
      OffsetIsObject(id, e, addr);
      var i := (addr - id * PAGE_SIZE) / Pow2(e);
      assert slabs[id].inUse[i] && addr == ObjectAddr(id, e, i);
    }
  }

  /** Setting or clearing the use flag of one object. */
  lemma FlagChanged(owner: map<nat, nat>, slabs: map<nat, Slab>, id: nat, slab: Slab, i: nat)
    requires AllCounted(slabs) && OwnersOk(owner, slabs) && id in slabs && i < |slabs[id].inUse|
    requires slab.exponent == slabs[id].exponent && |slab.inUse| == |slabs[id].inUse| && slab.inUse == slabs[id].inUse[i := slab.inUse[i]]
    ensures var addr := ObjectAddr(id, slab.exponent, i);
            && LiveObjects(slabs[id := slab]) == (if slab.inUse[i] then LiveObjects(slabs) + {addr} else LiveObjects(slabs) - {addr})
            && (addr in LiveObjects(slabs) <==> slabs[id].inUse[i])
  {
    hide Pow2, ObjectAddr, AllCounted, OwnersOk;
    var addr, slabs' := ObjectAddr(id, slab.exponent, i), slabs[id := slab];
    forall q, j | q in slabs && 0 <= j < |slabs[q].inUse|
      ensures ObjectAddr(q, slabs[q].exponent, j) == addr <==> q == id && j == i
    {
      if ObjectAddr(q, slabs[q].exponent, j) == addr {
        AddressesUnique(owner, slabs, q, j, id, i);
      }
    }
    forall x
      ensures x in LiveObjects(slabs') <==> if x == addr then slab.inUse[i] else x in LiveObjects(slabs)
    {
      if x in LiveObjects(slabs) && x != addr {
        var q, j :| q in slabs && 0 <= j < |slabs[q].inUse| && slabs[q].inUse[j] && x == ObjectAddr(q, slabs[q].exponent, j);
        assert q in slabs' && slabs'[q].inUse[j] && slabs'[q].exponent == slabs[q].exponent;
      }
      if x in LiveObjects(slabs') {
        var q, j :| q in slabs' && 0 <= j < |slabs'[q].inUse| && slabs'[q].inUse[j] && x == ObjectAddr(q, slabs'[q].exponent, j);
        assert q in slabs && slabs[q].exponent == slabs'[q].exponent && j < |slabs[q].inUse|;
        assert q != id || j != i ==> slabs[q].inUse[j];
      }
      if slab.inUse[i] {
        assert slabs'[id].inUse[i];
      }
    }
    if slabs[id].inUse[i] {
      assert addr in LiveObjects(slabs);
    }
  }

  /** Changes that set no use flag. */
  lemma SameFlags(slabs: map<nat, Slab>, slabs': map<nat, Slab>)
    requires forall id :: id in slabs ==> id in slabs' && slabs'[id].exponent == slabs[id].exponent && slabs'[id].inUse == slabs[id].inUse
    requires forall id :: id in slabs' && id !in slabs ==> forall i :: 0 <= i < |slabs'[id].inUse| ==> !slabs'[id].inUse[i]
    ensures LiveObjects(slabs') == LiveObjects(slabs)
  {
    hide ObjectAddr;
    forall x
      ensures x in LiveObjects(slabs') <==> x in LiveObjects(slabs)
    {
      if x in LiveObjects(slabs) {
        var q, j :| q in slabs && 0 <= j < |slabs[q].inUse| && slabs[q].inUse[j] && x == ObjectAddr(q, slabs[q].exponent, j);
        assert slabs'[q].inUse[j];
      }
      if x in LiveObjects(slabs') {
        var q, j :| q in slabs' && 0 <= j < |slabs'[q].inUse| && slabs'[q].inUse[j] && x == ObjectAddr(q, slabs'[q].exponent, j);
        assert q in slabs && slabs[q].inUse[j];
      }
    }
  }
}
