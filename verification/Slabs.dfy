/** Slabs and their three lists, as values. */
module Slabs {
  import opened Common
  import opened BitUtils
  import opened BuddyBlocks
  import opened BuddyAllocator
  import opened SlabGeometry

  datatype SlabStatus = Full | Partial | Free

  datatype Slab = Slab(exponent: nat, inUse: seq<bool>, freeIndex: seq<nat>, numInUse: nat, status: SlabStatus)

  datatype Cache = Cache(full: seq<nat>, partial: seq<nat>, free: seq<nat>)

  function Level(s: Slab): SlabStatus
  {
    if s.numInUse == |s.inUse| then Full else if s.numInUse == 0 then Free else Partial
  }

  /** The free list holds exactly the unused indices, once each, and the count is right. */
  ghost predicate Counted(s: Slab)
  {
    && s.exponent <= MAX_CLASS && |s.inUse| == NumObjects(s.exponent)
    && NoRepeats(s.freeIndex) && (forall i :: i in s.freeIndex <==> 0 <= i < |s.inUse| && !s.inUse[i])
    && s.numInUse + |s.freeIndex| == |s.inUse|
  }

  ghost predicate SlabOk(s: Slab)
  {
    Counted(s) && s.status == Level(s)
  }

  /** MSlab's constructor: all indices free, in order. */
  function NewSlab(e: nat): Slab
  {
    var n := NumObjects(e);
    Slab(e, seq(n, _ => false), seq(n, i requires 0 <= i < n => i), 0, Free)
  }

  lemma NewSlabOk(e: nat)
    requires e <= MAX_CLASS
    ensures SlabOk(NewSlab(e))
  {
    hide NumObjects;
    var s := NewSlab(e);
    assert |s.inUse| == NumObjects(e) > 0;
    forall i
      ensures i in s.freeIndex <==> 0 <= i < |s.inUse|
    {
      if 0 <= i < |s.inUse| {
        assert s.freeIndex[i] == i;
      }
    }
  }

  /** alloc_object takes the first free index. */
  function Taken(s: Slab): Slab
    requires s.freeIndex != [] && s.freeIndex[0] < |s.inUse|
  {
    s.(inUse := s.inUse[s.freeIndex[0] := true], freeIndex := s.freeIndex[1..], numInUse := s.numInUse + 1)
  }

  lemma TakenCounted(s: Slab)
    requires Counted(s) && s.freeIndex != []
    ensures s.freeIndex[0] < |s.inUse| && !s.inUse[s.freeIndex[0]] && Counted(Taken(s))
  {
    hide NumObjects;
    assert s.freeIndex[0] in s.freeIndex;
    var t := Taken(s);
    forall i
      ensures i in t.freeIndex <==> 0 <= i < |t.inUse| && !t.inUse[i]
    {
      if i in s.freeIndex && i != s.freeIndex[0] {
        var j :| 0 <= j < |s.freeIndex| && s.freeIndex[j] == i;
        assert t.freeIndex[j - 1] == i;
      }
      if i in t.freeIndex {
        assert i in s.freeIndex && i != s.freeIndex[0];
      }
    }
  }

  /** free_object appends the index. */
  function Returned(s: Slab, i: nat): Slab
    requires i < |s.inUse| && s.numInUse > 0
  {
    s.(inUse := s.inUse[i := false], freeIndex := s.freeIndex + [i], numInUse := s.numInUse - 1)
  }

  lemma ReturnedCounted(s: Slab, i: nat)
    requires Counted(s) && i < |s.inUse| && s.inUse[i]
    ensures s.numInUse > 0 && Counted(Returned(s, i))
  {
    hide NumObjects;
    InUseCounted(s, i);
    var t := Returned(s, i);
    assert i !in s.freeIndex;
    forall j
      ensures j in t.freeIndex <==> 0 <= j < |t.inUse| && !t.inUse[j]
    {
      assert j in t.freeIndex <==> j in s.freeIndex || j == i;
    }
  }

  /** A used object means the free list is shorter than the slab. */
  lemma InUseCounted(s: Slab, i: nat)
    requires Counted(s) && i < |s.inUse| && s.inUse[i]
    ensures s.numInUse > 0
  {
    hide NumObjects;
    var free := Elements(s.freeIndex);
    var all := Below(|s.inUse|);
    SetSize(s.freeIndex);
    assert i in all && free <= all - {i};
    SubsetSize(free, all - {i});
    assert all == (all - {i}) + {i};
  }

  function Elements(s: seq<nat>): set<nat>
  {
    set j | j in s
  }

  lemma {:induction false} SetSize(s: seq<nat>)
    requires NoRepeats(s)
    ensures |Elements(s)| == |s|
  {
    if s != [] {
      SetSize(s[1..]);
      assert Elements(s) == {s[0]} + Elements(s[1..]);
    }
  }

  function Below(n: nat): (r: set<nat>)
    ensures |r| == n && forall j :: j in r <==> 0 <= j < n
  {
    if n == 0 then {} else Below(n - 1) + {n - 1}
  }

  // ----- the lists of a cache

  function ListFor(c: Cache, status: SlabStatus): seq<nat>
  {
    match status
    case Free => c.free
    case Partial => c.partial
    case Full => c.full
  }

  function WithList(c: Cache, status: SlabStatus, list: seq<nat>): Cache
  {
    match status
    case Free => c.(free := list)
    case Partial => c.(partial := list)
    case Full => c.(full := list)
  }

  function Without(list: seq<nat>, id: nat): seq<nat>
  {
    if list == [] then [] else if list[0] == id then list[1..] else [list[0]] + Without(list[1..], id)
  }

  lemma {:induction false} WithoutElements(list: seq<nat>, id: nat)
    requires NoRepeats(list)
    ensures NoRepeats(Without(list, id)) && forall x :: x in Without(list, id) <==> x in list && x != id
  {
    if list != [] {
      WithoutElements(list[1..], id);
      if list[0] != id {
        var rest := Without(list[1..], id);
        assert list[0] !in list[1..];
        assert forall x :: x in [list[0]] + rest <==> x == list[0] || x in rest;
      }
    }
  }

  /** move_list: out of the list of one status, to the end of the list of another. */
  function Moved(c: Cache, id: nat, from: SlabStatus, to: SlabStatus): Cache
  {
    if from == to then c
    else
      var c' := WithList(c, from, Without(ListFor(c, from), id));
      WithList(c', to, ListFor(c', to) + [id])
  }

  /** A list holds exactly the slabs of its class and status. */
  ghost predicate ListOk(list: seq<nat>, slabs: map<nat, Slab>, e: nat, status: SlabStatus)
  {
    NoRepeats(list) && forall id :: id in list <==> id in slabs && slabs[id].exponent == e && slabs[id].status == status
  }

  ghost predicate CacheOk(c: Cache, slabs: map<nat, Slab>, e: nat)
  {
    forall status :: ListOk(ListFor(c, status), slabs, e, status)
  }

  ghost predicate CachesOk(caches: map<nat, Cache>, slabs: map<nat, Slab>)
  {
    && (forall id :: id in slabs ==> slabs[id].exponent in caches)
    && forall e :: e in caches ==> CacheOk(caches[e], slabs, e)
  }

  lemma ListsDiffer(c: Cache, a: SlabStatus, b: SlabStatus, list: seq<nat>)
    ensures ListFor(WithList(c, a, list), b) == if a == b then list else ListFor(c, b)
  {
  }

  /** Moving a slab keeps every slab in exactly the list of its status. */
  lemma MovedOk(caches: map<nat, Cache>, slabs: map<nat, Slab>, id: nat, slab: Slab)
    requires CachesOk(caches, slabs) && id in slabs && slab.exponent == slabs[id].exponent
    ensures var e := slab.exponent;
            CachesOk(caches[e := Moved(caches[e], id, slabs[id].status, slab.status)], slabs[id := slab])
  {
    var e, from, to := slab.exponent, slabs[id].status, slab.status;
    var c, slabs' := caches[e], slabs[id := slab];
    var c' := Moved(c, id, from, to);
    forall status
      ensures ListOk(ListFor(c', status), slabs', e, status)
    {
      assert ListOk(ListFor(c, status), slabs, e, status) && ListOk(ListFor(c, from), slabs, e, from) && ListOk(ListFor(c, to), slabs, e, to);
      WithoutElements(ListFor(c, from), id);
      ListsDiffer(c, from, status, Without(ListFor(c, from), id));
      ListsDiffer(c, from, to, Without(ListFor(c, from), id));
      ListsDiffer(WithList(c, from, Without(ListFor(c, from), id)), to, status, ListFor(WithList(c, from, Without(ListFor(c, from), id)), to) + [id]);
    }
    forall e2 | e2 in caches && e2 != e
      ensures CacheOk(caches[e2], slabs', e2)
    {
      assert CacheOk(caches[e2], slabs, e2);
    }
  }

  /** A new slab joins the free list of its cache. */
  lemma GrownOk(caches: map<nat, Cache>, slabs: map<nat, Slab>, id: nat, slab: Slab)
    requires CachesOk(caches, slabs) && id !in slabs && slab.exponent in caches && slab.status == Free
    ensures var e := slab.exponent;
            CachesOk(caches[e := caches[e].(free := caches[e].free + [id])], slabs[id := slab])
  {
    var e := slab.exponent;
    var c, slabs' := caches[e], slabs[id := slab];
    var c' := c.(free := c.free + [id]);
    forall status
      ensures ListOk(ListFor(c', status), slabs', e, status)
    {
      assert ListOk(ListFor(c, status), slabs, e, status);
    }
    forall e2 | e2 in caches && e2 != e
      ensures CacheOk(caches[e2], slabs', e2)
    {
      assert CacheOk(caches[e2], slabs, e2);
      forall status
        ensures ListOk(ListFor(caches[e2], status), slabs', e2, status)
      {
        assert ListOk(ListFor(caches[e2], status), slabs, e2, status);
      }
    }
  }

  lemma NewCacheOk(caches: map<nat, Cache>, slabs: map<nat, Slab>, e: nat)
    requires CachesOk(caches, slabs) && e !in caches
    ensures CachesOk(caches[e := Cache([], [], [])], slabs)
  {
  }
}
