/** Frames that a space maps without owning them: out-of-line buffers of messages. Mapping and unmapping them leaves all
    reference counts alone, which is right exactly as long as the mapping is still the foreign one. */
module ForeignFrames {
  import opened PageTables
  import opened PageTableEdits
  import opened PagingEffects
  import opened PrivateMemory

  /** The address of a page. */
  function AddrOf(v: nat): VAddr
  {
    VAddr(v / 0x800_0000 % 512, v / 0x4_0000 % 512, v / 512 % 512, v % 512)
  }

  lemma AddrOfPage(v: nat)
    requires v < Span(4)
    ensures Vpn(AddrOf(v)) == v && (v >= 0x8_0000_0000 ==> AddrOf(v).pml4 >= USER_SPACE_START_INDEX)
  {
    Spans();
    var a, b, c := v / 512, v / 0x4_0000, v / 0x800_0000;
    assert b == a / 512 && c == b / 512 && c < 512;
    assert v == a * 512 + v % 512 && a == b * 512 + a % 512 && b == c * 512 + b % 512;
  }

  lemma UserStart(a: VAddr)
    requires a.pml4 >= USER_SPACE_START_INDEX
    ensures 0x8_0000_0000 <= Vpn(a) < Span(4)
  {
    Spans();
  }

  /** A read-only user mapping of a frame the space does not own. */
  function ForeignEntry(frame: nat): Pte
  {
    Pte(true, false, true, false, frame)
  }

  /** Pages [v, v + n) of space root are mapped to consecutive foreign frames; nothing else changes. */
  ghost predicate ForeignMapped(s: State, t: State, root: nat, v: nat, n: nat, frame: nat)
  {
    && t.data == s.data && t.refs == s.refs && t.pool == s.pool && t.roots == s.roots && t.pos == s.pos
    && (forall k: (nat, nat) :: !InRange(k, root, v, v + n) ==> (k in t.leaves <==> k in s.leaves) && (k in s.leaves ==> t.leaves[k] == s.leaves[k]))
    && (forall k: (nat, nat) :: InRange(k, root, v, v + n) ==> k !in s.leaves && k in t.leaves && t.leaves[k] == ForeignEntry(frame + (k.1 - v)))
  }

  /** Pages [lo, hi) of space root are not mapped any more; nothing else changes. */
  ghost predicate Unmapped(s: State, t: State, root: nat, lo: nat, hi: nat)
  {
    && t.data == s.data && t.refs == s.refs && t.pool == s.pool && t.roots == s.roots && t.pos == s.pos
    && (forall k: (nat, nat) :: InRange(k, root, lo, hi) ==> k !in t.leaves)
    && (forall k: (nat, nat) :: !InRange(k, root, lo, hi) ==> (k in t.leaves <==> k in s.leaves) && (k in s.leaves ==> t.leaves[k] == s.leaves[k]))
  }

  ghost predicate AllForeign(leaves: map<(nat, nat), Pte>, root: nat, lo: nat, hi: nat)
  {
    forall k :: k in leaves && InRange(k, root, lo, hi) ==> !leaves[k].owned
  }

  lemma AddForeign(s: State, f: nat, i: nat, frame: nat)
    requires Inv(s) && f in s.tables && s.pos[f].level == 1 && i < 512 && s.tables[f][i] == NO_ENTRY
    ensures Inv(SetLeaf(s, f, i, ForeignEntry(frame))) && LeafKey(s.pos[f], i) !in s.leaves
  {
    hide ChildrenPlaced, ParentsExist, FramesAccounted, LeavesAgree;
    LeafAt(s, f, i);
    AddLeafKeeps(s, f, i, ForeignEntry(frame), ZeroPage());
  }

  /** Clearing a level-1 entry without looking at it, as unmap_frame does, keeps every page accounted for if and only if
      the entry holds no page that the space owns. */
  lemma ClearEntry(s: State, f: nat, i: nat)
    requires Inv(s) && f in s.tables && s.pos[f].level == 1 && i < 512
    ensures Inv(SetLeaf(s, f, i, NO_ENTRY)) <==> !(s.tables[f][i].present && s.tables[f][i].owned)
    ensures SetLeaf(s, f, i, NO_ENTRY).leaves == s.leaves - {LeafKey(s.pos[f], i)}
  {
    hide ChildrenPlaced, ParentsExist, FramesAccounted, LeavesAgree;
    LeafAt(s, f, i);
    var e, t := s.tables[f][i], SetLeaf(s, f, i, NO_ENTRY);
    if e.present {
      RemoveLeafKeeps(s, f, i);
      if e.owned {
        PageLost(s, t, LeafKey(s.pos[f], i));
      }
    } else {
      SetLeafStructure(s, f, i, NO_ENTRY);
      assert t.leaves == s.leaves;
      SameAccounts(s, t);
    }
  }

  lemma PageLost(s: State, t: State, k: (nat, nat))
    requires FramesAccounted(s) && k in s.leaves && s.leaves[k].owned && t.leaves == s.leaves - {k}
    requires t.data == s.data && t.refs == s.refs
    ensures !FramesAccounted(t)
  {
    var d := s.leaves[k].frame;
    SharersRemove(s.leaves, k, d);
    assert s.refs[d] != |Sharers(t.leaves, d)|;
  }

  lemma UnmappedStep(s: State, t: State, u: State, root: nat, lo: nat, hi: nat)
    requires Unmapped(s, t, root, lo, hi) && lo <= hi
    requires u.data == t.data && u.refs == t.refs && u.pool == t.pool && u.roots == t.roots && u.pos == t.pos && u.leaves == t.leaves - {(root, hi)}
    ensures Unmapped(s, u, root, lo, hi + 1)
  {
  }

  lemma ForeignStep(s: State, t: State, u: State, root: nat, v: nat, n: nat, frame: nat)
    requires ForeignMapped(s, t, root, v, n, frame) && (root, v + n) !in t.leaves
    requires u.data == t.data && u.refs == t.refs && u.pool == t.pool && u.roots == t.roots && u.pos == t.pos
    requires u.leaves == t.leaves[(root, v + n) := ForeignEntry(frame + n)]
    ensures ForeignMapped(s, u, root, v, n + 1, frame)
  {
  }

  /** No space sees different contents of its own pages, and sharing is as it was. */
  lemma ForeignIsInvisible(s: State, t: State, root: nat, v: nat, n: nat, frame: nat)
    requires ForeignMapped(s, t, root, v, n, frame)
    ensures Private(t) == Private(s) && forall gone :: UnsharedBut(t.leaves, gone) <==> UnsharedBut(s.leaves, gone)
  {
    hide Private, UnsharedBut;
    forall k
      ensures OwnedIn(t.leaves, k) <==> OwnedIn(s.leaves, k)
      ensures OwnedIn(s.leaves, k) ==> k in t.leaves && t.leaves[k] == s.leaves[k]
    {
    }
    SamePages(s, t);
    forall gone
      ensures UnsharedBut(t.leaves, gone) <==> UnsharedBut(s.leaves, gone)
    {
      SameSharing(s.leaves, t.leaves, gone);
      SameSharing(t.leaves, s.leaves, gone);
    }
  }

  predicate OwnedIn(leaves: map<(nat, nat), Pte>, k: (nat, nat))
  {
    k in leaves && leaves[k].owned
  }

  lemma SamePages(s: State, t: State)
    requires t.data == s.data
    requires forall k :: OwnedIn(t.leaves, k) <==> OwnedIn(s.leaves, k)
    requires forall k :: OwnedIn(s.leaves, k) ==> k in t.leaves && t.leaves[k] == s.leaves[k]
    ensures Private(t) == Private(s)
  {
    forall k
      ensures k in Private(t) <==> k in Private(s)
      ensures k in Private(s) ==> Private(t)[k] == Private(s)[k]
    {
      assert OwnedIn(t.leaves, k) <==> OwnedIn(s.leaves, k);
    }
  }

  lemma SameSharing(a: map<(nat, nat), Pte>, b: map<(nat, nat), Pte>, gone: set<nat>)
    requires forall k :: OwnedIn(b, k) <==> OwnedIn(a, k)
    requires forall k :: OwnedIn(a, k) ==> k in b && b[k] == a[k]
    ensures UnsharedBut(a, gone) ==> UnsharedBut(b, gone)
  {
    if UnsharedBut(a, gone) {
      forall k, l | k in b && l in b && b[k].owned && b[k].writable && b[l].owned && b[k].frame == b[l].frame
        ensures k == l || k.0 in gone
      {
        assert OwnedIn(b, k) && OwnedIn(b, l);
      }
    }
  }

  lemma UnmappedIsInvisible(s: State, t: State, root: nat, lo: nat, hi: nat)
    requires Unmapped(s, t, root, lo, hi) && AllForeign(s.leaves, root, lo, hi)
    ensures Private(t) == Private(s) && forall gone :: UnsharedBut(t.leaves, gone) <==> UnsharedBut(s.leaves, gone)
  {
    hide Private, UnsharedBut;
    forall k
      ensures OwnedIn(t.leaves, k) <==> OwnedIn(s.leaves, k)
      ensures OwnedIn(s.leaves, k) ==> k in t.leaves && t.leaves[k] == s.leaves[k]
    {
    }
    SamePages(s, t);
    forall gone
      ensures UnsharedBut(t.leaves, gone) <==> UnsharedBut(s.leaves, gone)
    {
      SameSharing(s.leaves, t.leaves, gone);
      SameSharing(t.leaves, s.leaves, gone);
    }
  }

  /** The write fault on a foreign page: the space gets a page of its own with what the frame held. */
  ghost predicate Adopted(s: State, t: State, k: (nat, nat), page: nat, contents: Page)
  {
    && k in s.leaves && t.leaves == s.leaves[k := s.leaves[k].(frame := page, writable := true, owned := true, present := true)]
    && page in s.pool && t.data == s.data[page := contents] && t.refs == s.refs[page := 1] && t.pool == s.pool - {page}
    && t.roots == s.roots && t.pos == s.pos
  }

  lemma AdoptKeeps(s: State, f: nat, i: nat, page: nat, contents: Page)
    requires Inv(s) && f in s.tables && s.pos[f].level == 1 && i < 512 && page in s.pool
    requires s.tables[f][i].present && !s.tables[f][i].owned
    ensures page in s.refs && s.refs[page] == 0 && page !in s.data
    ensures var e := s.tables[f][i].(frame := page, writable := true, owned := true, present := true);
            var t := SetLeaf(s, f, i, e).(data := s.data[page := contents], refs := s.refs[page := 1], pool := s.pool - {page});
            Inv(t) && Adopted(s, t, LeafKey(s.pos[f], i), page, contents)
  {
    hide ChildrenPlaced, ParentsExist, FramesAccounted, LeavesAgree;
    LeafAt(s, f, i);
    PoolFrame(s, page);
    ClearEntry(s, f, i);
    var u := SetLeaf(s, f, i, NO_ENTRY);
    var e := s.tables[f][i].(frame := page, writable := true, owned := true, present := true);
    AddLeafKeeps(u, f, i, e, contents);
    hide Inv;
    AdoptedState(s, f, i, e, page, contents);
  }

  lemma AdoptedState(s: State, f: nat, i: nat, e: Pte, page: nat, contents: Page)
    requires f in s.tables && f in s.pos && i < |s.tables[f]| && e.present && e.owned && e.frame == page && page !in s.data
    ensures var u := SetLeaf(s, f, i, NO_ENTRY);
            SetLeaf(AddRef(u, e, contents), f, i, e) == SetLeaf(s, f, i, e).(data := s.data[page := contents], refs := s.refs[page := 1], pool := s.pool - {page})
  {
    assert s.tables[f][i := NO_ENTRY][i := e] == s.tables[f][i := e];
  }

  lemma AdoptIsPrivate(s: State, t: State, k: (nat, nat), page: nat, contents: Page)
    requires Inv(s) && Adopted(s, t, k, page, contents) && !s.leaves[k].owned
    ensures Private(t) == Private(s)[k := contents] && OnlySharer(t, k)
    ensures forall gone :: UnsharedBut(s.leaves, gone) ==> UnsharedBut(t.leaves, gone)
  {
    hide ChildrenPlaced, ParentsExist, LeavesAgree, TablesWellFormed, FramesAccounted;
    PoolFrame(s, page);
    Accounted(s);
    hide Inv;
    AdoptedPages(s, t, k, page, contents);
    forall gone | UnsharedBut(s.leaves, gone)
      ensures UnsharedBut(t.leaves, gone)
    {
      AdoptedSharing(s, t, k, page, contents, gone);
    }
  }

  lemma AdoptedPages(s: State, t: State, k: (nat, nat), page: nat, contents: Page)
    requires Adopted(s, t, k, page, contents) && !s.leaves[k].owned && page !in s.data
    requires forall l :: l in s.leaves && s.leaves[l].owned ==> s.leaves[l].frame in s.data
    ensures Private(t) == Private(s)[k := contents]
  {
    var p := Private(s)[k := contents];
    forall l
      ensures l in Private(t) <==> l in p
      ensures l in p ==> Private(t)[l] == p[l]
    {
    }
  }

  lemma AdoptedSharing(s: State, t: State, k: (nat, nat), page: nat, contents: Page, gone: set<nat>)
    requires Adopted(s, t, k, page, contents) && !s.leaves[k].owned && page !in s.data && UnsharedBut(s.leaves, gone)
    requires forall l :: l in s.leaves && s.leaves[l].owned ==> s.leaves[l].frame in s.data
    ensures UnsharedBut(t.leaves, gone)
  {
  }

  lemma LeafPlace(a: VAddr)
    ensures Prefix(Vpn(a), 1) * 512 + a.pt == Vpn(a)
  {
    Prefixes(a);
  }

  lemma MappedNone(s: State, root: nat, v: nat, frame: nat)
    ensures ForeignMapped(s, s, root, v, 0, frame)
  {
  }

  lemma UnmappedNone(s: State, root: nat, v: nat)
    ensures Unmapped(s, s, root, v, v)
  {
  }

  lemma NoTableThere(s: State, root: nat, a: VAddr)
    requires Inv(s) && root in s.roots && a.pml4 >= USER_SPACE_START_INDEX && Walk(s.tables, root, Vpn(a), 1) < 0
    ensures !TableAt(s, Pos(root, 1, Prefix(Vpn(a), 1)))
  {
    hide LeavesAgree, FramesAccounted, Prefix, Vpn;
    UserAddress(a);
    WalkFindsPosition(s, root, Vpn(a), 1);
  }

  lemma ForeignAt(leaves: map<(nat, nat), Pte>, root: nat, lo: nat, hi: nat, v: nat)
    requires AllForeign(leaves, root, lo, hi) && lo <= v < hi
    ensures (root, v) in leaves ==> !leaves[(root, v)].owned
  {
  }

  // ----- regions of a task

  predicate InRegion(region: (VAddr, nat), v: nat)
  {
    Vpn(region.0) <= v < Vpn(region.0) + region.1
  }

  /** The pages of a region are in the user half, their level-1 tables exist, and none of them is an owned page. */
  ghost predicate RegionIsForeign(s: State, root: nat, region: (VAddr, nat))
  {
    && region.0.pml4 >= USER_SPACE_START_INDEX && Vpn(region.0) + region.1 <= Span(4)
    && AllForeign(s.leaves, root, Vpn(region.0), Vpn(region.0) + region.1)
    && forall v: nat :: InRegion(region, v) ==> TableAt(s, Pos(root, 1, Prefix(v, 1)))
  }

  lemma RegionFacts(s: State, root: nat, region: (VAddr, nat))
    requires RegionIsForeign(s, root, region)
    ensures region.0.pml4 >= USER_SPACE_START_INDEX && Vpn(region.0) + region.1 <= Span(4)
    ensures AllForeign(s.leaves, root, Vpn(region.0), Vpn(region.0) + region.1)
  {
  }

  lemma SameTableAt(s: State, t: State, q: Pos)
    requires s.tables.Keys == s.pos.Keys && t.tables.Keys == t.pos.Keys && t.pos == s.pos
    ensures TableAt(t, q) <==> TableAt(s, q)
  {
  }

  /** Unmapping a region reaches its end. */
  lemma RegionUnmapped(s: State, t: State, root: nat, region: (VAddr, nat), hi: nat)
    requires Inv(s) && Inv(t) && RegionIsForeign(s, root, region) && Unmapped(s, t, root, Vpn(region.0), hi)
    requires hi == Vpn(region.0) + region.1 || (Vpn(region.0) <= hi < Vpn(region.0) + region.1 && !TableAt(t, Pos(root, 1, Prefix(hi, 1))))
    ensures hi == Vpn(region.0) + region.1
    ensures t.roots == s.roots && t.data == s.data && t.refs == s.refs && t.pool == s.pool
    ensures forall v: nat :: InRegion(region, v) ==> (root, v) !in t.leaves
    ensures forall k: (nat, nat) :: k in t.leaves ==> k in s.leaves && t.leaves[k] == s.leaves[k]
    ensures forall k: (nat, nat) :: k in s.leaves && (k.0 != root || !InRegion(region, k.1)) ==> k in t.leaves
  {
    hide ChildrenPlaced, ParentsExist, LeavesAgree, FramesAccounted, Prefix, Vpn, TableAt;
    if hi != Vpn(region.0) + region.1 {
      assert InRegion(region, hi);
      SameTableAt(s, t, Pos(root, 1, Prefix(hi, 1)));
    }
  }

  lemma RegionStays(s: State, t: State, root: nat, region: (VAddr, nat), hi: nat, other: (VAddr, nat))
    requires Inv(s) && Inv(t) && RegionIsForeign(s, root, other) && Unmapped(s, t, root, Vpn(region.0), hi)
    ensures RegionIsForeign(t, root, other)
  {
    hide ChildrenPlaced, ParentsExist, LeavesAgree, FramesAccounted, Prefix, Vpn, TableAt;
    forall v: nat | InRegion(other, v)
      ensures TableAt(t, Pos(root, 1, Prefix(v, 1)))
    {
      SameTableAt(s, t, Pos(root, 1, Prefix(v, 1)));
    }
  }

  lemma SomeForeign(leaves: map<(nat, nat), Pte>, root: nat, lo: nat, mid: nat, hi: nat)
    requires AllForeign(leaves, root, lo, hi) && mid <= hi
    ensures AllForeign(leaves, root, lo, mid)
  {
  }

  lemma PageKey(s: State, t: nat, root: nat, v: nat)
    requires t in s.pos && s.pos[t] == Pos(root, 1, Prefix(v, 1))
    ensures LeafKey(s.pos[t], v % 512) == (root, v)
  {
    assert Prefix(v, 0) == v && Prefix(v, 1) == v / 512;
  }

  lemma StillForeign(s: State, b: State, root: nat, lo: nat, v: nat)
    requires Inv(b) && Unmapped(s, b, root, lo, v) && ((root, v) in s.leaves ==> !s.leaves[(root, v)].owned)
    ensures forall t :: t in b.tables && b.pos[t] == Pos(root, 1, Prefix(v, 1)) ==> !(b.tables[t][v % 512].present && b.tables[t][v % 512].owned)
  {
    hide ChildrenPlaced, ParentsExist, FramesAccounted, LeavesAgree;
    forall t | t in b.tables && b.pos[t] == Pos(root, 1, Prefix(v, 1))
      ensures !(b.tables[t][v % 512].present && b.tables[t][v % 512].owned)
    {
      PageKey(b, t, root, v);
      LeafAt(b, t, v % 512);
    }
  }

  /** After a write to a mapped buffer its page is the space's own, and clearing the entry leaves a page with a count of one
      that nobody maps. */
  lemma ReleasedCopyIsLost(s: State, t: State, k: (nat, nat), page: nat, contents: Page, f: nat)
    requires Inv(s) && Inv(t) && Adopted(s, t, k, page, contents) && f in t.tables && t.pos[f] == Pos(k.0, 1, Prefix(k.1, 1))
    ensures var u := SetLeaf(t, f, k.1 % 512, NO_ENTRY);
            !Inv(u) && page in u.data && page in u.refs && u.refs[page] == 1 && Sharers(u.leaves, page) == {}
  {
    hide ChildrenPlaced, ParentsExist, FramesAccounted, LeavesAgree;
    PageKey(t, f, k.0, k.1);
    LeafAt(t, f, k.1 % 512);
    ClearEntry(t, f, k.1 % 512);
    PoolFrame(s, page);
    Accounted(s);
    hide Inv, TablesWellFormed;
    NobodyMaps(s, t, k, page, contents);
  }

  lemma NobodyMaps(s: State, t: State, k: (nat, nat), page: nat, contents: Page)
    requires Adopted(s, t, k, page, contents) && page !in s.data
    requires forall l :: l in s.leaves && s.leaves[l].owned ==> s.leaves[l].frame in s.data
    ensures Sharers(t.leaves - {k}, page) == {}
  {
  }
}
