/** What the operations of kernel/memory/paging.cpp do to a whole memory state, as relations between states. */
module PagingEffects {
  import opened Common
  import opened PageTables
  import opened PageTableEdits

  // ----- what mapping a range does

  /** A leaf that maps a newly allocated, zeroed page. */
  ghost predicate FreshLeaf(s: State, t: State, e: Pte, w: bool)
  {
    && e.present && e.user && e.owned && e.writable == w
    && e.frame in s.pool
    && e.frame in t.data && t.data[e.frame] == ZeroPage()
    && e.frame in t.refs && t.refs[e.frame] == 1
  }

  /** Pages [lo, hi) of a space are mapped with the requested writability: pages that were present keep their frame,
      the others get fresh zeroed pages; every other translation and every other page is as before. */
  ghost predicate Mapped(s: State, t: State, root: nat, lo: nat, hi: nat, w: bool)
  {
    && t.roots == s.roots && t.pool <= s.pool && t.refs.Keys == s.refs.Keys
    && (forall f :: f in s.tables && f in s.pos ==> f in t.tables && f in t.pos && t.pos[f] == s.pos[f])
    && (forall d :: d in s.data && d in s.refs ==> d in t.data && d in t.refs && t.data[d] == s.data[d] && t.refs[d] == s.refs[d])
    && (forall k :: k in s.leaves && !InRange(k, root, lo, hi) ==> k in t.leaves && t.leaves[k] == s.leaves[k])
    && (forall k :: k in t.leaves && !InRange(k, root, lo, hi) ==> k in s.leaves)
    && (forall k :: InRange(k, root, lo, hi) ==>
          && k in t.leaves
          && (if k in s.leaves then t.leaves[k] == s.leaves[k].(writable := w) else FreshLeaf(s, t, t.leaves[k], w)))
  }

  predicate InRange(k: (nat, nat), root: nat, lo: nat, hi: nat)
  {
    k.0 == root && lo <= k.1 < hi
  }

  lemma MappedNothing(s: State, root: nat, v: nat, w: bool)
    ensures Mapped(s, s, root, v, v, w)
  {
  }

  lemma MappedTrans(s: State, t: State, u: State, root: nat, lo: nat, mid: nat, hi: nat, w: bool)
    requires Mapped(s, t, root, lo, mid, w) && Mapped(t, u, root, mid, hi, w) && lo <= mid <= hi
    requires s.refs.Keys >= s.data.Keys && t.refs.Keys >= t.data.Keys && t.tables.Keys == t.pos.Keys
    ensures Mapped(s, u, root, lo, hi, w)
  {
    forall k: (nat, nat) | InRange(k, root, lo, hi)
      ensures k in u.leaves
      ensures if k in s.leaves then u.leaves[k] == s.leaves[k].(writable := w) else FreshLeaf(s, u, u.leaves[k], w)
    {
      if k.1 < mid {
        assert InRange(k, root, lo, mid) && !InRange(k, root, mid, hi);
      } else {
        assert InRange(k, root, mid, hi) && !InRange(k, root, lo, mid);
      }
    }
  }

  lemma PartAtRoot(a: VAddr)
    ensures Part(a, 4) == a.pml4
  {
  }

  lemma PrefixZero(v: nat)
    ensures Prefix(v, 0) == v && Span(0) == 1
  {
  }

  lemma MappedOn(s: State, t: State, u: State, root: nat, lo: nat, mid: nat, hi: nat, w: bool)
    requires Inv(s) && Inv(t) && lo <= mid <= hi
    requires Mapped(s, t, root, lo, mid, w) && Mapped(t, u, root, mid, hi, w)
    ensures Mapped(s, u, root, lo, hi, w)
  {
    hide ChildrenPlaced, ParentsExist, LeavesAgree, Mapped;
    MappedTrans(s, t, u, root, lo, mid, hi, w);
  }

  lemma MappedKeepsTable(s: State, t: State, root: nat, lo: nat, hi: nat, w: bool, f: nat)
    requires Mapped(s, t, root, lo, hi, w) && f in s.tables && f in s.pos
    ensures f in t.tables && f in t.pos && t.pos[f] == s.pos[f]
  {
  }

  lemma MappedFlag(s: State, f: nat, i: nat, w: bool)
    requires Inv(s) && f in s.tables && s.pos[f].level == 1 && i < 512 && s.tables[f][i].present
    ensures var t := SetLeaf(s, f, i, s.tables[f][i].(writable := w));
            Inv(t) && Mapped(s, t, s.pos[f].root, s.pos[f].prefix * 512 + i, s.pos[f].prefix * 512 + i + 1, w)
  {
    hide ChildrenPlaced, ParentsExist, FramesAccounted, LeavesAgree;
    LeafAt(s, f, i);
    FlagLeafKeeps(s, f, i, s.tables[f][i].(writable := w));
    hide TablesWellFormed;
    FlagIsMapped(s, SetLeaf(s, f, i, s.tables[f][i].(writable := w)), LeafKey(s.pos[f], i), w);
  }

  lemma FlagIsMapped(s: State, t: State, k: (nat, nat), w: bool)
    requires k in s.leaves && t.leaves == s.leaves[k := s.leaves[k].(writable := w)]
    requires t.tables.Keys == s.tables.Keys && t.pos == s.pos && t.roots == s.roots && t.pool == s.pool && t.refs == s.refs && t.data == s.data
    ensures Mapped(s, t, k.0, k.1, k.1 + 1, w)
  {
  }

  lemma LeafAt(s: State, f: nat, i: nat)
    requires TablesWellFormed(s) && LeavesAgree(s) && f in s.tables && s.pos[f].level == 1 && i < 512
    ensures s.tables[f][i].present <==> LeafKey(s.pos[f], i) in s.leaves
    ensures s.tables[f][i].present ==> s.leaves[LeafKey(s.pos[f], i)] == s.tables[f][i] && s.tables[f][i].user
  {
  }

  lemma PoolFrame(s: State, p: nat)
    requires FramesAccounted(s) && p in s.pool
    ensures p !in s.data && p !in s.tables && p in s.refs && s.refs[p] == 0
  {
  }

  lemma MappedFresh(s: State, f: nat, i: nat, e: Pte)
    requires Inv(s) && f in s.tables && s.pos[f].level == 1 && i < 512 && !s.tables[f][i].present
    requires e.present && e.user && e.owned && e.frame in s.pool
    ensures e.frame !in s.data && e.frame in s.refs && s.refs[e.frame] == 0
    ensures var t := SetLeaf(AddRef(s, e, ZeroPage()), f, i, e);
            Inv(t) && Mapped(s, t, s.pos[f].root, s.pos[f].prefix * 512 + i, s.pos[f].prefix * 512 + i + 1, e.writable)
  {
    hide ChildrenPlaced, ParentsExist, FramesAccounted, LeavesAgree, Mapped;
    AddLeafKeeps(s, f, i, e, ZeroPage());
    LeafAt(s, f, i);
    PoolFrame(s, e.frame);
    FreshIsMapped(s, SetLeaf(AddRef(s, e, ZeroPage()), f, i, e), LeafKey(s.pos[f], i), e);
  }

  lemma FreshIsMapped(s: State, t: State, k: (nat, nat), e: Pte)
    requires e.present && e.user && e.owned && e.frame in s.pool && e.frame in s.refs && e.frame !in s.data && k !in s.leaves
    requires t.tables.Keys == s.tables.Keys && t.pos == s.pos && t.roots == s.roots && t.leaves == s.leaves[k := e]
    requires t.data == s.data[e.frame := ZeroPage()] && t.refs == s.refs[e.frame := 1] && t.pool == s.pool - {e.frame}
    ensures Mapped(s, t, k.0, k.1, k.1 + 1, e.writable)
  {
  }

  /** Setting flags of an entry above level 1 maps nothing, and the entry still leads to the child's position. */
  lemma FlagTable(s: State, f: nat, i: nat, e: Pte, v: nat, w: bool)
    requires Inv(s) && f in s.tables && s.pos[f].level > 1 && UserSlot(s.pos[f].level, i) && s.tables[f][i].present
    requires e == s.tables[f][i].(writable := true)
    ensures e.frame in s.tables && s.pos[e.frame] == ChildPos(s.pos[f], i)
    ensures var t := s.(tables := PutEntry(s.tables, f, i, e));
            Inv(t) && Mapped(s, t, s.pos[f].root, v, v, w) && e.frame in t.tables
  {
    hide LeavesAgree, ParentsExist, FramesAccounted, Mapped;
    FlagEditKeeps(s, f, i, e);
    TableIsMapped(s, s.(tables := PutEntry(s.tables, f, i, e)), s.pos[f].root, v, w);
  }

  lemma MappedTable(s: State, f: nat, i: nat, e: Pte, v: nat, w: bool)
    requires Inv(s) && f in s.tables && s.pos[f].level > 1 && UserSlot(s.pos[f].level, i)
    requires !s.tables[f][i].present && e.present && e.user && e.writable && e.frame in s.pool
    ensures e.frame !in s.tables && f != e.frame
    ensures var t := AddTable(s, f, i, e); Inv(t) && Mapped(s, t, s.pos[f].root, v, v, w)
  {
    hide ChildrenPlaced, ParentsExist, LeavesAgree, FramesAccounted, Mapped;
    AddTableKeeps(s, f, i, e);
    PoolFrame(s, e.frame);
    TableIsMapped(s, AddTable(s, f, i, e), s.pos[f].root, v, w);
  }

  lemma TableIsMapped(s: State, t: State, root: nat, v: nat, w: bool)
    requires t.roots == s.roots && t.pool <= s.pool && t.refs == s.refs && t.data == s.data && t.leaves == s.leaves
    requires forall f :: f in s.tables && f in s.pos ==> f in t.tables && f in t.pos && t.pos[f] == s.pos[f]
    ensures Mapped(s, t, root, v, v, w)
  {
  }

  // ----- copy on write

  lemma UserAddress(a: VAddr)
    requires a.pml4 >= USER_SPACE_START_INDEX
    ensures UserPage(Vpn(a))
  {
    Prefixes(a);
  }

  lemma {:induction false} WalkStops(tables: map<nat, Table>, root: nat, v: nat, level: nat, i: nat)
    requires 1 <= level <= i <= 4 && Walk(tables, root, v, i) == -1
    ensures Walk(tables, root, v, level) == -1
    decreases i - level
  {
    if level < i {
      WalkStops(tables, root, v, level, i - 1);
    }
  }

  lemma LeafFound(s: State, root: nat, addr: VAddr, t: int)
    requires Inv(s) && root in s.roots && addr.pml4 >= USER_SPACE_START_INDEX && (root, Vpn(addr)) in s.leaves
    requires t == Walk(s.tables, root, Vpn(addr), 1)
    ensures t >= 0 && t in s.tables && |s.tables[t]| == 512 && s.pos[t] == Pos(root, 1, Prefix(Vpn(addr), 1))
    ensures s.tables[t][Part(addr, 1)] == s.leaves[(root, Vpn(addr))]
    ensures s.tables[t][Part(addr, 1)].present && LeafKey(s.pos[t], Part(addr, 1)) == (root, Vpn(addr))
  {
    hide Prefix, Vpn;
    UserAddress(addr);
    PartIsSlot(addr, 1);
    PrefixZero(Vpn(addr));
    hide ChildrenPlaced, ParentsExist, FramesAccounted, LeavesAgree;
    WalkFindsPosition(s, root, Vpn(addr), 1);
    LeavesAreTranslation(s, root, Vpn(addr), s.leaves[(root, Vpn(addr))]);
  }

  /** The contents every space sees: the bytes of its owned pages. */
  ghost function Private(s: State): map<(nat, nat), Page>
  {
    map k | k in s.leaves && s.leaves[k].owned && s.leaves[k].frame in s.data :: s.data[s.leaves[k].frame]
  }

  /** Only leaf k changes: it is now a writable owned page of its own; no space sees different contents. */
  ghost predicate CopiedOnWrite(s: State, t: State, k: (nat, nat))
  {
    && k in s.leaves && k in t.leaves && t.leaves == s.leaves[k := t.leaves[k]]
    && s.leaves[k].present && s.leaves[k].owned && t.leaves[k] == s.leaves[k].(frame := t.leaves[k].frame, writable := true)
    && t.leaves[k].frame in s.pool && t.leaves[k].frame in t.refs && t.refs[t.leaves[k].frame] == 1
    && t.roots == s.roots && t.refs.Keys == s.refs.Keys
    && (forall d :: d in s.data && d in s.refs && d != s.leaves[k].frame ==> d in t.refs && t.refs[d] == s.refs[d])
    && (s.leaves[k].frame in s.refs && s.leaves[k].frame in t.refs ==> t.refs[s.leaves[k].frame] == if s.refs[s.leaves[k].frame] > 0 then s.refs[s.leaves[k].frame] - 1 else 0)
    && Private(t) == Private(s)
  }

  function CowEntry(s: State, t: nat, i: nat, page: nat): Pte
    requires t in s.tables && i < |s.tables[t]|
  {
    s.tables[t][i].(frame := page, writable := true, owned := true, present := true)
  }

  /** Clearing the old leaf and installing the copy, as one state change. */
  ghost function CowResult(s: State, t: nat, i: nat, page: nat): State
    requires t in s.tables && i < |s.tables[t]| && t in s.pos
    requires s.tables[t][i].owned ==> s.tables[t][i].frame in s.refs && s.tables[t][i].frame in s.data
    requires page !in s.data && page in s.refs
  {
    var u := DropRef(SetLeaf(s, t, i, NO_ENTRY), s.tables[t][i]);
    SetLeaf(AddRef(u, CowEntry(s, t, i, page), if s.tables[t][i].owned then s.data[s.tables[t][i].frame] else ZeroPage()),
            t, i, CowEntry(s, t, i, page))
  }

  /** A leaf's page: accounted for, and nobody else's when its count is one. */
  lemma LeafFrame(s: State, k: (nat, nat))
    requires FramesAccounted(s) && k in s.leaves && s.leaves[k].owned
    ensures s.leaves[k].frame in s.data && s.leaves[k].frame in s.refs && s.refs[s.leaves[k].frame] > 0
    ensures s.refs[s.leaves[k].frame] == 1 ==> OnlySharer(s, k)
  {
    var d := s.leaves[k].frame;
    if s.refs[d] == 1 {
      forall l | l in s.leaves && s.leaves[l].owned && s.leaves[l].frame == d
        ensures l == k
      {
        assert {k, l} <= Sharers(s.leaves, d);
        if l != k {
          SubsetSize({k, l}, Sharers(s.leaves, d));
        }
      }
    }
  }

  lemma InvAccounts(s: State)
    requires Inv(s)
    ensures FramesAccounted(s)
  {
    hide ChildrenPlaced, ParentsExist, LeavesAgree, TablesWellFormed, FramesAccounted;
  }

  ghost predicate OnlySharer(s: State, k: (nat, nat))
    requires k in s.leaves
  {
    forall l :: l in s.leaves && s.leaves[l].owned && s.leaves[l].frame == s.leaves[k].frame ==> l == k
  }

  lemma CowState(s: State, t: nat, i: nat, page: nat)
    requires Inv(s) && t in s.tables && s.pos[t].level == 1 && i < 512
    requires s.tables[t][i].present && s.tables[t][i].owned && page in s.pool
    ensures s.tables[t][i].frame in s.data && s.tables[t][i].frame in s.refs && s.refs[s.tables[t][i].frame] > 0
    ensures page !in s.data && page in s.refs && s.refs[page] == 0 && page != s.tables[t][i].frame
    ensures Inv(CowResult(s, t, i, page)) && CopiedOnWrite(s, CowResult(s, t, i, page), LeafKey(s.pos[t], i))
  {
    hide Inv, CopiedOnWrite;
    TableShape(s, t);
    var e, k := s.tables[t][i], LeafKey(s.pos[t], i);
    PoolShape(s, page);
    LeafOf(s, t, i);
    assert FramesAccounted(s) by { InvAccounts(s); }
    LeafFrame(s, k);
    RemoveLeafKeeps(s, t, i);
    var u := DropRef(SetLeaf(s, t, i, NO_ENTRY), e);
    AddLeafKeeps(u, t, i, CowEntry(s, t, i, page), s.data[e.frame]);
    hide FramesAccounted;
    Accounted(s);
    CowKeepsContents(s, CowResult(s, t, i, page), k, CowEntry(s, t, i, page));
  }

  /** The same state change in the order the handler makes it. */
  lemma CowFields(s: State, t: nat, i: nat, page: nat)
    requires t in s.tables && i < |s.tables[t]| && t in s.pos && s.tables[t][i].owned
    requires s.tables[t][i].frame in s.refs && s.tables[t][i].frame in s.data && s.refs[s.tables[t][i].frame] > 0
    requires page !in s.data && page in s.refs && page != s.tables[t][i].frame
    ensures var d, r := s.tables[t][i].frame, CowResult(s, t, i, page);
            && r.tables == PutEntry(s.tables, t, i, CowEntry(s, t, i, page))
            && r.leaves == s.leaves[LeafKey(s.pos[t], i) := CowEntry(s, t, i, page)]
            && r.refs == s.refs[page := 1][d := s.refs[d] - 1]
            && r.data == (if s.refs[d] > 1 then s.data[page := s.data[d]] else s.data[page := s.data[d]] - {d})
            && r.pool == (if s.refs[d] > 1 then s.pool - {page} else s.pool - {page} + {d})
            && r.pos == s.pos && r.roots == s.roots && r.kernel == s.kernel
  {
    var e := CowEntry(s, t, i, page);
    assert s.tables[t][i := NO_ENTRY][i := e] == s.tables[t][i := e];
  }

  lemma CowKeepsContents(s: State, t: State, k: (nat, nat), e: Pte)
    requires k in s.leaves && s.leaves[k].present && s.leaves[k].owned && e == s.leaves[k].(frame := e.frame, writable := true)
    requires e.frame in s.pool && e.frame !in s.data && e.frame in s.refs
    requires s.leaves[k].frame in s.data && s.leaves[k].frame in s.refs && s.refs[s.leaves[k].frame] > 0
    requires s.refs[s.leaves[k].frame] == 1 ==> OnlySharer(s, k)
    requires forall l :: l in s.leaves && s.leaves[l].owned ==> s.leaves[l].frame in s.data
    requires t.leaves == s.leaves[k := e] && t.roots == s.roots
    requires var d := s.leaves[k].frame;
             && t.refs == s.refs[d := s.refs[d] - 1][e.frame := 1]
             && t.data == (if s.refs[d] > 1 then s.data else s.data - {d})[e.frame := s.data[d]]
    ensures CopiedOnWrite(s, t, k)
  {
    var p, q := Private(s), Private(t);
    assert p.Keys == q.Keys;
    forall l | l in p.Keys
      ensures p[l] == q[l]
    {
    }
  }

  // ----- copying one space's tables into another

  ghost predicate TableAt(s: State, q: Pos)
  {
    exists g :: g in s.tables && g in s.pos && s.pos[g] == q
  }

  /** Tables of space rs that space rd has no copy of yet. */
  ghost function Uncopied(s: State, rs: nat, rd: nat): set<nat>
  {
    set f | f in s.tables && f in s.pos && s.pos[f].root == rs && !TableAt(s, s.pos[f].(root := rd))
  }

  /** Page v lies below slots [0, upTo) of the table serving `prefix` at `level`. */
  predicate Below(v: nat, level: nat, prefix: nat, upTo: nat)
    requires level >= 1
  {
    Prefix(v, level) == prefix && SlotOf(v, level) < upTo
  }

  /** No page goes and no table of another space than rd changes. */
  ghost predicate CopiedTables(s: State, t: State, rd: nat)
  {
    && t.roots == s.roots && t.data == s.data && t.refs.Keys == s.refs.Keys && t.pool <= s.pool
    && (forall f :: f in s.tables && f in s.pos ==> f in t.tables && f in t.pos && t.pos[f] == s.pos[f])
    && (forall f :: f in s.tables && f in s.pos && s.pos[f].root != rd ==> f in t.tables && t.tables[f] == s.tables[f])
    && (forall f :: f in t.tables && f in t.pos && t.pos[f].root != rd ==> f in s.tables)
  }

  /** Space rd now translates the pages below slots [0, upTo) as rs does, with the given writability and sharing the
      pages; nothing else changes. */
  ghost predicate CopiedSlots(s: State, t: State, rs: nat, rd: nat, level: nat, prefix: nat, upTo: nat, w: bool)
    requires level >= 1
  {
    && CopiedTables(s, t, rd)
    && (forall k: (nat, nat) :: !(k.0 == rd && Below(k.1, level, prefix, upTo)) ==>
          (k in t.leaves <==> k in s.leaves) && (k in s.leaves ==> t.leaves[k] == s.leaves[k]))
    && (forall k: (nat, nat) :: k.0 == rd && Below(k.1, level, prefix, upTo) ==>
          (k in t.leaves <==> (rs, k.1) in s.leaves) && (k in t.leaves ==> t.leaves[k] == s.leaves[(rs, k.1)].(writable := w)))
  }

  /** Below a present leaf every table on the path exists and its slot is present. */
  lemma {:induction false} LeafPath(s: State, k: (nat, nat), level: nat) returns (f: nat)
    requires TablesWellFormed(s) && ParentsExist(s) && LeavesAgree(s) && k in s.leaves && 1 <= level <= 4
    ensures f in s.tables && s.pos[f] == Pos(k.0, level, Prefix(k.1, level)) && s.tables[f][SlotOf(k.1, level)].present
    ensures UserSlot(level, SlotOf(k.1, level))
  {
    if level == 1 {
      hide ParentsExist;
      assert HasLeafTable(s, k);
      f :| LeafTable(s, k, f);
      LeafPresent(s, k, f);
      assert Prefix(k.1, 0) == k.1 && Prefix(k.1, 1) == k.1 / 512;
    } else {
      hide LeavesAgree, Prefix;
      var c := LeafPath(s, k, level - 1);
      assert HasParent(s, c);
      var i: nat;
      f, i :| PointsTo(s, f, i, c);
      PrefixStep(k.1, level - 1);
      SplitUnique(s.pos[f].prefix, i, Prefix(k.1, level), SlotOf(k.1, level));
    }
  }

  lemma EmptySlotNoLeaves(s: State, f: nat, i: nat, k: (nat, nat))
    requires TablesWellFormed(s) && ParentsExist(s) && LeavesAgree(s)
    requires f in s.tables && i < 512 && !s.tables[f][i].present
    requires k.0 == s.pos[f].root && Prefix(k.1, s.pos[f].level) == s.pos[f].prefix && SlotOf(k.1, s.pos[f].level) == i
    ensures k !in s.leaves
  {
    hide Prefix, ParentsExist, LeavesAgree;
    if k in s.leaves {
      var g := LeafPath(s, k, s.pos[f].level);
      PositionsUnique(s, f, g);
    }
  }

  /** A slot absent in the source: going past it copies nothing, rightly. */
  lemma CopiedSkip(s: State, t: State, src: nat, dst: nat, i: nat, w: bool)
    requires Inv(s) && Inv(t) && src in s.tables && dst in s.tables && dst in t.tables && i < 512
    requires var rs, rd, level, prefix := s.pos[src].root, s.pos[dst].root, s.pos[src].level, s.pos[src].prefix;
             && t.pos[dst] == s.pos[dst] == Pos(rd, level, prefix)
             && CopiedSlots(s, t, rs, rd, level, prefix, i, w)
    requires !s.tables[src][i].present && !t.tables[dst][i].present
    ensures CopiedSlots(s, t, s.pos[src].root, s.pos[dst].root, s.pos[src].level, s.pos[src].prefix, i + 1, w)
  {
    hide ChildrenPlaced, ParentsExist, LeavesAgree, FramesAccounted, Prefix;
    var rs, rd, level, prefix := s.pos[src].root, s.pos[dst].root, s.pos[src].level, s.pos[src].prefix;
    forall k: (nat, nat) | k.0 == rd && Prefix(k.1, level) == prefix && SlotOf(k.1, level) == i
      ensures k !in t.leaves && (rs, k.1) !in s.leaves
    {
      EmptySlotNoLeaves(t, dst, i, k);
      EmptySlotNoLeaves(s, src, i, (rs, k.1));
    }
  }

  /** One level-1 slot: the leaf is copied with its writability replaced, and a shared page gains a reference. */
  lemma CopyLeafStep(s: State, t: State, src: nat, dst: nat, i: nat, w: bool)
    requires Inv(s) && Inv(t) && src in s.tables && dst in s.tables && dst in t.tables && src in t.tables && i < 512
    requires s.pos[src].root != s.pos[dst].root && s.pos[src].level == 1
    requires t.pos[dst] == s.pos[dst] == Pos(s.pos[dst].root, 1, s.pos[src].prefix)
    requires CopiedSlots(s, t, s.pos[src].root, s.pos[dst].root, 1, s.pos[src].prefix, i, w)
    requires s.tables[src][i].present && !t.tables[dst][i].present
    ensures s.tables[src][i].owned ==> s.tables[src][i].frame in t.data && s.tables[src][i].frame in t.refs
    ensures var e := s.tables[src][i].(writable := w);
            var u := SetLeaf(AddRef(t, e, ZeroPage()), dst, i, e);
            && Inv(u)
            && CopiedSlots(s, u, s.pos[src].root, s.pos[dst].root, 1, s.pos[src].prefix, i + 1, w)
  {
    hide Inv, CopiedSlots;
    TableShape(s, src);
    TableShape(s, dst);
    TableShape(t, dst);
    var e := s.tables[src][i].(writable := w);
    var rs, rd, prefix := s.pos[src].root, s.pos[dst].root, s.pos[src].prefix;
    LeafOf(s, src, i);
    CopiedMemory(s, t, rs, rd, 1, prefix, i, w);
    AddLeafKeeps(t, dst, i, e, ZeroPage());
    var u := SetLeaf(AddRef(t, e, ZeroPage()), dst, i, e);
    CopiedOneLeaf(s, t, u, rs, rd, prefix, i, e, dst, w);
  }

  /** A present level-1 entry is the leaf of its page; an owned one names a data page. */
  lemma LeafOf(s: State, f: nat, i: nat)
    requires Inv(s) && f in s.tables && s.pos[f].level == 1 && i < 512 && s.tables[f][i].present
    ensures LeafKey(s.pos[f], i) in s.leaves && s.leaves[LeafKey(s.pos[f], i)] == s.tables[f][i] && s.tables[f][i].user
    ensures s.tables[f][i].owned ==> s.tables[f][i].frame in s.data && s.tables[f][i].frame in s.refs
  {
    hide ChildrenPlaced, ParentsExist, LeavesAgree, FramesAccounted;
    LeafAt(s, f, i);
    Accounted(s);
  }

  lemma CopiedMemory(s: State, t: State, rs: nat, rd: nat, level: nat, prefix: nat, i: nat, w: bool)
    requires level >= 1 && CopiedSlots(s, t, rs, rd, level, prefix, i, w)
    ensures t.data == s.data && t.refs.Keys == s.refs.Keys
  {
  }

  lemma CopiedOneLeaf(s: State, t: State, u: State, rs: nat, rd: nat, prefix: nat, i: nat, e: Pte, dst: nat, w: bool)
    requires CopiedSlots(s, t, rs, rd, 1, prefix, i, w) && i < 512
    requires u.roots == t.roots && u.data == t.data && u.refs.Keys == t.refs.Keys && u.pool == t.pool && u.pos == t.pos
    requires dst in t.tables && dst in t.pos && t.pos[dst].root == rd && (dst in s.tables ==> dst in s.pos && s.pos[dst].root == rd)
    requires u.tables.Keys == t.tables.Keys && forall f :: f in t.tables && f != dst ==> u.tables[f] == t.tables[f]
    requires u.leaves == t.leaves[(rd, prefix * 512 + i) := e]
    requires (rs, prefix * 512 + i) in s.leaves && e == s.leaves[(rs, prefix * 512 + i)].(writable := w)
    ensures CopiedSlots(s, u, rs, rd, 1, prefix, i + 1, w)
  {
    OneMorePage(prefix, i);
    hide Prefix, Below;
    CopiedOneLeafOnly(s, t, u, rs, rd, prefix, i, e, w);
  }

  lemma OneMorePage(prefix: nat, i: nat)
    requires i < 512
    ensures forall v: nat :: Below(v, 1, prefix, i + 1) <==> Below(v, 1, prefix, i) || v == prefix * 512 + i
    ensures !Below(prefix * 512 + i, 1, prefix, i)
  {
    forall v: nat
      ensures Below(v, 1, prefix, i + 1) <==> Below(v, 1, prefix, i) || v == prefix * 512 + i
    {
      assert Prefix(v, 0) == v && Prefix(v, 1) == v / 512;
    }
    assert Prefix(prefix * 512 + i, 0) == prefix * 512 + i;
  }

  lemma CopiedOneLeafOnly(s: State, t: State, u: State, rs: nat, rd: nat, prefix: nat, i: nat, e: Pte, w: bool)
    requires CopiedSlots(s, t, rs, rd, 1, prefix, i, w) && i < 512
    requires u.leaves == t.leaves[(rd, prefix * 512 + i) := e]
    requires (rs, prefix * 512 + i) in s.leaves && e == s.leaves[(rs, prefix * 512 + i)].(writable := w)
    requires forall v: nat :: Below(v, 1, prefix, i + 1) <==> Below(v, 1, prefix, i) || v == prefix * 512 + i
    ensures forall k: (nat, nat) :: !(k.0 == rd && Below(k.1, 1, prefix, i + 1)) ==>
              (k in u.leaves <==> k in s.leaves) && (k in s.leaves ==> u.leaves[k] == s.leaves[k])
    ensures forall k: (nat, nat) :: k.0 == rd && Below(k.1, 1, prefix, i + 1) ==>
              (k in u.leaves <==> (rs, k.1) in s.leaves) && (k in u.leaves ==> u.leaves[k] == s.leaves[(rs, k.1)].(writable := w))
  {
    hide Prefix, Below;
  }

  /** At the start of a copy the destination holds nothing below the table's user slots. */
  lemma CopiedStart(s: State, src: nat, dst: nat, level: nat, start: nat, w: bool)
    requires Inv(s) && src in s.tables && dst in s.tables && s.pos[src].level == level
    requires s.pos[dst] == Pos(s.pos[dst].root, level, s.pos[src].prefix)
    requires start == if level == 4 then USER_SPACE_START_INDEX else 0
    ensures CopiedSlots(s, s, s.pos[src].root, s.pos[dst].root, level, s.pos[src].prefix, start, w)
  {
    hide ChildrenPlaced, ParentsExist, LeavesAgree, FramesAccounted, Prefix;
    forall k: (nat, nat) | Below(k.1, level, s.pos[src].prefix, start)
      ensures k !in s.leaves
    {
      if k in s.leaves {
        var f := LeafPath(s, k, level);
      }
    }
  }

  lemma CopiedThroughChild(s: State, t: State, t1: State, t2: State, rs: nat, rd: nat, level: nat, prefix: nat, i: nat,
                           w: bool)
    requires level >= 2 && rs != rd && i < 512
    requires CopiedSlots(s, t, rs, rd, level, prefix, i, w)
    requires t1.roots == t.roots && t1.data == t.data && t1.refs == t.refs && t1.pool <= t.pool && t1.leaves == t.leaves
    requires forall f :: f in t.tables && f in t.pos ==> f in t1.tables && f in t1.pos && t1.pos[f] == t.pos[f]
    requires forall f :: f in t.tables && f in t.pos && t.pos[f].root != rd ==> t1.tables[f] == t.tables[f]
    requires forall f :: f in t1.tables && f in t1.pos && t1.pos[f].root != rd ==> f in t.tables && f in t.pos
    requires CopiedSlots(t1, t2, rs, rd, level - 1, prefix * 512 + i, 512, w)
    requires s.tables.Keys == s.pos.Keys && t.tables.Keys == t.pos.Keys && t1.tables.Keys == t1.pos.Keys
    requires forall f :: f in t1.tables && f in t1.pos && f in t2.pos ==> t2.pos[f] == t1.pos[f]
    ensures CopiedSlots(s, t2, rs, rd, level, prefix, i + 1, w)
  {
    forall v: nat
      ensures Below(v, level, prefix, i + 1) <==> Below(v, level, prefix, i) || Below(v, level - 1, prefix * 512 + i, 512)
      ensures !(Below(v, level, prefix, i) && Below(v, level - 1, prefix * 512 + i, 512))
    {
      PrefixStep(v, level - 1);
      if Prefix(v, level - 1) == prefix * 512 + i {
        SplitUnique(Prefix(v, level), SlotOf(v, level), prefix, i);
      }
    }
    CopiedThroughTables(s, t, t1, t2, rd);
    hide Prefix, Below, CopiedTables;
    CopiedThroughLeaves(s, t, t1, t2, rs, rd, level, prefix, i, w);
  }

  lemma CopiedThroughTables(s: State, t: State, t1: State, t2: State, rd: nat)
    requires CopiedTables(s, t, rd) && CopiedTables(t1, t2, rd)
    requires t1.roots == t.roots && t1.data == t.data && t1.refs == t.refs && t1.pool <= t.pool
    requires forall f :: f in t.tables && f in t.pos ==> f in t1.tables && f in t1.pos && t1.pos[f] == t.pos[f]
    requires forall f :: f in t.tables && f in t.pos && t.pos[f].root != rd ==> t1.tables[f] == t.tables[f]
    requires forall f :: f in t1.tables && f in t1.pos && t1.pos[f].root != rd ==> f in t.tables && f in t.pos
    requires s.tables.Keys == s.pos.Keys && t.tables.Keys == t.pos.Keys && t1.tables.Keys == t1.pos.Keys
    requires forall f :: f in t1.tables && f in t1.pos && f in t2.pos ==> t2.pos[f] == t1.pos[f]
    ensures CopiedTables(s, t2, rd)
  {
  }

  lemma CopiedThroughLeaves(s: State, t: State, t1: State, t2: State, rs: nat, rd: nat, level: nat, prefix: nat,
                            i: nat, w: bool)
    requires level >= 2 && rs != rd && i < 512 && t1.leaves == t.leaves
    requires CopiedSlots(s, t, rs, rd, level, prefix, i, w) && CopiedSlots(t1, t2, rs, rd, level - 1, prefix * 512 + i, 512, w)
    requires forall v: nat :: Below(v, level, prefix, i + 1) <==> Below(v, level, prefix, i) || Below(v, level - 1, prefix * 512 + i, 512)
    requires forall v: nat :: !(Below(v, level, prefix, i) && Below(v, level - 1, prefix * 512 + i, 512))
    ensures forall k: (nat, nat) :: !(k.0 == rd && Below(k.1, level, prefix, i + 1)) ==>
              (k in t2.leaves <==> k in s.leaves) && (k in s.leaves ==> t2.leaves[k] == s.leaves[k])
    ensures forall k: (nat, nat) :: k.0 == rd && Below(k.1, level, prefix, i + 1) ==>
              (k in t2.leaves <==> (rs, k.1) in s.leaves) && (k in t2.leaves ==> t2.leaves[k] == s.leaves[(rs, k.1)].(writable := w))
  {
    hide Prefix, Below;
    forall k: (nat, nat) | k.0 == rd && Below(k.1, level, prefix, i + 1)
      ensures (k in t2.leaves <==> (rs, k.1) in s.leaves) && (k in t2.leaves ==> t2.leaves[k] == s.leaves[(rs, k.1)].(writable := w))
    {
      assert (rs, k.1) in t.leaves <==> (rs, k.1) in s.leaves;
    }
  }

  /** Making the copy's table for the next child uses up one uncopied table. */
  lemma UncopiedStep(t: State, src: nat, dst: nat, i: nat, e: Pte)
    requires TablesWellFormed(t) && ChildrenPlaced(t) && ParentsExist(t)
    requires src in t.tables && dst in t.tables && t.pos[src].root != t.pos[dst].root
    requires t.pos[src].level > 1 && t.pos[dst] == t.pos[src].(root := t.pos[dst].root)
    requires UserSlot(t.pos[src].level, i) && t.tables[src][i].present && !t.tables[dst][i].present
    requires e.frame !in t.tables
    ensures |Uncopied(AddTable(t, dst, i, e), t.pos[src].root, t.pos[dst].root)| + 1 == |Uncopied(t, t.pos[src].root, t.pos[dst].root)|
  {
    hide ParentsExist;
    var rs, rd, c := t.pos[src].root, t.pos[dst].root, t.tables[src][i].frame;
    var u := AddTable(t, dst, i, e);
    NoTableWithoutEntry(t, dst, i);
    var before, after := Uncopied(t, rs, rd), Uncopied(u, rs, rd);
    assert t.pos[c].(root := rd) == ChildPos(t.pos[dst], i);
    assert c in before;
    forall f
      ensures f in after <==> f in before && f != c
    {
      UncopiedMember(t, u, rs, rd, c, e.frame, f);
    }
    assert after == before - {c};
  }

  lemma UncopiedMember(t: State, u: State, rs: nat, rd: nat, c: nat, page: nat, f: nat)
    requires TablesWellFormed(t) && ParentsExist(t) && c in t.tables && page !in t.tables && rs != rd && t.pos[c].root == rs
    requires u.tables.Keys == t.tables.Keys + {page} && u.pos == t.pos[page := t.pos[c].(root := rd)]
    ensures f in Uncopied(u, rs, rd) <==> f in Uncopied(t, rs, rd) && f != c
  {
    hide ParentsExist;
    if f in t.tables && t.pos[f].root == rs {
      var q := t.pos[f].(root := rd);
      if q == t.pos[c].(root := rd) {
        PositionsUnique(t, f, c);
        assert page in u.tables && u.pos[page] == q;
      } else {
        if TableAt(t, q) {
          var g :| g in t.tables && g in t.pos && t.pos[g] == q;
          assert g in u.tables && u.pos[g] == q;
        }
        if TableAt(u, q) {
          var g :| g in u.tables && g in u.pos && u.pos[g] == q;
          assert g in t.tables && t.pos[g] == q;
        }
      }
    }
  }

  lemma UncopiedSame(s: State, t: State, rs: nat, rd: nat)
    requires s.tables.Keys == t.tables.Keys && s.pos == t.pos
    ensures Uncopied(s, rs, rd) == Uncopied(t, rs, rd)
  {
    forall q: Pos
      ensures TableAt(s, q) <==> TableAt(t, q)
    {
    }
  }

  /** Where a copy from state s has got to in state t: slots below i are done, the rest of the destination is empty,
      and the pool still holds a frame for every table to come. */
  ghost predicate CopyProgress(s: State, t: State, dst: nat, src: nat, level: nat, i: nat, w: bool)
  {
    && Inv(s) && Inv(t) && src in s.tables && dst in s.tables && src in t.tables && dst in t.tables
    && 1 <= level && s.pos[src].level == level && s.pos[src].root != s.pos[dst].root
    && s.pos[dst] == Pos(s.pos[dst].root, level, s.pos[src].prefix)
    && t.pos[src] == s.pos[src] && t.pos[dst] == s.pos[dst] && t.tables[src] == s.tables[src]
    && (forall j :: i <= j < 512 ==> !t.tables[dst][j].present)
    && CopiedSlots(s, t, s.pos[src].root, s.pos[dst].root, level, s.pos[src].prefix, i, w)
    && |Uncopied(t, s.pos[src].root, s.pos[dst].root)| <= |t.pool|
    && |t.pool| - |Uncopied(t, s.pos[src].root, s.pos[dst].root)| == |s.pool| - |Uncopied(s, s.pos[src].root, s.pos[dst].root)|
  }

  lemma CopyProgressStart(s: State, dst: nat, src: nat, level: nat, start: nat, w: bool)
    requires Inv(s) && src in s.tables && dst in s.tables && s.pos[src].level == level
    requires s.pos[src].root != s.pos[dst].root && s.pos[dst] == Pos(s.pos[dst].root, level, s.pos[src].prefix)
    requires UserSlotsEmpty(s.tables[dst], level) && start == if level == 4 then USER_SPACE_START_INDEX else 0
    requires |Uncopied(s, s.pos[src].root, s.pos[dst].root)| <= |s.pool|
    ensures CopyProgress(s, s, dst, src, level, start, w)
  {
    hide ChildrenPlaced, ParentsExist, LeavesAgree, FramesAccounted, CopiedSlots, Uncopied;
    CopiedStart(s, src, dst, level, start, w);
  }

  lemma CopyProgressSkip(s: State, t: State, dst: nat, src: nat, level: nat, i: nat, w: bool)
    requires CopyProgress(s, t, dst, src, level, i, w) && i < 512 && !t.tables[src][i].present
    ensures CopyProgress(s, t, dst, src, level, i + 1, w)
  {
    hide ChildrenPlaced, ParentsExist, LeavesAgree, FramesAccounted, CopiedSlots, Uncopied;
    CopiedSkip(s, t, src, dst, i, w);
  }

  lemma CopyProgressLeaf(s: State, t: State, dst: nat, src: nat, i: nat, w: bool)
    requires CopyProgress(s, t, dst, src, 1, i, w) && i < 512 && t.tables[src][i].present
    ensures var e := t.tables[src][i].(writable := w);
            && (e.owned ==> e.frame in t.data && e.frame in t.refs)
            && CopyProgress(s, SetLeaf(AddRef(t, e, ZeroPage()), dst, i, e), dst, src, 1, i + 1, w)
  {
    hide ChildrenPlaced, ParentsExist, LeavesAgree, FramesAccounted, CopiedSlots, Uncopied;
    var e := t.tables[src][i].(writable := w);
    CopyLeafStep(s, t, src, dst, i, w);
    var u := SetLeaf(AddRef(t, e, ZeroPage()), dst, i, e);
    UncopiedSame(t, u, s.pos[src].root, s.pos[dst].root);
  }

  /** The table for the next child is there and empty; copying into it may start. */
  lemma CopyProgressTable(s: State, t: State, dst: nat, src: nat, level: nat, i: nat, w: bool, page: nat)
    requires CopyProgress(s, t, dst, src, level, i, w) && level > 1 && UserSlot(level, i) && t.tables[src][i].present && page in t.pool
    ensures var e, c := t.tables[src][i].(frame := page), t.tables[src][i].frame;
            var t1 := AddTable(t, dst, i, e);
            && Inv(t1) && page in t1.tables && t1.tables[page] == EmptyTable() && c in t1.tables && page !in t.tables
            && t1.pos[c] == ChildPos(s.pos[src], i) && t1.pos[page] == ChildPos(s.pos[dst], i)
            && |Uncopied(t1, s.pos[src].root, s.pos[dst].root)| <= |t1.pool|
            && |t1.pool| - |Uncopied(t1, s.pos[src].root, s.pos[dst].root)| == |s.pool| - |Uncopied(s, s.pos[src].root, s.pos[dst].root)|
  {
    hide LeavesAgree, FramesAccounted, CopiedSlots, Uncopied, ParentsExist;
    var e := t.tables[src][i].(frame := page);
    PoolFrame(t, page);
    AddTableKeeps(t, dst, i, e);
    UncopiedStep(t, src, dst, i, e);
  }

  lemma CopyShape(s: State, t: State, dst: nat, src: nat, level: nat, i: nat, w: bool)
    requires CopyProgress(s, t, dst, src, level, i, w)
    ensures Inv(s) && Inv(t) && s.tables.Keys == s.pos.Keys && t.tables.Keys == t.pos.Keys
    ensures src in s.tables && dst in s.tables && src in t.tables && dst in t.tables
    ensures |t.tables[src]| == 512 && |t.tables[dst]| == 512
    ensures 1 <= level <= 4 && s.pos[src] == Pos(s.pos[src].root, level, s.pos[src].prefix) && s.pos[src].root != s.pos[dst].root
    ensures s.pos[dst] == Pos(s.pos[dst].root, level, s.pos[src].prefix)
    ensures t.pos[src] == s.pos[src] && t.pos[dst] == s.pos[dst] && t.tables[src] == s.tables[src]
    ensures CopiedSlots(s, t, s.pos[src].root, s.pos[dst].root, level, s.pos[src].prefix, i, w)
  {
    hide ChildrenPlaced, ParentsExist, LeavesAgree, FramesAccounted, CopiedSlots, Uncopied;
  }

  lemma CopyBudget(s: State, t: State, dst: nat, src: nat, level: nat, i: nat, w: bool)
    requires CopyProgress(s, t, dst, src, level, i, w)
    ensures src in s.pos && dst in s.pos && dst in t.tables
    ensures |Uncopied(t, s.pos[src].root, s.pos[dst].root)| <= |t.pool|
    ensures |t.pool| - |Uncopied(t, s.pos[src].root, s.pos[dst].root)| == |s.pool| - |Uncopied(s, s.pos[src].root, s.pos[dst].root)|
    ensures forall j :: i <= j < |t.tables[dst]| ==> !t.tables[dst][j].present
  {
    hide ChildrenPlaced, ParentsExist, LeavesAgree, FramesAccounted, CopiedSlots, Uncopied;
  }

  lemma CopiedKeeps(s: State, t: State, rs: nat, rd: nat, level: nat, prefix: nat, i: nat, w: bool, f: nat)
    requires level >= 1 && CopiedSlots(s, t, rs, rd, level, prefix, i, w) && f in s.tables && f in s.pos
    ensures f in t.tables && f in t.pos && t.pos[f] == s.pos[f]
    ensures s.pos[f].root != rd ==> t.tables[f] == s.tables[f]
  {
  }

  lemma CopyProgressChild(s: State, t: State, t1: State, t2: State, dst: nat, src: nat, level: nat, i: nat, w: bool,
                          page: nat, c: nat)
    requires CopyProgress(s, t, dst, src, level, i, w) && 1 < level && i < 512
    requires src in s.pos && dst in s.pos && dst in t.tables && dst in t.pos && i < |t.tables[dst]| && t.pos[dst].level > 1
    requires page !in t.tables
    requires exists e: Pte :: e.frame == page && t1 == AddTable(t, dst, i, e) && dst in t2.tables && t2.tables[dst] == t.tables[dst][i := e]
    requires CopyProgress(t1, t2, page, c, level - 1, 512, w)
    requires c in t1.pos && t1.pos[c] == ChildPos(s.pos[src], i) && page in t1.pos && t1.pos[page] == ChildPos(s.pos[dst], i)
    requires |t1.pool| - |Uncopied(t1, s.pos[src].root, s.pos[dst].root)| == |s.pool| - |Uncopied(s, s.pos[src].root, s.pos[dst].root)|
    ensures CopyProgress(s, t2, dst, src, level, i + 1, w)
  {
    hide Inv, CopiedSlots, CopyProgress, Uncopied;
    CopyShape(s, t, dst, src, level, i, w);
    CopyShape(t1, t2, page, c, level - 1, 512, w);
    CopyBudget(s, t, dst, src, level, i, w);
    CopyBudget(t1, t2, page, c, level - 1, 512, w);
    var rs, rd, prefix := s.pos[src].root, s.pos[dst].root, s.pos[src].prefix;
    assert t1.pos[src] == t.pos[src] && t1.pos[dst] == t.pos[dst];
    assert t1.tables[src] == t.tables[src];
    CopiedKeeps(t1, t2, rs, rd, level - 1, prefix * 512 + i, 512, w, src);
    CopiedKeeps(t1, t2, rs, rd, level - 1, prefix * 512 + i, 512, w, dst);
    assert forall f :: f in t1.tables ==> f in t2.tables && t2.pos[f] == t1.pos[f] by {
      forall f | f in t1.tables
        ensures f in t2.tables && t2.pos[f] == t1.pos[f]
      {
        CopiedKeeps(t1, t2, rs, rd, level - 1, prefix * 512 + i, 512, w, f);
      }
    }
    CopiedThroughChild(s, t, t1, t2, rs, rd, level, prefix, i, w);
    CopyProgressIntro(s, t2, dst, src, level, i + 1, w);
  }

  lemma CopyProgressIntro(s: State, t: State, dst: nat, src: nat, level: nat, i: nat, w: bool)
    requires Inv(s) && Inv(t) && src in s.tables && dst in s.tables && src in t.tables && dst in t.tables
    requires src in s.pos && dst in s.pos && src in t.pos && dst in t.pos
    requires 1 <= level && s.pos[src].level == level && s.pos[src].root != s.pos[dst].root
    requires s.pos[dst] == Pos(s.pos[dst].root, level, s.pos[src].prefix)
    requires t.pos[src] == s.pos[src] && t.pos[dst] == s.pos[dst] && t.tables[src] == s.tables[src]
    requires forall j :: i <= j < |t.tables[dst]| ==> !t.tables[dst][j].present
    requires CopiedSlots(s, t, s.pos[src].root, s.pos[dst].root, level, s.pos[src].prefix, i, w)
    requires |Uncopied(t, s.pos[src].root, s.pos[dst].root)| <= |t.pool|
    requires |t.pool| - |Uncopied(t, s.pos[src].root, s.pos[dst].root)| == |s.pool| - |Uncopied(s, s.pos[src].root, s.pos[dst].root)|
    ensures CopyProgress(s, t, dst, src, level, i, w)
  {
    hide ChildrenPlaced, ParentsExist, LeavesAgree, FramesAccounted, CopiedSlots, Uncopied;
  }

  /** While a child is still to be copied the pool is not empty. */
  lemma CopyNeedsTable(s: State, t: State, dst: nat, src: nat, level: nat, i: nat, w: bool)
    requires CopyProgress(s, t, dst, src, level, i, w) && 1 < level && UserSlot(level, i) && t.tables[src][i].present
    ensures t.pool != {} && t.tables[src][i].frame in t.tables && t.tables[src][i].frame in t.pos
  {
    hide LeavesAgree, FramesAccounted, CopiedSlots, ParentsExist, Uncopied;
    var c := t.tables[src][i].frame;
    assert t.pos[c] == ChildPos(t.pos[src], i);
    NoTableWithoutEntry(t, dst, i);
    assert c in Uncopied(t, s.pos[src].root, s.pos[dst].root) by { UncopiedChild(t, c, dst, i, s.pos[src].root, s.pos[dst].root); }
  }

  lemma UncopiedChild(t: State, c: nat, dst: nat, i: nat, rs: nat, rd: nat)
    requires c in t.tables && c in t.pos && t.pos[c].root == rs && dst in t.pos && t.pos[dst].level > 0
    requires t.pos[c].(root := rd) == ChildPos(t.pos[dst], i)
    requires forall g :: g in t.tables && g in t.pos ==> t.pos[g] != ChildPos(t.pos[dst], i)
    ensures c in Uncopied(t, rs, rd)
  {
  }

  // ----- cloning a whole space

  ghost function TablesOf(s: State, r: nat): set<nat>
  {
    set f | f in s.tables && f in s.pos && s.pos[f].root == r
  }

  /** A new space translates every page exactly as src does, with the given writability and sharing all pages; every
      other space, and all page contents, are as before. */
  ghost predicate Cloned(s: State, t: State, src: nat, root: nat, w: bool)
  {
    && root in s.pool && root !in s.roots && t.roots == s.roots + {root}
    && t.data == s.data && t.refs.Keys == s.refs.Keys
    && (forall k: (nat, nat) :: k.0 != root ==> (k in t.leaves <==> k in s.leaves) && (k in s.leaves ==> t.leaves[k] == s.leaves[k]))
    && (forall v: nat :: ((root, v) in t.leaves <==> (src, v) in s.leaves)
                         && ((src, v) in s.leaves ==> t.leaves[(root, v)] == s.leaves[(src, v)].(writable := w)))
    && (forall r :: r != root ==> TablesOf(t, r) == TablesOf(s, r))
    && |t.pool| + |TablesOf(s, src)| == |s.pool|
  }

  lemma ClonedRoots(s: State, t: State, src: nat, root: nat, w: bool)
    requires Cloned(s, t, src, root, w)
    ensures t.roots == s.roots + {root} && root !in s.roots
  {
    hide TablesOf;
  }

  lemma CloneBudget(s: State, src: nat, root: nat, table: Table)
    requires Inv(s) && src in s.roots && root in s.pool && |TablesOf(s, src)| <= |s.pool|
    ensures var s1 := AddRoot(s, root, table);
            |Uncopied(s1, src, root)| + 1 == |TablesOf(s, src)| && |s1.pool| + 1 == |s.pool|
  {
    hide ChildrenPlaced, ParentsExist, LeavesAgree, FramesAccounted, Uncopied, TablesOf;
    PoolFrame(s, root);
    assert src in s.tables && src in s.pos && s.pos[src] == Pos(src, 4, 0);
    assert forall f :: f in s.tables ==> s.pos[f].root != root;
    assert forall f :: f in s.tables && s.pos[f].root == src && s.pos[f].level == 4 ==> f == src;
    hide TablesWellFormed;
    UncopiedAtRoot(s, AddRoot(s, root, table), src, root);
  }

  lemma UncopiedAtRoot(s: State, s1: State, src: nat, root: nat)
    requires root !in s.tables && src in s.tables && src in s.pos && s.pos[src] == Pos(src, 4, 0) && src != root
    requires s1.tables.Keys == s.tables.Keys + {root} && s1.pos == s.pos[root := Pos(root, 4, 0)]
    requires forall f :: f in s.tables && f in s.pos ==> s.pos[f].root != root
    requires forall f :: f in s.tables && f in s.pos && s.pos[f].root == src && s.pos[f].level == 4 ==> f == src
    ensures |Uncopied(s1, src, root)| + 1 == |TablesOf(s, src)|
  {
    var u, n := Uncopied(s1, src, root), TablesOf(s, src);
    assert root in s1.tables && s1.pos[root] == Pos(root, 4, 0);
    assert TableAt(s1, Pos(root, 4, 0));
    forall f | f in n && f != src
      ensures f in u
    {
      assert s1.pos[f] == s.pos[f] && s.pos[f].level != 4;
    }
    assert u == n - {src};
  }

  /** User translations live at PML4 prefix 0: nothing is mapped outside the 36-bit page numbers. */
  lemma LeafPrefixZero(s: State, k: (nat, nat))
    requires Inv(s) && k in s.leaves
    ensures Prefix(k.1, 4) == 0 && k.0 in s.roots
  {
    hide ChildrenPlaced, ParentsExist, LeavesAgree, FramesAccounted, Prefix;
    var f := LeafPath(s, k, 4);
  }

  lemma ClonedFromCopy(s: State, t: State, src: nat, root: nat, table: Table, w: bool)
    requires Inv(s) && src in s.roots && root in s.pool && |TablesOf(s, src)| <= |s.pool|
    requires CopyProgress(AddRoot(s, root, table), t, root, src, 4, 512, w) && Uncopied(t, src, root) == {}
    ensures Cloned(s, t, src, root, w) && Inv(t)
  {
    hide Inv, CopiedSlots, CopyProgress, Uncopied, TablesOf;
    var s1 := AddRoot(s, root, table);
    CloneBudget(s, src, root, table);
    CopyShape(s1, t, root, src, 4, 512, w);
    CopyBudget(s1, t, root, src, 4, 512, w);
    RootPlaces(s, src, root, table);
    ClonedLeaves(s, s1, t, src, root, w);
    forall r | r != root
      ensures TablesOf(t, r) == TablesOf(s, r)
    {
      ClonedTables(s, s1, t, src, root, w, r);
    }
    ClonedMemory(s1, t, src, root, w);
  }

  lemma RootPlaces(s: State, src: nat, root: nat, table: Table)
    requires Inv(s) && src in s.roots && root in s.pool
    ensures src in s.tables && src in s.pos && s.pos[src] == Pos(src, 4, 0) && src != root && root !in s.roots
    ensures root !in s.tables && s.tables.Keys == s.pos.Keys
    ensures forall k: (nat, nat) :: k in s.leaves ==> k.0 != root
  {
    hide ChildrenPlaced, ParentsExist, LeavesAgree;
    forall k: (nat, nat) | k in s.leaves
      ensures k.0 != root
    {
      LeafPrefixZero(s, k);
    }
  }

  lemma ClonedMemory(s: State, t: State, src: nat, root: nat, w: bool)
    requires CopiedSlots(s, t, src, root, 4, 0, 512, w)
    ensures t.data == s.data && t.refs.Keys == s.refs.Keys && t.roots == s.roots
  {
  }

  lemma ClonedLeaves(s: State, s1: State, t: State, src: nat, root: nat, w: bool)
    requires Inv(s) && CopiedSlots(s1, t, src, root, 4, 0, 512, w) && s1.leaves == s.leaves
    requires src != root && forall k: (nat, nat) :: k in s.leaves ==> k.0 != root
    ensures forall k: (nat, nat) :: k.0 != root ==> (k in t.leaves <==> k in s.leaves) && (k in s.leaves ==> t.leaves[k] == s.leaves[k])
    ensures forall v: nat :: ((root, v) in t.leaves <==> (src, v) in s.leaves)
                             && ((src, v) in s.leaves ==> t.leaves[(root, v)] == s.leaves[(src, v)].(writable := w))
  {
    hide Inv, Prefix;
    forall v: nat
      ensures (root, v) in t.leaves <==> (src, v) in s.leaves
      ensures (src, v) in s.leaves ==> t.leaves[(root, v)] == s.leaves[(src, v)].(writable := w)
    {
      if (src, v) in s.leaves {
        LeafPrefixZero(s, (src, v));
      }
      assert (root, v) !in s1.leaves;
      assert Below(v, 4, 0, 512) <==> Prefix(v, 4) == 0;
    }
  }

  lemma ClonedTables(s: State, s1: State, t: State, src: nat, root: nat, w: bool, r: nat)
    requires CopiedSlots(s1, t, src, root, 4, 0, 512, w) && r != root
    requires s.tables.Keys == s.pos.Keys && s1.tables.Keys == s1.pos.Keys && t.tables.Keys == t.pos.Keys
    requires root !in s.tables && s1.tables.Keys == s.tables.Keys + {root} && s1.pos == s.pos[root := Pos(root, 4, 0)]
    ensures TablesOf(t, r) == TablesOf(s, r)
  {
    forall f
      ensures f in TablesOf(t, r) <==> f in TablesOf(s, r)
    {
    }
  }

  // ----- tearing tables down

  /** The translations below slots [0, upTo) are gone; every other translation stays, and no surviving page changes. */
  ghost predicate CleanedSlots(s: State, t: State, root: nat, level: nat, prefix: nat, upTo: nat)
    requires level >= 1
  {
    && t.roots == s.roots && t.refs.Keys == s.refs.Keys
    && (forall k: (nat, nat) :: !(k.0 == root && Below(k.1, level, prefix, upTo)) ==>
          (k in t.leaves <==> k in s.leaves) && (k in s.leaves ==> t.leaves[k] == s.leaves[k]))
    && (forall k: (nat, nat) :: k.0 == root && Below(k.1, level, prefix, upTo) ==> k !in t.leaves)
    && (forall d :: d in t.data ==> d in s.data && t.data[d] == s.data[d])
  }

  /** Tables at this level or above, other than the one being emptied, are untouched. */
  ghost predicate UpperKept(s: State, t: State, table: nat, level: nat)
  {
    forall f :: f in s.tables && f in s.pos && f != table && s.pos[f].level >= level ==>
      f in t.tables && f in t.pos && t.tables[f] == s.tables[f] && t.pos[f] == s.pos[f]
  }

  ghost predicate CleanProgress(s: State, t: State, table: nat, level: nat, i: nat)
  {
    && Inv(s) && Inv(t) && table in s.tables && table in t.tables && i <= 512
    && 1 <= level && s.pos[table].level == level && t.pos[table] == s.pos[table]
    && (forall j: nat :: j < i && UserSlot(level, j) ==> !t.tables[table][j].present)
    && (forall j: nat :: i <= j < 512 ==> t.tables[table][j] == s.tables[table][j])
    && CleanedSlots(s, t, s.pos[table].root, level, s.pos[table].prefix, i)
    && UpperKept(s, t, table, level)
  }

  lemma CleanShape(s: State, t: State, table: nat, level: nat, i: nat)
    requires CleanProgress(s, t, table, level, i)
    ensures Inv(s) && Inv(t) && table in s.tables && table in t.tables && table in s.pos && table in t.pos && i <= 512
    ensures 1 <= level <= 4 && s.pos[table].level == level && t.pos[table] == s.pos[table]
    ensures |t.tables[table]| == 512 && |s.tables[table]| == 512
    ensures forall j: nat :: j < i && UserSlot(level, j) ==> !t.tables[table][j].present
    ensures forall j: nat :: i <= j < 512 ==> t.tables[table][j] == s.tables[table][j]
    ensures CleanedSlots(s, t, s.pos[table].root, level, s.pos[table].prefix, i)
    ensures UpperKept(s, t, table, level)
  {
    hide ChildrenPlaced, ParentsExist, LeavesAgree, FramesAccounted, CleanedSlots, UpperKept;
  }

  lemma CleanIntro(s: State, t: State, table: nat, level: nat, i: nat)
    requires Inv(s) && Inv(t) && table in s.tables && table in t.tables && table in s.pos && table in t.pos && i <= 512
    requires 1 <= level && s.pos[table].level == level && t.pos[table] == s.pos[table]
    requires |t.tables[table]| == 512 && |s.tables[table]| == 512
    requires forall j: nat :: j < i && UserSlot(level, j) ==> !t.tables[table][j].present
    requires forall j: nat :: i <= j < 512 ==> t.tables[table][j] == s.tables[table][j]
    requires CleanedSlots(s, t, s.pos[table].root, level, s.pos[table].prefix, i)
    requires UpperKept(s, t, table, level)
    ensures CleanProgress(s, t, table, level, i)
  {
    hide ChildrenPlaced, ParentsExist, LeavesAgree, FramesAccounted, CleanedSlots, UpperKept;
  }

  lemma CleanStart(s: State, table: nat, level: nat, start: nat)
    requires Inv(s) && table in s.tables && table in s.pos && s.pos[table].level == level
    requires start == if level == 4 then USER_SPACE_START_INDEX else 0
    ensures CleanProgress(s, s, table, level, start)
  {
    hide ChildrenPlaced, ParentsExist, LeavesAgree, FramesAccounted, Prefix;
    forall k: (nat, nat) | Below(k.1, level, s.pos[table].prefix, start)
      ensures k !in s.leaves
    {
      if k in s.leaves {
        var f := LeafPath(s, k, level);
      }
    }
  }

  lemma CleanSkip(s: State, t: State, table: nat, level: nat, i: nat)
    requires CleanProgress(s, t, table, level, i) && i < 512 && !t.tables[table][i].present
    ensures CleanProgress(s, t, table, level, i + 1)
  {
    hide CleanProgress, Inv, UpperKept;
    CleanShape(s, t, table, level, i);
    var root, prefix := s.pos[table].root, s.pos[table].prefix;
    CleanedPastEmpty(s, t, table, root, level, prefix, i);
    hide CleanedSlots;
    CleanIntro(s, t, table, level, i + 1);
  }

  lemma CleanedPastEmpty(s: State, t: State, table: nat, root: nat, level: nat, prefix: nat, i: nat)
    requires Inv(t) && level >= 1 && CleanedSlots(s, t, root, level, prefix, i) && i < 512
    requires table in t.tables && t.pos[table] == Pos(root, level, prefix) && !t.tables[table][i].present
    ensures CleanedSlots(s, t, root, level, prefix, i + 1)
  {
    hide ChildrenPlaced, ParentsExist, LeavesAgree, FramesAccounted, Prefix;
    forall k: (nat, nat) | k.0 == root && Prefix(k.1, level) == prefix && SlotOf(k.1, level) == i
      ensures k !in t.leaves
    {
      EmptySlotNoLeaves(t, table, i, k);
    }
  }

  ghost function LeafDropped(t: State, table: nat, i: nat): State
    requires table in t.tables && table in t.pos && |t.tables[table]| == 512 && i < 512
    requires t.tables[table][i].owned ==> t.tables[table][i].frame in t.refs
  {
    DropRef(SetLeaf(t, table, i, NO_ENTRY), t.tables[table][i])
  }

  lemma LeafDroppedFields(t: State, table: nat, i: nat)
    requires Inv(t) && table in t.tables && t.pos[table].level == 1 && i < 512 && t.tables[table][i].present
    ensures t.tables[table][i].owned ==> t.tables[table][i].frame in t.refs && t.tables[table][i].frame in t.data
    ensures var u := LeafDropped(t, table, i);
            && Inv(u) && u.tables == PutEntry(t.tables, table, i, NO_ENTRY) && u.pos == t.pos && u.roots == t.roots
            && u.refs.Keys == t.refs.Keys && u.leaves == t.leaves - {LeafKey(t.pos[table], i)}
            && (forall d :: d in u.data ==> d in t.data && u.data[d] == t.data[d])
  {
    hide Inv;
    TableShape(t, table);
    LeafOf(t, table, i);
    RemoveLeafKeeps(t, table, i);
  }

  lemma CleanLeaf(s: State, t: State, table: nat, i: nat)
    requires table in t.tables && table in t.pos && |t.tables[table]| == 512 && i < 512 && t.tables[table][i].present
    requires t.tables[table][i].owned ==> t.tables[table][i].frame in t.refs
    requires CleanProgress(s, t, table, 1, i)
    ensures CleanProgress(s, LeafDropped(t, table, i), table, 1, i + 1)
  {
    hide CleanProgress, UpperKept, CleanedSlots, Inv, LeafDropped;
    CleanShape(s, t, table, 1, i);
    LeafDroppedFields(t, table, i);
    var u := LeafDropped(t, table, i);
    CleanedOneLeaf(s, t, u, s.pos[table].root, s.pos[table].prefix, i);
    UpperKeptTrans(s, t, u, table, 1);
    CleanIntro(s, u, table, 1, i + 1);
  }

  lemma UpperKeptTrans(s: State, t: State, u: State, table: nat, level: nat)
    requires UpperKept(s, t, table, level)
    requires forall f :: f in t.tables && f in t.pos && f != table && t.pos[f].level >= level ==>
               f in u.tables && f in u.pos && u.tables[f] == t.tables[f] && u.pos[f] == t.pos[f]
    ensures UpperKept(s, u, table, level)
  {
  }

  lemma CleanedOneLeaf(s: State, t: State, u: State, root: nat, prefix: nat, i: nat)
    requires CleanedSlots(s, t, root, 1, prefix, i) && i < 512
    requires u.roots == t.roots && u.refs.Keys == t.refs.Keys && u.leaves == t.leaves - {(root, prefix * 512 + i)}
    requires forall d :: d in u.data ==> d in t.data && u.data[d] == t.data[d]
    ensures CleanedSlots(s, u, root, 1, prefix, i + 1)
  {
    OneMorePage(prefix, i);
    hide Prefix, Below;
  }

  /** The child below slot i is empty: freeing it and clearing the entry finishes the slot. */
  lemma CleanChild(s: State, t: State, t1: State, table: nat, level: nat, i: nat)
    requires table in t.tables && |t.tables[table]| == 512 && 1 < level && UserSlot(level, i) && t.tables[table][i].present
    requires CleanProgress(s, t, table, level, i)
    requires CleanProgress(t, t1, t.tables[table][i].frame, level - 1, 512)
    ensures table in t1.tables && t1.tables[table] == t.tables[table] && i < |t1.tables[table]|
    ensures CleanProgress(s, RemoveTable(t1, table, i), table, level, i + 1)
  {
    hide CleanProgress, UpperKept, CleanedSlots, Inv;
    CleanShape(s, t, table, level, i);
    var c := t.tables[table][i].frame;
    CleanShape(t, t1, c, level - 1, 512);
    ChildPlace(t, table, i);
    UpperKeptAt(t, t1, c, level - 1, table);
    assert UserSlotsEmpty(t1.tables[c], level - 1);
    RemoveTableKeeps(t1, table, i);
    var u := RemoveTable(t1, table, i);
    var root, prefix := s.pos[table].root, s.pos[table].prefix;
    CleanedThroughChild(s, t, t1, u, root, level, prefix, i);
    UpperKeptThrough(s, t, t1, u, table, c, level, i);
    CleanIntro(s, u, table, level, i + 1);
  }

  lemma ChildPlace(t: State, table: nat, i: nat)
    requires Inv(t) && table in t.tables && t.pos[table].level > 1 && UserSlot(t.pos[table].level, i) && t.tables[table][i].present
    ensures var c := t.tables[table][i].frame; c in t.tables && c in t.pos && t.pos[c] == ChildPos(t.pos[table], i) && c != table
  {
    hide ParentsExist, LeavesAgree, FramesAccounted;
  }

  lemma UpperKeptAt(s: State, t: State, c: nat, level: nat, f: nat)
    requires UpperKept(s, t, c, level) && f in s.tables && f in s.pos && f != c && s.pos[f].level >= level
    ensures f in t.tables && f in t.pos && t.tables[f] == s.tables[f] && t.pos[f] == s.pos[f]
  {
  }

  lemma UpperKeptThrough(s: State, t: State, t1: State, u: State, table: nat, c: nat, level: nat, i: nat)
    requires level > 1 && UpperKept(s, t, table, level) && UpperKept(t, t1, c, level - 1)
    requires table in t1.tables && i < |t1.tables[table]| && t1.tables[table][i].frame == c && u == RemoveTable(t1, table, i)
    requires c in t.pos && t.pos[c].level == level - 1
    ensures UpperKept(s, u, table, level)
  {
    forall f | f in s.tables && f in s.pos && f != table && s.pos[f].level >= level
      ensures f in u.tables && f in u.pos && u.tables[f] == s.tables[f] && u.pos[f] == s.pos[f]
    {
      assert f in t.tables && t.pos[f] == s.pos[f] && f != c;
    }
  }

  lemma CleanedThroughChild(s: State, t: State, t1: State, u: State, root: nat, level: nat, prefix: nat, i: nat)
    requires level >= 2 && i < 512
    requires CleanedSlots(s, t, root, level, prefix, i) && CleanedSlots(t, t1, root, level - 1, prefix * 512 + i, 512)
    requires u.roots == t1.roots && u.refs == t1.refs && u.leaves == t1.leaves && u.data == t1.data
    ensures CleanedSlots(s, u, root, level, prefix, i + 1)
  {
    forall v: nat
      ensures Below(v, level, prefix, i + 1) <==> Below(v, level, prefix, i) || Below(v, level - 1, prefix * 512 + i, 512)
    {
      PrefixStep(v, level - 1);
      if Prefix(v, level - 1) == prefix * 512 + i {
        SplitUnique(Prefix(v, level), SlotOf(v, level), prefix, i);
      }
    }
    hide Prefix, Below;
  }

  /** A space is gone; every other space translates as before and every surviving page keeps its contents. */
  ghost predicate TornDown(s: State, t: State, root: nat)
  {
    && t.roots == s.roots - {root} && t.refs.Keys == s.refs.Keys
    && (forall k: (nat, nat) :: k.0 != root ==> (k in t.leaves <==> k in s.leaves) && (k in s.leaves ==> t.leaves[k] == s.leaves[k]))
    && (forall k: (nat, nat) :: k.0 == root ==> k !in t.leaves)
    && (forall d :: d in t.data ==> d in s.data && t.data[d] == s.data[d])
  }

  lemma TornDownRoots(s: State, t: State, root: nat)
    requires TornDown(s, t, root)
    ensures t.roots == s.roots - {root}
  {
  }

  lemma TornDownAtEnd(s: State, t: State, root: nat)
    requires root in s.roots && CleanProgress(s, t, root, 4, 512)
    ensures root in t.roots && root in t.tables && Inv(RemoveRoot(t, root)) && TornDown(s, RemoveRoot(t, root), root)
  {
    hide CleanProgress, UpperKept, CleanedSlots, Inv;
    CleanShape(s, t, root, 4, 512);
    RootPosition(s, root);
    assert t.roots == s.roots by { CleanedRoots(s, t, root, 4, s.pos[root].prefix, 512); }
    assert UserSlotsEmpty(t.tables[root], 4);
    RemoveRootKeeps(t, root);
    TornDownLeaves(s, t, root);
  }

  lemma RootPosition(s: State, root: nat)
    requires Inv(s) && root in s.roots
    ensures root in s.tables && root in s.pos && s.pos[root] == Pos(root, 4, 0)
  {
    hide ChildrenPlaced, ParentsExist, LeavesAgree, FramesAccounted;
  }

  lemma CleanedRoots(s: State, t: State, root: nat, level: nat, prefix: nat, i: nat)
    requires level >= 1 && CleanedSlots(s, t, root, level, prefix, i)
    ensures t.roots == s.roots
  {
  }

  lemma TornDownLeaves(s: State, t: State, root: nat)
    requires Inv(s) && CleanedSlots(s, t, root, 4, 0, 512)
    requires forall k: (nat, nat) :: k in t.leaves ==> k.0 != root
    ensures TornDown(s, RemoveRoot(t, root), root)
  {
    hide Inv, Prefix;
  }
}
