/** Four-level page tables (section 4.5 of Intel SDM Vol. 3A) as kernel/memory/paging.hpp lays them out,
    and the invariant of a physical memory that holds any number of address spaces.
    Frames are named by frame number; a user page is named by its virtual page number. */
module PageTables {

  const USER_SPACE_START_INDEX: nat := 256
  const PAGE_BYTES: nat := 4096

  type Index = i: nat | i < 512

  // ----- virtual addresses

  /** The four 9-bit index fields of a virtual address. */
  datatype VAddr = VAddr(pml4: Index, pdpt: Index, pd: Index, pt: Index)

  function Part(a: VAddr, level: nat): Index
    requires 1 <= level <= 4
  {
    match level
    case 1 => a.pt
    case 2 => a.pd
    case 3 => a.pdpt
    case 4 => a.pml4
  }

  /** Assignment to a 9-bit field keeps the low nine bits. */
  function SetPart(a: VAddr, level: nat, value: nat): VAddr
    requires 1 <= level <= 4
  {
    match level
    case 1 => a.(pt := value % 512)
    case 2 => a.(pd := value % 512)
    case 3 => a.(pdpt := value % 512)
    case 4 => a.(pml4 := value % 512)
  }

  function Vpn(a: VAddr): nat
  {
    ((a.pml4 * 512 + a.pdpt) * 512 + a.pd) * 512 + a.pt
  }

  /** The part of a page number that selects the level-`level` table holding it. */
  function Prefix(v: nat, level: nat): nat
  {
    if level == 0 then v else Prefix(v, level - 1) / 512
  }

  /** Number of pages a level-`level` table covers. */
  function Span(level: nat): (n: nat)
    ensures n > 0
  {
    if level == 0 then 1 else 512 * Span(level - 1)
  }

  function SlotOf(v: nat, level: nat): Index
    requires level >= 1
  {
    Prefix(v, level - 1) % 512
  }

  lemma Prefixes(a: VAddr)
    ensures Prefix(Vpn(a), 0) == Vpn(a)
    ensures Prefix(Vpn(a), 1) == (a.pml4 * 512 + a.pdpt) * 512 + a.pd
    ensures Prefix(Vpn(a), 2) == a.pml4 * 512 + a.pdpt
    ensures Prefix(Vpn(a), 3) == a.pml4
    ensures Prefix(Vpn(a), 4) == 0
  {
    var v := Vpn(a);
    assert Prefix(v, 1) == v / 512;
    assert Prefix(v, 2) == v / 512 / 512;
    assert Prefix(v, 3) == v / 512 / 512 / 512;
    assert Prefix(v, 4) == v / 512 / 512 / 512 / 512;
  }

  lemma PartIsSlot(a: VAddr, level: nat)
    requires 1 <= level <= 4
    ensures Part(a, level) == SlotOf(Vpn(a), level)
    ensures Prefix(Vpn(a), level - 1) == Prefix(Vpn(a), level) * 512 + Part(a, level)
  {
    hide Prefix;
    Prefixes(a);
    if level == 1 {
      SlotIs(a.pml4 * 0x4_0000 + a.pdpt * 512 + a.pd, a.pt);
    } else if level == 2 {
      SlotIs(a.pml4 * 512 + a.pdpt, a.pd);
    } else if level == 3 {
      SlotIs(a.pml4, a.pdpt);
    } else {
      SlotIs(0, a.pml4);
    }
  }

  lemma SlotIs(p: nat, i: Index)
    ensures (p * 512 + i) % 512 == i
  {
  }

  lemma SplitUnique(p: nat, i: nat, q: nat, j: nat)
    requires i < 512 && j < 512 && p * 512 + i == q * 512 + j
    ensures p == q && i == j
  {
  }

  function ZeroBelow(a: VAddr, level: nat): VAddr
    requires 1 <= level <= 4
    decreases level
  {
    if level == 1 then a else ZeroBelow(SetPart(a, level - 1, 0), level - 1)
  }

  /** The address the setup loop moves to after slot `Part(a, level)`. */
  function NextSlot(a: VAddr, level: nat): VAddr
    requires 1 <= level <= 4
  {
    ZeroBelow(SetPart(a, level, Part(a, level) + 1), level)
  }

  /** Moving to the next slot lands on the first page the next entry covers. */
  lemma NextSlotIsNextSpan(a: VAddr, level: nat)
    requires 1 <= level <= 4 && Part(a, level) < 511
    ensures Vpn(NextSlot(a, level)) == (Prefix(Vpn(a), level - 1) + 1) * Span(level - 1)
    ensures Prefix(Vpn(NextSlot(a, level)), level) == Prefix(Vpn(a), level)
    ensures Part(NextSlot(a, level), level) == Part(a, level) + 1
    ensures level < 4 ==> NextSlot(a, level).pml4 == a.pml4
  {
    hide Prefix, Span;
    Prefixes(a);
    Spans();
    var b := NextSlot(a, level);
    Prefixes(b);
    if level == 1 {
      assert b == a.(pt := a.pt + 1);
    } else if level == 2 {
      assert b == a.(pd := a.pd + 1, pt := 0);
    } else if level == 3 {
      assert b == a.(pdpt := a.pdpt + 1, pd := 0, pt := 0);
    } else {
      assert b == VAddr(a.pml4 + 1, 0, 0, 0);
    }
  }

  lemma Spans()
    ensures Span(0) == 1 && Span(1) == 512 && Span(2) == 0x4_0000 && Span(3) == 0x800_0000 && Span(4) == 0x10_0000_0000
  {
  }

  lemma SpanEnd(p: nat, level: nat)
    requires 1 <= level <= 4
    ensures (p * 512 + 512) * Span(level - 1) == (p + 1) * Span(level)
  {
    hide Span;
    Spans();
    assert level == 1 || level == 2 || level == 3 || level == 4;
  }

  // ----- page counts

  const INT_LIMIT: nat := 0x8000_0000

  /** A size_t converted to int. */
  function AsInt(n: nat): int
  {
    var low := n % 0x1_0000_0000;
    if low < INT_LIMIT then low else low - 0x1_0000_0000
  }

  /** The conversion keeps the number exactly when it is below 2^31; the first number it loses entirely is 2^32 - 1, which
      reads as -1. */
  lemma AsIntExact(n: nat)
    ensures AsInt(n) == n <==> n < INT_LIMIT
    ensures n < 0x1_0000_0000 ==> (AsInt(n) == -1 <==> n == 0xFFFF_FFFF)
  {
    if n >= 0x1_0000_0000 {
      assert AsInt(n) < INT_LIMIT;
    }
  }

  // ----- page table entries

  datatype Pte = Pte(present: bool, writable: bool, user: bool, owned: bool, frame: nat)

  const NO_ENTRY := Pte(false, false, false, false, 0)

  type Table = seq<Pte>

  function EmptyTable(): (t: Table)
    ensures |t| == 512 && forall i :: 0 <= i < 512 ==> t[i] == NO_ENTRY
  {
    seq(512, _ => NO_ENTRY)
  }

  type Page = p: seq<nat> | |p| == 4096 witness seq(4096, _ => 0)

  function ZeroPage(): (p: Page)
    ensures |p| == PAGE_BYTES && forall i :: 0 <= i < PAGE_BYTES ==> p[i] == 0
  {
    seq(PAGE_BYTES, _ => 0)
  }

  // ----- physical memory with address spaces

  /** Where a table sits: address space (its root frame), level, and the page-number prefix it serves. */
  datatype Pos = Pos(root: nat, level: nat, prefix: nat)

  /** tables, data, refs and pool are memory; pos, roots, leaves and kernel are the bookkeeping the proofs use: the
      position of every table, the live address spaces, the user translation (space, page) -> leaf entry, and the entries
      of the kernel half. */
  datatype State = State(
    tables: map<nat, Table>,
    data: map<nat, Page>,
    refs: map<nat, nat>,
    pool: set<nat>,
    pos: map<nat, Pos>,
    roots: set<nat>,
    leaves: map<(nat, nat), Pte>,
    kernel: seq<Pte>)

  predicate UserSlot(level: nat, i: nat)
  {
    i < 512 && (level == 4 ==> i >= USER_SPACE_START_INDEX)
  }

  function ChildPos(p: Pos, i: nat): Pos
    requires p.level > 0
  {
    Pos(p.root, p.level - 1, p.prefix * 512 + i)
  }

  /** Every table is at one position, and every address space has the same kernel half. */
  ghost predicate TablesWellFormed(s: State)
  {
    && s.pos.Keys == s.tables.Keys
    && (forall r :: r in s.roots ==> r in s.tables && s.pos[r] == Pos(r, 4, 0))
    && (forall f :: f in s.tables ==>
          && |s.tables[f]| == 512
          && 1 <= s.pos[f].level <= 4
          && s.pos[f].root in s.roots
          && (s.pos[f].level == 4 ==> f == s.pos[f].root))
    && |s.kernel| == USER_SPACE_START_INDEX
    && (forall r, i :: r in s.roots && 0 <= i < USER_SPACE_START_INDEX ==> s.tables[r][i] == s.kernel[i])
  }

  /** Every present user entry above level 1 points to the table at the position it stands for and lets every access pass:
      what a page allows is up to its level-1 entry. */
  ghost predicate ChildrenPlaced(s: State)
    requires TablesWellFormed(s)
  {
    forall f, i: nat :: f in s.tables && s.pos[f].level > 1 && UserSlot(s.pos[f].level, i) && s.tables[f][i].present ==>
      && s.tables[f][i].frame in s.tables && s.pos[s.tables[f][i].frame] == ChildPos(s.pos[f], i)
      && s.tables[f][i].user && s.tables[f][i].writable
  }

  ghost predicate PointsTo(s: State, g: nat, i: nat, f: nat)
    requires TablesWellFormed(s) && f in s.tables
  {
    && g in s.tables && s.pos[g].level > 1 && UserSlot(s.pos[g].level, i)
    && s.tables[g][i].present && s.tables[g][i].frame == f
    && s.pos[f] == ChildPos(s.pos[g], i)
  }

  ghost predicate HasParent(s: State, f: nat)
    requires TablesWellFormed(s) && f in s.tables
  {
    exists g, i :: PointsTo(s, g, i, f)
  }

  /** Every table below a root is pointed to: no table leaks. */
  ghost predicate ParentsExist(s: State)
    requires TablesWellFormed(s)
  {
    forall f {:trigger HasParent(s, f)} :: f in s.tables && s.pos[f].level < 4 ==> HasParent(s, f)
  }

  function LeafKey(p: Pos, i: nat): (nat, nat)
  {
    (p.root, p.prefix * 512 + i)
  }

  /** leaves is what the level-1 tables hold, and user code may read all of it. */
  ghost predicate LeavesAgree(s: State)
    requires TablesWellFormed(s)
  {
    && (forall f, i: nat :: f in s.tables && s.pos[f].level == 1 && i < 512 ==>
          (if s.tables[f][i].present
           then LeafKey(s.pos[f], i) in s.leaves && s.leaves[LeafKey(s.pos[f], i)] == s.tables[f][i]
           else LeafKey(s.pos[f], i) !in s.leaves))
    && (forall k {:trigger HasLeafTable(s, k)} :: k in s.leaves ==> HasLeafTable(s, k))
    && (forall k :: k in s.leaves ==> s.leaves[k].user)
  }

  ghost predicate HasLeafTable(s: State, k: (nat, nat))
    requires TablesWellFormed(s)
  {
    exists f :: LeafTable(s, k, f)
  }

  ghost predicate LeafTable(s: State, k: (nat, nat), f: nat)
    requires TablesWellFormed(s)
  {
    f in s.tables && s.pos[f] == Pos(k.0, 1, k.1 / 512)
  }

  /** The owned leaf entries that name data frame d. */
  ghost function Sharers(leaves: map<(nat, nat), Pte>, d: nat): set<(nat, nat)>
  {
    set k | k in leaves && leaves[k].owned && leaves[k].frame == d
  }

  /** A frame serves one purpose. */
  ghost predicate FramesPartitioned(s: State)
  {
    && s.tables.Keys !! s.data.Keys && s.tables.Keys !! s.pool && s.data.Keys !! s.pool
    && s.refs.Keys == s.tables.Keys + s.data.Keys + s.pool
  }

  /** A data page's count is the number of owned leaves naming it, and it is never zero. */
  ghost predicate PagesCounted(s: State)
    requires FramesPartitioned(s)
  {
    && (forall k :: k in s.leaves && s.leaves[k].owned ==> s.leaves[k].frame in s.data)
    && (forall d :: d in s.data ==> s.refs[d] == |Sharers(s.leaves, d)| && s.refs[d] > 0)
    && (forall f :: f in s.refs && f !in s.data ==> s.refs[f] == 0)
  }

  ghost predicate FramesAccounted(s: State)
  {
    FramesPartitioned(s) && PagesCounted(s)
  }

  ghost predicate Inv(s: State)
  {
    TablesWellFormed(s) && ChildrenPlaced(s) && ParentsExist(s) && LeavesAgree(s) && FramesAccounted(s)
  }

  lemma TableShape(s: State, f: nat)
    requires Inv(s) && f in s.tables
    ensures f in s.pos && s.tables.Keys == s.pos.Keys && |s.tables[f]| == 512 && 1 <= s.pos[f].level <= 4
  {
    hide ChildrenPlaced, ParentsExist, LeavesAgree, FramesAccounted;
  }

  lemma KernelHalf(s: State, r: nat)
    requires Inv(s) && r in s.roots
    ensures r in s.tables && |s.tables[r]| == 512 && s.tables[r][..USER_SPACE_START_INDEX] == s.kernel
  {
    hide ChildrenPlaced, ParentsExist, LeavesAgree, FramesAccounted;
  }

  lemma PoolShape(s: State, p: nat)
    requires Inv(s) && p in s.pool
    ensures p !in s.data && p !in s.tables && p !in s.pos && p in s.refs && s.refs[p] == 0
  {
    hide ChildrenPlaced, ParentsExist, LeavesAgree;
  }

  // ----- positions identify tables

  /** Two tables never sit at the same position: table trees of all spaces are disjoint. */
  lemma {:induction false} PositionsUnique(s: State, f: nat, g: nat)
    requires TablesWellFormed(s) && ParentsExist(s)
    requires f in s.tables && g in s.tables && s.pos[f] == s.pos[g]
    ensures f == g
    decreases 4 - s.pos[f].level
  {
    if s.pos[f].level < 4 {
      assert HasParent(s, f);
      var pf, i :| PointsTo(s, pf, i, f);
      assert HasParent(s, g);
      var pg, j :| PointsTo(s, pg, j, g);
      var a, b := s.pos[pf], s.pos[pg];
      SplitUnique(a.prefix, i, b.prefix, j);
      PositionsUnique(s, pf, pg);
    }
  }

  /** get_pte's walk: the table that translates page v at `level`, if every entry above is present. */
  function Walk(tables: map<nat, Table>, root: nat, v: nat, level: nat): (t: int)
    requires 1 <= level <= 4
    decreases 4 - level
  {
    if level == 4 then root
    else
      var up := Walk(tables, root, v, level + 1);
      if up < 0 || up !in tables || |tables[up]| != 512 || !tables[up][SlotOf(v, level + 1)].present then -1
      else tables[up][SlotOf(v, level + 1)].frame
  }

  /** What the processor lets user code do with page v: the entries on the way, from the root down to `level`, must all be
      present and user-accessible, and writable for a write. */
  predicate Passes(tables: map<nat, Table>, root: nat, v: nat, level: nat, write: bool)
    requires 1 <= level <= 4
    decreases 4 - level
  {
    var t := Walk(tables, root, v, level);
    && t >= 0 && t in tables && |tables[t]| == 512
    && tables[t][SlotOf(v, level)].present && tables[t][SlotOf(v, level)].user && (write ==> tables[t][SlotOf(v, level)].writable)
    && (level < 4 ==> Passes(tables, root, v, level + 1, write))
  }

  predicate UserMayRead(tables: map<nat, Table>, root: nat, v: nat)
  {
    Passes(tables, root, v, 1, false)
  }

  predicate UserMayWrite(tables: map<nat, Table>, root: nat, v: nat)
  {
    Passes(tables, root, v, 1, true)
  }

  predicate UserPage(v: nat)
  {
    256 <= Prefix(v, 3) < 512
  }

  lemma PrefixStep(v: nat, level: nat)
    ensures Prefix(v, level) == Prefix(v, level + 1) * 512 + SlotOf(v, level + 1)
  {
  }

  lemma UserPageSlot(v: nat, level: nat)
    requires UserPage(v) && 1 <= level <= 4
    ensures Prefix(v, 4) == 0 && UserSlot(level, SlotOf(v, level))
  {
  }

  /** If the table one level up has no entry for v, no table sits at v's position. */
  lemma NoTableAt(s: State, root: nat, v: nat, level: nat, up: nat)
    requires TablesWellFormed(s) && ParentsExist(s) && 1 <= level < 4
    requires up in s.tables && s.pos[up] == Pos(root, level + 1, Prefix(v, level + 1))
    requires !s.tables[up][SlotOf(v, level + 1)].present
    ensures forall f :: f in s.tables ==> s.pos[f] != Pos(root, level, Prefix(v, level))
  {
    hide Prefix;
    PrefixStep(v, level);
    forall f | f in s.tables && s.pos[f] == Pos(root, level, Prefix(v, level))
      ensures false
    {
      assert HasParent(s, f);
      var g, j :| PointsTo(s, g, j, f);
      SplitUnique(s.pos[g].prefix, j, Prefix(v, level + 1), SlotOf(v, level + 1));
      PositionsUnique(s, up, g);
    }
  }

  lemma NoTableUnder(s: State, root: nat, v: nat, level: nat)
    requires TablesWellFormed(s) && ParentsExist(s) && 1 <= level < 4
    requires forall f :: f in s.tables ==> s.pos[f] != Pos(root, level + 1, Prefix(v, level + 1))
    ensures forall f :: f in s.tables ==> s.pos[f] != Pos(root, level, Prefix(v, level))
  {
    hide Prefix;
    PrefixStep(v, level);
    forall f | f in s.tables && s.pos[f] == Pos(root, level, Prefix(v, level))
      ensures false
    {
      assert HasParent(s, f);
      var g, j :| PointsTo(s, g, j, f);
      SplitUnique(s.pos[g].prefix, j, Prefix(v, level + 1), SlotOf(v, level + 1));
    }
  }

  /** Walking finds exactly the table whose position is the page's prefix. */
  lemma {:induction false} WalkFindsPosition(s: State, root: nat, v: nat, level: nat)
    requires TablesWellFormed(s) && ChildrenPlaced(s) && ParentsExist(s)
    requires root in s.roots && UserPage(v) && 1 <= level <= 4
    ensures var t := Walk(s.tables, root, v, level);
            && (t >= 0 ==> t in s.tables && s.pos[t] == Pos(root, level, Prefix(v, level)))
            && (t < 0 ==> forall f :: f in s.tables ==> s.pos[f] != Pos(root, level, Prefix(v, level)))
    decreases 4 - level
  {
    hide Prefix, ParentsExist, UserPage;
    UserPageSlot(v, 4);
    if level < 4 {
      WalkFindsPosition(s, root, v, level + 1);
      PrefixStep(v, level);
      UserPageSlot(v, level + 1);
      var up := Walk(s.tables, root, v, level + 1);
      if up < 0 {
        NoTableUnder(s, root, v, level);
      } else if !s.tables[up][SlotOf(v, level + 1)].present {
        NoTableAt(s, root, v, level, up);
      }
    }
  }

  /** The hardware's view: the present leaf entry for page v of the space rooted at root. */
  predicate Translates(tables: map<nat, Table>, root: nat, v: nat, e: Pte)
  {
    var t := Walk(tables, root, v, 1);
    t >= 0 && t in tables && |tables[t]| == 512 && tables[t][SlotOf(v, 1)] == e && e.present
  }

  /** leaves is exactly the translation the walk computes, for every space and user page. */
  lemma LeavesAreTranslation(s: State, root: nat, v: nat, e: Pte)
    requires Inv(s) && root in s.roots && UserPage(v)
    ensures Translates(s.tables, root, v, e) <==> (root, v) in s.leaves && s.leaves[(root, v)] == e
  {
    hide ChildrenPlaced, ParentsExist, FramesAccounted, UserPage;
    WalkFindsPosition(s, root, v, 1);
    var t := Walk(s.tables, root, v, 1);
    assert Prefix(v, 0) == v && Prefix(v, 1) == v / 512;
    if t >= 0 {
      assert LeafKey(s.pos[t], v % 512) == (root, v);
    }
    if (root, v) in s.leaves {
      assert HasLeafTable(s, (root, v));
      var f :| LeafTable(s, (root, v), f);
    }
  }

  // ----- counting sharers

  lemma SharersInsert(leaves: map<(nat, nat), Pte>, k: (nat, nat), e: Pte, d: nat)
    requires k !in leaves
    ensures |Sharers(leaves[k := e], d)| == |Sharers(leaves, d)| + (if e.owned && e.frame == d then 1 else 0)
  {
    var before, after := Sharers(leaves, d), Sharers(leaves[k := e], d);
    if e.owned && e.frame == d {
      assert after == before + {k};
    } else {
      assert after == before;
    }
  }

  lemma SharersRemove(leaves: map<(nat, nat), Pte>, k: (nat, nat), d: nat)
    requires k in leaves
    ensures |Sharers(leaves - {k}, d)| == |Sharers(leaves, d)| - (if leaves[k].owned && leaves[k].frame == d then 1 else 0)
  {
    var rest := leaves - {k};
    SharersInsert(rest, k, leaves[k], d);
    assert rest[k := leaves[k]] == leaves;
  }

  lemma SharersSame(leaves: map<(nat, nat), Pte>, k: (nat, nat), e: Pte, d: nat)
    requires k in leaves && leaves[k].owned == e.owned && leaves[k].frame == e.frame
    ensures Sharers(leaves[k := e], d) == Sharers(leaves, d)
  {
  }
}
