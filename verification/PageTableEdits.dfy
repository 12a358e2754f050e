/** The single edits that page-table code makes to memory, each shown to keep the invariant of module PageTables. */
module PageTableEdits {
  import opened PageTables

  function PutEntry(tables: map<nat, Table>, f: nat, i: nat, e: Pte): map<nat, Table>
    requires f in tables && i < |tables[f]|
  {
    tables[f := tables[f][i := e]]
  }

  /** A position no entry points to holds no table. */
  lemma NoTableWithoutEntry(s: State, f: nat, i: nat)
    requires TablesWellFormed(s) && ParentsExist(s)
    requires f in s.tables && s.pos[f].level > 1 && i < 512 && !s.tables[f][i].present
    ensures forall g :: g in s.tables ==> s.pos[g] != ChildPos(s.pos[f], i)
  {
    forall g | g in s.tables && s.pos[g] == ChildPos(s.pos[f], i)
      ensures false
    {
      assert HasParent(s, g);
      var h, j :| PointsTo(s, h, j, g);
      SplitUnique(s.pos[h].prefix, j, s.pos[f].prefix, i);
      PositionsUnique(s, f, h);
    }
  }

  // ----- when an edit leaves pointers and leaf tables alone

  /** Every pointer of s is still there in t, so old tables keep their parents. */
  lemma ParentsKept(s: State, t: State, added: set<nat>)
    requires TablesWellFormed(s) && ParentsExist(s) && TablesWellFormed(t)
    requires forall f :: f in t.tables && t.pos[f].level < 4 && f !in added ==> f in s.tables && s.pos[f] == t.pos[f]
    requires forall g, i: nat, f :: f in t.tables && f in s.tables && PointsTo(s, g, i, f) ==> PointsTo(t, g, i, f)
    requires forall f :: f in added && f in t.tables ==> HasParent(t, f)
    ensures ParentsExist(t)
  {
    forall f | f in t.tables && t.pos[f].level < 4 && f !in added
      ensures HasParent(t, f)
    {
      assert HasParent(s, f);
      var g, i :| PointsTo(s, g, i, f);
      assert PointsTo(t, g, i, f);
    }
  }

  // ----- a new address space

  function AddRoot(s: State, r: nat, table: Table): State
  {
    s.(tables := s.tables[r := table],
       pool := s.pool - {r},
       pos := s.pos[r := Pos(r, 4, 0)],
       roots := s.roots + {r})
  }

  lemma AddRootKeeps(s: State, r: nat, table: Table)
    requires Inv(s) && r in s.pool
    requires |table| == 512 && forall i :: USER_SPACE_START_INDEX <= i < 512 ==> !table[i].present
    requires table[..USER_SPACE_START_INDEX] == s.kernel
    ensures Inv(AddRoot(s, r, table))
  {
    var t := AddRoot(s, r, table);
    assert r !in s.tables;
    AddRootTables(s, r, table);
    AddRootLeaves(s, r, table);
  }

  lemma AddRootTables(s: State, r: nat, table: Table)
    requires TablesWellFormed(s) && ChildrenPlaced(s) && ParentsExist(s) && r !in s.tables
    requires |table| == 512 && forall i :: USER_SPACE_START_INDEX <= i < 512 ==> !table[i].present
    requires table[..USER_SPACE_START_INDEX] == s.kernel
    ensures var t := AddRoot(s, r, table); TablesWellFormed(t) && ChildrenPlaced(t) && ParentsExist(t)
  {
    AddRootPlaced(s, r, table);
    hide ChildrenPlaced;
    ParentsKept(s, AddRoot(s, r, table), {});
  }

  lemma AddRootPlaced(s: State, r: nat, table: Table)
    requires TablesWellFormed(s) && ChildrenPlaced(s) && r !in s.tables
    requires |table| == 512 && forall i :: USER_SPACE_START_INDEX <= i < 512 ==> !table[i].present
    requires table[..USER_SPACE_START_INDEX] == s.kernel
    ensures var t := AddRoot(s, r, table); TablesWellFormed(t) && ChildrenPlaced(t)
  {
    var t := AddRoot(s, r, table);
    assert TablesWellFormed(t);
  }

  lemma AddRootLeaves(s: State, r: nat, table: Table)
    requires TablesWellFormed(s) && LeavesAgree(s) && r !in s.tables && TablesWellFormed(AddRoot(s, r, table))
    ensures LeavesAgree(AddRoot(s, r, table))
  {
    var t := AddRoot(s, r, table);
    forall k | k in t.leaves
      ensures HasLeafTable(t, k)
    {
      assert HasLeafTable(s, k);
      var f :| LeafTable(s, k, f);
      assert LeafTable(t, k, f);
    }
  }

  // ----- a new table under an absent entry

  function AddTable(s: State, f: nat, i: nat, e: Pte): State
    requires f in s.tables && i < |s.tables[f]| && f in s.pos && s.pos[f].level > 1
  {
    s.(tables := PutEntry(s.tables, f, i, e)[e.frame := EmptyTable()],
       pool := s.pool - {e.frame},
       pos := s.pos[e.frame := ChildPos(s.pos[f], i)])
  }

  lemma AddTableKeeps(s: State, f: nat, i: nat, e: Pte)
    requires Inv(s) && f in s.tables && s.pos[f].level > 1 && UserSlot(s.pos[f].level, i)
    requires !s.tables[f][i].present && e.present && e.user && e.writable && e.frame in s.pool
    ensures Inv(AddTable(s, f, i, e))
  {
    hide ChildrenPlaced, ParentsExist, LeavesAgree;
    NoTableWithoutEntry(s, f, i);
    assert e.frame !in s.tables;
    hide PagesCounted, FramesPartitioned;
    AddTableTables(s, f, i, e);
    AddTableLeaves(s, f, i, e);
    TakenTable(s, AddTable(s, f, i, e), e.frame);
  }

  /** A frame of the pool becomes a table. */
  lemma TakenTable(s: State, t: State, f: nat)
    requires FramesAccounted(s) && f in s.pool && t.tables.Keys == s.tables.Keys + {f} && t.pool == s.pool - {f}
    requires t.data == s.data && t.refs == s.refs && t.leaves == s.leaves
    ensures FramesAccounted(t)
  {
    hide Sharers;
  }

  lemma AddTableTables(s: State, f: nat, i: nat, e: Pte)
    requires TablesWellFormed(s) && ChildrenPlaced(s) && ParentsExist(s)
    requires f in s.tables && s.pos[f].level > 1 && UserSlot(s.pos[f].level, i)
    requires !s.tables[f][i].present && e.present && e.user && e.writable && e.frame !in s.tables
    ensures var t := AddTable(s, f, i, e); TablesWellFormed(t) && ChildrenPlaced(t) && ParentsExist(t)
  {
    hide ParentsExist, ChildrenPlaced;
    AddTableShape(s, f, i, e);
    hide TablesWellFormed;
    AddTablePlaced(s, f, i, e);
    AddTableParents(s, f, i, e);
  }

  lemma AddTableShape(s: State, f: nat, i: nat, e: Pte)
    requires TablesWellFormed(s) && f in s.tables && s.pos[f].level > 1 && UserSlot(s.pos[f].level, i) && e.frame !in s.tables
    ensures TablesWellFormed(AddTable(s, f, i, e))
  {
  }

  lemma AddTablePlaced(s: State, f: nat, i: nat, e: Pte)
    requires TablesWellFormed(s) && ChildrenPlaced(s)
    requires f in s.tables && s.pos[f].level > 1 && UserSlot(s.pos[f].level, i)
    requires e.present && e.user && e.writable && e.frame !in s.tables
    requires TablesWellFormed(AddTable(s, f, i, e))
    ensures ChildrenPlaced(AddTable(s, f, i, e))
  {
    var t := AddTable(s, f, i, e);
    forall g, j: nat | g in t.tables && t.pos[g].level > 1 && UserSlot(t.pos[g].level, j) && t.tables[g][j].present
      ensures t.tables[g][j].frame in t.tables && t.pos[t.tables[g][j].frame] == ChildPos(t.pos[g], j)
      ensures t.tables[g][j].user && t.tables[g][j].writable
    {
      if g != e.frame && (g != f || j != i) {
        assert t.tables[g][j] == s.tables[g][j];
      }
    }
  }

  lemma AddTableParents(s: State, f: nat, i: nat, e: Pte)
    requires TablesWellFormed(s) && ParentsExist(s)
    requires f in s.tables && s.pos[f].level > 1 && UserSlot(s.pos[f].level, i)
    requires !s.tables[f][i].present && e.present && e.frame !in s.tables
    requires TablesWellFormed(AddTable(s, f, i, e))
    ensures ParentsExist(AddTable(s, f, i, e))
  {
    var t := AddTable(s, f, i, e);
    forall g | g in t.tables && t.pos[g].level < 4
      ensures HasParent(t, g)
    {
      if g == e.frame {
        assert PointsTo(t, f, i, g);
      } else {
        assert HasParent(s, g);
        var h, j :| PointsTo(s, h, j, g);
        assert PointsTo(t, h, j, g);
      }
    }
  }

  lemma AddTableLeaves(s: State, f: nat, i: nat, e: Pte)
    requires TablesWellFormed(s) && LeavesAgree(s) && f in s.tables && s.pos[f].level > 1 && UserSlot(s.pos[f].level, i)
    requires e.frame !in s.tables && TablesWellFormed(AddTable(s, f, i, e))
    requires forall g :: g in s.tables ==> s.pos[g] != ChildPos(s.pos[f], i)
    ensures LeavesAgree(AddTable(s, f, i, e))
  {
    var t := AddTable(s, f, i, e);
    forall k | k in t.leaves
      ensures HasLeafTable(t, k)
    {
      assert HasLeafTable(s, k);
      var g :| LeafTable(s, k, g);
      assert LeafTable(t, k, g);
    }
    forall g, j: nat | g in t.tables && t.pos[g].level == 1 && j < 512
      ensures if t.tables[g][j].present
              then LeafKey(t.pos[g], j) in t.leaves && t.leaves[LeafKey(t.pos[g], j)] == t.tables[g][j]
              else LeafKey(t.pos[g], j) !in t.leaves
    {
      if g == e.frame {
        NoLeafHere(s, t.pos[g], j);
      } else {
        assert t.tables[g] == s.tables[g];
      }
    }
  }

  /** Where no table is there is no leaf. */
  lemma NoLeafHere(s: State, q: Pos, j: nat)
    requires TablesWellFormed(s) && LeavesAgree(s) && q.level == 1 && j < 512
    requires forall g :: g in s.tables ==> s.pos[g] != q
    ensures LeafKey(q, j) !in s.leaves
  {
    assert (q.prefix * 512 + j) / 512 == q.prefix;
    assert !HasLeafTable(s, LeafKey(q, j));
  }

  // ----- other bits of a present entry above level 1

  lemma FlagEditKeeps(s: State, f: nat, i: nat, e: Pte)
    requires Inv(s) && f in s.tables && s.pos[f].level > 1 && UserSlot(s.pos[f].level, i)
    requires s.tables[f][i].present && e.present && e.user && e.writable && e.frame == s.tables[f][i].frame
    ensures Inv(s.(tables := PutEntry(s.tables, f, i, e)))
  {
    hide FramesAccounted;
    var t := s.(tables := PutEntry(s.tables, f, i, e));
    FlagEditTables(s, t, f, i, e);
    FlagEditLeaves(s, t, f, i, e);
    assert FramesAccounted(t) by { SameAccounts(s, t); }
  }

  lemma SameAccounts(s: State, t: State)
    requires FramesAccounted(s)
    requires t.tables.Keys == s.tables.Keys && t.data == s.data && t.refs == s.refs && t.pool == s.pool && t.leaves == s.leaves
    ensures FramesAccounted(t)
  {
  }

  lemma FlagEditTables(s: State, t: State, f: nat, i: nat, e: Pte)
    requires TablesWellFormed(s) && ChildrenPlaced(s) && ParentsExist(s)
    requires f in s.tables && s.pos[f].level > 1 && UserSlot(s.pos[f].level, i)
    requires s.tables[f][i].present && e.present && e.user && e.writable && e.frame == s.tables[f][i].frame
    requires t == s.(tables := PutEntry(s.tables, f, i, e))
    ensures TablesWellFormed(t) && ChildrenPlaced(t) && ParentsExist(t)
  {
    assert TablesWellFormed(t);
    ParentsKept(s, t, {});
  }

  lemma FlagEditLeaves(s: State, t: State, f: nat, i: nat, e: Pte)
    requires TablesWellFormed(s) && LeavesAgree(s) && TablesWellFormed(t)
    requires f in s.tables && s.pos[f].level > 1 && i < 512
    requires t == s.(tables := PutEntry(s.tables, f, i, e))
    ensures LeavesAgree(t)
  {
    forall k | k in t.leaves
      ensures HasLeafTable(t, k)
    {
      assert HasLeafTable(s, k);
      var g :| LeafTable(s, k, g);
      assert LeafTable(t, k, g);
    }
  }

  // ----- leaf entries

  /** Writing a level-1 entry changes one translation and no table structure. */
  ghost function SetLeaf(s: State, f: nat, i: nat, e: Pte): State
    requires f in s.tables && i < |s.tables[f]| && f in s.pos
  {
    var k := LeafKey(s.pos[f], i);
    s.(tables := PutEntry(s.tables, f, i, e),
       leaves := if e.present then s.leaves[k := e] else s.leaves - {k})
  }

  lemma SetLeafTables(s: State, f: nat, i: nat, e: Pte)
    requires TablesWellFormed(s) && ChildrenPlaced(s) && ParentsExist(s)
    requires f in s.tables && s.pos[f].level == 1 && i < 512
    ensures var t := SetLeaf(s, f, i, e); TablesWellFormed(t) && ChildrenPlaced(t) && ParentsExist(t)
  {
    var t := SetLeaf(s, f, i, e);
    assert TablesWellFormed(t);
    ParentsKept(s, t, {});
  }

  lemma SetLeafLeaves(s: State, f: nat, i: nat, e: Pte)
    requires TablesWellFormed(s) && ParentsExist(s) && LeavesAgree(s)
    requires f in s.tables && s.pos[f].level == 1 && i < 512 && (e.present ==> e.user)
    requires TablesWellFormed(SetLeaf(s, f, i, e))
    ensures LeavesAgree(SetLeaf(s, f, i, e))
  {
    hide ParentsExist;
    var t := SetLeaf(s, f, i, e);
    var k := LeafKey(s.pos[f], i);
    forall l | l in t.leaves
      ensures HasLeafTable(t, l)
    {
      if l == k {
        assert k.1 / 512 == s.pos[f].prefix;
        assert LeafTable(t, l, f);
      } else {
        assert HasLeafTable(s, l);
        var g :| LeafTable(s, l, g);
        assert LeafTable(t, l, g);
      }
    }
    forall g, j: nat | g in t.tables && t.pos[g].level == 1 && j < 512 && (g != f || j != i)
      ensures LeafKey(t.pos[g], j) != k
    {
      LeafKeysDiffer(s, f, i, g, j);
    }
  }

  lemma LeafKeysDiffer(s: State, f: nat, i: nat, g: nat, j: nat)
    requires TablesWellFormed(s) && ParentsExist(s)
    requires f in s.tables && s.pos[f].level == 1 && i < 512
    requires g in s.tables && s.pos[g].level == 1 && j < 512
    requires g != f || j != i
    ensures LeafKey(s.pos[g], j) != LeafKey(s.pos[f], i)
  {
    if LeafKey(s.pos[g], j) == LeafKey(s.pos[f], i) {
      SplitUnique(s.pos[g].prefix, j, s.pos[f].prefix, i);
      PositionsUnique(s, f, g);
    }
  }

  lemma SetLeafStructure(s: State, f: nat, i: nat, e: Pte)
    requires TablesWellFormed(s) && ChildrenPlaced(s) && ParentsExist(s) && LeavesAgree(s)
    requires f in s.tables && s.pos[f].level == 1 && i < 512 && (e.present ==> e.user)
    ensures var t := SetLeaf(s, f, i, e);
            TablesWellFormed(t) && ChildrenPlaced(t) && ParentsExist(t) && LeavesAgree(t)
  {
    hide ChildrenPlaced, ParentsExist, LeavesAgree, TablesWellFormed;
    SetLeafTables(s, f, i, e);
    SetLeafLeaves(s, f, i, e);
  }

  // ----- reference counts

  /** The count side of installing leaf e: a page taken from the pool starts at one, a shared page gains one. */
  function AddRef(s: State, e: Pte, page: Page): State
    requires e.owned && e.frame in s.data ==> e.frame in s.refs
  {
    if !e.owned then s
    else if e.frame in s.data then s.(refs := s.refs[e.frame := s.refs[e.frame] + 1])
    else s.(data := s.data[e.frame := page], pool := s.pool - {e.frame}, refs := s.refs[e.frame := 1])
  }

  /** The count side of clearing leaf e: dec_ref, and back to the pool when the count reaches zero. */
  function DropRef(s: State, e: Pte): State
    requires e.owned ==> e.frame in s.refs
  {
    if !e.owned then s
    else if s.refs[e.frame] > 1 then s.(refs := s.refs[e.frame := s.refs[e.frame] - 1])
    else s.(data := s.data - {e.frame}, pool := s.pool + {e.frame}, refs := s.refs[e.frame := 0])
  }

  lemma AddLeafKeeps(s: State, f: nat, i: nat, e: Pte, page: Page)
    requires Inv(s) && f in s.tables && s.pos[f].level == 1 && i < 512
    requires !s.tables[f][i].present && e.present && e.user
    requires e.owned ==> e.frame in s.data || e.frame in s.pool
    ensures Inv(SetLeaf(AddRef(s, e, page), f, i, e))
  {
    hide ChildrenPlaced, ParentsExist, FramesAccounted;
    var k := LeafKey(s.pos[f], i);
    assert k !in s.leaves;
    assert e.owned && e.frame in s.data ==> e.frame in s.refs by { Accounted(s); }
    var u := AddRef(s, e, page);
    SameTables(s, u);
    SetLeafStructure(u, f, i, e);
    AddLeafAccounts(s, SetLeaf(u, f, i, e), k, e, page);
  }

  lemma Accounted(s: State)
    requires FramesAccounted(s)
    ensures s.refs.Keys == s.tables.Keys + s.data.Keys + s.pool
    ensures forall k :: k in s.leaves && s.leaves[k].owned ==> s.leaves[k].frame in s.data
  {
  }

  lemma SameTables(s: State, u: State)
    requires TablesWellFormed(s) && ChildrenPlaced(s) && ParentsExist(s) && LeavesAgree(s)
    requires u.tables == s.tables && u.pos == s.pos && u.roots == s.roots && u.leaves == s.leaves && u.kernel == s.kernel
    ensures TablesWellFormed(u) && ChildrenPlaced(u) && ParentsExist(u) && LeavesAgree(u)
  {
    assert TablesWellFormed(u);
    ParentsKept(s, u, {});
    forall k | k in u.leaves
      ensures HasLeafTable(u, k)
    {
      assert HasLeafTable(s, k);
      var f :| LeafTable(s, k, f);
      assert LeafTable(u, k, f);
    }
  }

  lemma AddLeafAccounts(s: State, t: State, k: (nat, nat), e: Pte, page: Page)
    requires FramesAccounted(s) && k !in s.leaves
    requires e.owned ==> e.frame in s.data || e.frame in s.pool
    requires var u := AddRef(s, e, page);
             && t.tables.Keys == s.tables.Keys && t.leaves == s.leaves[k := e]
             && t.data == u.data && t.refs == u.refs && t.pool == u.pool
    ensures FramesAccounted(t)
  {
    AddLeafPages(s, t, k, e, page);
    hide PagesCounted;
  }

  lemma AddLeafPages(s: State, t: State, k: (nat, nat), e: Pte, page: Page)
    requires FramesAccounted(s) && k !in s.leaves && FramesPartitioned(t)
    requires e.owned ==> e.frame in s.data || e.frame in s.pool
    requires var u := AddRef(s, e, page);
             && t.tables.Keys == s.tables.Keys && t.leaves == s.leaves[k := e]
             && t.data == u.data && t.refs == u.refs && t.pool == u.pool
    ensures PagesCounted(t)
  {
    hide Sharers;
    forall d | d in t.data
      ensures t.refs[d] == |Sharers(t.leaves, d)| && t.refs[d] > 0
    {
      AddLeafCount(s, k, e, d);
    }
    forall l | l in t.leaves && t.leaves[l].owned
      ensures t.leaves[l].frame in t.data
    {
      assert l != k ==> l in s.leaves && s.leaves[l] == t.leaves[l];
    }
  }

  lemma AddLeafCount(s: State, k: (nat, nat), e: Pte, d: nat)
    requires FramesAccounted(s) && k !in s.leaves
    ensures |Sharers(s.leaves[k := e], d)| == (if d in s.data then s.refs[d] else 0) + if e.owned && e.frame == d then 1 else 0
  {
    SharersInsert(s.leaves, k, e, d);
    if d !in s.data {
      assert Sharers(s.leaves, d) == {};
    }
  }

  lemma RemoveLeafKeeps(s: State, f: nat, i: nat)
    requires Inv(s) && f in s.tables && s.pos[f].level == 1 && i < 512 && s.tables[f][i].present
    ensures s.tables[f][i].owned ==> s.tables[f][i].frame in s.data && s.tables[f][i].frame in s.refs
    ensures Inv(DropRef(SetLeaf(s, f, i, NO_ENTRY), s.tables[f][i]))
  {
    hide ChildrenPlaced, ParentsExist, FramesAccounted;
    var k, e := LeafKey(s.pos[f], i), s.tables[f][i];
    assert k in s.leaves && s.leaves[k] == e;
    Accounted(s);
    SetLeafStructure(s, f, i, NO_ENTRY);
    var u := SetLeaf(s, f, i, NO_ENTRY);
    SameTables(u, DropRef(u, e));
    RemoveLeafAccounts(s, DropRef(u, e), k);
  }

  lemma NoSharers(leaves: map<(nat, nat), Pte>, d: nat)
    requires |Sharers(leaves, d)| == 0
    ensures forall l :: l in leaves && leaves[l].owned ==> leaves[l].frame != d
  {
    forall l | l in leaves && leaves[l].owned
      ensures leaves[l].frame != d
    {
      assert l !in Sharers(leaves, d);
    }
  }

  lemma RemoveLeafAccounts(s: State, t: State, k: (nat, nat))
    requires FramesAccounted(s) && k in s.leaves
    requires s.leaves[k].owned ==> s.leaves[k].frame in s.refs
    requires var u := DropRef(s, s.leaves[k]);
             && t.tables.Keys == s.tables.Keys && t.leaves == s.leaves - {k}
             && t.data == u.data && t.refs == u.refs && t.pool == u.pool
    ensures FramesAccounted(t)
  {
    hide Sharers, FramesAccounted;
    RemoveLeafCounts(s, k);
    var e := s.leaves[k];
    if e.owned && s.refs[e.frame] <= 1 {
      LastLeafAccounts(s, t, k);
    } else {
      SharedLeafAccounts(s, t, k);
    }
  }

  ghost predicate CountsWithout(s: State, leaves: map<(nat, nat), Pte>, k: (nat, nat))
    requires k in s.leaves
  {
    forall d :: d in s.data ==>
      && d in s.refs
      && |Sharers(leaves, d)| + (if s.leaves[k].owned && s.leaves[k].frame == d then 1 else 0) == s.refs[d]
  }

  lemma RemoveLeafCounts(s: State, k: (nat, nat))
    requires FramesAccounted(s) && k in s.leaves
    ensures CountsWithout(s, s.leaves - {k}, k)
  {
    forall d | d in s.data
      ensures |Sharers(s.leaves - {k}, d)| + (if s.leaves[k].owned && s.leaves[k].frame == d then 1 else 0) == s.refs[d]
    {
      SharersRemove(s.leaves, k, d);
    }
  }

  lemma SharedLeafAccounts(s: State, t: State, k: (nat, nat))
    requires FramesAccounted(s) && k in s.leaves
    requires CountsWithout(s, t.leaves, k)
    requires s.leaves[k].owned ==> s.leaves[k].frame in s.refs && s.refs[s.leaves[k].frame] > 1
    requires t.tables.Keys == s.tables.Keys && t.leaves == s.leaves - {k} && t.data == s.data && t.pool == s.pool
    requires t.refs == if s.leaves[k].owned then s.refs[s.leaves[k].frame := s.refs[s.leaves[k].frame] - 1] else s.refs
    ensures FramesAccounted(t)
  {
    hide Sharers;
    assert forall l :: l in t.leaves ==> l in s.leaves && t.leaves[l] == s.leaves[l];
  }

  lemma LastLeafAccounts(s: State, t: State, k: (nat, nat))
    requires FramesAccounted(s) && k in s.leaves
    requires CountsWithout(s, t.leaves, k)
    requires var e := s.leaves[k]; e.owned && e.frame in s.refs && s.refs[e.frame] <= 1
    requires t.tables.Keys == s.tables.Keys && t.leaves == s.leaves - {k}
    requires var d := s.leaves[k].frame;
             t.data == s.data - {d} && t.pool == s.pool + {d} && t.refs == s.refs[d := 0]
    ensures FramesAccounted(t)
  {
    hide Sharers;
    LastLeafFrames(s, t, s.leaves[k].frame);
    NoSharers(t.leaves, s.leaves[k].frame);
    hide FramesPartitioned;
    assert forall l :: l in t.leaves ==> l in s.leaves && t.leaves[l] == s.leaves[l];
  }

  lemma LastLeafFrames(s: State, t: State, d: nat)
    requires FramesAccounted(s) && d in s.data && t.tables.Keys == s.tables.Keys
    requires t.data == s.data - {d} && t.pool == s.pool + {d} && t.refs.Keys == s.refs.Keys
    ensures FramesPartitioned(t)
  {
    hide PagesCounted;
  }

  lemma FlagLeafKeeps(s: State, f: nat, i: nat, e: Pte)
    requires Inv(s) && f in s.tables && s.pos[f].level == 1 && i < 512
    requires s.tables[f][i].present && e.present && e.user && e.owned == s.tables[f][i].owned && e.frame == s.tables[f][i].frame
    ensures Inv(SetLeaf(s, f, i, e))
  {
    hide ChildrenPlaced, ParentsExist;
    var k := LeafKey(s.pos[f], i);
    assert k in s.leaves && s.leaves[k] == s.tables[f][i];
    SetLeafStructure(s, f, i, e);
    forall d | d in s.data
      ensures Sharers(s.leaves[k := e], d) == Sharers(s.leaves, d)
    {
      SharersSame(s.leaves, k, e, d);
    }
  }

  /** User stores change the bytes of a data page and nothing else. */
  lemma StoreKeeps(s: State, d: nat, page: Page)
    requires Inv(s) && d in s.data
    ensures Inv(s.(data := s.data[d := page]))
  {
    hide ChildrenPlaced, ParentsExist, LeavesAgree, TablesWellFormed;
    SameTables(s, s.(data := s.data[d := page]));
  }

  // ----- removing an emptied table, and an emptied space

  predicate UserSlotsEmpty(table: Table, level: nat)
  {
    |table| == 512 && forall i | 0 <= i < 512 :: UserSlot(level, i) ==> !table[i].present
  }

  function RemoveTable(s: State, f: nat, i: nat): State
    requires f in s.tables && i < |s.tables[f]|
  {
    var c := s.tables[f][i].frame;
    s.(tables := PutEntry(s.tables, f, i, NO_ENTRY) - {c}, pool := s.pool + {c}, pos := s.pos - {c})
  }

  lemma RemoveTableKeeps(s: State, f: nat, i: nat)
    requires Inv(s) && f in s.tables && s.pos[f].level > 1 && UserSlot(s.pos[f].level, i) && s.tables[f][i].present
    requires var c := s.tables[f][i].frame; c in s.tables && UserSlotsEmpty(s.tables[c], s.pos[c].level)
    ensures Inv(RemoveTable(s, f, i))
  {
    var c := s.tables[f][i].frame;
    var t := RemoveTable(s, f, i);
    assert c != f && s.pos[c] == ChildPos(s.pos[f], i) && s.pos[c].level < 4;
    RemoveTableTables(s, f, i);
    hide ChildrenPlaced, ParentsExist, LeavesAgree, PagesCounted, FramesPartitioned;
    RemoveTableLeaves(s, f, i);
    FreedTable(s, t, c);
  }

  lemma RemoveTableTables(s: State, f: nat, i: nat)
    requires TablesWellFormed(s) && ChildrenPlaced(s) && ParentsExist(s)
    requires f in s.tables && s.pos[f].level > 1 && UserSlot(s.pos[f].level, i) && s.tables[f][i].present
    requires var c := s.tables[f][i].frame; c in s.tables && UserSlotsEmpty(s.tables[c], s.pos[c].level)
    ensures var t := RemoveTable(s, f, i); TablesWellFormed(t) && ChildrenPlaced(t) && ParentsExist(t)
  {
    hide ParentsExist;
    assert s.pos[s.tables[f][i].frame] == ChildPos(s.pos[f], i);
    hide ChildrenPlaced;
    RemoveTableShape(s, f, i);
    hide TablesWellFormed;
    RemoveTablePlaced(s, f, i);
    RemoveTableParents(s, f, i);
  }

  lemma RemoveTableShape(s: State, f: nat, i: nat)
    requires TablesWellFormed(s) && f in s.tables && s.pos[f].level > 1 && UserSlot(s.pos[f].level, i)
    requires var c := s.tables[f][i].frame; c in s.tables && c != f && s.pos[c].level < 4
    ensures TablesWellFormed(RemoveTable(s, f, i))
  {
  }

  lemma RemoveTablePlaced(s: State, f: nat, i: nat)
    requires TablesWellFormed(s) && ChildrenPlaced(s) && ParentsExist(s)
    requires f in s.tables && s.pos[f].level > 1 && UserSlot(s.pos[f].level, i) && s.tables[f][i].present
    requires s.tables[f][i].frame in s.tables && TablesWellFormed(RemoveTable(s, f, i))
    ensures ChildrenPlaced(RemoveTable(s, f, i))
  {
    var t := RemoveTable(s, f, i);
    forall g, j: nat | g in t.tables && t.pos[g].level > 1 && UserSlot(t.pos[g].level, j) && t.tables[g][j].present
      ensures t.tables[g][j].frame in t.tables && t.pos[t.tables[g][j].frame] == ChildPos(t.pos[g], j)
      ensures t.tables[g][j].user && t.tables[g][j].writable
    {
      assert t.tables[g][j] == s.tables[g][j];
      OnePointer(s, f, i, g, j);
    }
  }

  lemma RemoveTableParents(s: State, f: nat, i: nat)
    requires TablesWellFormed(s) && ParentsExist(s)
    requires f in s.tables && s.pos[f].level > 1 && UserSlot(s.pos[f].level, i) && s.tables[f][i].present
    requires var c := s.tables[f][i].frame; c in s.tables && UserSlotsEmpty(s.tables[c], s.pos[c].level)
    requires TablesWellFormed(RemoveTable(s, f, i))
    ensures ParentsExist(RemoveTable(s, f, i))
  {
    var c := s.tables[f][i].frame;
    var t := RemoveTable(s, f, i);
    forall g | g in t.tables && t.pos[g].level < 4
      ensures HasParent(t, g)
    {
      assert HasParent(s, g);
      var h, j :| PointsTo(s, h, j, g);
      assert h != c;
      assert PointsTo(t, h, j, g);
    }
  }

  /** Distinct present entries point to distinct tables. */
  lemma OnePointer(s: State, f: nat, i: nat, g: nat, j: nat)
    requires TablesWellFormed(s) && ChildrenPlaced(s) && ParentsExist(s)
    requires f in s.tables && s.pos[f].level > 1 && UserSlot(s.pos[f].level, i) && s.tables[f][i].present
    requires g in s.tables && s.pos[g].level > 1 && UserSlot(s.pos[g].level, j) && s.tables[g][j].present
    requires f != g || i != j
    ensures s.tables[f][i].frame != s.tables[g][j].frame
  {
    if s.tables[f][i].frame == s.tables[g][j].frame {
      SplitUnique(s.pos[f].prefix, i, s.pos[g].prefix, j);
      PositionsUnique(s, f, g);
    }
  }

  lemma RemoveTableLeaves(s: State, f: nat, i: nat)
    requires TablesWellFormed(s) && LeavesAgree(s) && f in s.tables && s.pos[f].level > 1 && i < 512
    requires var c := s.tables[f][i].frame; c in s.tables && UserSlotsEmpty(s.tables[c], s.pos[c].level)
    requires TablesWellFormed(RemoveTable(s, f, i))
    ensures LeavesAgree(RemoveTable(s, f, i))
  {
    var c := s.tables[f][i].frame;
    var t := RemoveTable(s, f, i);
    forall k | k in t.leaves
      ensures HasLeafTable(t, k)
    {
      assert HasLeafTable(s, k);
      var g :| LeafTable(s, k, g);
      LeafPresent(s, k, g);
      assert LeafTable(t, k, g);
    }
  }

  lemma LeafPresent(s: State, k: (nat, nat), g: nat)
    requires TablesWellFormed(s) && LeavesAgree(s) && k in s.leaves && LeafTable(s, k, g)
    ensures s.tables[g][k.1 % 512].present && s.tables[g][k.1 % 512] == s.leaves[k]
  {
    assert LeafKey(s.pos[g], k.1 % 512) == k;
  }

  function RemoveRoot(s: State, r: nat): State
  {
    s.(tables := s.tables - {r}, pool := s.pool + {r}, pos := s.pos - {r}, roots := s.roots - {r})
  }

  lemma RemoveRootKeeps(s: State, r: nat)
    requires Inv(s) && r in s.roots && UserSlotsEmpty(s.tables[r], 4)
    ensures Inv(RemoveRoot(s, r))
    ensures forall k :: k in s.leaves ==> k.0 != r
  {
    hide ChildrenPlaced, ParentsExist, LeavesAgree, PagesCounted, FramesPartitioned;
    var t := RemoveRoot(s, r);
    forall f | f in s.tables && s.pos[f].root == r
      ensures f == r
    {
      OnlyRootLeft(s, r, f);
    }
    RemoveRootTables(s, r);
    RemoveRootLeaves(s, r);
    FreedTable(s, t, r);
  }

  /** A table's frame goes back to the pool. */
  lemma FreedTable(s: State, t: State, f: nat)
    requires FramesAccounted(s) && f in s.tables && t.tables.Keys == s.tables.Keys - {f} && t.pool == s.pool + {f}
    requires t.data == s.data && t.refs == s.refs && t.leaves == s.leaves
    ensures FramesAccounted(t)
  {
    hide Sharers;
  }

  lemma {:induction false} OnlyRootLeft(s: State, r: nat, f: nat)
    requires TablesWellFormed(s) && ParentsExist(s) && r in s.roots && UserSlotsEmpty(s.tables[r], 4)
    requires f in s.tables && s.pos[f].root == r
    ensures f == r
    decreases 4 - s.pos[f].level
  {
    if s.pos[f].level < 4 {
      assert HasParent(s, f);
      var g, i :| PointsTo(s, g, i, f);
      OnlyRootLeft(s, r, g);
    }
  }

  lemma RemoveRootTables(s: State, r: nat)
    requires TablesWellFormed(s) && ChildrenPlaced(s) && ParentsExist(s) && r in s.roots
    requires forall f :: f in s.tables && s.pos[f].root == r ==> f == r
    ensures var t := RemoveRoot(s, r); TablesWellFormed(t) && ChildrenPlaced(t) && ParentsExist(t)
  {
    var t := RemoveRoot(s, r);
    assert TablesWellFormed(t);
    forall g | g in t.tables && t.pos[g].level < 4
      ensures HasParent(t, g)
    {
      assert HasParent(s, g);
      var h, j :| PointsTo(s, h, j, g);
      assert PointsTo(t, h, j, g);
    }
  }

  lemma RemoveRootLeaves(s: State, r: nat)
    requires TablesWellFormed(s) && LeavesAgree(s) && r in s.roots
    requires forall f :: f in s.tables && s.pos[f].root == r ==> f == r
    requires TablesWellFormed(RemoveRoot(s, r))
    ensures LeavesAgree(RemoveRoot(s, r))
    ensures forall k :: k in s.leaves ==> k.0 != r
  {
    var t := RemoveRoot(s, r);
    forall k | k in t.leaves
      ensures HasLeafTable(t, k) && k.0 != r
    {
      assert HasLeafTable(s, k);
      var g :| LeafTable(s, k, g);
      assert LeafTable(t, k, g);
    }
  }
}
