/** Address spaces as kernel/memory/paging.cpp builds, shares, copies and tears them down. */
module Paging {
  import opened Common
  import opened PageTables
  import opened PageTableEdits
  import opened PagingEffects
  import opened CloneCounts
  import opened PrivateMemory
  import opened ForeignFrames
  import opened UserAccess
  import opened SpaceSteps

  class AddressSpaces {
    var tables: map<nat, Table>
    var data: map<nat, Page>
    var refs: map<nat, nat>
    var pool: set<nat>
    var cr3: nat
    ghost const kernel: seq<Pte>
    ghost var pos: map<nat, Pos>
    ghost var roots: set<nat>
    ghost var leaves: map<(nat, nat), Pte>

    ghost function S(): State
      reads this
    {
      State(tables, data, refs, pool, pos, roots, leaves, kernel)
    }

    ghost predicate Valid()
      reads this
    {
      Inv(S()) && cr3 in roots
    }

    method MapFreshPage(table: nat, i: nat, w: bool)
      requires Inv(S()) && table in tables && pos[table].level == 1 && i < 512 && !tables[table][i].present && pool != {}
      modifies this
      ensures cr3 == old(cr3) && roots == old(roots)
      ensures Inv(S()) && Mapped(old(S()), S(), old(pos)[table].root, old(pos)[table].prefix * 512 + i, old(pos)[table].prefix * 512 + i + 1, w)
    {
      hide Inv, Mapped, LeafKey;
      TableShape(S(), table);
      ghost var s, k := S(), LeafKey(pos[table], i);
      var page :| page in pool;
      PoolShape(s, page);
      var entry := tables[table][i].(frame := page, present := true, user := true, writable := w, owned := true);
      MappedFresh(s, table, i, entry);
      data, pool := data[page := ZeroPage()], pool - {page};
      refs := refs[page := refs[page] + 1];
      tables := PutEntry(tables, table, i, entry);
      leaves := leaves[k := entry];
      assert S() == SetLeaf(AddRef(s, entry, ZeroPage()), table, i, entry);
    }

    /** Boot: one address space with the given kernel half, no user page, and every other frame in the pool. */
    constructor (frames: set<nat>, root: nat, kernelHalf: seq<Pte>)
      requires root in frames && |kernelHalf| == USER_SPACE_START_INDEX
      ensures Valid() && Unshared(leaves) && cr3 == root && roots == {root} && leaves == map[] && refs.Keys == frames
    {
      tables := map[root := kernelHalf + EmptyTable()[USER_SPACE_START_INDEX..]];
      data, pool, cr3 := map[], frames - {root}, root;
      refs := map f | f in frames :: 0;
      pos, roots, leaves, kernel := map[root := Pos(root, 4, 0)], {root}, map[], kernelHalf;
    }

    /** One level-1 step of setup_page_table: keep a present page, or map a fresh zeroed one. */
    method SetupLeaf(table: nat, i: nat, w: bool) returns (ok: bool)
      requires Valid() && table in tables && pos[table].level == 1 && i < 512
      modifies this
      ensures Valid() && cr3 == old(cr3)
      ensures ok ==> Mapped(old(S()), S(), old(pos)[table].root, old(pos)[table].prefix * 512 + i, old(pos)[table].prefix * 512 + i + 1, w)
      ensures !ok ==> S() == old(S()) && pool == {}
    {
      hide Inv, Mapped, LeafKey;
      TableShape(S(), table);
      ghost var s, k := S(), LeafKey(pos[table], i);
      var entry := tables[table][i];
      if entry.present {
        MappedFlag(s, table, i, w);
        entry := entry.(writable := w);
        tables := PutEntry(tables, table, i, entry);
        leaves := leaves[k := entry];
        assert S() == SetLeaf(s, table, i, entry);
        return true;
      }
      if pool == {} {
        return false;
      }
      MapFreshPage(table, i, w);
      return true;
    }

    /** One step above level 1: descend into the child table, making an empty one where there is none. */
    method SetupChild(table: nat, i: nat, ghost v: nat, ghost w: bool) returns (child: int)
      requires Valid() && table in tables && pos[table].level > 1 && UserSlot(pos[table].level, i)
      modifies this
      ensures Valid() && cr3 == old(cr3)
      ensures Mapped(old(S()), S(), old(pos)[table].root, v, v, w)
      ensures child < 0 ==> S() == old(S()) && pool == {}
      ensures child >= 0 ==> child in tables && pos[child] == ChildPos(old(pos)[table], i)
    {
      hide Inv, Mapped, ChildPos;
      TableShape(S(), table);
      ghost var s, root := S(), pos[table].root;
      var entry := tables[table][i];
      if entry.present {
        entry := entry.(writable := true);
        FlagTable(s, table, i, entry, v, w);
        child := entry.frame;
        tables := PutEntry(tables, table, i, entry);
        assert S() == s.(tables := PutEntry(s.tables, table, i, entry));
        return;
      }
      if pool == {} {
        MappedNothing(s, root, v, w);
        return -1;
      }
      var page :| page in pool;
      PoolShape(s, page);
      entry := entry.(frame := page, present := true, user := true, writable := true);
      MappedTable(s, table, i, entry, v, w);
      tables := PutEntry(tables, table, i, entry)[page := EmptyTable()];
      pool := pool - {page};
      pos := pos[page := ChildPos(pos[table], i)];
      assert S() == AddTable(s, table, i, entry);
      child := page;
    }

    /** The pages one slot of a table covers: as many of n pages from cur as the slot holds. */
    method SetupSlot(table: nat, level: nat, cur: VAddr, n: nat, w: bool) returns (rem: int, ghost hi: nat)
      requires Valid() && 1 <= level <= 4 && table in tables && 0 < n < INT_LIMIT
      requires pos[table] == Pos(pos[table].root, level, Prefix(Vpn(cur), level))
      requires level == 4 ==> cur.pml4 >= USER_SPACE_START_INDEX
      modifies this
      ensures Valid() && cr3 == old(cr3)
      ensures Mapped(old(S()), S(), old(pos)[table].root, Vpn(cur), hi, w)
      ensures Vpn(cur) <= hi <= Vpn(cur) + n
      ensures rem < 0 ==> rem == -1 && pool == {}
      ensures rem >= 0 ==> hi == Vpn(cur) + n - rem
      ensures rem > 0 ==> hi == (Prefix(Vpn(cur), level - 1) + 1) * Span(level - 1)
      ensures rem < n
      decreases level, 0
    {
      hide ChildrenPlaced, ParentsExist, LeavesAgree, FramesAccounted, Mapped, Prefix, Span, Part, Vpn;
      ghost var s, root := S(), pos[table].root;
      var index := Part(cur, level);
      PartIsSlot(cur, level);
      assert level == 4 ==> index >= USER_SPACE_START_INDEX by { PartAtRoot(cur); }
      hi := Vpn(cur);
      if level == 1 {
        var ok := SetupLeaf(table, index, w);
        PrefixZero(Vpn(cur));
        if !ok {
          MappedNothing(s, root, hi, w);
          return -1, hi;
        }
        return n - 1, hi + 1;
      }
      var child := SetupChild(table, index, hi, w);
      if child < 0 {
        return -1, hi;
      }
      ghost var t := S();
      rem, hi := SetupPageTable(child, level - 1, cur, n, w);
      MappedOn(s, t, S(), root, Vpn(cur), Vpn(cur), hi, w);
    }

    /** Maps n pages from addr in the subtree below `table`. The result is the number of pages left because the table
        ended, or -1 when memory ran out; `hi` is the page the mapping got to. The number left is returned as an int,
        which holds it exactly when it is below 2^31 (AsIntExact). */
    method SetupPageTable(table: nat, level: nat, addr: VAddr, n: nat, w: bool) returns (rem: int, ghost hi: nat)
      requires Valid() && 1 <= level <= 4 && table in tables && n < INT_LIMIT
      requires pos[table] == Pos(pos[table].root, level, Prefix(Vpn(addr), level))
      requires level == 4 ==> addr.pml4 >= USER_SPACE_START_INDEX
      modifies this
      ensures Valid() && cr3 == old(cr3)
      ensures Mapped(old(S()), S(), old(pos)[table].root, Vpn(addr), hi, w)
      ensures AccessSet(old(S()), S(), old(pos)[table].root, Vpn(addr), hi, w)
      ensures Vpn(addr) <= hi <= Vpn(addr) + n
      ensures rem < 0 ==> rem == -1 && pool == {}
      ensures rem >= 0 ==> hi == Vpn(addr) + n - rem
      ensures rem > 0 ==> hi == (Prefix(Vpn(addr), level) + 1) * Span(level)
      ensures n > 0 ==> rem < n
      decreases level, 1
    {
      hide Inv, Mapped, Prefix, Span, Part, Vpn, NextSlot, AccessSet;
      TableShape(S(), table);
      ghost var s, root, lo, prefix := S(), pos[table].root, Vpn(addr), Prefix(Vpn(addr), level);
      var cur := addr;
      rem, hi := n, lo;
      MappedNothing(s, root, lo, w);
      while rem > 0
        invariant Valid() && cr3 == old(cr3) && table in tables && table in pos && pos[table] == old(pos)[table]
        invariant 0 <= rem <= n && hi == lo + n - rem
        invariant Mapped(s, S(), root, lo, hi, w)
        invariant rem > 0 ==> Vpn(cur) == hi && Prefix(Vpn(cur), level) == prefix
        invariant rem > 0 && level == 4 ==> cur.pml4 >= USER_SPACE_START_INDEX
      {
        ghost var t, mid := S(), hi;
        rem, hi := SetupSlot(table, level, cur, rem, w);
        MappedOn(s, t, S(), root, lo, mid, hi, w);
        if rem == -1 {
          MappedAccess(s, S(), root, lo, hi, w);
          return;
        }
        MappedKeepsTable(t, S(), root, mid, hi, w, table);
        var index := Part(cur, level);
        PartIsSlot(cur, level);
        if index == 511 {
          SpanEnd(prefix, level);
          break;
        }
        NextSlotIsNextSpan(cur, level);
        PartAtRoot(cur);
        PartAtRoot(NextSlot(cur, level));
        cur := NextSlot(cur, level);
      }
      MappedAccess(s, S(), root, lo, hi, w);
      AsIntExact(rem);
      rem := AsInt(rem);
    }

    /** get_pte: the level-`level` table for addr, or -1 when an entry on the way is absent. */
    method GetPte(root: nat, addr: VAddr, level: nat) returns (t: int)
      requires Valid() && root in roots && addr.pml4 >= USER_SPACE_START_INDEX && 1 <= level <= 4
      ensures t == Walk(tables, root, Vpn(addr), level)
      ensures t >= 0 ==> t in tables && pos[t] == Pos(root, level, Prefix(Vpn(addr), level))
    {
      hide LeavesAgree, FramesAccounted, Prefix, Vpn;
      t := root;
      UserAddress(addr);
      var i := 4;
      WalkFindsPosition(S(), root, Vpn(addr), i);
      while i > level
        invariant level <= i <= 4
        invariant t == Walk(tables, root, Vpn(addr), i) && t >= 0
        invariant t in tables && pos[t] == Pos(root, i, Prefix(Vpn(addr), i))
      {
        PartIsSlot(addr, i);
        var entry := tables[t][Part(addr, i)];
        i := i - 1;
        WalkFindsPosition(S(), root, Vpn(addr), i);
        if !entry.present {
          WalkStops(tables, root, Vpn(addr), level, i);
          return -1;
        }
        t := entry.frame;
      }
    }

    /** Copies the shared page into `page`, points the leaf at it, and drops the reference to the shared page. */
    method ReplaceWithCopy(t: nat, i: nat, page: nat)
      requires Inv(S()) && t in tables && pos[t].level == 1 && i < 512 && page in pool
      requires tables[t][i].present && tables[t][i].owned
      modifies this
      ensures cr3 == old(cr3) && roots == old(roots)
      ensures Inv(S()) && CopiedOnWrite(old(S()), S(), LeafKey(old(pos)[t], i))
    {
      hide Inv, CopiedOnWrite, CowResult, LeafKey, PutEntry;
      TableShape(S(), t);
      ghost var s, key := S(), LeafKey(pos[t], i);
      var entry := tables[t][i];
      var shared := entry.frame;
      CowState(s, t, i, page);
      CowFields(s, t, i, page);
      var copied := entry.(frame := page, writable := true, owned := true, present := true);
      assert copied == CowEntry(s, t, i, page);
      hide CowEntry;

      data, pool := data[page := data[shared]], pool - {page};
      refs := refs[page := refs[page] + 1];
      tables := PutEntry(tables, t, i, copied);
      leaves := leaves[key := copied];
      refs := refs[shared := if refs[shared] > 0 then refs[shared] - 1 else 0];
      if refs[shared] == 0 {
        data, pool := data - {shared}, pool + {shared};
      }
      assert S() == CowResult(s, t, i, page);
    }

    /** The write-fault handler on a present page: give the faulting space its own writable copy. */
    method CopyTargetPage(addr: VAddr) returns (ok: bool)
      requires Valid() && addr.pml4 >= USER_SPACE_START_INDEX
      requires (cr3, Vpn(addr)) in leaves && leaves[(cr3, Vpn(addr))].owned
      modifies this
      ensures Valid() && cr3 == old(cr3) && roots == old(roots)
      ensures ok <==> old(pool) != {}
      ensures !ok ==> S() == old(S())
      ensures ok ==> CopiedOnWrite(old(S()), S(), (cr3, Vpn(addr)))
      ensures ok ==> AccessSet(old(S()), S(), cr3, Vpn(addr), Vpn(addr) + 1, true)
    {
      hide Inv, Vpn, Prefix, CopiedOnWrite, AccessSet;
      if pool == {} {
        return false;
      }
      ghost var s := S();
      var page :| page in pool;
      var t := GetPte(cr3, addr, 1);
      LeafFound(S(), cr3, addr, t);
      ReplaceWithCopy(t, Part(addr, 1), page);
      CopyAccess(s, S(), (cr3, Vpn(addr)));
      return true;
    }

    method CopyLeafSlot(dst: nat, src: nat, i: nat, w: bool, ghost s: State)
      requires CopyProgress(s, S(), dst, src, 1, i, w) && i < 512 && tables[src][i].present
      modifies this
      ensures CopyProgress(s, S(), dst, src, 1, i + 1, w) && cr3 == old(cr3)
      ensures forall f :: f in old(tables) && f != dst ==> f in tables && tables[f] == old(tables)[f]
    {
      hide CopyProgress, Inv, CopiedSlots;
      ghost var t := S();
      CopyShape(s, t, dst, src, 1, i, w);
      CopyProgressLeaf(s, t, dst, src, i, w);
      var entry := tables[src][i].(writable := w);
      if entry.owned {
        refs := refs[entry.frame := refs[entry.frame] + 1];
      }
      tables := PutEntry(tables, dst, i, entry);
      leaves := leaves[LeafKey(pos[dst], i) := entry];
      assert S() == SetLeaf(AddRef(t, entry, ZeroPage()), dst, i, entry);
    }

    /** The empty table for a child, with the source's entry pointing to it. */
    method NewCopyTable(dst: nat, src: nat, level: nat, i: nat, w: bool, ghost s: State, page: nat)
      requires CopyProgress(s, S(), dst, src, level, i, w) && 1 < level && UserSlot(level, i) && tables[src][i].present && page in pool
      modifies this
      ensures cr3 == old(cr3) && S() == AddTable(old(S()), dst, i, old(tables)[src][i].(frame := page))
      ensures Inv(S()) && page in tables && tables[page] == EmptyTable() && page !in old(tables)
      ensures old(tables)[src][i].frame in tables && pos[old(tables)[src][i].frame] == ChildPos(s.pos[src], i) && pos[page] == ChildPos(s.pos[dst], i)
      ensures |Uncopied(S(), s.pos[src].root, s.pos[dst].root)| <= |pool|
      ensures |pool| - |Uncopied(S(), s.pos[src].root, s.pos[dst].root)| == |s.pool| - |Uncopied(s, s.pos[src].root, s.pos[dst].root)|
    {
      hide CopyProgress, Inv, CopiedSlots, Uncopied, ChildPos, PutEntry;
      ghost var t := S();
      CopyShape(s, t, dst, src, level, i, w);
      CopyProgressTable(s, t, dst, src, level, i, w, page);
      var entry := tables[src][i].(frame := page);
      tables := PutEntry(tables, dst, i, entry)[page := EmptyTable()];
      pool := pool - {page};
      pos := pos[page := ChildPos(pos[dst], i)];
      assert S() == AddTable(t, dst, i, entry);
    }

    method CopyTableSlot(dst: nat, src: nat, level: nat, i: nat, w: bool, ghost s: State)
      requires CopyProgress(s, S(), dst, src, level, i, w) && 1 < level && UserSlot(level, i) && tables[src][i].present
      requires NoneLeft(S(), s.pos[src].root, s.pos[dst].root, level, s.pos[src].prefix, i)
      modifies this
      ensures CopyProgress(s, S(), dst, src, level, i + 1, w) && cr3 == old(cr3)
      ensures forall f :: f in old(tables) && f in old(pos) && f != dst && old(pos)[f].level >= level ==> f in tables && tables[f] == old(tables)[f]
      ensures NoneLeft(S(), s.pos[src].root, s.pos[dst].root, level, s.pos[src].prefix, i + 1)
      decreases level, 0
    {
      hide CopyProgress, Inv, CopiedSlots, Uncopied, NoneLeft;
      ghost var t := S();
      CopyShape(s, t, dst, src, level, i, w);
      CopyNeedsTable(s, t, dst, src, level, i, w);
      var page :| page in pool;
      var entry := tables[src][i].(frame := page);
      var child := tables[src][i].frame;
      NewCopyTable(dst, src, level, i, w, s, page);
      ghost var t1 := S();
      CopyPageTables(page, child, level - 1, w, 0);
      assert tables[dst] == t.tables[dst][i := entry];
      CopyProgressChild(s, t, t1, S(), dst, src, level, i, w, page, child);
      CopyLeavesNone(s, t, t1, S(), dst, src, level, i, w, page, child);
    }

    /** Copies the user slots of table src into the empty table dst, level by level, down to shared leaf pages. */
    method CopyPageTables(dst: nat, src: nat, level: nat, w: bool, start: nat)
      requires Inv(S()) && src in tables && dst in tables && src in pos && dst in pos && pos[src].level == level
      requires pos[src].root != pos[dst].root && pos[dst] == Pos(pos[dst].root, level, pos[src].prefix)
      requires UserSlotsEmpty(tables[dst], level) && start == if level == 4 then USER_SPACE_START_INDEX else 0
      requires |Uncopied(S(), pos[src].root, pos[dst].root)| <= |pool|
      modifies this
      ensures CopyProgress(old(S()), S(), dst, src, level, 512, w) && cr3 == old(cr3)
      ensures forall f :: f in old(tables) && f in old(pos) && f != dst && old(pos)[f].level >= level ==> f in tables && tables[f] == old(tables)[f]
      ensures NoneLeft(S(), old(pos)[src].root, old(pos)[dst].root, level, old(pos)[src].prefix, 512)
      decreases level, 1
    {
      hide CopyProgress, Inv, CopiedSlots, Uncopied, NoneLeft;
      ghost var s := S();
      CopyProgressStart(s, dst, src, level, start, w);
      CopyShape(s, s, dst, src, level, start, w);
      NoneLeftStart(s, s.pos[src].root, s.pos[dst].root, level, s.pos[src].prefix, start);
      for i := start to 512
        invariant NoneLeft(S(), s.pos[src].root, s.pos[dst].root, level, s.pos[src].prefix, i)
        invariant CopyProgress(s, S(), dst, src, level, i, w) && cr3 == old(cr3)
        invariant forall f :: f in old(tables) && f in old(pos) && f != dst && old(pos)[f].level >= level ==> f in tables && tables[f] == old(tables)[f]
      {
        ghost var t := S();
        CopyShape(s, t, dst, src, level, i, w);
        forall f | f in s.tables && f in s.pos
          ensures f in t.tables && f in t.pos && t.pos[f] == s.pos[f]
        {
          CopiedKeeps(s, t, s.pos[src].root, s.pos[dst].root, level, s.pos[src].prefix, i, w, f);
        }
        if !tables[src][i].present {
          CopyProgressSkip(s, t, dst, src, level, i, w);
          NoneLeftSkip(t, src, i, s.pos[dst].root);
        } else if level == 1 {
          CopyLeafSlot(dst, src, i, w, s);
          CopyShape(s, S(), dst, src, level, i + 1, w);
          NoneBelowLeaves(S(), s.pos[src].root, s.pos[dst].root, s.pos[src].prefix, i + 1);
        } else {
          CopyTableSlot(dst, src, level, i, w, s);
        }
      }
    }

    /** A new root holding the kernel half of the active table, which is that of every space, and no user entries. */
    method NewRoot() returns (root: nat)
      requires Valid() && pool != {}
      modifies this
      ensures Inv(S()) && cr3 == old(cr3)
      ensures root in old(pool) && root in tables && |tables[root]| == 512 && UserSlotsEmpty(tables[root], 4)
      ensures tables[root][..USER_SPACE_START_INDEX] == kernel
      ensures S() == AddRoot(old(S()), root, tables[root])
    {
      hide Inv;
      ghost var s := S();
      RootPosition(s, cr3);
      TableShape(s, cr3);
      var page :| page in pool;
      PoolShape(s, page);
      var table := tables[cr3][..USER_SPACE_START_INDEX] + EmptyTable()[USER_SPACE_START_INDEX..];
      KernelHalf(s, cr3);
      AddRootKeeps(s, page, table);
      tables := tables[page := table];
      pool := pool - {page};
      pos := pos[page := Pos(page, 4, 0)];
      roots := roots + {page};
      assert S() == AddRoot(s, page, table);
      root := page;
    }

    /** clone_page_table: -1 when there is no frame for the root. The copy below the root does not check its own
        allocations, so a clone that starts must be able to finish. */
    method ClonePageTable(src: nat, w: bool) returns (root: int)
      requires Valid() && src in roots
      requires pool == {} || |TablesOf(S(), src)| <= |pool|
      modifies this
      ensures Valid() && cr3 == old(cr3)
      ensures root >= 0 <==> old(pool) != {}
      ensures root < 0 ==> S() == old(S())
      ensures root >= 0 ==> Cloned(old(S()), S(), src, root, w)
    {
      hide Inv, CopyProgress, Uncopied, TablesOf, Cloned, NoneLeft;
      if pool == {} {
        return -1;
      }
      ghost var s := S();
      root := NewRoot();
      CloneBudget(s, src, root, tables[root]);
      RootPlaces(s, src, root, tables[root]);
      ghost var table := tables[root];
      CopyPageTables(root, src, 4, w, USER_SPACE_START_INDEX);
      CopyRoots(AddRoot(s, root, table), S(), root, src, w);
      AllCopied(S(), src, root);
      ClonedFromCopy(s, S(), src, root, table, w);
      ClonedRoots(s, S(), src, root, w);
    }

    method CleanLeafSlot(table: nat, i: nat, ghost s: State)
      requires table in tables && table in pos && |tables[table]| == 512 && i < 512 && tables[table][i].present
      requires CleanProgress(s, S(), table, 1, i)
      modifies this
      ensures CleanProgress(s, S(), table, 1, i + 1) && cr3 == old(cr3)
    {
      hide CleanProgress, Inv, CleanedSlots, UpperKept;
      ghost var t := S();
      CleanShape(s, t, table, 1, i);
      LeafDroppedFields(t, table, i);
      CleanLeaf(s, t, table, i);
      var entry := tables[table][i];
      if entry.owned {
        refs := refs[entry.frame := if refs[entry.frame] > 0 then refs[entry.frame] - 1 else 0];
        if refs[entry.frame] == 0 {
          data, pool := data - {entry.frame}, pool + {entry.frame};
        }
      }
      tables := PutEntry(tables, table, i, NO_ENTRY);
      leaves := leaves - {LeafKey(pos[table], i)};
      assert S() == LeafDropped(t, table, i);
    }

    method CleanTableSlot(table: nat, level: nat, i: nat, ghost s: State)
      requires table in tables && |tables[table]| == 512 && 1 < level && UserSlot(level, i) && tables[table][i].present
      requires CleanProgress(s, S(), table, level, i)
      modifies this
      ensures CleanProgress(s, S(), table, level, i + 1) && cr3 == old(cr3)
      decreases level, 0
    {
      hide CleanProgress, Inv, CleanedSlots, UpperKept;
      ghost var t := S();
      CleanShape(s, t, table, level, i);
      ChildPlace(t, table, i);
      var child := tables[table][i].frame;
      CleanPageTable(child, level - 1);
      ghost var t1 := S();
      CleanChild(s, t, t1, table, level, i);
      tables, pool := tables - {child}, pool + {child};
      pos := pos - {child};
      tables := PutEntry(tables, table, i, NO_ENTRY);
      assert S() == RemoveTable(t1, table, i);
    }

    /** Empties a table below the root, freeing the tables under it and every data page whose last reference goes. */
    method CleanPageTable(table: nat, level: nat)
      requires Inv(S()) && table in tables && table in pos && pos[table].level == level && level < 4
      modifies this
      ensures CleanProgress(old(S()), S(), table, level, 512) && cr3 == old(cr3)
      decreases level, 1
    {
      hide CleanProgress, Inv, CleanedSlots, UpperKept;
      ghost var s := S();
      CleanStart(s, table, level, 0);
      for i := 0 to 512
        invariant CleanProgress(s, S(), table, level, i) && cr3 == old(cr3)
      {
        CleanShape(s, S(), table, level, i);
        if !tables[table][i].present {
          CleanSkip(s, S(), table, level, i);
        } else if level == 1 {
          CleanLeafSlot(table, i, s);
        } else {
          CleanTableSlot(table, level, i, s);
        }
      }
    }

    /** Tears down a whole space that is not the active one. */
    method CleanPageTables(root: nat)
      requires Valid() && root in roots && root != cr3
      modifies this
      ensures Valid() && cr3 == old(cr3) && TornDown(old(S()), S(), root)
      ensures PrivateExit(old(Private(S())), Private(S()), root)
      ensures old(Unshared(leaves)) ==> Unshared(leaves)
    {
      hide CleanProgress, Inv, CleanedSlots, UpperKept, TornDown, UnsharedBut, PrivateExit, Private;
      ghost var s := S();
      RootPosition(s, root);
      CleanStart(s, root, 4, USER_SPACE_START_INDEX);
      for i := USER_SPACE_START_INDEX to 512
        invariant CleanProgress(s, S(), root, 4, i) && cr3 == old(cr3)
      {
        CleanShape(s, S(), root, 4, i);
        if !tables[root][i].present {
          CleanSkip(s, S(), root, 4, i);
        } else {
          CleanTableSlot(root, 4, i, s);
        }
      }
      ghost var t := S();
      TornDownAtEnd(s, t, root);
      tables, pool := tables - {root}, pool + {root};
      pos, roots := pos - {root}, roots - {root};
      assert S() == RemoveRoot(t, root);
      TornDownRoots(s, S(), root);
      ExitIsPrivate(s, S(), root);
      ghost var none: set<nat> := {};
      assert none - {root} == none;
    }

    /** Tears down every space but the active one. Nothing of them is left: outside the pool there are exactly the tables
        and the pages of the active space, which is as before. */
    method CleanOthers(spaces: seq<nat>)
      requires Valid() && NoRepeats(spaces) && roots == (set i | 0 <= i < |spaces| :: spaces[i]) + {cr3} && cr3 !in spaces
      modifies this
      ensures Valid() && cr3 == old(cr3) && roots == {cr3}
      ensures forall k: (nat, nat) :: k in leaves <==> k in old(leaves) && k.0 == cr3
      ensures forall k :: k in leaves ==> leaves[k] == old(leaves)[k]
      ensures refs.Keys - pool == TablesOf(S(), cr3) + PagesOf(leaves) && refs.Keys == old(refs).Keys
    {
      hide Inv, TablesOf, PagesOf, Private, UnsharedBut, PrivateExit;
      ghost var left := roots;
      for i := 0 to |spaces|
        invariant Valid() && cr3 == old(cr3) && refs.Keys == old(refs).Keys
        invariant forall r :: r in roots <==> r == cr3 || exists j :: i <= j < |spaces| && spaces[j] == r
        invariant forall k: (nat, nat) :: k.0 in roots && k in old(leaves) ==> k in leaves && leaves[k] == old(leaves)[k]
        invariant forall k :: k in leaves ==> k in old(leaves)
      {
        CleanPageTables(spaces[i]);
      }
      assert roots == {cr3};
      OneSpaceLeft(S(), cr3);
    }

    // ----- frames a space maps without owning them

    /** What map_frame_to_vaddr writes once it has found n free entries from addr on in a level-1 table. */
    method MapFrame(root: nat, addr: VAddr, frame: nat, n: nat)
      requires Valid() && root in roots && addr.pml4 >= USER_SPACE_START_INDEX && addr.pt + n <= 512
      requires var t := Walk(tables, root, Vpn(addr), 1);
               t >= 0 && t in tables && |tables[t]| == 512 && forall j :: addr.pt <= j < addr.pt + n ==> tables[t][j] == NO_ENTRY
      modifies this
      ensures Valid() && cr3 == old(cr3) && ForeignMapped(old(S()), S(), root, Vpn(addr), n, frame)
      ensures AccessSet(old(S()), S(), root, Vpn(addr), Vpn(addr) + n, false)
      ensures Private(S()) == old(Private(S())) && (Unshared(leaves) <==> old(Unshared(leaves)))
    {
      hide Inv, Vpn, Prefix, Walk, ForeignMapped, Private, UnsharedBut, AccessSet;
      ghost var s, v := S(), Vpn(addr);
      var t := GetPte(root, addr, 1);
      TableShape(s, t);
      LeafPlace(addr);
      var j := 0;
      MappedNone(s, root, v, frame);
      while j < n
        invariant 0 <= j <= n && Valid() && cr3 == old(cr3) && ForeignMapped(s, S(), root, v, j, frame)
        invariant t in tables && t in pos && pos[t] == Pos(root, 1, Prefix(v, 1)) && |tables[t]| == 512
        invariant forall i :: addr.pt + j <= i < addr.pt + n ==> tables[t][i] == NO_ENTRY
      {
        ghost var b := S();
        AddForeign(b, t, addr.pt + j, frame + j);
        tables := PutEntry(tables, t, addr.pt + j, ForeignEntry(frame + j));
        leaves := leaves[(root, v + j) := ForeignEntry(frame + j)];
        assert S() == SetLeaf(b, t, addr.pt + j, ForeignEntry(frame + j));
        ForeignStep(s, b, S(), root, v, j, frame);
        j := j + 1;
      }
      ForeignIsInvisible(s, S(), root, v, n, frame);
      ForeignAccess(s, S(), root, v, n, frame);
    }

    /** The write-fault handler on a foreign page: `contents` is what the frame holds. Nothing tells the page from one the
        space mapped itself, so unmap_frame would lose it (ReleasedCopyIsLost). */
    method CopyForeignPage(addr: VAddr, contents: Page) returns (ok: bool, ghost page: nat)
      requires Valid() && addr.pml4 >= USER_SPACE_START_INDEX
      requires (cr3, Vpn(addr)) in leaves && !leaves[(cr3, Vpn(addr))].owned
      modifies this
      ensures Valid() && cr3 == old(cr3) && roots == old(roots) && (old(Isolated()) ==> Isolated())
      ensures ok <==> old(pool) != {}
      ensures !ok ==> S() == old(S())
      ensures ok ==> Adopted(old(S()), S(), (cr3, Vpn(addr)), page, contents)
      ensures ok ==> AccessSet(old(S()), S(), cr3, Vpn(addr), Vpn(addr) + 1, true)
      ensures ok ==> Private(S()) == old(Private(S()))[(cr3, Vpn(addr)) := contents]
    {
      hide Inv, Vpn, Prefix, Private, UnsharedBut;
      if pool == {} {
        return false, 0;
      }
      ghost var s, k := S(), (cr3, Vpn(addr));
      var copy :| copy in pool;
      page := copy;
      var t := GetPte(cr3, addr, 1);
      LeafFound(s, cr3, addr, t);
      InstallCopy(t, Part(addr, 1), copy, contents);
      AdoptIsPrivate(s, S(), k, page, contents);
      AdoptAccess(s, S(), k, page, contents);
      ok := true;
    }

    method InstallCopy(t: nat, i: nat, page: nat, contents: Page)
      requires Inv(S()) && t in tables && pos[t].level == 1 && i < 512 && page in pool && tables[t][i].present && !tables[t][i].owned
      modifies this
      ensures Inv(S()) && cr3 == old(cr3) && Adopted(old(S()), S(), LeafKey(old(pos)[t], i), page, contents)
    {
      hide Inv, LeafKey, PutEntry;
      ghost var s := S();
      TableShape(s, t);
      AdoptKeeps(s, t, i, page, contents);
      var entry := tables[t][i].(frame := page, writable := true, owned := true, present := true);
      data, pool, refs := data[page := contents], pool - {page}, refs[page := refs[page] + 1];
      tables := PutEntry(tables, t, i, entry);
      leaves := leaves[LeafKey(pos[t], i) := entry];
      assert S() == SetLeaf(s, t, i, entry).(data := s.data[page := contents], refs := s.refs[page := 1], pool := s.pool - {page});
    }

    /** unmap_frame: page by page, until one has no level-1 table. */
    method UnmapFrame(root: nat, addr: VAddr, n: nat) returns (ok: bool, ghost hi: nat)
      requires Valid() && root in roots && addr.pml4 >= USER_SPACE_START_INDEX && Vpn(addr) + n <= Span(4)
      requires AllForeign(leaves, root, Vpn(addr), Vpn(addr) + n)
      modifies this
      ensures Valid() && cr3 == old(cr3) && Unmapped(old(S()), S(), root, Vpn(addr), hi)
      ensures if ok then hi == Vpn(addr) + n else Vpn(addr) <= hi < Vpn(addr) + n && !TableAt(S(), Pos(root, 1, Prefix(hi, 1)))
      ensures Private(S()) == old(Private(S())) && (Unshared(leaves) <==> old(Unshared(leaves)))
    {
      hide Inv, Vpn, Unmapped, Private, UnsharedBut, Walk, Span, AllForeign, Prefix, TableAt;
      ghost var s := S();
      var v := Vpn(addr);
      hi := v;
      UnmappedNone(s, root, v);
      UserStart(addr);
      for j := 0 to n
        invariant Valid() && cr3 == old(cr3) && root in roots && hi == v + j && Unmapped(s, S(), root, v, hi)
      {
        AddrOfPage(v + j);
        var t := GetPte(root, AddrOf(v + j), 1);
        if t < 0 {
          NoTableThere(S(), root, AddrOf(v + j));
          SomeForeign(s.leaves, root, v, hi, v + n);
          UnmappedIsInvisible(s, S(), root, v, hi);
          return false, hi;
        }
        TableShape(S(), t);
        ForeignAt(s.leaves, root, v, v + n, v + j);
        ClearPage(root, v + j, t, s, v);
        hi := hi + 1;
      }
      UnmappedIsInvisible(s, S(), root, v, hi);
      ok := true;
    }

    method ClearPage(root: nat, v: nat, t: nat, ghost s: State, ghost lo: nat)
      requires Valid() && t in tables && t in pos && pos[t] == Pos(root, 1, Prefix(v, 1)) && lo <= v
      requires Unmapped(s, S(), root, lo, v) && ((root, v) in s.leaves ==> !s.leaves[(root, v)].owned)
      modifies this
      ensures Valid() && cr3 == old(cr3) && roots == old(roots) && Unmapped(s, S(), root, lo, v + 1)
    {
      hide Inv, Unmapped;
      ghost var b := S();
      TableShape(b, t);
      PageKey(b, t, root, v);
      StillForeign(s, b, root, lo, v);
      ClearEntry(b, t, v % 512);
      tables := PutEntry(tables, t, v % 512, NO_ENTRY);
      leaves := leaves - {(root, v)};
      assert S() == SetLeaf(b, t, v % 512, NO_ENTRY);
      UnmappedStep(s, b, S(), root, lo, v);
    }

    /** copy_task drops the parent's mapped buffers, given as first page and number of pages, from the child's clone. */
    method UnmapRegions(child: nat, regions: seq<(VAddr, nat)>)
      requires Valid() && child in roots && forall i :: 0 <= i < |regions| ==> RegionIsForeign(S(), child, regions[i])
      modifies this
      ensures Valid() && cr3 == old(cr3) && roots == old(roots) && data == old(data) && refs == old(refs) && pool == old(pool)
      ensures Private(S()) == old(Private(S())) && (Unshared(leaves) <==> old(Unshared(leaves)))
      ensures forall i, v: nat :: 0 <= i < |regions| && InRegion(regions[i], v) ==> (child, v) !in leaves
      ensures forall k: (nat, nat) :: k in leaves ==> k in old(leaves) && leaves[k] == old(leaves)[k]
      ensures forall k: (nat, nat) :: k in old(leaves) && (k.0 != child || forall i :: 0 <= i < |regions| ==> !InRegion(regions[i], k.1)) ==> k in leaves
    {
      hide Inv, Vpn, Private, UnsharedBut, Unmapped, InRegion, RegionIsForeign;
      for j := 0 to |regions|
        invariant Valid() && cr3 == old(cr3) && roots == old(roots) && data == old(data) && refs == old(refs) && pool == old(pool)
        invariant Private(S()) == old(Private(S())) && (Unshared(leaves) <==> old(Unshared(leaves)))
        invariant forall i :: 0 <= i < |regions| ==> RegionIsForeign(S(), child, regions[i])
        invariant forall i, v: nat :: 0 <= i < j && InRegion(regions[i], v) ==> (child, v) !in leaves
        invariant forall k: (nat, nat) :: k in leaves ==> k in old(leaves) && leaves[k] == old(leaves)[k]
        invariant forall k: (nat, nat) :: k in old(leaves) && (k.0 != child || forall i :: 0 <= i < j ==> !InRegion(regions[i], k.1)) ==> k in leaves
      {
        ghost var b := S();
        var region := regions[j];
        RegionFacts(b, child, region);
        ghost var hi: nat;
        var ok: bool;
        ok, hi := UnmapFrame(child, region.0, region.1);
        RegionUnmapped(b, S(), child, region, hi);
        forall i | 0 <= i < |regions|
          ensures RegionIsForeign(S(), child, regions[i])
        {
          RegionStays(b, S(), child, region, hi, regions[i]);
        }
      }
    }

    // ----- the operations user programs cause, against the private-copy model

    ghost predicate Isolated()
      reads this
    {
      Valid() && Unshared(leaves)
    }

    /** Maps n pages at addr in the active space. The caller is told OK also when the address space ended first. Pages
        that are mapped already only change their writability; sharing stays invisible exactly when no page shared with
        another mapping is made writable. */
    method SetupPageTables(addr: VAddr, n: nat, w: bool) returns (ok: bool, ghost hi: nat)
      requires Valid() && addr.pml4 >= USER_SPACE_START_INDEX && n < INT_LIMIT
      modifies this
      ensures Valid() && cr3 == old(cr3)
      ensures old(Unshared(leaves)) ==>
                (Unshared(leaves) <==> (w ==> forall k :: k in old(leaves) && InRange(k, cr3, Vpn(addr), hi) && old(leaves)[k].owned ==> OnlySharer(old(S()), k)))
      ensures Mapped(old(S()), S(), cr3, Vpn(addr), hi, w) && hi <= Vpn(addr) + n
      ensures AccessSet(old(S()), S(), cr3, Vpn(addr), hi, w)
      ensures ok ==> hi == Vpn(addr) + n || hi == Span(4)
      ensures !ok ==> pool == {}
      ensures PrivateMap(old(Private(S())), Private(S()), old(leaves).Keys, cr3, Vpn(addr), hi)
    {
      hide Inv, Mapped, Vpn, Span, Private, PrivateMap, UnsharedBut, InRange, OnlySharer, AccessSet;
      ghost var s := S();
      RootPosition(s, cr3);
      Prefixes(addr);
      var rem;
      rem, hi := SetupPageTable(cr3, 4, addr, n, w);
      ok := rem != -1;
      if Unshared(s.leaves) {
        MapUnshared(s, S(), cr3, Vpn(addr), hi, w, {});
      }
      MapIsPrivate(s, S(), cr3, Vpn(addr), hi, w);
    }

    /** A user store to a mapped page, taking the write fault when the leaf is read-only; `contents` is what the frame of a
        mapped buffer holds. It fails only when the fault handler finds no memory. To an owned page it is a store to a
        private copy exactly when the leaf was read-only or no other mapping shows it. */
    method UserStore(addr: VAddr, offset: nat, value: nat, contents: Page) returns (ok: bool)
      requires Valid() && addr.pml4 >= USER_SPACE_START_INDEX && offset < 4096 && (cr3, Vpn(addr)) in leaves
      modifies this
      ensures Valid() && cr3 == old(cr3) && roots == old(roots) && (old(Isolated()) ==> Isolated())
      ensures ok <==> old(leaves)[(cr3, Vpn(addr))].writable || old(pool) != {}
      ensures !ok ==> S() == old(S())
      ensures old(UserMayWrite(tables, cr3, Vpn(addr))) <==> old(leaves)[(cr3, Vpn(addr))].writable
      ensures ok ==> AccessSet(old(S()), S(), cr3, Vpn(addr), Vpn(addr) + 1, true)
      ensures ok && old(leaves)[(cr3, Vpn(addr))].owned ==> Written(old(S()), S(), (cr3, Vpn(addr)), offset, value)
      ensures ok && old(leaves)[(cr3, Vpn(addr))].owned ==>
                && (cr3, Vpn(addr)) in old(Private(S()))
                && (Private(S()) == PrivateStore(old(Private(S())), (cr3, Vpn(addr)), offset, value) <==>
                      Careful(World(old(S()), cr3, {}), Store(Vpn(addr), offset, value)))
      ensures ok && old(leaves)[(cr3, Vpn(addr))].owned && old(Isolated()) ==>
                Careful(World(old(S()), cr3, {}), Store(Vpn(addr), offset, value))
      ensures ok && !old(leaves)[(cr3, Vpn(addr))].owned ==>
                if old(leaves)[(cr3, Vpn(addr))].writable then S() == old(S())
                else WrittenToCopy(old(S()), S(), (cr3, Vpn(addr)), offset, value, contents)
    {
      hide Inv, Vpn, CopiedOnWrite, Adopted, Private, UnsharedBut, PrivateStore, Stored, Careful, AccessSet, UserMayWrite;
      ghost var s, k := S(), (cr3, Vpn(addr));
      UserAddress(addr);
      AccessIsLeaf(s, cr3, Vpn(addr));
      var t := GetPte(cr3, addr, 1);
      LeafFound(s, cr3, addr, t);
      var entry := tables[t][Part(addr, 1)];
      if !entry.owned && entry.writable {
        PageAccess(s, s, k);
        return true;
      }
      if !entry.owned {
        ok := StoreToCopy(addr, offset, value, contents);
        return;
      }
      if !entry.writable {
        ok := CopyTargetPage(addr);
        if !ok {
          return;
        }
        CowLeaf(s, S(), k);
      }
      ghost var u := S();
      StoreWritable(addr, offset, value);
      WrittenIsPrivate(s, u, S(), k, offset, value);
      WrittenAccess(s, S(), k, offset, value);
      ok := true;
    }

    method StoreToCopy(addr: VAddr, offset: nat, value: nat, contents: Page) returns (ok: bool)
      requires Valid() && addr.pml4 >= USER_SPACE_START_INDEX && offset < 4096
      requires (cr3, Vpn(addr)) in leaves && !leaves[(cr3, Vpn(addr))].owned
      modifies this
      ensures Valid() && cr3 == old(cr3) && roots == old(roots) && (old(Isolated()) ==> Isolated())
      ensures ok <==> old(pool) != {}
      ensures if ok then WrittenToCopy(old(S()), S(), (cr3, Vpn(addr)), offset, value, contents) else S() == old(S())
      ensures ok ==> AccessSet(old(S()), S(), cr3, Vpn(addr), Vpn(addr) + 1, true)
    {
      hide Inv, Vpn, Private, UnsharedBut, Stored, AccessSet, Adopted;
      ghost var s, k := S(), (cr3, Vpn(addr));
      ghost var page;
      ok, page := CopyForeignPage(addr, contents);
      if ok {
        AdoptedLeaf(s, S(), k, page, contents);
        StoreWritable(addr, offset, value);
        WrittenToCopyAccess(s, S(), k, offset, value, contents);
      }
    }

    method StoreWritable(addr: VAddr, offset: nat, value: nat)
      requires Valid() && addr.pml4 >= USER_SPACE_START_INDEX && offset < 4096
      requires (cr3, Vpn(addr)) in leaves && leaves[(cr3, Vpn(addr))].owned && leaves[(cr3, Vpn(addr))].writable
      modifies this
      ensures Valid() && cr3 == old(cr3) && roots == old(roots) && leaves == old(leaves)
      ensures Stored(old(S()), S(), (cr3, Vpn(addr)), offset, value)
    {
      hide Inv, Vpn;
      ghost var s, k := S(), (cr3, Vpn(addr));
      LeafFrameInv(s, k);
      var t := GetPte(cr3, addr, 1);
      LeafFound(s, cr3, addr, t);
      var frame := tables[t][Part(addr, 1)].frame;
      StoreKeeps(s, frame, data[frame][offset := value]);
      data := data[frame := data[frame][offset := value]];
      assert S() == s.(data := s.data[frame := s.data[frame][offset := value]]);
    }

    /** The processor runs on another space. */
    method Switch(to: nat)
      requires Valid() && to in roots
      modifies this`cr3
      ensures Valid() && cr3 == to && S() == old(S())
    {
      cr3 := to;
    }

    /** copy_parent_page_table with the parent running on the active table: -1 when a clone gets no frame for its root.
        A clone that starts must be able to finish, as in ClonePageTable. When the first clone uses up the pool the
        second one fails: the parent already runs on its clone, and the old space stays behind. */
    method Fork() returns (child: int)
      requires Valid()
      requires pool == {} || |TablesOf(S(), cr3)| == |pool| || 2 * |TablesOf(S(), cr3)| <= |pool|
      modifies this
      ensures Valid()
      ensures child < 0 && cr3 != old(cr3) <==> |old(pool)| == |TablesOf(old(S()), old(cr3))|
      ensures child < 0 && cr3 == old(cr3) <==> old(pool) == {}
      ensures child < 0 && cr3 == old(cr3) ==> S() == old(S())
      ensures child >= 0 ==> Forked(old(S()), S(), old(cr3), cr3, child) && (old(Isolated()) ==> Isolated())
      ensures child >= 0 ==> PrivateFork(old(Private(S())), Private(S()), old(cr3), cr3, child)
      ensures child >= 0 ==> roots == old(roots) - {old(cr3)} + {cr3, child} && cr3 != child
      ensures child >= 0 ==>
                && AccessCopied(old(S()), S(), old(cr3), cr3, false) && AccessCopied(old(S()), S(), old(cr3), child, false)
                && AccessKept(old(S()), S(), old(roots) - {old(cr3)})
      ensures child < 0 && cr3 != old(cr3) ==> roots == old(roots) + {cr3} && cr3 !in old(roots) && pool == {}
      ensures child < 0 && cr3 != old(cr3) ==>
                && Cloned(old(S()), S(), old(cr3), cr3, false) && AccessCopied(old(S()), S(), old(cr3), cr3, false)
                && SpaceCopied(old(Private(S())), Private(S()), old(cr3), cr3) && SameElsewhere(old(Private(S())), Private(S()), {cr3})
      ensures child < 0 && cr3 != old(cr3) && old(Isolated()) ==>
                UnsharedBut(leaves, {old(cr3)}) && (Unshared(leaves) <==> NothingWritable(old(leaves), old(cr3)))
    {
      hide Inv, Cloned, TornDown, TablesOf, Private, PrivateFork, UnsharedBut, NothingWritable, SpaceCopied, SameElsewhere,
        AccessCopied, AccessKept;
      ghost var s := S();
      TablesOfRoot(s, cr3);
      var snapshot := cr3;
      var parent := ClonePageTable(snapshot, false);
      if parent < 0 {
        return -1;
      }
      ghost var t := S();
      ClonedRoots(s, t, snapshot, parent, false);
      ClonedBudget(s, t, snapshot, parent, false);
      cr3 := parent;
      HalfForkIsPrivate(s, t, snapshot, parent);
      CloneAccess(s, t, snapshot, parent, false);
      child := ClonePageTable(snapshot, false);
      if child < 0 {
        return -1;
      }
      ghost var u := S();
      ClonedRoots(t, u, snapshot, child, false);
      CleanPageTables(snapshot);
      ForkIsPrivate(s, t, u, S(), snapshot, parent, child);
      ForkAccess(s, t, u, S(), snapshot, parent, child);
    }

    /** The address-space half of exec: run on a new space with no user pages, then tear the old one down. */
    method ExecSpace() returns (ok: bool)
      requires Valid()
      modifies this
      ensures Valid() && (old(Isolated()) ==> Isolated())
      ensures ok <==> old(pool) != {}
      ensures !ok ==> S() == old(S()) && cr3 == old(cr3)
      ensures ok ==> Replaced(old(S()), S(), old(cr3), cr3)
      ensures ok ==> PrivateExit(old(Private(S())), Private(S()), old(cr3)) && SpaceGone(Private(S()), cr3)
      ensures ok ==> roots == old(roots) - {old(cr3)} + {cr3}
    {
      hide Inv, TornDown;
      if pool == {} {
        return false;
      }
      ghost var s := S();
      var before := cr3;
      RootPosition(s, cr3);
      var root := NewRoot();
      ghost var t := S();
      RootPlaces(s, before, root, tables[root]);
      cr3 := root;
      CleanPageTables(before);
      TornDownRoots(t, S(), before);
      NewRootPrivate(s, t, root);
      return true;
    }
  }
}
