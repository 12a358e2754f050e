/** What the page tables let user code do: a page can be read or written only if all four entries on the way allow it. */
module UserAccess {
  import opened PageTables
  import opened PageTableEdits
  import opened PagingEffects
  import opened PrivateMemory
  import opened ForeignFrames

  /** The entries above a table that the walk reaches let every access pass. */
  lemma {:induction false} UpperPasses(s: State, root: nat, v: nat, level: nat, write: bool)
    requires Inv(s) && root in s.roots && UserPage(v) && 2 <= level <= 4 && Walk(s.tables, root, v, level - 1) >= 0
    ensures Passes(s.tables, root, v, level, write)
    decreases 4 - level
  {
    hide ParentsExist, LeavesAgree, FramesAccounted, Prefix;
    if level < 4 {
      UpperPasses(s, root, v, level + 1, write);
    }
    UserPageSlot(v, level);
    WalkFindsPosition(s, root, v, level);
  }

  /** What the four entries on the way to a page allow is what the leaves say: user code may read exactly the mapped pages
      and write exactly those whose leaf is writable. */
  lemma AccessIsLeaf(s: State, root: nat, v: nat)
    requires Inv(s) && root in s.roots && UserPage(v)
    ensures UserMayRead(s.tables, root, v) <==> (root, v) in s.leaves
    ensures UserMayWrite(s.tables, root, v) <==> (root, v) in s.leaves && s.leaves[(root, v)].writable
  {
    hide ChildrenPlaced, ParentsExist, LeavesAgree, FramesAccounted, Walk, UserPage;
    var t := Walk(s.tables, root, v, 1);
    if (root, v) in s.leaves {
      LeavesAreTranslation(s, root, v, s.leaves[(root, v)]);
      LeafIsUser(s, (root, v));
    }
    if t >= 0 {
      UpperPasses(s, root, v, 2, false);
      UpperPasses(s, root, v, 2, true);
      WalkFindsPosition(s, root, v, 1);
      LeavesAreTranslation(s, root, v, s.tables[t][SlotOf(v, 1)]);
    }
  }

  /** User code may read pages [lo, hi) of a space, and write them if and only if w; what it may do with any other page of
      any space is as before. */
  ghost predicate AccessSet(s: State, t: State, root: nat, lo: nat, hi: nat, w: bool)
  {
    forall r, v: nat :: r in s.roots && UserPage(v) ==>
      if r == root && lo <= v < hi then UserMayRead(t.tables, r, v) && (UserMayWrite(t.tables, r, v) <==> w)
      else (UserMayRead(t.tables, r, v) <==> UserMayRead(s.tables, r, v)) && (UserMayWrite(t.tables, r, v) <==> UserMayWrite(s.tables, r, v))
  }

  lemma AccessFromLeaves(s: State, t: State, root: nat, lo: nat, hi: nat, w: bool)
    requires Inv(s) && Inv(t) && t.roots == s.roots
    requires forall k :: InRange(k, root, lo, hi) ==> k in t.leaves && t.leaves[k].writable == w
    requires forall k :: !InRange(k, root, lo, hi) ==> (k in t.leaves <==> k in s.leaves)
    requires forall k :: !InRange(k, root, lo, hi) && k in s.leaves ==> t.leaves[k].writable == s.leaves[k].writable
    ensures AccessSet(s, t, root, lo, hi, w)
  {
    hide Inv, UserMayRead, UserMayWrite, UserPage;
    forall r, v: nat | r in s.roots && UserPage(v)
      ensures if r == root && lo <= v < hi then UserMayRead(t.tables, r, v) && (UserMayWrite(t.tables, r, v) <==> w)
              else (UserMayRead(t.tables, r, v) <==> UserMayRead(s.tables, r, v)) && (UserMayWrite(t.tables, r, v) <==> UserMayWrite(s.tables, r, v))
    {
      AccessIsLeaf(s, r, v);
      AccessIsLeaf(t, r, v);
      assert InRange((r, v), root, lo, hi) <==> r == root && lo <= v < hi;
    }
  }

  lemma MappedAccess(s: State, t: State, root: nat, lo: nat, hi: nat, w: bool)
    requires Inv(s) && Inv(t) && Mapped(s, t, root, lo, hi, w)
    ensures AccessSet(s, t, root, lo, hi, w)
  {
    hide Inv, AccessSet, InRange;
    AccessFromLeaves(s, t, root, lo, hi, w);
  }

  lemma LeafIsUser(s: State, k: (nat, nat))
    requires Inv(s) && k in s.leaves
    ensures s.leaves[k].user
  {
    hide ChildrenPlaced, ParentsExist, FramesAccounted;
  }

  /** Only page k changed, and its leaf is writable now. */
  lemma PageAccess(s: State, t: State, k: (nat, nat))
    requires Inv(s) && Inv(t) && t.roots == s.roots && k in s.leaves && k in t.leaves
    requires t.leaves[k].writable && t.leaves == s.leaves[k := t.leaves[k]]
    ensures AccessSet(s, t, k.0, k.1, k.1 + 1, true)
  {
    hide Inv, AccessSet;
    var next := k.1 + 1;
    forall l
      ensures InRange(l, k.0, k.1, next) <==> l == k
    {
      assert l == (l.0, l.1) && k == (k.0, k.1);
    }
    AccessFromLeaves(s, t, k.0, k.1, next, true);
  }

  /** The write fault makes exactly its page writable. */
  lemma CopyAccess(s: State, t: State, k: (nat, nat))
    requires Inv(s) && Inv(t) && CopiedOnWrite(s, t, k)
    ensures AccessSet(s, t, k.0, k.1, k.1 + 1, true)
  {
    hide Inv, AccessSet;
    CowLeaf(s, t, k);
    PageAccess(s, t, k);
  }

  /** So does the fault on a page of a mapped buffer. */
  lemma AdoptAccess(s: State, t: State, k: (nat, nat), page: nat, contents: Page)
    requires Inv(s) && Inv(t) && Adopted(s, t, k, page, contents)
    ensures AccessSet(s, t, k.0, k.1, k.1 + 1, true)
  {
    hide Inv, AccessSet;
    PageAccess(s, t, k);
  }

  lemma ForeignAccess(s: State, t: State, root: nat, v: nat, n: nat, frame: nat)
    requires Inv(s) && Inv(t) && ForeignMapped(s, t, root, v, n, frame)
    ensures AccessSet(s, t, root, v, v + n, false)
  {
    hide Inv, AccessSet, InRange;
    AccessFromLeaves(s, t, root, v, v + n, false);
  }

  // ----- copies of a space

  /** In space `root` user code may read what it could read in space `src`, and write it if and only if w. */
  ghost predicate AccessCopied(s: State, t: State, src: nat, root: nat, w: bool)
  {
    forall v: nat :: UserPage(v) ==>
      && (UserMayRead(t.tables, root, v) <==> UserMayRead(s.tables, src, v))
      && (UserMayWrite(t.tables, root, v) <==> w && UserMayRead(s.tables, src, v))
  }

  /** What user code may do in a space is as before. */
  ghost predicate AccessKept(s: State, t: State, spaces: set<nat>)
  {
    forall r, v: nat :: r in spaces && UserPage(v) ==>
      && (UserMayRead(t.tables, r, v) <==> UserMayRead(s.tables, r, v))
      && (UserMayWrite(t.tables, r, v) <==> UserMayWrite(s.tables, r, v))
  }

  lemma CopiedAccess(s: State, t: State, src: nat, root: nat, w: bool)
    requires Inv(s) && Inv(t) && src in s.roots && root in t.roots
    requires forall v: nat :: (root, v) in t.leaves <==> (src, v) in s.leaves
    requires forall v: nat :: (root, v) in t.leaves ==> t.leaves[(root, v)].writable == w
    ensures AccessCopied(s, t, src, root, w)
  {
    hide Inv, UserMayRead, UserMayWrite, UserPage;
    forall v: nat | UserPage(v)
      ensures UserMayRead(t.tables, root, v) <==> UserMayRead(s.tables, src, v)
      ensures UserMayWrite(t.tables, root, v) <==> w && UserMayRead(s.tables, src, v)
    {
      AccessIsLeaf(s, src, v);
      AccessIsLeaf(t, root, v);
    }
  }

  lemma KeptAccess(s: State, t: State, spaces: set<nat>)
    requires Inv(s) && Inv(t) && spaces <= s.roots && spaces <= t.roots
    requires forall k: (nat, nat) :: k.0 in spaces ==> (k in t.leaves <==> k in s.leaves) && (k in s.leaves ==> t.leaves[k] == s.leaves[k])
    ensures AccessKept(s, t, spaces)
  {
    hide Inv, UserMayRead, UserMayWrite, UserPage;
    forall r, v: nat | r in spaces && UserPage(v)
      ensures UserMayRead(t.tables, r, v) <==> UserMayRead(s.tables, r, v)
      ensures UserMayWrite(t.tables, r, v) <==> UserMayWrite(s.tables, r, v)
    {
      AccessIsLeaf(s, r, v);
      AccessIsLeaf(t, r, v);
      assert (r, v).0 in spaces;
    }
  }

  /** A clone may be read where its source may, and no other space notices. */
  lemma CloneAccess(s: State, t: State, src: nat, root: nat, w: bool)
    requires Inv(s) && Inv(t) && src in s.roots && Cloned(s, t, src, root, w)
    ensures AccessCopied(s, t, src, root, w) && AccessKept(s, t, s.roots)
  {
    hide Inv, AccessCopied, AccessKept, TablesOf;
    CopiedAccess(s, t, src, root, w);
    KeptAccess(s, t, s.roots);
  }

  /** After a fork both spaces may read what the old one could, and write nothing until a fault. */
  lemma ForkAccess(s: State, t: State, u: State, x: State, before: nat, parent: nat, child: nat)
    requires Inv(s) && Inv(t) && Inv(u) && Inv(x) && before in s.roots
    requires Cloned(s, t, before, parent, false) && Cloned(t, u, before, child, false) && TornDown(u, x, before)
    ensures AccessCopied(s, x, before, parent, false) && AccessCopied(s, x, before, child, false)
    ensures AccessKept(s, x, s.roots - {before})
  {
    hide Inv, AccessCopied, AccessKept, Cloned, TornDown;
    ForkLeaves(s, t, u, x, before, parent, child);
    ClonedRoots(s, t, before, parent, false);
    ClonedRoots(t, u, before, child, false);
    CopiedAccess(s, x, before, parent, false);
    CopiedAccess(s, x, before, child, false);
    KeptAccess(s, x, s.roots - {before});
  }

  lemma ExitAccess(s: State, t: State, root: nat)
    requires Inv(s) && Inv(t) && TornDown(s, t, root)
    ensures AccessKept(s, t, t.roots)
  {
    hide Inv, AccessKept;
    KeptAccess(s, t, t.roots);
  }
}
