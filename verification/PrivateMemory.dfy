/** Fork isolation: what each address space sees, against a model in which every space has private copies. */
module PrivateMemory {
  import opened PageTables
  import opened PageTableEdits
  import opened PagingEffects

  /** Contents of every (space, page). */
  type Memory = map<(nat, nat), Page>

  // ----- the private-copy model: no sharing, no faults

  ghost predicate SameElsewhere(m: Memory, n: Memory, spaces: set<nat>)
  {
    forall k: (nat, nat) :: k.0 !in spaces ==> (k in n <==> k in m) && (k in m ==> n[k] == m[k])
  }

  ghost predicate SpaceCopied(m: Memory, n: Memory, src: nat, dst: nat)
  {
    forall v: nat :: ((dst, v) in n <==> (src, v) in m) && ((src, v) in m ==> n[(dst, v)] == m[(src, v)])
  }

  ghost predicate SpaceGone(n: Memory, root: nat)
  {
    forall v: nat :: (root, v) !in n
  }

  /** Fork: parent and child each get a full private copy of the old space. */
  ghost predicate PrivateFork(m: Memory, n: Memory, before: nat, parent: nat, child: nat)
  {
    && SpaceCopied(m, n, before, parent) && SpaceCopied(m, n, before, child) && SpaceGone(n, before)
    && SameElsewhere(m, n, {before, parent, child})
  }

  ghost function PrivateStore(m: Memory, k: (nat, nat), offset: nat, value: nat): Memory
    requires k in m && offset < 4096
  {
    m[k := m[k][offset := value]]
  }

  ghost predicate PrivateExit(m: Memory, n: Memory, root: nat)
  {
    SpaceGone(n, root) && SameElsewhere(m, n, {root})
  }

  /** Mapping pages [lo, hi): pages that had no mapping read as zero, nothing else changes. */
  ghost predicate PrivateMap(m: Memory, n: Memory, mapped: set<(nat, nat)>, root: nat, lo: nat, hi: nat)
  {
    && (forall k :: k in m ==> k in n && n[k] == m[k])
    && (forall k :: k in n && k !in m ==> InRange(k, root, lo, hi) && k !in mapped && n[k] == ZeroPage())
    && (forall k :: InRange(k, root, lo, hi) && k !in mapped ==> k in n)
  }

  // ----- the invariant that makes sharing invisible

  /** A page that a space outside `gone` may write is mapped by that space only. */
  ghost predicate UnsharedBut(leaves: map<(nat, nat), Pte>, gone: set<nat>)
  {
    forall k, l ::
      (k in leaves && l in leaves && leaves[k].owned && leaves[k].writable && leaves[l].owned && leaves[k].frame == leaves[l].frame)
      ==> k == l || k.0 in gone
  }

  /** A page that some space may write is mapped by that space only. */
  ghost predicate Unshared(leaves: map<(nat, nat), Pte>)
  {
    UnsharedBut(leaves, {})
  }

  /** Sharing in terms of the reference count. */
  lemma SharerCount(s: State, k: (nat, nat))
    requires Inv(s) && k in s.leaves && s.leaves[k].owned
    ensures s.leaves[k].frame in s.refs && (OnlySharer(s, k) <==> s.refs[s.leaves[k].frame] == 1)
  {
    hide ChildrenPlaced, ParentsExist, LeavesAgree, TablesWellFormed;
    LeafFrame(s, k);
    if OnlySharer(s, k) {
      assert Sharers(s.leaves, s.leaves[k].frame) == {k};
    }
  }

  /** In terms of reference counts: outside `gone`, a writable owned leaf's page has count one. */
  lemma WritableMeansCountOne(s: State, gone: set<nat>)
    requires Inv(s)
    ensures UnsharedBut(s.leaves, gone) <==>
            forall k :: k in s.leaves && s.leaves[k].owned && s.leaves[k].writable && k.0 !in gone ==>
              s.leaves[k].frame in s.refs && s.refs[s.leaves[k].frame] == 1
  {
    hide Inv;
    forall k | k in s.leaves && s.leaves[k].owned && s.leaves[k].writable && k.0 !in gone
      ensures s.leaves[k].frame in s.refs && (OnlySharer(s, k) <==> s.refs[s.leaves[k].frame] == 1)
    {
      SharerCount(s, k);
    }
  }

  lemma MapKeepsUnshared(s: State, t: State, root: nat, lo: nat, hi: nat, w: bool, gone: set<nat>)
    requires Inv(s) && Inv(t) && Mapped(s, t, root, lo, hi, w) && UnsharedBut(s.leaves, gone)
    requires w && root !in gone ==> forall k :: InRange(k, root, lo, hi) && k in s.leaves && s.leaves[k].owned ==> OnlySharer(s, k)
    ensures UnsharedBut(t.leaves, gone)
  {
    hide ChildrenPlaced, ParentsExist, LeavesAgree, TablesWellFormed;
    Accounted(s);
    hide FramesAccounted;
    forall k, l | k in t.leaves && l in t.leaves && t.leaves[k].owned && t.leaves[k].writable && t.leaves[l].owned
                  && t.leaves[k].frame == t.leaves[l].frame && k.0 !in gone
      ensures k == l
    {
      if k in s.leaves && l in s.leaves {
        assert s.leaves[k].owned && s.leaves[l].owned && s.leaves[k].frame == s.leaves[l].frame;
      } else if k !in s.leaves {
        LeafFrame(t, k);
      } else {
        LeafFrame(t, l);
      }
    }
  }

  /** Mapping keeps sharing invisible exactly when it makes no shared page writable. */
  lemma MapUnshared(s: State, t: State, root: nat, lo: nat, hi: nat, w: bool, gone: set<nat>)
    requires Inv(s) && Inv(t) && Mapped(s, t, root, lo, hi, w) && UnsharedBut(s.leaves, gone)
    ensures UnsharedBut(t.leaves, gone) <==>
            (w && root !in gone ==> forall k :: k in s.leaves && InRange(k, root, lo, hi) && s.leaves[k].owned ==> OnlySharer(s, k))
  {
    if w && root !in gone && exists k :: k in s.leaves && InRange(k, root, lo, hi) && s.leaves[k].owned && !OnlySharer(s, k) {
      var k :| k in s.leaves && InRange(k, root, lo, hi) && s.leaves[k].owned && !OnlySharer(s, k);
      MadeWritable(s, t, root, lo, hi, k, gone);
    } else {
      MapKeepsUnshared(s, t, root, lo, hi, w, gone);
    }
  }

  lemma MadeWritable(s: State, t: State, root: nat, lo: nat, hi: nat, k: (nat, nat), gone: set<nat>)
    requires Mapped(s, t, root, lo, hi, true) && k in s.leaves && InRange(k, root, lo, hi) && s.leaves[k].owned && !OnlySharer(s, k)
    requires root !in gone
    ensures !UnsharedBut(t.leaves, gone)
  {
    var l :| l in s.leaves && s.leaves[l].owned && s.leaves[l].frame == s.leaves[k].frame && l != k;
    assert t.leaves[k] == s.leaves[k].(writable := true);
    assert l in t.leaves && t.leaves[l].owned && t.leaves[l].frame == s.leaves[l].frame;
  }

  lemma MapIsPrivate(s: State, t: State, root: nat, lo: nat, hi: nat, w: bool)
    requires Inv(s) && Inv(t) && Mapped(s, t, root, lo, hi, w)
    ensures PrivateMap(Private(s), Private(t), s.leaves.Keys, root, lo, hi)
  {
    hide ChildrenPlaced, ParentsExist, LeavesAgree, TablesWellFormed;
    Accounted(s);
    Accounted(t);
    hide FramesAccounted, Inv;
    MapContents(s, t, root, lo, hi, w);
  }

  lemma MapContents(s: State, t: State, root: nat, lo: nat, hi: nat, w: bool)
    requires Mapped(s, t, root, lo, hi, w)
    requires s.data.Keys <= s.refs.Keys
    requires forall k :: k in s.leaves && s.leaves[k].owned ==> s.leaves[k].frame in s.data
    requires forall k :: k in t.leaves && t.leaves[k].owned ==> t.leaves[k].frame in t.data
    ensures PrivateMap(Private(s), Private(t), s.leaves.Keys, root, lo, hi)
  {
    hide Private, Mapped, InRange;
    forall k
      ensures k in Private(s) ==> k in Private(t) && Private(t)[k] == Private(s)[k]
      ensures k in Private(t) && k !in Private(s) ==> InRange(k, root, lo, hi) && k !in s.leaves && Private(t)[k] == ZeroPage()
      ensures InRange(k, root, lo, hi) && k !in s.leaves ==> k in Private(t)
    {
      MapContentsAt(s, t, root, lo, hi, w, k);
    }
  }

  lemma MapContentsAt(s: State, t: State, root: nat, lo: nat, hi: nat, w: bool, k: (nat, nat))
    requires Mapped(s, t, root, lo, hi, w)
    requires s.data.Keys <= s.refs.Keys
    requires forall k :: k in s.leaves && s.leaves[k].owned ==> s.leaves[k].frame in s.data
    requires forall k :: k in t.leaves && t.leaves[k].owned ==> t.leaves[k].frame in t.data
    ensures k in Private(s) ==> k in Private(t) && Private(t)[k] == Private(s)[k]
    ensures k in Private(t) && k !in Private(s) ==> InRange(k, root, lo, hi) && k !in s.leaves && Private(t)[k] == ZeroPage()
    ensures InRange(k, root, lo, hi) && k !in s.leaves ==> k in Private(t)
  {
    if InRange(k, root, lo, hi) {
      assert if k in s.leaves then t.leaves[k] == s.leaves[k].(writable := w) else FreshLeaf(s, t, t.leaves[k], w);
    }
  }

  lemma CowKeepsUnshared(s: State, t: State, k: (nat, nat), gone: set<nat>)
    requires Inv(s) && Inv(t) && CopiedOnWrite(s, t, k) && UnsharedBut(s.leaves, gone)
    ensures UnsharedBut(t.leaves, gone)
  {
    hide ChildrenPlaced, ParentsExist, LeavesAgree, TablesWellFormed, Private, FramesAccounted;
    LeafFrame(t, k);
  }

  lemma CowIsAlone(s: State, t: State, k: (nat, nat))
    requires Inv(s) && Inv(t) && CopiedOnWrite(s, t, k)
    ensures OnlySharer(t, k)
  {
    hide ChildrenPlaced, ParentsExist, LeavesAgree, TablesWellFormed, Private, FramesAccounted;
    LeafFrame(t, k);
  }

  // ----- fork: two read-only clones, then the old space goes

  lemma ForkIsPrivate(s: State, t: State, u: State, x: State, before: nat, parent: nat, child: nat)
    requires Inv(s) && Inv(t) && Inv(u) && Inv(x) && before in s.roots
    requires Cloned(s, t, before, parent, false) && Cloned(t, u, before, child, false) && TornDown(u, x, before)
    ensures PrivateFork(Private(s), Private(x), before, parent, child)
    ensures forall gone :: UnsharedBut(s.leaves, gone) ==> UnsharedBut(x.leaves, gone - {before})
    ensures parent != child && before != parent && before != child
    ensures x.roots == s.roots - {before} + {parent, child}
  {
    ForkLeaves(s, t, u, x, before, parent, child);
    ForkData(s, t, u, x, before, parent, child);
    hide ChildrenPlaced, ParentsExist, LeavesAgree, TablesWellFormed, Cloned, TornDown;
    Accounted(s);
    Accounted(x);
    hide FramesAccounted, Inv;
    ForkContents(s, x, before, parent, child);
    forall gone | UnsharedBut(s.leaves, gone)
      ensures UnsharedBut(x.leaves, gone - {before})
    {
      ForkUnshared(s, x, before, parent, child, gone);
    }
  }

  /** Leaves after a fork: both new spaces have the old translations, read-only. */
  ghost predicate ForkedLeaves(s: State, x: State, before: nat, parent: nat, child: nat)
  {
    && (forall k: (nat, nat) :: k.0 != before && k.0 != parent && k.0 != child ==>
          (k in x.leaves <==> k in s.leaves) && (k in s.leaves ==> x.leaves[k] == s.leaves[k]))
    && (forall v: nat :: (before, v) !in x.leaves)
    && (forall v: nat :: ((parent, v) in x.leaves <==> (before, v) in s.leaves)
                         && ((before, v) in s.leaves ==> x.leaves[(parent, v)] == s.leaves[(before, v)].(writable := false)))
    && (forall v: nat :: ((child, v) in x.leaves <==> (before, v) in s.leaves)
                         && ((before, v) in s.leaves ==> x.leaves[(child, v)] == s.leaves[(before, v)].(writable := false)))
  }

  lemma ForkLeaves(s: State, t: State, u: State, x: State, before: nat, parent: nat, child: nat)
    requires before in s.roots
    requires Cloned(s, t, before, parent, false) && Cloned(t, u, before, child, false) && TornDown(u, x, before)
    ensures parent != child && before != parent && before != child
    ensures x.roots == s.roots - {before} + {parent, child}
    ensures ForkedLeaves(s, x, before, parent, child)
  {
    hide TablesOf, Cloned, TornDown;
    ForkRoots(s, t, u, x, before, parent, child);
    forall k: (nat, nat) | k.0 != parent && k.0 != child
      ensures k.0 == before ==> k !in x.leaves
      ensures k.0 != before ==> (k in x.leaves <==> k in s.leaves) && (k in s.leaves ==> x.leaves[k] == s.leaves[k])
    {
      ForkLeafElsewhere(s, t, u, x, before, parent, child, k);
    }
    forall v: nat
      ensures (parent, v) in x.leaves <==> (before, v) in s.leaves
      ensures (before, v) in s.leaves ==> x.leaves[(parent, v)] == s.leaves[(before, v)].(writable := false)
      ensures (child, v) in x.leaves <==> (before, v) in s.leaves
      ensures (before, v) in s.leaves ==> x.leaves[(child, v)] == s.leaves[(before, v)].(writable := false)
    {
      ForkLeafAt(s, t, u, x, before, parent, child, v);
    }
  }

  lemma ForkRoots(s: State, t: State, u: State, x: State, before: nat, parent: nat, child: nat)
    requires before in s.roots
    requires Cloned(s, t, before, parent, false) && Cloned(t, u, before, child, false) && TornDown(u, x, before)
    ensures parent != child && before != parent && before != child
    ensures x.roots == s.roots - {before} + {parent, child}
  {
    hide TablesOf;
    assert parent in t.roots && before in t.roots;
  }

  lemma ForkLeafElsewhere(s: State, t: State, u: State, x: State, before: nat, parent: nat, child: nat, k: (nat, nat))
    requires before in s.roots && k.0 != parent && k.0 != child
    requires Cloned(s, t, before, parent, false) && Cloned(t, u, before, child, false) && TornDown(u, x, before)
    ensures k.0 == before ==> k !in x.leaves
    ensures k.0 != before ==> (k in x.leaves <==> k in s.leaves) && (k in s.leaves ==> x.leaves[k] == s.leaves[k])
  {
    hide TablesOf;
  }

  lemma ForkLeafAt(s: State, t: State, u: State, x: State, before: nat, parent: nat, child: nat, v: nat)
    requires before in s.roots
    requires Cloned(s, t, before, parent, false) && Cloned(t, u, before, child, false) && TornDown(u, x, before)
    ensures (parent, v) in x.leaves <==> (before, v) in s.leaves
    ensures (before, v) in s.leaves ==> x.leaves[(parent, v)] == s.leaves[(before, v)].(writable := false)
    ensures (child, v) in x.leaves <==> (before, v) in s.leaves
    ensures (before, v) in s.leaves ==> x.leaves[(child, v)] == s.leaves[(before, v)].(writable := false)
  {
    hide TablesOf;
    assert parent in t.roots && before in t.roots;
    assert (parent, v) in u.leaves <==> (parent, v) in t.leaves;
    assert (before, v) in t.leaves <==> (before, v) in s.leaves;
    assert (child, v) in u.leaves <==> (before, v) in t.leaves;
  }

  lemma ForkData(s: State, t: State, u: State, x: State, before: nat, parent: nat, child: nat)
    requires Cloned(s, t, before, parent, false) && Cloned(t, u, before, child, false) && TornDown(u, x, before)
    ensures forall d :: d in x.data ==> d in s.data && x.data[d] == s.data[d]
  {
    hide TablesOf;
  }

  lemma ForkContents(s: State, x: State, before: nat, parent: nat, child: nat)
    requires ForkedLeaves(s, x, before, parent, child)
    requires forall d :: d in x.data ==> d in s.data && x.data[d] == s.data[d]
    requires forall k :: k in s.leaves && s.leaves[k].owned ==> s.leaves[k].frame in s.data
    requires forall k :: k in x.leaves && x.leaves[k].owned ==> x.leaves[k].frame in x.data
    requires parent != child && before != parent && before != child
    ensures PrivateFork(Private(s), Private(x), before, parent, child)
  {
    hide SpaceCopied, SameElsewhere, Private;
    ForkCopyContents(s, x, before, parent);
    ForkCopyContents(s, x, before, child);
    ForkElsewhere(s, x, {before, parent, child});
    assert SpaceGone(Private(x), before) by { GoneFrom(x, before); }
  }

  lemma GoneFrom(x: State, r: nat)
    requires forall v: nat :: (r, v) !in x.leaves
    ensures SpaceGone(Private(x), r)
  {
  }

  lemma ForkElsewhere(s: State, x: State, spaces: set<nat>)
    requires forall k: (nat, nat) :: k.0 !in spaces ==> (k in x.leaves <==> k in s.leaves) && (k in s.leaves ==> x.leaves[k] == s.leaves[k])
    requires forall d :: d in x.data ==> d in s.data && x.data[d] == s.data[d]
    requires forall k :: k in s.leaves && s.leaves[k].owned ==> s.leaves[k].frame in s.data
    requires forall k :: k in x.leaves && x.leaves[k].owned ==> x.leaves[k].frame in x.data
    ensures SameElsewhere(Private(s), Private(x), spaces)
  {
  }

  lemma ForkCopyContents(s: State, x: State, before: nat, dst: nat)
    requires forall v: nat :: ((dst, v) in x.leaves <==> (before, v) in s.leaves)
                              && ((before, v) in s.leaves ==> x.leaves[(dst, v)] == s.leaves[(before, v)].(writable := false))
    requires forall d :: d in x.data ==> d in s.data && x.data[d] == s.data[d]
    requires forall k :: k in s.leaves && s.leaves[k].owned ==> s.leaves[k].frame in s.data
    requires forall k :: k in x.leaves && x.leaves[k].owned ==> x.leaves[k].frame in x.data
    ensures SpaceCopied(Private(s), Private(x), before, dst)
  {
  }

  lemma ForkUnshared(s: State, x: State, before: nat, parent: nat, child: nat, gone: set<nat>)
    requires ForkedLeaves(s, x, before, parent, child) && UnsharedBut(s.leaves, gone)
    requires parent != child && before != parent && before != child
    ensures UnsharedBut(x.leaves, gone - {before})
  {
    forall k, l | k in x.leaves && l in x.leaves && x.leaves[k].owned && x.leaves[k].writable && x.leaves[l].owned
                  && x.leaves[k].frame == x.leaves[l].frame
      ensures k == l || k.0 in gone - {before}
    {
      assert k.0 != parent && k.0 != child && k.0 != before;
      assert k in s.leaves;
      var l' := if l.0 == parent || l.0 == child then (before, l.1) else l;
      assert l' in s.leaves && s.leaves[l'].owned && s.leaves[l'].frame == x.leaves[l].frame;
    }
  }

  // ----- fork when the second clone gets no root: the parent runs on its clone and the old space stays behind

  ghost predicate NothingWritable(leaves: map<(nat, nat), Pte>, r: nat)
  {
    forall k: (nat, nat) :: k in leaves && k.0 == r ==> !(leaves[k].owned && leaves[k].writable)
  }

  lemma HalfForkIsPrivate(s: State, t: State, before: nat, parent: nat)
    requires Inv(s) && Inv(t) && before in s.roots && Cloned(s, t, before, parent, false)
    ensures SpaceCopied(Private(s), Private(t), before, parent) && SameElsewhere(Private(s), Private(t), {parent})
    ensures forall gone :: UnsharedBut(s.leaves, gone) ==> UnsharedBut(t.leaves, gone + {before})
    ensures Unshared(s.leaves) ==> (Unshared(t.leaves) <==> NothingWritable(s.leaves, before))
  {
    hide ChildrenPlaced, ParentsExist, LeavesAgree, TablesWellFormed, TablesOf;
    Accounted(s);
    Accounted(t);
    hide FramesAccounted, Inv;
    HalfForkContents(s, t, before, parent);
    forall gone | UnsharedBut(s.leaves, gone)
      ensures UnsharedBut(t.leaves, gone + {before})
      ensures UnsharedBut(t.leaves, gone) <==> before in gone || NothingWritable(s.leaves, before)
    {
      HalfForkUnshared(s, t, before, parent, gone);
    }
  }

  lemma HalfForkContents(s: State, t: State, before: nat, parent: nat)
    requires Cloned(s, t, before, parent, false)
    requires forall k :: k in s.leaves && s.leaves[k].owned ==> s.leaves[k].frame in s.data
    requires forall k :: k in t.leaves && t.leaves[k].owned ==> t.leaves[k].frame in t.data
    ensures SpaceCopied(Private(s), Private(t), before, parent) && SameElsewhere(Private(s), Private(t), {parent})
  {
    hide TablesOf, Private;
    ForkCopyContents(s, t, before, parent);
    ForkElsewhere(s, t, {parent});
  }

  /** The old space must count as abandoned unless it may write nothing. */
  lemma HalfForkUnshared(s: State, t: State, before: nat, parent: nat, gone: set<nat>)
    requires before in s.roots && Cloned(s, t, before, parent, false) && UnsharedBut(s.leaves, gone)
    ensures UnsharedBut(t.leaves, gone + {before})
    ensures UnsharedBut(t.leaves, gone) <==> before in gone || NothingWritable(s.leaves, before)
  {
    hide TablesOf;
    forall k, l | k in t.leaves && l in t.leaves && t.leaves[k].owned && t.leaves[k].writable && t.leaves[l].owned
                  && t.leaves[k].frame == t.leaves[l].frame
      ensures k in s.leaves && (k == l || k.0 == before || k.0 in gone)
    {
      assert k.0 != parent;
      var l' := if l.0 == parent then (before, l.1) else l;
      assert l' in s.leaves && s.leaves[l'].owned && s.leaves[l'].frame == t.leaves[l].frame;
    }
    if before !in gone && !NothingWritable(s.leaves, before) {
      var k: (nat, nat) :| k in s.leaves && k.0 == before && s.leaves[k].owned && s.leaves[k].writable;
      var l := (parent, k.1);
      assert (before, k.1) == k && l in t.leaves && k in t.leaves && k != l;
      assert t.leaves[l].frame == t.leaves[k].frame;
    }
  }

  lemma ExitIsPrivate(s: State, t: State, root: nat)
    requires Inv(s) && Inv(t) && TornDown(s, t, root)
    ensures PrivateExit(Private(s), Private(t), root)
    ensures forall gone :: UnsharedBut(s.leaves, gone) ==> UnsharedBut(t.leaves, gone - {root})
  {
    hide ChildrenPlaced, ParentsExist, LeavesAgree, TablesWellFormed;
    Accounted(s);
    Accounted(t);
    hide FramesAccounted, Inv;
    ExitContents(s, t, root);
  }

  lemma ExitContents(s: State, t: State, root: nat)
    requires TornDown(s, t, root)
    requires forall k :: k in s.leaves && s.leaves[k].owned ==> s.leaves[k].frame in s.data
    requires forall k :: k in t.leaves && t.leaves[k].owned ==> t.leaves[k].frame in t.data
    ensures PrivateExit(Private(s), Private(t), root)
    ensures forall gone :: UnsharedBut(s.leaves, gone) ==> UnsharedBut(t.leaves, gone - {root})
  {
  }

  /** The pages that owned leaves name. */
  ghost function PagesOf(leaves: map<(nat, nat), Pte>): set<nat>
  {
    set k | k in leaves && leaves[k].owned :: leaves[k].frame
  }

  /** Nothing leaks: every frame outside the pool is a table of a live space or a page that some live space maps. */
  lemma NothingLeaks(s: State)
    requires Inv(s)
    ensures forall f :: f in s.refs && f !in s.pool <==> f in PagesOf(s.leaves) || exists r :: r in s.roots && f in TablesOf(s, r)
    ensures forall k: (nat, nat) :: k in s.leaves ==> k.0 in s.roots
  {
    hide ChildrenPlaced, ParentsExist, LeavesAgree;
    forall f
      ensures f in s.data <==> f in PagesOf(s.leaves)
      ensures f in s.tables <==> exists r :: r in s.roots && f in TablesOf(s, r)
    {
      if f in s.data {
        assert Sharers(s.leaves, f) != {};
        var k :| k in Sharers(s.leaves, f);
        assert s.leaves[k].frame == f;
      }
      if f in s.tables {
        assert f in TablesOf(s, s.pos[f].root);
      }
    }
    forall k: (nat, nat) | k in s.leaves
      ensures k.0 in s.roots
    {
      LeafPrefixZero(s, k);
    }
  }

  /** With one space left, exactly its own tables and pages are outside the pool. */
  lemma OneSpaceLeft(s: State, r: nat)
    requires Inv(s) && s.roots == {r}
    ensures s.refs.Keys - s.pool == TablesOf(s, r) + PagesOf(s.leaves)
    ensures forall k: (nat, nat) :: k in s.leaves ==> k.0 == r
  {
    hide Inv, TablesOf, PagesOf;
    NothingLeaks(s);
    PoolIsKnown(s);
    assert forall q :: q in s.roots <==> q == r;
  }

  lemma PoolIsKnown(s: State)
    requires Inv(s)
    ensures forall f :: f in s.pool ==> f in s.refs
  {
    hide ChildrenPlaced, ParentsExist, LeavesAgree, TablesWellFormed;
  }

  // ----- stores

  /** A byte goes to the frame behind an owned leaf. */
  ghost predicate Stored(s: State, t: State, k: (nat, nat), offset: nat, value: nat)
  {
    && k in s.leaves && s.leaves[k].owned && s.leaves[k].frame in s.data && offset < 4096
    && t == s.(data := s.data[s.leaves[k].frame := s.data[s.leaves[k].frame][offset := value]])
  }

  /** No other mapping shows the store: there is none, or the byte has that value already. */
  ghost predicate NobodyElseSees(s: State, k: (nat, nat), offset: nat, value: nat)
    requires k in s.leaves && s.leaves[k].owned && s.leaves[k].frame in s.data && offset < 4096
  {
    OnlySharer(s, k) || s.data[s.leaves[k].frame][offset] == value
  }

  /** A store through a leaf is a store to a private copy exactly when no other mapping shows it. */
  lemma StoreIsPrivate(s: State, t: State, k: (nat, nat), offset: nat, value: nat)
    requires Inv(s) && Stored(s, t, k, offset, value)
    ensures k in Private(s)
    ensures Private(t) == PrivateStore(Private(s), k, offset, value) <==> NobodyElseSees(s, k, offset, value)
  {
    hide ChildrenPlaced, ParentsExist, LeavesAgree, TablesWellFormed, FramesAccounted, OnlySharer, Private, PrivateStore;
    Accounted(s);
    if NobodyElseSees(s, k, offset, value) {
      StoreHitsOne(s, t, k, offset, value);
    } else {
      StoreHitsTwo(s, t, k, offset, value);
    }
  }

  lemma StoreHitsOne(s: State, t: State, k: (nat, nat), offset: nat, value: nat)
    requires forall l :: l in s.leaves && s.leaves[l].owned ==> s.leaves[l].frame in s.data
    requires Stored(s, t, k, offset, value) && NobodyElseSees(s, k, offset, value)
    ensures k in Private(s) && Private(t) == PrivateStore(Private(s), k, offset, value)
  {
    var d := s.leaves[k].frame;
    if s.data[d][offset] == value {
      assert s.data[d][offset := value] == s.data[d];
      assert t.data == s.data;
    }
  }

  lemma StoreHitsTwo(s: State, t: State, k: (nat, nat), offset: nat, value: nat)
    requires forall l :: l in s.leaves && s.leaves[l].owned ==> s.leaves[l].frame in s.data
    requires Stored(s, t, k, offset, value) && !NobodyElseSees(s, k, offset, value)
    ensures k in Private(s) && Private(t) != PrivateStore(Private(s), k, offset, value)
  {
    var l :| l in s.leaves && s.leaves[l].owned && s.leaves[l].frame == s.leaves[k].frame && l != k;
    assert Private(t)[l][offset] == value && Private(s)[l][offset] != value;
  }

  /** A space that is not abandoned never hits another one's page. */
  lemma WritableIsAlone(s: State, k: (nat, nat), gone: set<nat>)
    requires UnsharedBut(s.leaves, gone) && k in s.leaves && s.leaves[k].owned && s.leaves[k].writable && k.0 !in gone
    ensures OnlySharer(s, k)
  {
  }

  lemma TablesOfRoot(s: State, root: nat)
    requires Inv(s) && root in s.roots
    ensures |TablesOf(s, root)| >= 1
  {
    hide ChildrenPlaced, ParentsExist, LeavesAgree, FramesAccounted;
    assert root in TablesOf(s, root);
  }

  lemma ClonedBudget(s: State, t: State, src: nat, root: nat, w: bool)
    requires Cloned(s, t, src, root, w) && src in s.roots
    ensures TablesOf(t, src) == TablesOf(s, src) && |t.pool| + |TablesOf(s, src)| == |s.pool|
  {
    hide TablesOf;
  }

  lemma NewRootPrivate(s: State, t: State, root: nat)
    requires t.leaves == s.leaves && t.data == s.data
    requires forall k: (nat, nat) :: k in s.leaves ==> k.0 != root
    ensures Private(t) == Private(s) && SpaceGone(Private(s), root)
  {
  }

  lemma LeafFrameInv(s: State, k: (nat, nat))
    requires Inv(s) && k in s.leaves && s.leaves[k].owned
    ensures s.leaves[k].frame in s.data && k in Private(s)
  {
    hide ChildrenPlaced, ParentsExist, LeavesAgree, TablesWellFormed, FramesAccounted;
    LeafFrame(s, k);
  }

  lemma CowLeaf(s: State, t: State, k: (nat, nat))
    requires CopiedOnWrite(s, t, k)
    ensures k in s.leaves && k in t.leaves && t.leaves == s.leaves[k := t.leaves[k]] && t.leaves[k].owned && t.leaves[k].writable
    ensures Private(t) == Private(s) && t.roots == s.roots
  {
    hide Private;
  }
}
