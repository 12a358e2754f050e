/** One kernel step on all address spaces together, and the same step on private copies. */
module SpaceSteps {
  import opened PageTables
  import opened PageTableEdits
  import opened PagingEffects
  import opened PrivateMemory
  import opened ForeignFrames
  import opened UserAccess

  /** What the kernel does for the active space: map pages [lo, hi), store a byte to an owned page, store one to a page of
      a mapped buffer, fork, fork until the second clone fails, exec. The others act on any space: make one, give the
      processor to one, tear one down that is not active, and map or unmap a buffer. */
  datatype Operation =
    | MapPages(lo: nat, hi: nat, w: bool)
    | Store(page: nat, offset: nat, value: nat)
    | StoreToBuffer(page: nat, offset: nat, value: nat, contents: Page)
    | Fork(parent: nat, child: nat)
    | HalfFork(parent: nat)
    | Exec(space: nat)
    | Create(space: nat)
    | Switch(to: nat)
    | Exit(root: nat)
    | MapBuffer(root: nat, page: nat, n: nat, frame: nat)
    | UnmapBuffer(root: nat, lo: nat, hi: nat)

  // ----- steps of the private-copy model

  /** Contents of all spaces, the active space, and the pages that have a mapping. */
  datatype View = View(memory: Memory, active: nat, mapped: set<(nat, nat)>)

  ghost predicate PrivateStep(a: View, op: Operation, b: View)
  {
    match op
    case MapPages(lo, hi, w) => b.active == a.active && PrivateMap(a.memory, b.memory, a.mapped, a.active, lo, hi)
    case Store(page, offset, value) =>
      && b.active == a.active && (a.active, page) in a.memory && offset < 4096
      && b.memory == PrivateStore(a.memory, (a.active, page), offset, value)
    case StoreToBuffer(page, offset, value, contents) =>
      && b.active == a.active && (a.active, page) !in a.memory && offset < 4096
      && b.memory == PrivateStore(a.memory[(a.active, page) := contents], (a.active, page), offset, value)
    case Fork(parent, child) => b.active == parent && PrivateFork(a.memory, b.memory, a.active, parent, child)
    case HalfFork(parent) =>
      && b.active == parent
      && SpaceCopied(a.memory, b.memory, a.active, parent) && SameElsewhere(a.memory, b.memory, {parent})
    case Exec(space) => b.active == space && PrivateExit(a.memory, b.memory, a.active) && SpaceGone(b.memory, space)
    case Create(space) => b.active == a.active && b.memory == a.memory && SpaceGone(b.memory, space)
    case Switch(to) => b.active == to && b.memory == a.memory
    case Exit(root) => b.active == a.active && root != a.active && PrivateExit(a.memory, b.memory, root)
    case MapBuffer(_, _, _, _) => b.active == a.active && b.memory == a.memory
    case UnmapBuffer(_, _, _) => b.active == a.active && b.memory == a.memory
  }

  /** The spaces an operation may change. */
  function Touches(a: View, op: Operation): set<nat>
  {
    match op
    case MapPages(_, _, _) => {a.active}
    case Store(_, _, _) => {a.active}
    case StoreToBuffer(_, _, _, _) => {a.active}
    case Fork(parent, child) => {a.active, parent, child}
    case HalfFork(parent) => {parent}
    case Exec(space) => {a.active}
    case Exit(root) => {root}
    case _ => {}
  }

  lemma StepElsewhere(a: View, op: Operation, b: View)
    requires PrivateStep(a, op, b)
    ensures SameElsewhere(a.memory, b.memory, Touches(a, op))
  {
  }

  /** The private-copy model leaves no choice: operation and mapped pages determine what every space holds next. */
  lemma StepDetermined(a: View, op: Operation, b: View, c: View)
    requires PrivateStep(a, op, b) && PrivateStep(a, op, c)
    ensures b.memory == c.memory && b.active == c.active
  {
    forall k: (nat, nat)
      ensures k in b.memory <==> k in c.memory
      ensures k in b.memory ==> b.memory[k] == c.memory[k]
    {
      StepDeterminedAt(a, op, b, c, k);
    }
  }

  lemma StepDeterminedAt(a: View, op: Operation, b: View, c: View, k: (nat, nat))
    requires PrivateStep(a, op, b) && PrivateStep(a, op, c)
    ensures k in b.memory <==> k in c.memory
    ensures k in b.memory ==> b.memory[k] == c.memory[k]
  {
    assert k == (k.0, k.1);
  }

  // ----- steps of the kernel

  /** The page tables and pages of all spaces, the space the processor runs on, and the spaces that forks left behind. */
  datatype World = World(s: State, active: nat, abandoned: set<nat>)

  ghost predicate Lawful(a: World)
  {
    Inv(a.s) && a.active in a.s.roots && a.abandoned <= a.s.roots
  }

  ghost function ViewOf(a: World): View
  {
    View(Private(a.s), a.active, a.s.leaves.Keys)
  }

  /** A store to an owned page, after the write fault if the leaf was read-only. */
  ghost predicate Written(s: State, t: State, k: (nat, nat), offset: nat, value: nat)
  {
    && k in s.leaves && s.leaves[k].owned
    && if s.leaves[k].writable then Stored(s, t, k, offset, value)
       else exists u :: Inv(u) && CopiedOnWrite(s, u, k) && Stored(u, t, k, offset, value)
  }

  /** A store to a read-only page of a mapped buffer: the fault gives the space a copy of its own, which takes the store. */
  ghost predicate WrittenToCopy(s: State, t: State, k: (nat, nat), offset: nat, value: nat, contents: Page)
  {
    && k in s.leaves && !s.leaves[k].owned
    && exists u, page :: Inv(u) && Adopted(s, u, k, page, contents) && Stored(u, t, k, offset, value)
  }

  /** Both clones are made, then the space they were made from goes. */
  ghost predicate Forked(s: State, x: State, before: nat, parent: nat, child: nat)
  {
    exists t, u ::
      && Inv(t) && Inv(u) && Cloned(s, t, before, parent, false) && Cloned(t, u, before, child, false)
      && TornDown(u, x, before)
  }

  /** A space with no user page. */
  ghost predicate Created(s: State, t: State, space: nat)
  {
    && space in s.pool && space !in s.roots && t.roots == s.roots + {space}
    && t.leaves == s.leaves && t.data == s.data && t.refs == s.refs
  }

  ghost predicate Replaced(s: State, x: State, before: nat, space: nat)
  {
    exists t :: Inv(t) && Created(s, t, space) && TornDown(t, x, before)
  }

  ghost predicate KernelStep(a: World, op: Operation, b: World)
  {
    match op
    case MapPages(lo, hi, w) => b == a.(s := b.s) && Mapped(a.s, b.s, a.active, lo, hi, w)
    case Store(page, offset, value) => b == a.(s := b.s) && Written(a.s, b.s, (a.active, page), offset, value)
    case StoreToBuffer(page, offset, value, contents) =>
      b == a.(s := b.s) && WrittenToCopy(a.s, b.s, (a.active, page), offset, value, contents)
    case Fork(parent, child) =>
      b == World(b.s, parent, a.abandoned - {a.active}) && Forked(a.s, b.s, a.active, parent, child)
    case HalfFork(parent) =>
      b == World(b.s, parent, a.abandoned + {a.active}) && Cloned(a.s, b.s, a.active, parent, false)
    case Exec(space) =>
      b == World(b.s, space, a.abandoned - {a.active}) && Replaced(a.s, b.s, a.active, space)
    case Create(space) => b == a.(s := b.s) && Created(a.s, b.s, space)
    case Switch(to) => b == a.(active := to) && to in a.s.roots
    case Exit(root) =>
      b == World(b.s, a.active, a.abandoned - {root}) && root != a.active && TornDown(a.s, b.s, root)
    case MapBuffer(root, page, n, frame) => b == a.(s := b.s) && ForeignMapped(a.s, b.s, root, page, n, frame)
    case UnmapBuffer(root, lo, hi) =>
      b == a.(s := b.s) && AllForeign(a.s.leaves, root, lo, hi) && Unmapped(a.s, b.s, root, lo, hi)
  }

  /** u is s after the write fault, or s itself when the leaf could be written. */
  lemma WrittenIsPrivate(s: State, u: State, t: State, k: (nat, nat), offset: nat, value: nat)
    requires Inv(s) && Inv(u) && Stored(u, t, k, offset, value) && k in s.leaves && s.leaves[k].owned
    requires if s.leaves[k].writable then u == s else CopiedOnWrite(s, u, k)
    ensures Written(s, t, k, offset, value) && k in Private(s)
    ensures Private(t) == PrivateStore(Private(s), k, offset, value) <==> Careful(World(s, k.0, {}), Store(k.1, offset, value))
    ensures Unshared(s.leaves) ==> Unshared(t.leaves) && Careful(World(s, k.0, {}), Store(k.1, offset, value))
  {
    hide Inv, CopiedOnWrite, Private, PrivateStore, UnsharedBut, OnlySharer;
    assert k == (k.0, k.1);
    LeafFrameInv(s, k);
    StoreIsPrivate(u, t, k, offset, value);
    if !s.leaves[k].writable {
      CowLeaf(s, u, k);
      CowIsAlone(s, u, k);
      if Unshared(s.leaves) {
        CowKeepsUnshared(s, u, k, {});
      }
    } else if Unshared(s.leaves) {
      WritableIsAlone(s, k, {});
    }
  }

  lemma AdoptedLeaf(s: State, t: State, k: (nat, nat), page: nat, contents: Page)
    requires Adopted(s, t, k, page, contents)
    ensures k in t.leaves && t.leaves[k].owned && t.leaves[k].writable && t.leaves == s.leaves[k := t.leaves[k]] && t.roots == s.roots
  {
  }

  /** A store leaves its page writable for user code and changes no other access. */
  lemma WrittenAccess(s: State, t: State, k: (nat, nat), offset: nat, value: nat)
    requires Inv(s) && Inv(t) && Written(s, t, k, offset, value)
    ensures AccessSet(s, t, k.0, k.1, k.1 + 1, true)
  {
    hide Inv, CopiedOnWrite, AccessSet;
    if !s.leaves[k].writable {
      var u :| Inv(u) && CopiedOnWrite(s, u, k) && Stored(u, t, k, offset, value);
      CowLeaf(s, u, k);
    }
    PageAccess(s, t, k);
  }

  lemma WrittenToCopyAccess(s: State, t: State, k: (nat, nat), offset: nat, value: nat, contents: Page)
    requires Inv(s) && Inv(t) && WrittenToCopy(s, t, k, offset, value, contents)
    ensures AccessSet(s, t, k.0, k.1, k.1 + 1, true)
  {
    hide Inv, Adopted, AccessSet;
    var u, page :| Inv(u) && Adopted(s, u, k, page, contents) && Stored(u, t, k, offset, value);
    AdoptedLeaf(s, u, k, page, contents);
    PageAccess(s, t, k);
  }

  /** Mapping makes no shared page writable, unless in an abandoned space; a store through a writable leaf shows in no other
      mapping. */
  ghost predicate Careful(a: World, op: Operation)
  {
    match op
    case MapPages(lo, hi, w) =>
      w && a.active !in a.abandoned ==>
        forall k :: k in a.s.leaves && InRange(k, a.active, lo, hi) && a.s.leaves[k].owned ==> OnlySharer(a.s, k)
    case Store(page, offset, value) =>
      var k := (a.active, page);
      (k in a.s.leaves && a.s.leaves[k].owned && a.s.leaves[k].writable && a.s.leaves[k].frame in a.s.data && offset < 4096) ==>
        NobodyElseSees(a.s, k, offset, value)
    case _ => true
  }

  ghost predicate Apart(a: World)
  {
    UnsharedBut(a.s.leaves, a.abandoned)
  }

  /** Stores need no care outside abandoned spaces. */
  lemma StoreIsCareful(a: World, page: nat, offset: nat, value: nat)
    requires Apart(a) && a.active !in a.abandoned
    ensures Careful(a, Store(page, offset, value))
  {
    var k := (a.active, page);
    if k in a.s.leaves && a.s.leaves[k].owned && a.s.leaves[k].writable {
      WritableIsAlone(a.s, k, a.abandoned);
    }
  }

  // ----- a kernel step is a step on private copies

  lemma MapStep(a: World, lo: nat, hi: nat, w: bool, b: World)
    requires Lawful(a) && Lawful(b) && Apart(a) && KernelStep(a, MapPages(lo, hi, w), b)
    ensures PrivateStep(ViewOf(a), MapPages(lo, hi, w), ViewOf(b)) && (Apart(b) <==> Careful(a, MapPages(lo, hi, w)))
  {
    hide Inv, Mapped, Private, PrivateMap, UnsharedBut, OnlySharer, InRange;
    MapIsPrivate(a.s, b.s, a.active, lo, hi, w);
    MapUnshared(a.s, b.s, a.active, lo, hi, w, a.abandoned);
  }

  lemma StoreStep(a: World, page: nat, offset: nat, value: nat, b: World)
    requires Lawful(a) && Apart(a) && KernelStep(a, Store(page, offset, value), b)
    ensures Apart(b)
    ensures PrivateStep(ViewOf(a), Store(page, offset, value), ViewOf(b)) <==> Careful(a, Store(page, offset, value))
  {
    hide Inv, CopiedOnWrite, Private, PrivateStore, UnsharedBut, OnlySharer;
    var k := (a.active, page);
    LeafFrameInv(a.s, k);
    if a.s.leaves[k].writable {
      StoreIsPrivate(a.s, b.s, k, offset, value);
    } else {
      var u :| Inv(u) && CopiedOnWrite(a.s, u, k) && Stored(u, b.s, k, offset, value);
      CowKeepsUnshared(a.s, u, k, a.abandoned);
      CowIsAlone(a.s, u, k);
      CowLeaf(a.s, u, k);
      StoreIsPrivate(u, b.s, k, offset, value);
    }
  }

  lemma BufferStoreStep(a: World, page: nat, offset: nat, value: nat, contents: Page, b: World)
    requires Lawful(a) && Apart(a) && KernelStep(a, StoreToBuffer(page, offset, value, contents), b)
    ensures Apart(b) && PrivateStep(ViewOf(a), StoreToBuffer(page, offset, value, contents), ViewOf(b))
  {
    hide Inv, PrivateStore, UnsharedBut, OnlySharer;
    var k := (a.active, page);
    var u, p :| Inv(u) && Adopted(a.s, u, k, p, contents) && Stored(u, b.s, k, offset, value);
    AdoptIsPrivate(a.s, u, k, p, contents);
    StoreIsPrivate(u, b.s, k, offset, value);
  }

  lemma ForkStep(a: World, parent: nat, child: nat, b: World)
    requires Lawful(a) && Lawful(b) && Apart(a) && KernelStep(a, Operation.Fork(parent, child), b)
    ensures Apart(b) && PrivateStep(ViewOf(a), Operation.Fork(parent, child), ViewOf(b))
  {
    hide Inv, Cloned, TornDown, Private, PrivateFork, UnsharedBut;
    var t, u :| && Inv(t) && Inv(u) && Cloned(a.s, t, a.active, parent, false) && Cloned(t, u, a.active, child, false)
                && TornDown(u, b.s, a.active);
    ForkIsPrivate(a.s, t, u, b.s, a.active, parent, child);
  }

  lemma HalfForkStep(a: World, parent: nat, b: World)
    requires Lawful(a) && Lawful(b) && Apart(a) && KernelStep(a, HalfFork(parent), b)
    ensures Apart(b) && PrivateStep(ViewOf(a), HalfFork(parent), ViewOf(b))
  {
    hide Inv, Cloned, Private, SpaceCopied, SameElsewhere, UnsharedBut, NothingWritable;
    HalfForkIsPrivate(a.s, b.s, a.active, parent);
  }

  lemma CreatedStep(s: State, t: State, space: nat)
    requires Inv(s) && Created(s, t, space)
    ensures Private(t) == Private(s) && SpaceGone(Private(t), space)
  {
    hide Inv, Private, SpaceGone;
    LeavesHaveRoots(s);
    NewRootPrivate(s, t, space);
  }

  lemma LeavesHaveRoots(s: State)
    requires Inv(s)
    ensures forall k: (nat, nat) :: k in s.leaves ==> k.0 in s.roots
  {
    hide Inv, TablesOf, PagesOf;
    NothingLeaks(s);
  }

  lemma ExecStep(a: World, space: nat, b: World)
    requires Lawful(a) && Lawful(b) && Apart(a) && KernelStep(a, Exec(space), b)
    ensures Apart(b) && PrivateStep(ViewOf(a), Exec(space), ViewOf(b))
  {
    hide Inv, TornDown, Private, UnsharedBut;
    var t :| Inv(t) && Created(a.s, t, space) && TornDown(t, b.s, a.active);
    CreatedStep(a.s, t, space);
    ExitIsPrivate(t, b.s, a.active);
    assert forall v: nat :: (space, v) in Private(t) <==> (space, v) in Private(b.s);
  }

  lemma ExitStep(a: World, root: nat, b: World)
    requires Lawful(a) && Lawful(b) && Apart(a) && KernelStep(a, Exit(root), b)
    ensures Apart(b) && PrivateStep(ViewOf(a), Exit(root), ViewOf(b))
  {
    hide Inv, TornDown, Private, PrivateExit, UnsharedBut;
    ExitIsPrivate(a.s, b.s, root);
  }

  lemma BufferStep(a: World, op: Operation, b: World)
    requires Lawful(a) && Apart(a) && KernelStep(a, op, b) && (op.MapBuffer? || op.UnmapBuffer?)
    ensures Apart(b) && PrivateStep(ViewOf(a), op, ViewOf(b))
  {
    hide Inv, ForeignMapped, Unmapped, AllForeign, Private, UnsharedBut;
    match op
    case MapBuffer(root, page, n, frame) => ForeignIsInvisible(a.s, b.s, root, page, n, frame);
    case UnmapBuffer(root, lo, hi) => UnmappedIsInvisible(a.s, b.s, root, lo, hi);
  }

  /** Page tables, reference counts and copy-on-write implement private copies: a step keeps every page that may be
      written outside the abandoned spaces unshared and does to the contents what it does to private copies, if and only
      if it is careful. */
  lemma StepIsPrivate(a: World, op: Operation, b: World)
    requires Lawful(a) && Lawful(b) && Apart(a) && KernelStep(a, op, b)
    ensures Apart(b) && PrivateStep(ViewOf(a), op, ViewOf(b)) <==> Careful(a, op)
  {
    match op
    case MapPages(lo, hi, w) => MapStep(a, lo, hi, w, b);
    case Store(page, offset, value) => StoreStep(a, page, offset, value, b);
    case _ => PlainStep(a, op, b);
  }

  lemma PlainStep(a: World, op: Operation, b: World)
    requires Lawful(a) && Lawful(b) && Apart(a) && KernelStep(a, op, b) && !op.MapPages? && !op.Store?
    ensures Apart(b) && PrivateStep(ViewOf(a), op, ViewOf(b))
  {
    hide Lawful, Apart, ViewOf, PrivateStep, KernelStep;
    match op
    case StoreToBuffer(page, offset, value, contents) => BufferStoreStep(a, page, offset, value, contents, b);
    case Fork(parent, child) => ForkStep(a, parent, child, b);
    case HalfFork(parent) => HalfForkStep(a, parent, b);
    case Exec(space) => ExecStep(a, space, b);
    case Create(space) => CreateStep(a, space, b);
    case Switch(to) => SwitchStep(a, to, b);
    case Exit(root) => ExitStep(a, root, b);
    case MapBuffer(_, _, _, _) => BufferStep(a, op, b);
    case UnmapBuffer(_, _, _) => BufferStep(a, op, b);
  }

  lemma CreateStep(a: World, space: nat, b: World)
    requires Lawful(a) && Apart(a) && KernelStep(a, Create(space), b)
    ensures Apart(b) && PrivateStep(ViewOf(a), Create(space), ViewOf(b))
  {
    hide Inv, Private, UnsharedBut, SpaceGone;
    CreatedStep(a.s, b.s, space);
  }

  lemma SwitchStep(a: World, to: nat, b: World)
    requires Apart(a) && KernelStep(a, Switch(to), b)
    ensures Apart(b) && PrivateStep(ViewOf(a), Switch(to), ViewOf(b))
  {
  }
}
