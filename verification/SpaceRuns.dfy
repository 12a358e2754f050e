/** Whole runs of the kernel over all address spaces. */
module SpaceRuns {
  import opened Common
  import opened PageTables
  import opened PageTableEdits
  import opened PagingEffects
  import opened PrivateMemory
  import opened ForeignFrames
  import opened SpaceSteps
  import opened Paging

  // ----- runs

  ghost predicate PrivateRun(views: seq<View>, ops: seq<Operation>)
  {
    |views| == |ops| + 1 && forall i :: 0 <= i < |ops| ==> PrivateStep(views[i], ops[i], views[i + 1])
  }

  ghost predicate KernelRun(worlds: seq<World>, ops: seq<Operation>)
  {
    && |worlds| == |ops| + 1
    && (forall i :: 0 <= i < |worlds| ==> Lawful(worlds[i]))
    && (forall i :: 0 <= i < |ops| ==> KernelStep(worlds[i], ops[i], worlds[i + 1]))
  }

  ghost predicate CarefulRun(worlds: seq<World>, ops: seq<Operation>)
  {
    |worlds| == |ops| + 1 && forall i :: 0 <= i < |ops| ==> Careful(worlds[i], ops[i])
  }

  ghost function Views(worlds: seq<World>): (views: seq<View>)
    ensures |views| == |worlds| && forall i :: 0 <= i < |worlds| ==> views[i] == ViewOf(worlds[i])
  {
    if worlds == [] then [] else Views(worlds[..|worlds| - 1]) + [ViewOf(worlds[|worlds| - 1])]
  }

  ghost predicate ApartRun(worlds: seq<World>)
  {
    forall i :: 0 <= i < |worlds| ==> Apart(worlds[i])
  }

  lemma {:induction false} ApartUpTo(worlds: seq<World>, ops: seq<Operation>, n: nat)
    requires KernelRun(worlds, ops) && CarefulRun(worlds, ops) && Apart(worlds[0]) && n <= |ops|
    ensures Apart(worlds[n])
  {
    hide Lawful, KernelStep, PrivateStep, Careful, Apart, ViewOf;
    if n > 0 {
      ApartUpTo(worlds, ops, n - 1);
      RunStep(worlds, ops, n - 1);
    }
  }

  lemma RunStep(worlds: seq<World>, ops: seq<Operation>, i: nat)
    requires KernelRun(worlds, ops) && i < |ops| && Apart(worlds[i])
    ensures Apart(worlds[i + 1]) && PrivateStep(Views(worlds)[i], ops[i], Views(worlds)[i + 1]) <==> Careful(worlds[i], ops[i])
  {
    hide Lawful, KernelStep, PrivateStep, Careful, Apart, ViewOf;
    StepIsPrivate(worlds[i], ops[i], worlds[i + 1]);
  }

  /** Every run that starts with the writable pages unshared keeps them so and is a run on private copies, if and only if
      each of its steps is careful. */
  lemma RunIsPrivate(worlds: seq<World>, ops: seq<Operation>)
    requires KernelRun(worlds, ops) && Apart(worlds[0])
    ensures ApartRun(worlds) && PrivateRun(Views(worlds), ops) <==> CarefulRun(worlds, ops)
  {
    hide Lawful, KernelStep, PrivateStep, Careful, Apart, ViewOf;
    if CarefulRun(worlds, ops) {
      forall i | 0 <= i < |worlds|
        ensures Apart(worlds[i])
      {
        ApartUpTo(worlds, ops, i);
      }
      forall i | 0 <= i < |ops|
        ensures PrivateStep(Views(worlds)[i], ops[i], Views(worlds)[i + 1])
      {
        RunStep(worlds, ops, i);
      }
    }
    if ApartRun(worlds) && PrivateRun(Views(worlds), ops) {
      forall i | 0 <= i < |ops|
        ensures Careful(worlds[i], ops[i])
      {
        RunStep(worlds, ops, i);
      }
    }
  }

  /** In every state of a careful run, a page that a space outside the abandoned ones may write has count one. */
  lemma CountOneThroughout(worlds: seq<World>, ops: seq<Operation>, i: nat, k: (nat, nat))
    requires KernelRun(worlds, ops) && CarefulRun(worlds, ops) && Apart(worlds[0]) && i < |worlds|
    requires var a := worlds[i]; k in a.s.leaves && a.s.leaves[k].owned && a.s.leaves[k].writable && k.0 !in a.abandoned
    ensures var a := worlds[i]; a.s.leaves[k].frame in a.s.refs && a.s.refs[a.s.leaves[k].frame] == 1
  {
    hide Inv, KernelStep, Careful, UnsharedBut;
    ApartUpTo(worlds, ops, i);
    WritableMeansCountOne(worlds[i].s, worlds[i].abandoned);
  }

  /** Isolation: however the other spaces map, store, fork, exec and exit in a careful run, a space that is neither active
      in a step that writes nor made or torn down holds at the end what it held at the start. */
  lemma Isolation(worlds: seq<World>, ops: seq<Operation>, r: nat)
    requires KernelRun(worlds, ops) && CarefulRun(worlds, ops) && Apart(worlds[0])
    requires forall i :: 0 <= i < |ops| ==> r !in Touches(ViewOf(worlds[i]), ops[i])
    ensures SameIn(Private(worlds[0].s), Private(worlds[|ops|].s), r)
  {
    hide Lawful, KernelStep, PrivateStep, Careful, Apart, Touches, SameIn;
    RunIsPrivate(worlds, ops);
    PrivateIsolation(Views(worlds), ops, r, |ops|);
  }

  ghost predicate SameIn(m: Memory, n: Memory, r: nat)
  {
    forall v: nat :: ((r, v) in n <==> (r, v) in m) && ((r, v) in m ==> n[(r, v)] == m[(r, v)])
  }

  lemma {:induction false} PrivateIsolation(views: seq<View>, ops: seq<Operation>, r: nat, n: nat)
    requires PrivateRun(views, ops) && n <= |ops| && forall i :: 0 <= i < |ops| ==> r !in Touches(views[i], ops[i])
    ensures SameIn(views[0].memory, views[n].memory, r)
  {
    hide PrivateStep, Touches;
    if n > 0 {
      PrivateIsolation(views, ops, r, n - 1);
      StepElsewhere(views[n - 1], ops[n - 1], views[n]);
    }
  }

  /** The private-copy model is a reference: two of its runs with the same operations and mappings from the same memory
      give every space the same contents throughout. */
  lemma {:induction false} PrivateRunsAgree(xs: seq<View>, ys: seq<View>, ops: seq<Operation>, n: nat)
    requires PrivateRun(xs, ops) && PrivateRun(ys, ops) && n <= |ops| && xs[0] == ys[0]
    requires forall i :: 0 <= i <= |ops| ==> xs[i].mapped == ys[i].mapped
    ensures xs[n] == ys[n]
  {
    hide PrivateStep;
    if n > 0 {
      PrivateRunsAgree(xs, ys, ops, n - 1);
      StepDetermined(xs[n - 1], ops[n - 1], xs[n], ys[n]);
    }
  }

  // ----- care with mappings is enough

  ghost predicate CarefulMaps(worlds: seq<World>, ops: seq<Operation>)
    requires |worlds| == |ops| + 1
  {
    forall i :: 0 <= i < |ops| && ops[i].MapPages? ==> Careful(worlds[i], ops[i])
  }

  predicate NoAbandonedStores(worlds: seq<World>, ops: seq<Operation>)
    requires |worlds| == |ops| + 1
  {
    forall i :: 0 <= i < |ops| && ops[i].Store? ==> worlds[i].active !in worlds[i].abandoned
  }

  lemma {:induction false} CarefulUpTo(worlds: seq<World>, ops: seq<Operation>, n: nat)
    requires KernelRun(worlds, ops) && Apart(worlds[0]) && n <= |ops|
    requires CarefulMaps(worlds, ops) && NoAbandonedStores(worlds, ops)
    ensures Apart(worlds[n]) && forall i :: 0 <= i < n ==> Careful(worlds[i], ops[i])
  {
    hide Lawful, KernelStep, PrivateStep, Apart, ViewOf;
    if n > 0 {
      CarefulUpTo(worlds, ops, n - 1);
      if ops[n - 1].Store? {
        StoreIsCareful(worlds[n - 1], ops[n - 1].page, ops[n - 1].offset, ops[n - 1].value);
      }
      RunStep(worlds, ops, n - 1);
    }
  }

  /** A run needs no care but with mappings when nothing stores from an abandoned space. */
  lemma MappingsNeedCare(worlds: seq<World>, ops: seq<Operation>)
    requires KernelRun(worlds, ops) && Apart(worlds[0]) && NoAbandonedStores(worlds, ops)
    ensures ApartRun(worlds) && PrivateRun(Views(worlds), ops) <==> CarefulMaps(worlds, ops)
  {
    hide Lawful, KernelStep, PrivateStep, Careful, Apart, ViewOf;
    RunIsPrivate(worlds, ops);
    if CarefulMaps(worlds, ops) {
      CarefulUpTo(worlds, ops, |ops|);
    }
  }

  predicate NoHalfForks(ops: seq<Operation>)
  {
    forall i :: 0 <= i < |ops| ==> !ops[i].HalfFork?
  }

  lemma StepAbandons(a: World, op: Operation, b: World)
    requires KernelStep(a, op, b) && !op.HalfFork?
    ensures b.abandoned <= a.abandoned
  {
  }

  /** When no fork fails halfway, no space is ever left behind. */
  lemma {:induction false} NothingAbandoned(worlds: seq<World>, ops: seq<Operation>, n: nat)
    requires KernelRun(worlds, ops) && NoHalfForks(ops) && worlds[0].abandoned == {} && n <= |ops|
    ensures worlds[n].abandoned == {}
  {
    hide Lawful, KernelStep;
    if n > 0 {
      NothingAbandoned(worlds, ops, n - 1);
      StepAbandons(worlds[n - 1], ops[n - 1], worlds[n]);
    }
  }

  /** When no fork fails halfway, care with mappings keeps every writable page unshared in every state of the run. */
  lemma UnsharedThroughout(worlds: seq<World>, ops: seq<Operation>)
    requires KernelRun(worlds, ops) && NoHalfForks(ops) && worlds[0].abandoned == {} && Unshared(worlds[0].s.leaves)
    ensures (forall i :: 0 <= i < |worlds| ==> Unshared(worlds[i].s.leaves)) && PrivateRun(Views(worlds), ops) <==> CarefulMaps(worlds, ops)
  {
    hide Lawful, KernelStep, PrivateStep, Careful, ViewOf, UnsharedBut;
    forall i | 0 <= i < |worlds|
      ensures worlds[i].abandoned == {}
    {
      NothingAbandoned(worlds, ops, i);
    }
    MappingsNeedCare(worlds, ops);
  }

  /** A fork that fails halfway leaves the failed child pointing at the old space. Should the processor ever go back there, a
      store to a page the old space could write before shows in the parent, unless the byte has that value already. */
  lemma BackInAbandonedSpace(a: World, parent: nat, b: World, page: nat, offset: nat, value: nat)
    requires Lawful(a) && Lawful(b) && Apart(a) && KernelStep(a, HalfFork(parent), b) && offset < 4096
    requires (a.active, page) in a.s.leaves && a.s.leaves[(a.active, page)].owned && a.s.leaves[(a.active, page)].writable
    ensures var k, c := (a.active, page), b.(active := a.active);
            && KernelStep(b, Switch(a.active), c) && k in c.s.leaves && c.s.leaves[k].frame in c.s.data
            && (Careful(c, Store(page, offset, value)) <==> c.s.data[c.s.leaves[k].frame][offset] == value)
  {
    hide Inv;
    var k, l := (a.active, page), (parent, page);
    assert k in b.s.leaves && b.s.leaves[k] == a.s.leaves[k];
    assert l in b.s.leaves && b.s.leaves[l].owned && b.s.leaves[l].frame == b.s.leaves[k].frame;
    LeafFrameInv(b.s, k);
  }

  // ----- the kernel as it runs

  /** A run of the kernel from boot, when no page was shared, to the present. */
  ghost predicate History(worlds: seq<World>, ops: seq<Operation>, now: World)
  {
    && KernelRun(worlds, ops) && worlds[|ops|] == now
    && worlds[0].abandoned == {} && Unshared(worlds[0].s.leaves)
  }

  lemma HistoryGrows(worlds: seq<World>, ops: seq<Operation>, a: World, op: Operation, b: World)
    requires History(worlds, ops, a) && KernelStep(a, op, b) && Lawful(b)
    ensures History(worlds + [b], ops + [op], b)
  {
    hide Lawful, KernelStep, Unshared;
  }

  /** The address spaces with a record of what happened to them since boot. */
  class Machine {
    const spaces: AddressSpaces
    ghost var abandoned: set<nat>
    ghost var worlds: seq<World>
    ghost var ops: seq<Operation>

    ghost function Now(): World
      reads this, spaces
    {
      World(spaces.S(), spaces.cr3, abandoned)
    }

    ghost predicate Valid()
      reads this, spaces
    {
      Lawful(Now()) && History(worlds, ops, Now())
    }

    constructor (frames: set<nat>, root: nat, kernelHalf: seq<Pte>)
      requires root in frames && |kernelHalf| == USER_SPACE_START_INDEX
      ensures Valid() && ops == [] && fresh(spaces)
    {
      spaces := new AddressSpaces(frames, root, kernelHalf);
      new;
      abandoned, worlds, ops := {}, [World(spaces.S(), spaces.cr3, {})], [];
    }

    ghost method Record(op: Operation, a: World, gone: set<nat>)
      requires History(worlds, ops, a) && spaces.Valid() && gone <= spaces.roots && KernelStep(a, op, World(spaces.S(), spaces.cr3, gone))
      modifies this
      ensures Valid() && worlds == old(worlds) + [Now()] && ops == old(ops) + [op]
    {
      hide Inv, KernelStep, History;
      abandoned := gone;
      HistoryGrows(worlds, ops, a, op, Now());
      worlds, ops := worlds + [Now()], ops + [op];
    }

    method Map(addr: VAddr, n: nat, w: bool) returns (ok: bool, ghost hi: nat)
      requires Valid() && addr.pml4 >= USER_SPACE_START_INDEX && n < INT_LIMIT
      modifies this, spaces
      ensures Valid() && hi <= Vpn(addr) + n && ops == old(ops) + [MapPages(Vpn(addr), hi, w)]
      ensures if ok then hi == Vpn(addr) + n || hi == Span(4) else spaces.pool == {}
    {
      hide Inv, History, Vpn, Span, Private, PrivateMap, UnsharedBut, InRange, OnlySharer;
      ghost var a := Now();
      ok, hi := spaces.SetupPageTables(addr, n, w);
      Record(MapPages(Vpn(addr), hi, w), a, abandoned);
    }

    method Store(addr: VAddr, offset: nat, value: nat, contents: Page) returns (ok: bool)
      requires Valid() && addr.pml4 >= USER_SPACE_START_INDEX && offset < 4096 && (spaces.cr3, Vpn(addr)) in spaces.leaves
      modifies this, spaces
      ensures Valid()
      ensures ok <==> old(spaces.leaves)[(old(spaces.cr3), Vpn(addr))].writable || old(spaces.pool) != {}
      ensures ops == old(ops) + (if !ok then []
                                 else if old(spaces.leaves)[(old(spaces.cr3), Vpn(addr))].owned then [Operation.Store(Vpn(addr), offset, value)]
                                 else if old(spaces.leaves)[(old(spaces.cr3), Vpn(addr))].writable then []
                                 else [StoreToBuffer(Vpn(addr), offset, value, contents)])
    {
      hide Inv, History, Vpn, Private, UnsharedBut, Written, WrittenToCopy, Careful, PrivateStore;
      ghost var a, e := Now(), spaces.leaves[(spaces.cr3, Vpn(addr))];
      ok := spaces.UserStore(addr, offset, value, contents);
      if ok && e.owned {
        Record(Operation.Store(Vpn(addr), offset, value), a, abandoned);
      } else if ok && !e.writable {
        Record(StoreToBuffer(Vpn(addr), offset, value, contents), a, abandoned);
      }
    }

    method Fork() returns (child: int)
      requires Valid()
      requires spaces.pool == {} || |TablesOf(spaces.S(), spaces.cr3)| == |spaces.pool| || 2 * |TablesOf(spaces.S(), spaces.cr3)| <= |spaces.pool|
      modifies this, spaces
      ensures Valid()
      ensures child < 0 <==> old(spaces.pool) == {} || |old(spaces.pool)| == |TablesOf(old(spaces.S()), old(spaces.cr3))|
      ensures ops == old(ops) + (if child >= 0 then [Operation.Fork(spaces.cr3, child)]
                                 else if spaces.cr3 != old(spaces.cr3) then [HalfFork(spaces.cr3)] else [])
    {
      hide Inv, History, Cloned, Forked, TablesOf, Private, PrivateFork, UnsharedBut, NothingWritable, SpaceCopied, SameElsewhere;
      ghost var a := Now();
      child := spaces.Fork();
      if child >= 0 {
        Record(Operation.Fork(spaces.cr3, child), a, abandoned - {a.active});
      } else if spaces.cr3 != a.active {
        Record(HalfFork(spaces.cr3), a, abandoned + {a.active});
      }
    }

    method Exec() returns (ok: bool)
      requires Valid()
      modifies this, spaces
      ensures ok <==> old(spaces.pool) != {}
      ensures Valid() && ops == old(ops) + (if ok then [Operation.Exec(spaces.cr3)] else [])
    {
      hide Inv, History, Replaced, Private, PrivateExit, UnsharedBut, SpaceGone;
      ghost var a := Now();
      ok := spaces.ExecSpace();
      if ok {
        Record(Operation.Exec(spaces.cr3), a, abandoned - {a.active});
      }
    }

    method Create() returns (root: nat)
      requires Valid() && spaces.pool != {}
      modifies this, spaces
      ensures Valid() && ops == old(ops) + [Operation.Create(root)]
    {
      hide Inv, History;
      ghost var a := Now();
      root := spaces.NewRoot();
      RootIsNew(a.s, root);
      Record(Operation.Create(root), a, abandoned);
    }

    method Switch(to: nat)
      requires Valid() && to in spaces.roots
      modifies this, spaces
      ensures Valid() && ops == old(ops) + [Operation.Switch(to)]
    {
      hide Inv, History;
      ghost var a := Now();
      spaces.Switch(to);
      Record(Operation.Switch(to), a, abandoned);
    }

    method Exit(root: nat)
      requires Valid() && root in spaces.roots && root != spaces.cr3
      modifies this, spaces
      ensures Valid() && ops == old(ops) + [Operation.Exit(root)]
    {
      hide Inv, History, TornDown, Private, PrivateExit, UnsharedBut;
      ghost var a := Now();
      spaces.CleanPageTables(root);
      TornDownRoots(a.s, spaces.S(), root);
      Record(Operation.Exit(root), a, abandoned - {root});
    }

    method MapBuffer(root: nat, addr: VAddr, frame: nat, n: nat)
      requires Valid() && root in spaces.roots && addr.pml4 >= USER_SPACE_START_INDEX && addr.pt + n <= 512
      requires var t := Walk(spaces.tables, root, Vpn(addr), 1);
               t >= 0 && t in spaces.tables && |spaces.tables[t]| == 512 && forall j :: addr.pt <= j < addr.pt + n ==> spaces.tables[t][j] == NO_ENTRY
      modifies this, spaces
      ensures Valid() && ops == old(ops) + [Operation.MapBuffer(root, Vpn(addr), n, frame)]
    {
      hide Inv, History, Walk, Vpn, Private, UnsharedBut, InRange;
      ghost var a := Now();
      spaces.MapFrame(root, addr, frame, n);
      Record(Operation.MapBuffer(root, Vpn(addr), n, frame), a, abandoned);
    }

    method UnmapBuffer(root: nat, addr: VAddr, n: nat) returns (ok: bool, ghost hi: nat)
      requires Valid() && root in spaces.roots && addr.pml4 >= USER_SPACE_START_INDEX && Vpn(addr) + n <= Span(4)
      requires AllForeign(spaces.leaves, root, Vpn(addr), Vpn(addr) + n)
      modifies this, spaces
      ensures Valid() && hi <= Vpn(addr) + n && ops == old(ops) + [Operation.UnmapBuffer(root, Vpn(addr), hi)]
    {
      hide Inv, History, Vpn, Span, Prefix, TableAt, AllForeign, Private, UnsharedBut, InRange;
      ghost var a := Now();
      ok, hi := spaces.UnmapFrame(root, addr, n);
      SomeForeign(a.s.leaves, root, Vpn(addr), hi, Vpn(addr) + n);
      Record(Operation.UnmapBuffer(root, Vpn(addr), hi), a, abandoned);
    }
  }

  lemma RootIsNew(s: State, root: nat)
    requires Inv(s) && root in s.pool
    ensures root !in s.roots
  {
    hide ChildrenPlaced, ParentsExist, LeavesAgree, TablesWellFormed;
    PoolFrame(s, root);
    if root in s.roots {
      RootPosition(s, root);
    }
  }

  /** Whatever the machine has done since boot, it did to private copies exactly when it did it with care. */
  lemma HistoryIsPrivate(m: Machine)
    requires m.Valid()
    ensures ApartRun(m.worlds) && PrivateRun(Views(m.worlds), m.ops) <==> CarefulRun(m.worlds, m.ops)
    ensures NoHalfForks(m.ops) && CarefulMaps(m.worlds, m.ops) ==> m.spaces.Isolated()
  {
    hide KernelStep, PrivateStep, Careful, ViewOf, UnsharedBut, Inv;
    RunIsPrivate(m.worlds, m.ops);
    if NoHalfForks(m.ops) && CarefulMaps(m.worlds, m.ops) {
      UnsharedThroughout(m.worlds, m.ops);
    }
  }
}
