/** A clone makes exactly one table for every table it copies. */
module CloneCounts {
  import opened PageTables
  import opened PageTableEdits
  import opened PagingEffects

  /** A position below slots [0, upTo) of the table serving `prefix` at `level`. */
  predicate BelowSlots(q: Pos, level: nat, prefix: nat, upTo: nat)
  {
    q.level < level && Below(q.prefix, level - q.level, prefix, upTo)
  }

  /** Every table of space rs below slots [0, upTo) of the table serving `prefix` at `level` has a copy in space rd. */
  ghost predicate NoneLeft(t: State, rs: nat, rd: nat, level: nat, prefix: nat, upTo: nat)
  {
    forall f :: f in t.tables && f in t.pos && t.pos[f].root == rs && BelowSlots(t.pos[f], level, prefix, upTo) ==> TableAt(t, t.pos[f].(root := rd))
  }

  /** Above a table there is a table at every level, and its slot on the way down is present. */
  lemma {:induction false} TablePath(s: State, f: nat, level: nat) returns (g: nat)
    requires TablesWellFormed(s) && ParentsExist(s) && f in s.tables && s.pos[f].level < level <= 4
    ensures var n := level - s.pos[f].level;
            && g in s.tables && s.pos[g] == Pos(s.pos[f].root, level, Prefix(s.pos[f].prefix, n))
            && s.tables[g][SlotOf(s.pos[f].prefix, n)].present && UserSlot(level, SlotOf(s.pos[f].prefix, n))
  {
    hide Prefix;
    var p, n := s.pos[f].prefix, level - s.pos[f].level;
    var c := f;
    if n > 1 {
      c := TablePath(s, f, level - 1);
    }
    assert s.pos[c].prefix == Prefix(p, n - 1) by { PrefixNone(p); }
    assert HasParent(s, c);
    var i: nat;
    g, i :| PointsTo(s, g, i, c);
    PrefixStep(p, n - 1);
    SplitUnique(s.pos[g].prefix, i, Prefix(p, n), SlotOf(p, n));
  }

  lemma PrefixNone(p: nat)
    ensures Prefix(p, 0) == p
  {
  }

  /** At the start nothing is below the slots already passed. */
  lemma NoneLeftStart(s: State, rs: nat, rd: nat, level: nat, prefix: nat, start: nat)
    requires Inv(s) && 1 <= level <= 4 && start == if level == 4 then USER_SPACE_START_INDEX else 0
    ensures NoneLeft(s, rs, rd, level, prefix, start)
  {
    hide ChildrenPlaced, LeavesAgree, FramesAccounted, Prefix;
    forall f | f in s.tables && f in s.pos && s.pos[f].root == rs && s.pos[f].level < level
      ensures !Below(s.pos[f].prefix, level - s.pos[f].level, prefix, start)
    {
      var g := TablePath(s, f, level);
    }
  }

  /** Below a slot that is absent in the source there is no table. */
  lemma NoneLeftSkip(t: State, src: nat, i: nat, rd: nat)
    requires Inv(t) && src in t.tables && i < 512 && !t.tables[src][i].present
    requires NoneLeft(t, t.pos[src].root, rd, t.pos[src].level, t.pos[src].prefix, i)
    ensures NoneLeft(t, t.pos[src].root, rd, t.pos[src].level, t.pos[src].prefix, i + 1)
  {
    hide ChildrenPlaced, LeavesAgree, FramesAccounted, Prefix;
    var p := t.pos[src];
    forall f | f in t.tables && f in t.pos && t.pos[f].root == p.root && t.pos[f].level < p.level
      ensures Below(t.pos[f].prefix, p.level - t.pos[f].level, p.prefix, i + 1) ==> Below(t.pos[f].prefix, p.level - t.pos[f].level, p.prefix, i)
    {
      var g := TablePath(t, f, p.level);
      if t.pos[g] == p {
        PositionsUnique(t, g, src);
      }
    }
  }

  lemma NoneBelowLeaves(t: State, rs: nat, rd: nat, prefix: nat, upTo: nat)
    requires Inv(t)
    ensures NoneLeft(t, rs, rd, 1, prefix, upTo)
  {
    hide ChildrenPlaced, LeavesAgree, FramesAccounted, ParentsExist, Prefix;
  }

  /** A child has its copy, and so has everything below it. */
  lemma NoneLeftChild(t: State, t2: State, rs: nat, rd: nat, level: nat, prefix: nat, i: nat, page: nat)
    requires t.tables.Keys == t.pos.Keys && t2.tables.Keys == t2.pos.Keys && 1 < level && i < 512
    requires NoneLeft(t, rs, rd, level, prefix, i) && NoneLeft(t2, rs, rd, level - 1, prefix * 512 + i, 512)
    requires page in t2.tables && t2.pos[page] == Pos(rd, level - 1, prefix * 512 + i)
    requires forall f :: f in t.tables ==> f in t2.tables && t2.pos[f] == t.pos[f]
    requires forall f :: f in t2.tables && t2.pos[f].root == rs ==> f in t.tables
    ensures NoneLeft(t2, rs, rd, level, prefix, i + 1)
  {
    hide Prefix;
    forall f | f in t2.tables && f in t2.pos && t2.pos[f].root == rs && t2.pos[f].level < level
               && Below(t2.pos[f].prefix, level - t2.pos[f].level, prefix, i + 1)
      ensures TableAt(t2, t2.pos[f].(root := rd))
    {
      var q, n := t2.pos[f], level - t2.pos[f].level;
      if SlotOf(q.prefix, n) < i {
        var g :| g in t.tables && g in t.pos && t.pos[g] == q.(root := rd);
        assert g in t2.tables && t2.pos[g] == q.(root := rd);
      } else {
        PrefixStep(q.prefix, n - 1);
        PrefixNone(q.prefix);
        if n == 1 {
          assert t2.pos[page] == q.(root := rd);
        } else {
          assert Below(q.prefix, level - 1 - q.level, prefix * 512 + i, 512);
        }
      }
    }
  }

  /** At the end every table has its copy. */
  lemma AllCopied(t: State, rs: nat, rd: nat)
    requires Inv(t) && rs in t.roots && rd in t.roots && NoneLeft(t, rs, rd, 4, 0, 512)
    ensures Uncopied(t, rs, rd) == {}
  {
    hide ChildrenPlaced, LeavesAgree, FramesAccounted, Prefix;
    forall f | f in t.tables && f in t.pos && t.pos[f].root == rs
      ensures TableAt(t, t.pos[f].(root := rd))
    {
      if t.pos[f].level == 4 {
        assert t.pos[rd] == t.pos[f].(root := rd);
      } else {
        var g := TablePath(t, f, 4);
        assert Below(t.pos[f].prefix, 4 - t.pos[f].level, 0, 512);
      }
    }
  }

  /** The same in terms of the copy's progress. */
  lemma CopyLeavesNone(s: State, t: State, t1: State, t2: State, dst: nat, src: nat, level: nat, i: nat, w: bool,
                       page: nat, c: nat)
    requires CopyProgress(s, t, dst, src, level, i, w) && CopyProgress(t1, t2, page, c, level - 1, 512, w) && 1 < level && i < 512
    requires src in s.pos && dst in s.pos && dst in t.pos && dst in t.tables && i < |t.tables[dst]| && t.pos[dst].level > 1
    requires page !in t.tables && exists e: Pte :: e.frame == page && t1 == AddTable(t, dst, i, e)
    requires c in t1.pos && t1.pos[c] == ChildPos(s.pos[src], i) && page in t1.pos && t1.pos[page] == ChildPos(s.pos[dst], i)
    requires NoneLeft(t, s.pos[src].root, s.pos[dst].root, level, s.pos[src].prefix, i)
    requires NoneLeft(t2, t1.pos[c].root, t1.pos[page].root, level - 1, t1.pos[c].prefix, 512)
    ensures NoneLeft(t2, s.pos[src].root, s.pos[dst].root, level, s.pos[src].prefix, i + 1)
  {
    hide Inv, CopiedSlots, CopyProgress, Uncopied, NoneLeft;
    CopyShape(s, t, dst, src, level, i, w);
    CopyShape(t1, t2, page, c, level - 1, 512, w);
    var rs, rd, prefix := s.pos[src].root, s.pos[dst].root, s.pos[src].prefix;
    forall f | f in t1.tables
      ensures f in t2.tables && t2.pos[f] == t1.pos[f]
    {
      CopiedKeeps(t1, t2, rs, rd, level - 1, prefix * 512 + i, 512, w, f);
    }
    forall f | f in t2.tables && t2.pos[f].root == rs
      ensures f in t.tables
    {
      CopiedFrom(t1, t2, rs, rd, level - 1, prefix * 512 + i, 512, w, f);
    }
    NoneLeftChild(t, t2, rs, rd, level, prefix, i, page);
  }

  lemma CopiedFrom(s: State, t: State, rs: nat, rd: nat, level: nat, prefix: nat, i: nat, w: bool, f: nat)
    requires level >= 1 && CopiedSlots(s, t, rs, rd, level, prefix, i, w) && f in t.tables && f in t.pos && t.pos[f].root != rd
    ensures f in s.tables
  {
  }

  lemma CopyRoots(s: State, t: State, dst: nat, src: nat, w: bool)
    requires CopyProgress(s, t, dst, src, 4, 512, w) && src in s.roots && dst in s.roots
    ensures Inv(t) && src in t.roots && dst in t.roots && s.pos[src] == Pos(src, 4, 0) && s.pos[dst] == Pos(dst, 4, 0)
  {
    hide ChildrenPlaced, ParentsExist, LeavesAgree, FramesAccounted, Uncopied, Prefix;
  }
}
