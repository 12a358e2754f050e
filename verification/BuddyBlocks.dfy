/** Naturally aligned blocks of pages, and free lists seen as sets of such blocks.
    A block of order k is the 2^k pages [p, p + 2^k) with p a multiple of 2^k. Pages are named by index. */
module BuddyBlocks {
  import opened Common
  import opened BitUtils

  const MAX_ORDER: nat := 18

  type FreeLists = seq<seq<nat>>

  /** First page of the order-k block that contains page i. */
  function Base(i: nat, k: nat): (b: nat)
    ensures b <= i < b + Pow2(k)
  {
    RoundDown(i, k)
  }

  predicate Aligned(p: nat, k: nat)
  {
    Base(p, k) == p
  }

  /** The block a block of order k merges with: addresses differ in exactly bit k of the page index. */
  function Buddy(p: nat, k: nat): nat
  {
    Xor(p, Pow2(k))
  }

  // ----- block algebra

  lemma BaseUnique(i: nat, k: nat, p: nat)
    requires Aligned(p, k) && p <= i < p + Pow2(k)
    ensures Base(i, k) == p
  {
    RoundDownUnique(i, k, p);
  }

  lemma BaseAligned(i: nat, k: nat)
    ensures Aligned(Base(i, k), k)
  {
    RoundDownIdempotent(i, k);
  }

  /** Blocks of different order are nested or disjoint. */
  lemma {:induction false} BaseNested(i: nat, j: nat, k: nat)
    requires j <= k
    ensures Base(Base(i, j), k) == Base(i, k)
    ensures Base(i, k) <= Base(i, j)
    ensures Base(i, j) + Pow2(j) <= Base(i, k) + Pow2(k)
    decreases k - j
  {
    if j == k {
      BaseAligned(i, j);
    } else {
      BaseNested(i, j + 1, k);
      RoundDownHalves(i, j);
      BaseInParent(Base(i, j), i, j);
      BaseNested(Base(i, j), j + 1, k);
    }
  }

  lemma BaseInParent(b: nat, i: nat, j: nat)
    requires b == Base(i, j)
    ensures Base(b, j + 1) == Base(i, j + 1)
  {
    RoundDownHalves(i, j);
    BaseAligned(i, j + 1);
    BaseUnique(b, j + 1, Base(i, j + 1));
  }

  lemma AlignedDown(p: nat, j: nat, k: nat)
    requires j <= k && Aligned(p, k)
    ensures Aligned(p, j)
  {
    BaseNested(p, j, k);
  }

  lemma AlignedShift(p: nat, j: nat, k: nat)
    requires j <= k && Aligned(p, j)
    ensures Aligned(p + Pow2(k), j)
  {
    RoundDownShift(p, j, k);
  }

  /** The buddy is the other half of the parent block, and the relation is symmetric. */
  lemma BuddyIsOtherHalf(p: nat, k: nat)
    requires Aligned(p, k)
    ensures Buddy(p, k) == if Aligned(p, k + 1) then p + Pow2(k) else p - Pow2(k)
    ensures !Aligned(p, k + 1) ==> p >= Pow2(k) && Aligned(p - Pow2(k), k + 1)
    ensures Aligned(Buddy(p, k), k) && Buddy(p, k) != p
    ensures Base(Buddy(p, k), k + 1) == Base(p, k + 1)
    ensures Buddy(Buddy(p, k), k) == p
    ensures Base(p, k + 1) == if p < Buddy(p, k) then p else Buddy(p, k)
  {
    var P := Base(p, k + 1);
    RoundDownHalves(p, k);
    BaseAligned(p, k + 1);
    XorPow2(p, k);
    AlignedDown(P, k, k + 1);
    AlignedShift(P, k, k);
    var b := Buddy(p, k);
    BaseUnique(b, k + 1, P);
    XorPow2(b, k);
  }

  // ----- free lists

  /** Status word of a page: the allocator calls a page free when its status is 0. */
  predicate Free(used: seq<bool>, i: nat)
  {
    i < |used| && !used[i]
  }

  predicate RunFree(used: seq<bool>, p: nat, n: nat)
  {
    forall i: nat :: p <= i < p + n ==> Free(used, i)
  }

  predicate RunUsed(used: seq<bool>, p: nat, n: nat)
  {
    p + n <= |used| && forall i: nat :: p <= i < p + n ==> used[i]
  }

  function Marked(used: seq<bool>, p: nat, n: nat, status: bool): (r: seq<bool>)
    ensures |r| == |used|
    ensures forall i :: 0 <= i < |used| ==> r[i] == if p <= i < p + n then status else used[i]
  {
    seq(|used|, i requires 0 <= i < |used| => if p <= i < p + n then status else used[i])
  }

  /** Page i lies in a listed block of order k. */
  predicate Listed(lists: FreeLists, i: nat, k: nat)
    requires k < |lists|
  {
    Base(i, k) in lists[k]
  }

  /** The listed blocks partition the free pages: aligned, pairwise disjoint, covering exactly the free pages. */
  ghost predicate Partition(lists: FreeLists, used: seq<bool>)
  {
    && |lists| == MAX_ORDER + 1
    && (forall k :: 0 <= k <= MAX_ORDER ==> NoRepeats(lists[k]))
    && (forall k, p :: 0 <= k <= MAX_ORDER && p in lists[k] ==> Aligned(p, k))
    && (forall i: nat, k :: 0 <= k <= MAX_ORDER && Listed(lists, i, k) ==> Free(used, i))
    && (forall i: nat, j, k :: 0 <= j < k <= MAX_ORDER && Listed(lists, i, j) ==> !Listed(lists, i, k))
    && (forall i: nat :: Free(used, i) ==> exists k :: 0 <= k <= MAX_ORDER && Listed(lists, i, k))
  }

  /** No two listed blocks could be merged. */
  ghost predicate Coalesced(lists: FreeLists)
    requires |lists| == MAX_ORDER + 1
  {
    forall k, p :: 0 <= k < MAX_ORDER && p in lists[k] ==> Buddy(p, k) !in lists[k]
  }

  /** A naturally aligned free run of order k that is not part of a larger one. */
  ghost predicate MaximalFreeBlock(used: seq<bool>, p: nat, k: nat)
  {
    && Aligned(p, k)
    && RunFree(used, p, Pow2(k))
    && (k < MAX_ORDER ==> !RunFree(used, Base(p, k + 1), Pow2(k + 1)))
  }

  lemma ListedRunFree(lists: FreeLists, used: seq<bool>, p: nat, k: nat)
    requires Partition(lists, used) && k <= MAX_ORDER && p in lists[k]
    ensures RunFree(used, p, Pow2(k))
  {
    forall i: nat | p <= i < p + Pow2(k)
      ensures Free(used, i)
    {
      BaseUnique(i, k, p);
      assert Listed(lists, i, k);
    }
  }

  /** In fully coalesced lists every aligned free run sits inside one listed block. */
  lemma FreePageListed(lists: FreeLists, used: seq<bool>, p: nat) returns (k: nat)
    requires Partition(lists, used) && Aligned(p, 0) && RunFree(used, p, Pow2(0))
    ensures 0 <= k <= MAX_ORDER && Listed(lists, p, k)
  {
    assert Free(used, p);
    k :| 0 <= k <= MAX_ORDER && Listed(lists, p, k);
  }

  lemma HalvesFree(used: seq<bool>, p: nat, j: nat)
    requires j > 0 && RunFree(used, p, Pow2(j))
    ensures RunFree(used, p, Pow2(j - 1)) && RunFree(used, p + Pow2(j - 1), Pow2(j - 1))
  {
  }

  /** Two halves of an aligned block are never both listed: they would be a pair to merge. */
  lemma NotBothHalves(lists: FreeLists, p: nat, j: nat)
    requires |lists| == MAX_ORDER + 1 && Coalesced(lists) && j < MAX_ORDER && Aligned(p, j) && Aligned(p, j + 1)
    ensures !(Listed(lists, p, j) && Listed(lists, p + Pow2(j), j))
  {
    BuddyIsOtherHalf(p, j);
  }

  lemma {:induction false} RunInsideOneBlock(lists: FreeLists, used: seq<bool>, p: nat, j: nat) returns (k: nat)
    requires Partition(lists, used) && Coalesced(lists)
    requires j <= MAX_ORDER && Aligned(p, j) && RunFree(used, p, Pow2(j))
    ensures j <= k <= MAX_ORDER && Listed(lists, p, k)
    decreases j
  {
    hide Coalesced, RunFree;
    if j == 0 {
      k := FreePageListed(lists, used, p);
    } else {
      var q := p + Pow2(j - 1);
      HalvesFree(used, p, j);
      AlignedDown(p, j - 1, j);
      AlignedShift(p, j - 1, j - 1);
      var a := RunInsideOneBlock(lists, used, p, j - 1);
      var b := RunInsideOneBlock(lists, used, q, j - 1);
      BaseUnique(q, j, p);
      if a >= j {
        k := a;
      } else if b >= j {
        k := b;
        BaseNested(q, j, b);
      } else {
        NotBothHalves(lists, p, j - 1);
        assert false;
      }
    }
  }

  /** Canonical form: fully coalesced lists hold exactly the maximal aligned free runs. */
  lemma CanonicalForm(lists: FreeLists, used: seq<bool>, p: nat, k: nat)
    requires Partition(lists, used) && Coalesced(lists) && k <= MAX_ORDER
    ensures p in lists[k] <==> MaximalFreeBlock(used, p, k)
  {
    if p in lists[k] {
      ListedRunFree(lists, used, p, k);
      if k < MAX_ORDER && RunFree(used, Base(p, k + 1), Pow2(k + 1)) {
        BaseAligned(p, k + 1);
        var m := RunInsideOneBlock(lists, used, Base(p, k + 1), k + 1);
        BaseNested(p, k + 1, m);
        assert Listed(lists, p, k) && Listed(lists, p, m);
        assert false;
      }
    }
    if MaximalFreeBlock(used, p, k) {
      var m := RunInsideOneBlock(lists, used, p, k);
      if m > k {
        var b := Base(p, m);
        ListedRunFree(lists, used, b, m);
        BaseNested(p, k + 1, m);
        assert false;
      }
    }
  }

  /** Hence the free pages alone determine every free list, up to order. */
  lemma CanonicalUnique(l1: FreeLists, l2: FreeLists, used: seq<bool>, k: nat)
    requires Partition(l1, used) && Coalesced(l1)
    requires Partition(l2, used) && Coalesced(l2)
    requires k <= MAX_ORDER
    ensures multiset(l1[k]) == multiset(l2[k])
  {
    forall p: nat
      ensures multiset(l1[k])[p] == multiset(l2[k])[p]
    {
      CanonicalForm(l1, used, p, k);
      CanonicalForm(l2, used, p, k);
      MultiplicityAtMostOne(l1[k], p);
      MultiplicityAtMostOne(l2[k], p);
    }
  }

  lemma {:induction false} MultiplicityAtMostOne(s: seq<nat>, p: nat)
    requires NoRepeats(s)
    ensures multiset(s)[p] == if p in s then 1 else 0
  {
    if s != [] {
      MultiplicityAtMostOne(s[1..], p);
      assert s == [s[0]] + s[1..];
    }
  }

  // ----- the three list edits the allocator makes

  function RemoveAt(s: seq<nat>, idx: nat): (r: seq<nat>)
    requires idx < |s|
  {
    s[..idx] + s[idx + 1..]
  }

  lemma RemoveAtMembers(s: seq<nat>, idx: nat)
    requires idx < |s| && NoRepeats(s)
    ensures NoRepeats(RemoveAt(s, idx))
    ensures forall x :: x in RemoveAt(s, idx) <==> x in s && x != s[idx]
  {
    var r := RemoveAt(s, idx);
    forall x | x in s && x != s[idx]
      ensures x in r
    {
      var i :| 0 <= i < |s| && s[i] == x;
      assert x == r[if i < idx then i else i - 1];
    }
  }

  /** Taking a block off its list takes its pages, and only them, out of the partition. */
  lemma RemoveBlock(lists: FreeLists, used: seq<bool>, k: nat, idx: nat)
    requires Partition(lists, used) && k <= MAX_ORDER && idx < |lists[k]|
    ensures Partition(lists[k := RemoveAt(lists[k], idx)], Marked(used, lists[k][idx], Pow2(k), true))
    ensures Aligned(lists[k][idx], k) && RunFree(used, lists[k][idx], Pow2(k))
  {
    var p := lists[k][idx];
    var lists' := lists[k := RemoveAt(lists[k], idx)];
    var used' := Marked(used, p, Pow2(k), true);
    RemoveAtMembers(lists[k], idx);
    ListedRunFree(lists, used, p, k);
    forall i: nat
      ensures Listed(lists', i, k) <==> Listed(lists, i, k) && !(p <= i < p + Pow2(k))
      ensures p <= i < p + Pow2(k) ==> Base(i, k) == p
    {
      if p <= i < p + Pow2(k) { BaseUnique(i, k, p); }
    }
    assert forall i: nat, j :: 0 <= j <= MAX_ORDER && j != k ==> Listed(lists', i, j) == Listed(lists, i, j);
    forall i: nat, j | 0 <= j <= MAX_ORDER && Listed(lists', i, j)
      ensures Free(used', i)
    {
      assert Listed(lists, i, j) && Free(used, i);
      assert p <= i < p + Pow2(k) ==> Listed(lists, i, k);
    }
    forall i: nat | Free(used', i)
      ensures exists j :: 0 <= j <= MAX_ORDER && Listed(lists', i, j)
    {
      assert Free(used, i);
      var j :| 0 <= j <= MAX_ORDER && Listed(lists, i, j);
      assert Listed(lists', i, j);
    }
  }

  /** Listing an aligned block of used pages adds its pages, and only them, to the partition. */
  lemma AddBlock(lists: FreeLists, used: seq<bool>, k: nat, p: nat)
    requires Partition(lists, used) && k <= MAX_ORDER && Aligned(p, k) && RunUsed(used, p, Pow2(k))
    ensures Partition(lists[k := lists[k] + [p]], Marked(used, p, Pow2(k), false))
  {
    var lists' := lists[k := lists[k] + [p]];
    var used' := Marked(used, p, Pow2(k), false);
    forall i: nat
      ensures Base(i, k) == p <==> p <= i < p + Pow2(k)
    {
      if p <= i < p + Pow2(k) { BaseUnique(i, k, p); }
    }
    assert Base(p, k) == p;
    assert !Listed(lists, p, k);
    assert forall i: nat :: Listed(lists', i, k) <==> Listed(lists, i, k) || Base(i, k) == p;
    assert forall i: nat, j :: 0 <= j <= MAX_ORDER && j != k ==> Listed(lists', i, j) == Listed(lists, i, j);
    forall i: nat | Free(used', i)
      ensures exists j :: 0 <= j <= MAX_ORDER && Listed(lists', i, j)
    {
      if Base(i, k) == p {
        assert Listed(lists', i, k);
      } else {
        assert Free(used, i);
        var j :| 0 <= j <= MAX_ORDER && Listed(lists, i, j);
        assert Listed(lists', i, j);
      }
    }
  }
}
