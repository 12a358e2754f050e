/** The buddy allocator of kernel/memory/buddy_system.cpp.
    A page is named by its index; the page at index i has address i * PAGE_SIZE, and address 0 is the null pointer. */
module BuddyAllocator {
  import opened Common
  import opened BitUtils
  import opened BuddyBlocks

  const PAGE_SIZE: nat := 4096

  /** Physical memory ends at or below 4 GiB: the region tiler computes addresses with 32-bit align_up. */
  const MAX_PAGES: nat := 0x10_0000

  /** 64-bit arithmetic: the sum wraps. */
  function PagesForBytes(size: nat): nat
  {
    ((size + PAGE_SIZE - 1) % U64) / PAGE_SIZE
  }

  /** The page count is truncated to 32 bits on the way into bit_width_ceil. */
  function CalculateOrder(numPages: nat): (order: int)
    ensures -1 <= order <= MAX_ORDER
  {
    if numPages == 0 then -1
    else
      var order := BitWidthCeil(numPages % U32);
      if order > MAX_ORDER then -1 else order
  }

  lemma CeilLogAgainst(x: nat, bound: nat)
    requires x > 0
    ensures BitWidthCeil(x) > bound <==> x > Pow2(bound)
    ensures x <= Pow2(BitWidthCeil(x))
    ensures BitWidthCeil(x) > 0 ==> Pow2(BitWidthCeil(x) - 1) < x
  {
    BitWidthCeilIsCeilLog(x);
    var c := BitWidthCeil(x);
    if c > bound {
      Pow2Monotone(bound, c - 1);
    } else {
      Pow2Monotone(c, bound);
    }
  }

  /** Below 2^32 pages the order is the least one whose block holds the request, or -1 when none does. */
  lemma CalculateOrderLeast(numPages: nat)
    requires 0 < numPages < U32
    ensures CalculateOrder(numPages) == -1 <==> numPages > Pow2(MAX_ORDER)
    ensures CalculateOrder(numPages) >= 0 ==> numPages <= Pow2(CalculateOrder(numPages))
    ensures CalculateOrder(numPages) > 0 ==> Pow2(CalculateOrder(numPages) - 1) < numPages
  {
    hide Pow2, BitWidthCeil;
    assert numPages % U32 == numPages;
    CeilLogAgainst(numPages, MAX_ORDER);
  }

  /** The 32-bit truncation makes the order too small exactly for these page counts. */
  lemma CalculateOrderCovers(numPages: nat)
    requires numPages > 0
    ensures CalculateOrder(numPages) == -1 || numPages <= Pow2(CalculateOrder(numPages))
            <==> numPages < U32 || numPages % U32 > Pow2(MAX_ORDER)
  {
    hide Pow2;
    var t := numPages % U32;
    Pow2BelowU32(MAX_ORDER);
    if t > 0 {
      CeilLogAgainst(t, MAX_ORDER);
      if BitWidthCeil(t) <= MAX_ORDER {
        Pow2Monotone(BitWidthCeil(t), MAX_ORDER);
      }
    } else {
      PowZero();
    }
  }

  /** get_page: no page for the null pointer or past the end of memory. */
  predicate HasPage(used: seq<bool>, page: nat)
  {
    0 < page < |used|
  }

  /** Order of the largest block that fits in numPages pages, capped at MAX_ORDER. */
  function MaxOrderIn(numPages: nat): (order: nat)
    requires numPages < U32
    ensures order <= MAX_ORDER
    ensures numPages > 0 ==> Pow2(order) <= numPages
    ensures numPages > 0 && order < MAX_ORDER ==> numPages < Pow2(order + 1)
  {
    if numPages == 0 then 0
    else
      var order := BitWidth(numPages) - 1;
      if order > MAX_ORDER then
        Pow2Monotone(MAX_ORDER, order);
        MAX_ORDER
      else order
  }

  lemma OrderShrinks(m: nat, n: nat)
    requires n <= m < U32 && 0 < n
    ensures MaxOrderIn(n) <= MaxOrderIn(m)
  {
    hide Pow2, BitWidth;
    var i, j := MaxOrderIn(n), MaxOrderIn(m);
    if j < i {
      Pow2Monotone(j + 1, i);
      assert false;
    }
  }

  ghost predicate CoalescedAt(lists: FreeLists, k: nat)
    requires |lists| == MAX_ORDER + 1 && k < MAX_ORDER
  {
    forall p :: p in lists[k] ==> Buddy(p, k) !in lists[k]
  }

  /** Live allocations are disjoint aligned blocks of used pages; with the free pages they make up the registered pages. */
  ghost predicate LiveBlocks(live: map<nat, nat>, used: seq<bool>, registered: set<nat>)
  {
    && (forall p :: p in live ==> p > 0 && live[p] <= MAX_ORDER && Aligned(p, live[p]) && RunUsed(used, p, Pow2(live[p])))
    && (forall p, q, i: nat :: p in live && q in live && Base(i, live[p]) == p && Base(i, live[q]) == q ==> p == q)
    && (forall i: nat :: i in registered <==> Free(used, i) || InLive(live, i))
  }

  ghost predicate InLive(live: map<nat, nat>, i: nat)
  {
    exists p :: p in live && Base(i, live[p]) == p
  }

  lemma AllocateLive(live: map<nat, nat>, used: seq<bool>, registered: set<nat>, p: nat, k: nat)
    requires LiveBlocks(live, used, registered)
    requires p > 0 && k <= MAX_ORDER && Aligned(p, k) && RunFree(used, p, Pow2(k))
    ensures p !in live
    ensures LiveBlocks(live[p := k], Marked(used, p, Pow2(k), true), registered)
  {
    hide RoundDown, Pow2, Marked, RunUsed, InLive, Free;
    var used' := Marked(used, p, Pow2(k), true);
    var live' := live[p := k];
    forall q | q in live
      ensures q != p && RunUsed(used', q, Pow2(live[q]))
      ensures forall i: nat :: Base(i, live[q]) == q ==> Base(i, k) != p
    {
      AllocateApart(used, p, k, q, live[q]);
    }
    AllocateMarks(used, p, k);
    forall i: nat
      ensures Free(used, i) || InLive(live, i) <==> Free(used', i) || InLive(live', i)
    {
      AllocateLiveAt(live, used, p, k, i);
    }
  }

  lemma AllocateApart(used: seq<bool>, p: nat, k: nat, q: nat, j: nat)
    requires Aligned(p, k) && RunFree(used, p, Pow2(k)) && RunUsed(used, q, Pow2(j))
    ensures q != p && RunUsed(Marked(used, p, Pow2(k), true), q, Pow2(j))
    ensures forall i: nat :: Base(i, j) == q ==> Base(i, k) != p
  {
    hide RoundDown, Pow2;
    assert Free(used, p) && used[q];
    forall i: nat | Base(i, j) == q
      ensures Base(i, k) != p
    {
      assert used[i];
      assert Base(i, k) == p ==> Free(used, i);
    }
  }

  lemma AllocateMarks(used: seq<bool>, p: nat, k: nat)
    requires Aligned(p, k) && RunFree(used, p, Pow2(k))
    ensures p + Pow2(k) - 1 < |used| && RunUsed(Marked(used, p, Pow2(k), true), p, Pow2(k))
  {
    hide RoundDown, Pow2;
    assert Free(used, p + Pow2(k) - 1);
  }

  lemma AllocateLiveAt(live: map<nat, nat>, used: seq<bool>, p: nat, k: nat, i: nat)
    requires p + Pow2(k) - 1 < |used| && Aligned(p, k) && RunFree(used, p, Pow2(k)) && p !in live
    ensures Free(used, i) || InLive(live, i) <==> Free(Marked(used, p, Pow2(k), true), i) || InLive(live[p := k], i)
  {
    hide RoundDown, Pow2;
    var used', live' := Marked(used, p, Pow2(k), true), live[p := k];
    if p <= i < p + Pow2(k) {
      BaseUnique(i, k, p);
      assert p in live' && Base(i, live'[p]) == p;
    } else {
      if InLive(live, i) {
        var q :| q in live && Base(i, live[q]) == q;
        assert q in live' && Base(i, live'[q]) == q;
      }
      if InLive(live', i) {
        var q :| q in live' && Base(i, live'[q]) == q;
        assert q in live && Base(i, live[q]) == q;
      }
    }
  }

  lemma FreeLive(live: map<nat, nat>, used: seq<bool>, registered: set<nat>, p: nat)
    requires LiveBlocks(live, used, registered) && p in live
    ensures LiveBlocks(live - {p}, Marked(used, p, Pow2(live[p]), false), registered)
  {
    var k := live[p];
    var used' := Marked(used, p, Pow2(k), false);
    var live' := live - {p};
    forall i: nat
      ensures Base(i, k) == p <==> p <= i < p + Pow2(k)
    {
      if p <= i < p + Pow2(k) { BaseUnique(i, k, p); }
    }
    forall q | q in live'
      ensures RunUsed(used', q, Pow2(live[q]))
    {
      forall i: nat | q <= i < q + Pow2(live[q])
        ensures used'[i]
      {
        BaseUnique(i, live[q], q);
      }
    }
    forall i: nat
      ensures Free(used, i) || InLive(live, i) <==> Free(used', i) || InLive(live', i)
    {
      if Base(i, k) == p {
      } else if InLive(live, i) {
        var q :| q in live && Base(i, live[q]) == q;
        assert q in live' && Base(i, live'[q]) == q;
      }
    }
  }

  // ----- allocate: splitting a larger block down to the requested order

  /** While block `front` of order `next` is split: below `next`, order i holds the two halves and everything between is empty. */
  ghost predicate Splitting(lists: FreeLists, used: seq<bool>, front: nat, order: nat, i: nat, next: nat)
  {
    && order <= i <= next <= MAX_ORDER
    && Partition(lists, used)
    && (forall j :: order <= j < i ==> lists[j] == [])
    && lists[i] != [] && lists[i][0] == front
    && (i < next ==> lists[i] == [front, front + Pow2(i)] && Aligned(front, i + 1))
    && (i == next < MAX_ORDER ==> CoalescedAt(lists, i))
    && (forall j :: 0 <= j < MAX_ORDER && j != i ==> CoalescedAt(lists, j))
  }

  lemma SplittingStart(lists: FreeLists, used: seq<bool>, order: nat, next: nat)
    requires Partition(lists, used) && Coalesced(lists)
    requires order <= next <= MAX_ORDER && lists[next] != []
    requires forall j :: order <= j < next ==> lists[j] == []
    ensures Splitting(lists, used, lists[next][0], order, next, next)
  {
  }

  lemma SplitStep(lists: FreeLists, lists': FreeLists, used: seq<bool>, front: nat, order: nat, i: nat, next: nat)
    requires Splitting(lists, used, front, order, i, next) && order < i
    requires Aligned(front, i) && Partition(lists', used)
    requires lists' == lists[i := lists[i][1..]][i - 1 := lists[i - 1] + [front, front + Pow2(i - 1)]]
    ensures Splitting(lists', used, front, order, i - 1, next)
  {
    hide RoundDown, Pow2, Xor, Partition;
    assert |lists| == MAX_ORDER + 1 by { PartitionLength(lists, used); }
    if i < next {
      BuddyIsOtherHalf(front, i);
    }
    if i < MAX_ORDER {
      assert forall p :: p in lists'[i] ==> p in lists[i];
      assert CoalescedAt(lists', i);
    }
    forall j | 0 <= j < MAX_ORDER && j != i && j != i - 1
      ensures CoalescedAt(lists', j)
    {
      assert CoalescedAt(lists, j) && lists'[j] == lists[j];
    }
  }

  lemma PartitionLength(lists: FreeLists, used: seq<bool>)
    requires Partition(lists, used)
    ensures |lists| == MAX_ORDER + 1
  {
  }

  /** Ready to hand out the first block of `order`: taking it off its list leaves fully coalesced lists. */
  ghost predicate Poppable(lists: FreeLists, order: nat)
    requires |lists| == MAX_ORDER + 1 && order <= MAX_ORDER
  {
    lists[order] != [] && Coalesced(lists[order := lists[order][1..]])
  }

  lemma SplittingDone(lists: FreeLists, used: seq<bool>, front: nat, order: nat, next: nat)
    requires Splitting(lists, used, front, order, order, next) && order < next
    ensures |lists| == MAX_ORDER + 1 && Poppable(lists, order)
  {
    hide RoundDown, Pow2, Xor;
    BuddyIsOtherHalf(front, order);
    var lists' := lists[order := lists[order][1..]];
    assert lists'[order] == [Buddy(front, order)];
    forall j, p | 0 <= j < MAX_ORDER && p in lists'[j]
      ensures Buddy(p, j) !in lists'[j]
    {
      if j != order {
        assert CoalescedAt(lists, j);
      }
    }
  }

  lemma PopBlock(lists: FreeLists, used: seq<bool>, order: nat)
    requires Partition(lists, used) && order <= MAX_ORDER && lists[order] != []
    ensures Partition(lists[order := lists[order][1..]], Marked(used, lists[order][0], Pow2(order), true))
    ensures var p := lists[order][0];
            Aligned(p, order) && RunFree(used, p, Pow2(order)) && Free(used, p) && p + Pow2(order) <= |used|
  {
    hide RoundDown, Pow2, Xor, NoRepeats;
    RemoveBlock(lists, used, order, 0);
    assert RemoveAt(lists[order], 0) == lists[order][1..];
    assert Free(used, lists[order][0] + Pow2(order) - 1);
  }

  // ----- free: merging with buddies on the way up

  /** The block being merged holds the freed block, is out of the lists, and its other pages are free. */
  ghost predicate Merging(lists: FreeLists, used: seq<bool>, start: nat, order: nat, page0: nat, order0: nat)
  {
    && order0 <= order <= MAX_ORDER
    && Aligned(start, order) && 0 < start && start + Pow2(order) <= |used|
    && Partition(lists, Marked(used, start, Pow2(order), true)) && Coalesced(lists)
    && start <= page0 && page0 + Pow2(order0) <= start + Pow2(order)
    && (forall i: nat :: start <= i < start + Pow2(order) && !(page0 <= i < page0 + Pow2(order0)) ==> Free(used, i))
  }

  lemma MergingStart(lists: FreeLists, used: seq<bool>, page: nat, order: nat)
    requires Partition(lists, used) && Coalesced(lists)
    requires order <= MAX_ORDER && page > 0 && Aligned(page, order) && RunUsed(used, page, Pow2(order))
    ensures Merging(lists, used, page, order, page, order)
  {
    assert Marked(used, page, Pow2(order), true) == used;
  }

  lemma MergeStep(lists: FreeLists, used: seq<bool>, start: nat, order: nat, page0: nat, order0: nat, idx: nat)
    requires Merging(lists, used, start, order, page0, order0) && order < MAX_ORDER
    requires idx < |lists[order]| && lists[order][idx] == Buddy(start, order) && 0 < Buddy(start, order)
    ensures var b := Buddy(start, order);
            Merging(lists[order := RemoveAt(lists[order], idx)], used, if start < b then start else b, order + 1, page0, order0)
  {
    hide RoundDown, Pow2, Xor, NoRepeats;
    var u := Marked(used, start, Pow2(order), true);
    var b := Buddy(start, order);
    var start' := if start < b then start else b;
    BuddyIsOtherHalf(start, order);
    RemoveBlock(lists, u, order, idx);
    RemoveAtMembers(lists[order], idx);
    Pow2Succ(order);
    BaseAligned(start, order + 1);
    assert Free(u, b + Pow2(order) - 1);
    assert Marked(u, b, Pow2(order), true) == Marked(used, start', Pow2(order + 1), true);
    forall i: nat | b <= i < b + Pow2(order)
      ensures Free(used, i)
    {
      assert Free(u, i);
    }
  }

  lemma UnlistedByPage(lists: FreeLists, u: seq<bool>, b: nat, k: nat, i: nat)
    requires Partition(lists, u) && k <= MAX_ORDER && Aligned(b, k)
    requires b <= i < b + Pow2(k) && !Free(u, i)
    ensures b !in lists[k]
  {
    BaseUnique(i, k, b);
    assert Listed(lists, i, k) ==> Free(u, i);
  }

  lemma ListedHasPage(lists: FreeLists, u: seq<bool>, p: nat, k: nat)
    requires Partition(lists, u) && k <= MAX_ORDER && p in lists[k] && !Free(u, 0)
    ensures HasPage(u, p)
  {
    hide RoundDown, Pow2, Xor, NoRepeats;
    ListedRunFree(lists, u, p, k);
    assert Free(u, p);
  }

  lemma MergingDone(lists: FreeLists, used: seq<bool>, start: nat, order: nat, page0: nat, order0: nat)
    requires Merging(lists, used, start, order, page0, order0)
    requires !Free(used, 0)
    requires order < MAX_ORDER && HasPage(used, Buddy(start, order)) ==> Buddy(start, order) !in lists[order]
    ensures Partition(lists[order := lists[order] + [start]], Marked(used, start, Pow2(order), false))
    ensures Coalesced(lists[order := lists[order] + [start]])
    ensures Marked(used, start, Pow2(order), false) == Marked(used, page0, Pow2(order0), false)
  {
    hide RoundDown, Pow2, Xor, NoRepeats;
    var u := Marked(used, start, Pow2(order), true);
    assert Marked(u, start, Pow2(order), false) == Marked(used, start, Pow2(order), false);
    if order < MAX_ORDER && Buddy(start, order) in lists[order] {
      ListedHasPage(lists, u, Buddy(start, order), order);
      assert false;
    }
    MergedPush(lists, u, order, start);
    var r1, r2 := Marked(used, start, Pow2(order), false), Marked(used, page0, Pow2(order0), false);
    forall i | 0 <= i < |used|
      ensures r1[i] == r2[i]
    {
      assert start <= i < start + Pow2(order) && !(page0 <= i < page0 + Pow2(order0)) ==> Free(used, i);
    }
  }

  // ----- register_memory_blocks: tiling a region

  /** The statuses with every page from `bound` on taken as used: nothing there is listed yet. */
  ghost function NothingYet(pages: seq<bool>, bound: nat): (r: seq<bool>)
    requires bound <= |pages|
    ensures |r| == |pages|
    ensures forall i :: 0 <= i < |pages| ==> r[i] == (pages[i] || i >= bound)
  {
    seq(|pages|, i requires 0 <= i < |pages| => pages[i] || i >= bound)
  }

  lemma NothingYetAdvance(pages: seq<bool>, from: nat, to: nat, bound: nat)
    requires from <= to <= bound <= |pages|
    requires RunFree(pages, from, to - from)
    requires forall i :: to <= i < bound ==> pages[i]
    ensures Marked(NothingYet(pages, from), from, to - from, false) == NothingYet(pages, bound)
    ensures from == to ==> NothingYet(pages, from) == NothingYet(pages, bound)
  {
    var l, r := Marked(NothingYet(pages, from), from, to - from, false), NothingYet(pages, bound);
    forall i | 0 <= i < |pages|
      ensures l[i] == r[i]
    {
      assert from <= i < to ==> Free(pages, i);
    }
    assert l == r;
    if from == to {
      assert NothingYet(pages, from) == l;
    }
  }

  lemma RunFreeEmpty(pages: seq<bool>, p: nat)
    ensures RunFree(pages, p, 0)
  {
  }

  lemma RunFreeExtend(pages: seq<bool>, p: nat, n: nat)
    requires n > 0 && RunFree(pages, p, n - 1) && Free(pages, p + n - 1)
    ensures RunFree(pages, p, n)
  {
  }

  lemma NothingLive(pages: seq<bool>)
    ensures LiveBlocks(map[], pages, set i: nat | i < |pages| && !pages[i])
  {
  }

  lemma NothingListed(lists: FreeLists, used: seq<bool>)
    requires |lists| == MAX_ORDER + 1 && forall k :: 0 <= k <= MAX_ORDER ==> lists[k] == []
    requires forall i :: 0 <= i < |used| ==> used[i]
    ensures Partition(lists, used) && Coalesced(lists)
  {
  }

  /** The least multiple of 2^order not below page. */
  ghost function NextMultiple(page: nat, order: nat): (up: nat)
    ensures Aligned(up, order) && page <= up < page + Pow2(order)
  {
    BaseAligned(page, order);
    if Aligned(page, order) then page
    else
      AlignedShift(Base(page, order), order, order);
      Base(page, order) + Pow2(order)
  }

  /** The tiler's alignment test, on addresses. */
  predicate AddressAligned(page: nat, order: nat)
  {
    (page * PAGE_SIZE) % (Pow2(order) * PAGE_SIZE) == 0
  }

  /** num_rounded_up_pages: pages up to the address that 32-bit align_up returns. */
  function PagesToAlignment(page: nat, order: nat): nat
    requires 0 < Pow2(order) * PAGE_SIZE < U32
    requires AlignUp(page * PAGE_SIZE, Pow2(order) * PAGE_SIZE) >= page * PAGE_SIZE
  {
    (AlignUp(page * PAGE_SIZE, Pow2(order) * PAGE_SIZE) - page * PAGE_SIZE) / PAGE_SIZE
  }

  lemma PageSizeIsPow2()
    ensures Pow2(12) == PAGE_SIZE
  {
  }

  /** Address arithmetic agrees with block alignment while the aligned page lies below 4 GiB. */
  lemma AlignedAddress(page: nat, order: nat)
    requires order <= MAX_ORDER && page + Pow2(order) <= MAX_PAGES
    ensures 0 < Pow2(order) * PAGE_SIZE < U32
    ensures AlignUp(page * PAGE_SIZE, Pow2(order) * PAGE_SIZE) >= page * PAGE_SIZE
    ensures AddressAligned(page, order) <==> page == NextMultiple(page, order)
    ensures page + PagesToAlignment(page, order) == NextMultiple(page, order)
  {
    hide RoundDown, Pow2, AlignUp;
    var up := NextMultiple(page, order);
    PageSizeIsPow2();
    Pow2Add(order, 12);
    RoundDownScaled(up, order, 12);
    RoundDownScaled(page, order, 12);
    AlignUpExact(page * PAGE_SIZE, order + 12, up * PAGE_SIZE);
    RoundDownIsMod(page * PAGE_SIZE, order + 12);
  }

  lemma {:induction false} RoundDownScaled(x: nat, k: nat, s: nat)
    ensures RoundDown(x * Pow2(s), k + s) == RoundDown(x, k) * Pow2(s)
  {
    if s == 0 {
      assert x * Pow2(0) == x;
    } else {
      hide RoundDown, Pow2;
      var m := Pow2(s - 1);
      RoundDownScaled(x, k, s - 1);
      Pow2Succ(s - 1);
      MulDouble(x, m);
      MulDouble(RoundDown(x, k), m);
      RoundDownDouble(x * m, k + s - 1);
    }
  }

  lemma MulDouble(x: nat, m: nat)
    ensures x * (2 * m) == 2 * (x * m)
  {
  }

  lemma RoundDownDouble(y: nat, k: nat)
    ensures RoundDown(2 * y, k + 1) == 2 * RoundDown(y, k)
  {
  }

  /** Between pushes: [start, page) is listed, page is aligned for the next block, and its lower buddy is not a listed block. */
  ghost predicate Tiling(lists: FreeLists, listed: seq<bool>, start: nat, page: nat, order: nat)
  {
    && start <= page && order <= MAX_ORDER
    && Partition(lists, Marked(listed, start, page - start, false)) && Coalesced(lists)
    && Aligned(page, order)
    && (order == MAX_ORDER || page < start + Pow2(order) || Aligned(page, order + 1))
  }

  lemma TilePush(lists: FreeLists, listed: seq<bool>, start: nat, n: nat, page: nat, order: nat)
    requires Tiling(lists, listed, start, page, order)
    requires 0 < start && start + n <= |listed| && RunUsed(listed, start, n)
    requires !Free(listed, start - 1) && !Free(listed, start + n)
    requires page + Pow2(order) <= start + n
    ensures Partition(lists[order := lists[order] + [page]], Marked(listed, start, page + Pow2(order) - start, false))
    ensures Coalesced(lists[order := lists[order] + [page]])
  {
    hide RoundDown, Pow2, Xor, NoRepeats;
    var u := Marked(listed, start, page - start, false);
    if order < MAX_ORDER {
      // an upper buddy is not registered yet; a lower one would reach below the region
      BuddyIsOtherHalf(page, order);
      UnlistedByPage(lists, u, Buddy(page, order), order, if Aligned(page, order + 1) then page + Pow2(order) else start - 1);
    }
    assert Marked(u, page, Pow2(order), false) == Marked(listed, start, page + Pow2(order) - start, false);
    MergedPush(lists, u, order, page);
  }

  lemma TileFirst(lists: FreeLists, listed: seq<bool>, start: nat, page: nat, order0: nat, order: nat)
    requires start <= page < start + Pow2(order0) && order <= order0 <= MAX_ORDER && Aligned(page, order0)
    requires Partition(lists, Marked(listed, start, page - start, false)) && Coalesced(lists)
    ensures Tiling(lists, listed, start, page, order)
  {
    AlignedDown(page, order, order0);
    if order < order0 {
      AlignedDown(page, order + 1, order0);
    }
  }

  /** One block of the tiling loop: push the largest block that fits, then carry on behind it. */
  lemma TileStep(lists: FreeLists, listed: seq<bool>, start: nat, n: nat, page: nat, total: nat)
    requires 0 < total < U32 && page + total == start + n && |lists| == MAX_ORDER + 1
    requires Tiling(lists, listed, start, page, MaxOrderIn(total))
    requires 0 < start && start + n <= |listed| && RunUsed(listed, start, n)
    requires !Free(listed, start - 1) && !Free(listed, start + n)
    ensures var order := MaxOrderIn(total);
            var lists', page', total' := lists[order := lists[order] + [page]], page + Pow2(order), total - Pow2(order);
            && Partition(lists', Marked(listed, start, page' - start, false)) && Coalesced(lists')
            && (total' > 0 ==> Tiling(lists', listed, start, page', MaxOrderIn(total')))
  {
    hide RoundDown, Pow2, Xor, Partition, Coalesced, BitWidth, RunUsed;
    var order := MaxOrderIn(total);
    TilePush(lists, listed, start, n, page, order);
    var page', total' := page + Pow2(order), total - Pow2(order);
    if total' > 0 {
      var order' := MaxOrderIn(total');
      Pow2Succ(order);
      if order <= order' && order < MAX_ORDER {
        Pow2Monotone(order, order');
        assert false;
      }
      AlignedShift(page, order, order);
      AlignedDown(page', order', order);
      if order' < order {
        AlignedDown(page', order' + 1, order);
      }
    }
  }

  /** Taking a block out and putting its halves in keeps the partition. */
  lemma SplitBlock(lists: FreeLists, used: seq<bool>, order: nat)
    requires Partition(lists, used) && 1 <= order <= MAX_ORDER && lists[order] != []
    ensures var p := lists[order][0];
            && Aligned(p, order) && Buddy(p, order - 1) == p + Pow2(order - 1)
            && Partition(lists[order := lists[order][1..]][order - 1 := lists[order - 1] + [p, p + Pow2(order - 1)]], used)
  {
    hide RoundDown, Pow2, Partition, Xor, NoRepeats;
    PartitionLength(lists, used);
    var p, lower := lists[order][0], order - 1;
    var half := p + Pow2(lower);
    RemoveBlock(lists, used, order, 0);
    assert RemoveAt(lists[order], 0) == lists[order][1..];
    Pow2Succ(lower);
    AlignedDown(p, lower, order);
    BuddyIsOtherHalf(p, lower);
    assert Free(used, p + Pow2(order) - 1);
    var lists1, used1 := lists[order := lists[order][1..]], Marked(used, p, Pow2(order), true);
    AddBlock(lists1, used1, lower, p);
    var lists2, used2 := lists1[lower := lists1[lower] + [p]], Marked(used1, p, Pow2(lower), false);
    AddBlock(lists2, used2, lower, half);
    HalvesFreed(used, p, lower);
    assert lists[lower] + [p] + [half] == lists[lower] + [p, half];
    assert lists2[lower := lists2[lower] + [half]] == lists1[lower := lists[lower] + [p, half]];
  }

  lemma HalvesFreed(used: seq<bool>, p: nat, lower: nat)
    requires RunFree(used, p, 2 * Pow2(lower))
    ensures Marked(Marked(Marked(used, p, 2 * Pow2(lower), true), p, Pow2(lower), false), p + Pow2(lower), Pow2(lower), false) == used
  {
    hide Pow2;
    var u := Marked(Marked(Marked(used, p, 2 * Pow2(lower), true), p, Pow2(lower), false), p + Pow2(lower), Pow2(lower), false);
    forall i | 0 <= i < |used|
      ensures u[i] == used[i]
    {
      assert p <= i < p + 2 * Pow2(lower) ==> Free(used, i);
    }
  }

  lemma CoalescedPop(lists: FreeLists, order: nat)
    requires |lists| == MAX_ORDER + 1 && order <= MAX_ORDER && Coalesced(lists) && lists[order] != []
    ensures Poppable(lists, order)
  {
    hide RoundDown, Pow2, Xor;
    assert forall p :: p in lists[order][1..] ==> p in lists[order];
  }

  lemma MarkedNothing(used: seq<bool>, p: nat)
    ensures Marked(used, p, 0, false) == used
  {
  }

  lemma SubRun(listed: seq<bool>, start: nat, n: nat, m: nat)
    requires RunUsed(listed, start, n) && m < n
    ensures RunUsed(listed, start, m) && !Free(listed, start + m)
  {
  }

  class BuddySystem {
    var freeLists: FreeLists
    var used: seq<bool>
    ghost var registered: set<nat>
    ghost var live: map<nat, nat>

    ghost predicate Valid()
      reads this
    {
      && Partition(freeLists, used)
      && Coalesced(freeLists)
      && !Free(used, 0)
      && LiveBlocks(live, used, registered)
    }

    /** Boot: scan the page statuses and register every maximal run of free pages. */
    constructor (pages: seq<bool>)
      requires |pages| <= MAX_PAGES && (|pages| > 0 ==> pages[0])
      ensures Valid() && used == pages && live == map[]
      ensures registered == set i: nat | i < |pages| && !pages[i]
    {
      hide Partition, Coalesced, RunFree, LiveBlocks;
      freeLists := seq(MAX_ORDER + 1, _ => []);
      used := pages;
      new;
      var startIndex, numTotal := 0, 0;
      NothingListed(freeLists, NothingYet(pages, 0));
      RunFreeEmpty(pages, 0);
      for i := 0 to |pages|
        invariant used == pages && |freeLists| == MAX_ORDER + 1
        invariant if numTotal > 0 then 0 < startIndex && startIndex + numTotal == i && pages[startIndex - 1]
                  else startIndex == i || (i > 0 && pages[i - 1])
        invariant numTotal == 0 && i > 0 ==> pages[i - 1]
        invariant numTotal > 0 ==> RunFree(pages, startIndex, numTotal)
        invariant Partition(freeLists, NothingYet(pages, if numTotal > 0 then startIndex else i)) && Coalesced(freeLists)
      {
        RunFreeEmpty(pages, i);
        if pages[i] {
          if numTotal > 0 {
            NothingYetAdvance(pages, startIndex, i, i + 1);
            RegisterMemoryBlocks(numTotal, startIndex, NothingYet(pages, startIndex));
          } else {
            NothingYetAdvance(pages, i, i, i + 1);
          }
          numTotal := 0;
        } else {
          if numTotal == 0 {
            startIndex := i;
          }
          numTotal := numTotal + 1;
          RunFreeExtend(pages, startIndex, numTotal);
        }
      }
      if numTotal > 0 {
        NothingYetAdvance(pages, startIndex, |pages|, |pages|);
        RegisterMemoryBlocks(numTotal, startIndex, NothingYet(pages, startIndex));
      }
      assert NothingYet(pages, |pages|) == pages;
      live := map[];
      registered := set i: nat | i < |pages| && !pages[i];
      NothingLive(pages);
    }

    /** Adds the region [start, start + numTotal) to the lists: afterwards the lists are again fully coalesced and
        partition the earlier pages plus exactly this region. `listed` is the status of pages as the lists see it. */
    method RegisterMemoryBlocks(numTotal: nat, start: nat, ghost listed: seq<bool>)
      requires |listed| == |used| <= MAX_PAGES && 0 < start && start + numTotal <= |used|
      requires Partition(freeLists, listed) && Coalesced(freeLists)
      requires RunUsed(listed, start, numTotal)
      requires !Free(listed, start - 1) && !Free(listed, start + numTotal)
      modifies this`freeLists
      ensures |freeLists| == MAX_ORDER + 1
      ensures Partition(freeLists, Marked(listed, start, numTotal, false)) && Coalesced(freeLists)
      decreases numTotal
    {
      hide RoundDown, Pow2, Xor, Partition, Coalesced, AddressAligned, PagesToAlignment, MaxOrderIn, Aligned, Tiling,
        RunUsed, Marked, BuddyBlocks.Free;
      PartitionLength(freeLists, listed);
      if numTotal == 0 {
        MarkedNothing(listed, start);
        return;
      }

      var total: nat, page := numTotal, start;
      var order := MaxOrderIn(total);
      ghost var order0 := order;
      AlignedAddress(page, order);
      if !AddressAligned(page, order) {
        var roundedUp := PagesToAlignment(page, order);
        SubRun(listed, start, numTotal, roundedUp);
        RegisterMemoryBlocks(roundedUp, page, listed);
        total := total - roundedUp;
        order := MaxOrderIn(total);
        page := page + roundedUp;
      } else {
        MarkedNothing(listed, start);
      }
      assert page == NextMultiple(start, order0);
      OrderShrinks(numTotal, total);
      TileFirst(freeLists, listed, start, page, order0, order);

      PartitionLength(freeLists, Marked(listed, start, page - start, false));
      while total > 0
        invariant page + total == start + numTotal && start <= page && order == MaxOrderIn(total)
        invariant |freeLists| == MAX_ORDER + 1
        invariant total > 0 ==> Tiling(freeLists, listed, start, page, order)
        invariant total == 0 ==> Partition(freeLists, Marked(listed, start, page - start, false)) && Coalesced(freeLists)
      {
        TileStep(freeLists, listed, start, numTotal, page, total);
        freeLists := freeLists[order := freeLists[order] + [page]];
        page := page + Pow2(order);
        total := total - Pow2(order);
        order := MaxOrderIn(total);
      }
    }

    method SplitMemoryBlock(order: nat)
      requires Partition(freeLists, used) && !Free(used, 0)
      requires 1 <= order <= MAX_ORDER && freeLists[order] != []
      modifies this`freeLists
      ensures Partition(freeLists, used)
      ensures var p := old(freeLists)[order][0];
              && Aligned(p, order)
              && freeLists == old(freeLists)[order := old(freeLists)[order][1..]]
                                            [order - 1 := old(freeLists)[order - 1] + [p, p + Pow2(order - 1)]]
    {
      hide RoundDown, Pow2, Partition, Xor, Base;
      PartitionLength(freeLists, used);
      SplitBlock(freeLists, used, order);
      var block := freeLists[order][0];
      freeLists := freeLists[order := freeLists[order][1..]];
      var lower := order - 1;
      var buddy := Buddy(block, lower);
      freeLists := freeLists[lower := freeLists[lower] + [block]];
      freeLists := freeLists[lower := freeLists[lower] + [buddy]];
      assert old(freeLists)[lower] + [block] + [buddy] == old(freeLists)[lower] + [block, buddy];
      assert freeLists == old(freeLists)[order := old(freeLists)[order][1..]][lower := old(freeLists)[lower] + [block, buddy]];
    }

    method SetStatus(page: nat, numPages: nat, status: bool)
      requires page + numPages <= |used|
      modifies this`used
      ensures used == Marked(old(used), page, numPages, status)
    {
      for i := 0 to numPages
        invariant used == Marked(old(used), page, i, status)
      {
        used := used[page + i := status];
      }
    }

    /** Null exactly when the size has no order or no naturally aligned free run of that order exists. */
    method Allocate(size: nat) returns (addr: nat)
      requires Valid() && size < U64
      modifies this
      ensures Valid() && registered == old(registered)
      ensures addr == 0 ==> freeLists == old(freeLists) && used == old(used) && live == old(live)
      ensures var order := CalculateOrder(PagesForBytes(size));
              addr == 0 <==> order == -1 || forall p: nat :: Aligned(p, order) ==> !RunFree(old(used), p, Pow2(order))
      ensures addr != 0 ==>
                var order, page := CalculateOrder(PagesForBytes(size)), addr / PAGE_SIZE;
                && addr == page * PAGE_SIZE
                && Aligned(page, order) && RunFree(old(used), page, Pow2(order))
                && used == Marked(old(used), page, Pow2(order), true)
                && page !in old(live) && live == old(live)[page := order]
    {
      hide RoundDown, Pow2, Xor, CalculateOrder, LiveBlocks, Partition, Coalesced, CoalescedAt, Marked, RunFree;
      PartitionLength(freeLists, used);
      var order := CalculateOrder(PagesForBytes(size));
      addr := 0;
      if order == -1 {
        return;
      }

      if freeLists[order] == [] {
        var next := -1;
        for i := order + 1 to MAX_ORDER + 1
          invariant forall j :: order <= j < i ==> freeLists[j] == []
          invariant next == -1
        {
          if freeLists[i] != [] {
            next := i;
            break;
          }
        }
        if next == -1 {
          NoRunWhenListsEmpty(freeLists, used, order);
          return;
        }

        ghost var front := freeLists[next][0];
        var i := next;
        SplittingStart(freeLists, used, order, next);
        while i > order
          invariant order <= i <= next
          invariant used == old(used) && live == old(live) && registered == old(registered)
          invariant Splitting(freeLists, used, front, order, i, next)
        {
          ghost var lists := freeLists;
          SplitMemoryBlock(i);
          SplitStep(lists, freeLists, used, front, order, i, next);
          i := i - 1;
        }
        SplittingDone(freeLists, used, front, order, next);
      } else {
        CoalescedPop(freeLists, order);
      }

      var page := freeLists[order][0];
      PopBlock(freeLists, used, order);
      if used[page] {
        assert false; // "page is already used" cannot happen
        return;
      }

      AllocateLive(live, used, registered, page, order);
      freeLists := freeLists[order := freeLists[order][1..]];
      SetStatus(page, Pow2(order), true);
      live := live[page := order];
      return page * PAGE_SIZE;
    }

    /** Takes free buddies off their lists for as long as there is one: the block grows around `page`. */
    method MergeUp(page: nat, k: nat) returns (start: nat, order: nat)
      requires Merging(freeLists, used, page, k, page, k) && !Free(used, 0)
      modifies this`freeLists
      ensures Merging(freeLists, used, start, order, page, k)
      ensures order < MAX_ORDER && HasPage(used, Buddy(start, order)) ==> Buddy(start, order) !in freeLists[order]
    {
      hide RoundDown, Pow2, Xor, NoRepeats, Coalesced;
      start, order := page, k;
      while order < MAX_ORDER
        invariant k <= order <= MAX_ORDER && Merging(freeLists, used, start, order, page, k)
      {
        var buddy := Buddy(start, order);
        var idx := if HasPage(used, buddy) then Find(freeLists[order], buddy) else |freeLists[order]|;
        if idx == |freeLists[order]| {
          return;
        }
        MergeStep(freeLists, used, start, order, page, k, idx);
        freeLists := freeLists[order := RemoveAt(freeLists[order], idx)];
        start := if start < buddy then start else buddy;
        order := order + 1;
      }
    }

    /** Freeing a live block gives back its pages and nothing else; a free page or an unusable size changes nothing. */
    method Release(addr: nat, size: nat)
      requires Valid() && size < U64 && addr / PAGE_SIZE < |used|
      requires var order, page := CalculateOrder(PagesForBytes(size)), addr / PAGE_SIZE;
               used[page] && order != -1 ==> page in live && live[page] == order
      modifies this
      ensures Valid() && registered == old(registered)
      ensures var order, page := CalculateOrder(PagesForBytes(size)), addr / PAGE_SIZE;
              if !old(used)[page] || order == -1
              then freeLists == old(freeLists) && used == old(used) && live == old(live)
              else used == Marked(old(used), page, Pow2(order), false) && live == old(live) - {page}
    {
      hide RoundDown, Pow2, Xor, CalculateOrder, NoRepeats, Coalesced;
      var page: nat := addr / PAGE_SIZE;
      if !used[page] {
        return;
      }
      var order := CalculateOrder(PagesForBytes(size));
      if order == -1 {
        return;
      }

      MergingStart(freeLists, used, page, order);
      var start, merged := MergeUp(page, order);
      MergingDone(freeLists, used, start, merged, page, order);
      freeLists := freeLists[merged := freeLists[merged] + [start]];
      SetStatus(start, Pow2(merged), false);
      FreeLive(live, old(used), registered, page);
      live := live - {page};
    }
  }

  /** std::find: index of the first occurrence, or the length when there is none. */
  function Find(s: seq<nat>, x: nat): (idx: nat)
    ensures idx <= |s|
    ensures idx < |s| ==> s[idx] == x
    ensures idx == |s| <==> x !in s
  {
    if s == [] then 0 else if s[0] == x then 0 else 1 + Find(s[1..], x)
  }

  lemma NoRunWhenListsEmpty(lists: FreeLists, used: seq<bool>, order: nat)
    requires Partition(lists, used) && Coalesced(lists) && order <= MAX_ORDER
    requires forall j :: order <= j <= MAX_ORDER ==> lists[j] == []
    ensures forall p: nat :: Aligned(p, order) ==> !RunFree(used, p, Pow2(order))
  {
    forall p: nat | Aligned(p, order)
      ensures !RunFree(used, p, Pow2(order))
    {
      if RunFree(used, p, Pow2(order)) {
        var k := RunInsideOneBlock(lists, used, p, order);
        assert false;
      }
    }
  }

  lemma MergedPush(lists: FreeLists, u: seq<bool>, k: nat, p: nat)
    requires Partition(lists, u) && Coalesced(lists) && k <= MAX_ORDER
    requires Aligned(p, k) && RunUsed(u, p, Pow2(k))
    requires k < MAX_ORDER ==> Buddy(p, k) !in lists[k]
    ensures Partition(lists[k := lists[k] + [p]], Marked(u, p, Pow2(k), false))
    ensures Coalesced(lists[k := lists[k] + [p]])
  {
    AddBlock(lists, u, k, p);
    var lists' := lists[k := lists[k] + [p]];
    forall j, q | 0 <= j < MAX_ORDER && q in lists'[j]
      ensures Buddy(q, j) !in lists'[j]
    {
      BuddyIsOtherHalf(q, j);
    }
  }

  /** Allocating and freeing with the same size restores every free list, up to order. */
  method AllocateThenRelease(buddy: BuddySystem, size: nat) returns (addr: nat)
    requires buddy.Valid() && size < U64
    modifies buddy
    ensures buddy.Valid() && buddy.used == old(buddy.used) && buddy.live == old(buddy.live)
    ensures forall k :: 0 <= k <= MAX_ORDER ==> multiset(buddy.freeLists[k]) == multiset(old(buddy.freeLists)[k])
    ensures var order := CalculateOrder(PagesForBytes(size));
            addr == 0 <==> order == -1 || forall p: nat :: Aligned(p, order) ==> !RunFree(old(buddy.used), p, Pow2(order))
  {
    hide RoundDown, Pow2, Xor, CalculateOrder, Coalesced;
    addr := buddy.Allocate(size);
    if addr != 0 {
      ghost var page, n := addr / PAGE_SIZE, Pow2(CalculateOrder(PagesForBytes(size)));
      forall i: nat | page <= i < page + n
        ensures i < |buddy.used| && buddy.used[i] && !old(buddy.used)[i]
      {
        assert Free(old(buddy.used), i);
      }
      assert page <= page < page + n;
      buddy.Release(addr, size);
      assert buddy.used == old(buddy.used);
      assert buddy.live == old(buddy.live);
    }
    forall k | 0 <= k <= MAX_ORDER
      ensures multiset(buddy.freeLists[k]) == multiset(old(buddy.freeLists)[k])
    {
      CanonicalUnique(buddy.freeLists, old(buddy.freeLists), buddy.used, k);
    }
  }
}
