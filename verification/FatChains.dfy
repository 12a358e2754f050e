/** Cluster chains in the FAT ("FAT Data Structure" in the Microsoft FAT32 File System Specification), as
    kernel/fs/fat/utils.cpp searches, extends, allocates and frees them in the in-memory table. */
module FatChains {
  import opened Common

  /** What this implementation writes to end a chain. */
  const END_OF_CLUSTER_CHAIN: nat := 0x0FFF_FFFF
  /** Every value from here on ends a chain. */
  const FAT32_EOC_MIN: nat := 0x0FFF_FFF8

  type Fat = seq<nat>

  function NextCluster(fat: Fat, c: nat): nat
    requires c < |fat|
  {
    if fat[c] >= FAT32_EOC_MIN then END_OF_CLUSTER_CHAIN else fat[c]
  }

  /** Each cluster links to the next and the last one ends the chain. */
  ghost predicate Linked(fat: Fat, path: seq<nat>)
  {
    && path != []
    && (forall i :: 0 <= i < |path| ==> path[i] < |fat|)
    && (forall i :: 0 <= i < |path| - 1 ==> fat[path[i]] == path[i + 1])
    && fat[path[|path| - 1]] >= FAT32_EOC_MIN
  }

  /** A well-formed chain: data clusters only, acyclic, terminated. */
  ghost predicate IsChain(fat: Fat, total: nat, chain: seq<nat>)
  {
    && NoRepeats(chain) && Linked(fat, chain)
    && (forall i :: 0 <= i < |chain| ==> 2 <= chain[i] < total)
  }

  ghost predicate SameOutside(f: Fat, g: Fat, path: seq<nat>)
  {
    |f| == |g| && forall c :: 0 <= c < |f| && c !in path ==> g[c] == f[c]
  }

  /** The free clusters from i on, in ascending order. */
  function FreeFrom(fat: Fat, i: nat, total: nat): (r: seq<nat>)
    requires total <= |fat|
    ensures forall c :: c in r <==> i <= c < total && fat[c] == 0
    ensures NoRepeats(r)
    decreases total - i
  {
    if i >= total then []
    else if fat[i] == 0 then [i] + FreeFrom(fat, i + 1, total)
    else FreeFrom(fat, i + 1, total)
  }

  function FreeClusters(fat: Fat, total: nat): seq<nat>
    requires total <= |fat|
  {
    FreeFrom(fat, 2, total)
  }

  function Min(a: nat, b: nat): nat
  {
    if a < b then a else b
  }

  /** The scan finds the free clusters in order, so what lies ahead of i is a suffix of all free clusters. */
  lemma {:induction false} FreeSuffix(fat: Fat, i: nat, j: nat, total: nat)
    requires i <= j && total <= |fat|
    ensures |FreeFrom(fat, j, total)| <= |FreeFrom(fat, i, total)|
    ensures FreeFrom(fat, i, total)[|FreeFrom(fat, i, total)| - |FreeFrom(fat, j, total)|..] == FreeFrom(fat, j, total)
    decreases j - i
  {
    if i < j {
      FreeSuffix(fat, i + 1, j, total);
    }
  }

  method CountFreeClusters(fat: array<nat>, total: nat) returns (count: nat)
    requires total <= fat.Length
    ensures count == |FreeClusters(fat[..], total)|
  {
    count := 0;
    var i: nat := 2;
    while i < total
      invariant 2 <= i
      invariant count + |FreeFrom(fat[..], i, total)| == |FreeClusters(fat[..], total)|
    {
      if fat[i] == 0 {
        count := count + 1;
      }
      i := i + 1;
    }
  }

  /** The path so far is linked up to its last cluster, whose entry is still what it was. */
  ghost predicate LinkedSoFar(f: Fat, g: Fat, path: seq<nat>)
  {
    && path != [] && NoRepeats(path) && |f| == |g|
    && (forall i :: 0 <= i < |path| ==> path[i] < |g|)
    && (forall i :: 0 <= i < |path| - 1 ==> g[path[i]] == path[i + 1])
    && (forall c :: 0 <= c < |f| && (c !in path || c == path[|path| - 1]) ==> g[c] == f[c])
  }

  lemma LinkOneMore(f: Fat, g: Fat, path: seq<nat>, c: nat)
    requires LinkedSoFar(f, g, path) && c < |g| && c !in path
    ensures LinkedSoFar(f, g[path[|path| - 1] := c], path + [c])
  {
    var last := path[|path| - 1];
    var g', path' := g[last := c], path + [c];
    assert path'[|path'| - 1] == c;
    forall i | 0 <= i < |path'| - 1
      ensures g'[path'[i]] == path'[i + 1]
    {
      if i < |path| - 1 {
        assert path[i] != last;
      }
    }
  }

  /** The scan has reached cluster i and linked the free clusters below it, `taken` of them, behind `last`. */
  ghost predicate Extending(f: Fat, g: Fat, total: nat, last: nat, path: seq<nat>, taken: nat, i: nat)
  {
    && total <= |f| && last < |f| && f[last] != 0 && 2 <= i
    && LinkedSoFar(f, g, path)
    && var all := FreeClusters(f, total);
       && taken <= |all| && path == [last] + all[..taken]
       && (forall c :: c in all[..taken] ==> 2 <= c < i)
       && all[taken..] == FreeFrom(f, i, total)
  }

  /** Linking as it goes does not mislead the scan. */
  lemma ScanAgrees(f: Fat, g: Fat, total: nat, last: nat, path: seq<nat>, taken: nat, i: nat)
    requires Extending(f, g, total, last, path, taken, i) && i < total
    ensures g[i] == 0 <==> f[i] == 0
  {
    hide FreeFrom;
    var all := FreeClusters(f, total);
    if i == last {
      if taken > 0 {
        assert path[0] == last && path[1] == all[..taken][0];
        assert path[1] in all[..taken];
        assert g[path[0]] == path[1];
      }
    } else {
      assert i !in path;
    }
  }

  lemma ExtendSkip(f: Fat, g: Fat, total: nat, last: nat, path: seq<nat>, taken: nat, i: nat)
    requires Extending(f, g, total, last, path, taken, i) && i < total && f[i] != 0
    ensures Extending(f, g, total, last, path, taken, i + 1)
  {
    hide LinkedSoFar;
  }

  lemma ExtendTake(f: Fat, g: Fat, total: nat, last: nat, path: seq<nat>, taken: nat, i: nat)
    requires Extending(f, g, total, last, path, taken, i) && i < total && f[i] == 0
    ensures Extending(f, g[path[|path| - 1] := i], total, last, path + [i], taken + 1, i + 1)
    ensures taken < |FreeClusters(f, total)|
  {
    var all := FreeClusters(f, total);
    assert FreeFrom(f, i, total) == [i] + FreeFrom(f, i + 1, total);
    assert all[taken] == i;
    assert all[..taken + 1] == all[..taken] + [i];
    assert all[taken + 1..] == all[taken..][1..];
    assert i !in path;
    hide FreeFrom;
    LinkOneMore(f, g, path, i);
    hide LinkedSoFar;
  }

  /** Appends the first free clusters to the chain that ends at `last`; the entry of `last` is overwritten.
      The result is the new last cluster, or 0 when there were too few (what there was is linked all the same). */
  method ExtendClusterChain(fat: array<nat>, total: nat, last: nat, n: nat) returns (r: nat, ghost path: seq<nat>)
    requires total <= fat.Length && last < fat.Length && fat[last] != 0
    modifies fat
    ensures var k := Min(n, |FreeClusters(old(fat[..]), total)|);
            path == [last] + FreeClusters(old(fat[..]), total)[..k]
    ensures NoRepeats(path) && Linked(fat[..], path) && fat[path[|path| - 1]] == END_OF_CLUSTER_CHAIN
    ensures SameOutside(old(fat[..]), fat[..], path)
    ensures r == if |FreeClusters(old(fat[..]), total)| < n then 0 else path[|path| - 1]
  {
    hide LinkedSoFar, FreeFrom;
    ghost var f := fat[..];
    path := [last];
    var current: nat, taken: nat, i: nat := last, 0, 2;
    assert LinkedSoFar(f, f, path) by { LinkStart(f, last); }
    while i < total && taken < n
      invariant taken <= n && fat.Length == |f|
      invariant Extending(f, fat[..], total, last, path, taken, i)
      invariant path != [] && current == path[|path| - 1] < fat.Length
    {
      ghost var g := fat[..];
      ScanAgrees(f, g, total, last, path, taken, i);
      if fat[i] != 0 {
        ExtendSkip(f, g, total, last, path, taken, i);
        i := i + 1;
        continue;
      }
      ExtendTake(f, g, total, last, path, taken, i);
      fat[current] := i;
      assert fat[..] == g[current := i];
      current := i;
      path := path + [i];
      taken := taken + 1;
      i := i + 1;
    }
    ghost var g := fat[..];
    LinkEnd(f, g, path);
    assert i >= total ==> FreeFrom(f, i, total) == [] by { NoneBeyond(f, i, total); }
    fat[current] := END_OF_CLUSTER_CHAIN;
    assert fat[..] == g[current := END_OF_CLUSTER_CHAIN];
    if taken < n {
      r := 0;
    } else {
      r := current;
    }
  }

  lemma NoneBeyond(f: Fat, i: nat, total: nat)
    requires total <= |f|
    ensures i >= total ==> FreeFrom(f, i, total) == []
  {
  }

  lemma LinkStart(f: Fat, last: nat)
    requires last < |f|
    ensures LinkedSoFar(f, f, [last])
  {
  }

  lemma LinkEnd(f: Fat, g: Fat, path: seq<nat>)
    requires LinkedSoFar(f, g, path)
    ensures NoRepeats(path)
    ensures Linked(g[path[|path| - 1] := END_OF_CLUSTER_CHAIN], path)
    ensures SameOutside(f, g[path[|path| - 1] := END_OF_CLUSTER_CHAIN], path)
  {
  }

  /** Frees the chain that starts at `start`; 0 and end markers are no chain and change nothing. */
  method FreeClusterChain(fat: array<nat>, start: nat, ghost chain: seq<nat>)
    requires 0 < start < FAT32_EOC_MIN ==> NoRepeats(chain) && Linked(fat[..], chain) && chain[0] == start && forall i :: 0 <= i < |chain| ==> chain[i] < FAT32_EOC_MIN
    modifies fat
    ensures start == 0 || start >= FAT32_EOC_MIN ==> fat[..] == old(fat[..])
    ensures 0 < start < FAT32_EOC_MIN ==> SameOutside(old(fat[..]), fat[..], chain) && forall i :: 0 <= i < |chain| ==> chain[i] < fat.Length && fat[chain[i]] == 0
  {
    if start == 0 || start >= FAT32_EOC_MIN {
      return;
    }
    ghost var f := fat[..];
    var current := start;
    ghost var i := 0;
    while current < FAT32_EOC_MIN
      invariant 0 <= i <= |chain|
      invariant i < |chain| ==> current == chain[i]
      invariant i == |chain| ==> current >= FAT32_EOC_MIN
      invariant forall j :: i <= j < |chain| ==> fat[chain[j]] == f[chain[j]]
      invariant forall j :: 0 <= j < i ==> fat[chain[j]] == 0
      invariant SameOutside(f, fat[..], chain)
      decreases |chain| - i
    {
      var next := fat[current];
      fat[current] := 0;
      current := next;
      i := i + 1;
    }
  }

  /** All or nothing: succeeds exactly when enough clusters are free, with a chain of the first free clusters;
      otherwise the table is as it was. A request for no cluster is served like a request for one. */
  method AllocateClusterChain(fat: array<nat>, total: nat, n: nat) returns (first: nat, ghost chain: seq<nat>)
    requires total <= fat.Length && total <= FAT32_EOC_MIN
    modifies fat
    ensures first != 0 <==> |FreeClusters(old(fat[..]), total)| >= (if n == 0 then 1 else n)
    ensures first == 0 ==> fat[..] == old(fat[..])
    ensures first != 0 ==> chain == FreeClusters(old(fat[..]), total)[..if n == 0 then 1 else n] && chain[0] == first
    ensures first != 0 ==> IsChain(fat[..], total, chain) && SameOutside(old(fat[..]), fat[..], chain)
  {
    ghost var f := fat[..];
    ghost var all := FreeClusters(f, total);
    chain := [];
    first := 2;
    while first < total && fat[first] != 0
      invariant 2 <= first
      invariant FreeFrom(f, first, total) == all
    {
      first := first + 1;
    }
    if first >= total {
      return 0, [];
    }
    assert all[0] == first;
    fat[first] := END_OF_CLUSTER_CHAIN;
    ghost var g := fat[..];
    chain := [first];
    FreeAfterTaking(f, g, first, total);
    if n > 1 {
      var r, path := ExtendClusterChain(fat, total, first, n - 1);
      chain := path;
      ghost var rest := FreeClusters(g, total);
      assert all == [first] + rest;
      forall i | 0 <= i < |path|
        ensures path[i] in all
      {
        assert path[i] == all[i];
      }
      if r == 0 {
        FreeClusterChain(fat, first, path);
        assert fat[..] == f;
        return 0, [];
      }
      assert path == all[..n];
    }
  }

  /** Taking the first free cluster leaves the others, in order. */
  lemma FreeAfterTaking(f: Fat, g: Fat, first: nat, total: nat)
    requires total <= |f| && 2 <= first < total && f[first] == 0 && FreeFrom(f, first, total) == FreeClusters(f, total)
    requires g == f[first := END_OF_CLUSTER_CHAIN]
    ensures FreeClusters(f, total) == [first] + FreeClusters(g, total)
  {
    FreeSame(f, g, 2, first, total);
    FreeSame(f, g, first + 1, total, total);
  }

  /** Where two tables agree on a stretch without free clusters, or throughout, they have the same free clusters. */
  lemma {:induction false} FreeSame(f: Fat, g: Fat, i: nat, j: nat, total: nat)
    requires |f| == |g| && total <= |f| && i <= j <= total
    requires forall c :: i <= c < j ==> f[c] == g[c]
    ensures |FreeFrom(f, i, total)| - |FreeFrom(f, j, total)| == |FreeFrom(g, i, total)| - |FreeFrom(g, j, total)|
    ensures FreeFrom(f, i, total) == FreeFrom(f, j, total) <==> FreeFrom(g, i, total) == FreeFrom(g, j, total)
    ensures j == total ==> FreeFrom(f, i, total) == FreeFrom(g, i, total)
    decreases j - i
  {
    FreeSuffix(f, i, j, total);
    FreeSuffix(g, i, j, total);
    if i < j {
      FreeSame(f, g, i + 1, j, total);
    }
  }

  /** free_cluster_chain undoes allocate_cluster_chain. */
  method AllocateThenFree(fat: array<nat>, total: nat, n: nat) returns (first: nat)
    requires total <= fat.Length && total <= FAT32_EOC_MIN
    modifies fat
    ensures fat[..] == old(fat[..])
    ensures first != 0 <==> |FreeClusters(old(fat[..]), total)| >= (if n == 0 then 1 else n)
  {
    ghost var f := fat[..];
    ghost var chain;
    first, chain := AllocateClusterChain(fat, total, n);
    if first != 0 {
      FreeClusterChain(fat, first, chain);
      forall c | 0 <= c < |f|
        ensures fat[c] == f[c]
      {
        if c in chain {
          var i :| 0 <= i < |chain| && chain[i] == c;
          assert chain[i] in FreeClusters(f, total);
        }
      }
      assert fat[..] == f;
    }
  }
}
