/** What growing and cutting one file's chain does to the other files, to the contents and to the free clusters. */
module FatGrowth {
  import opened Common
  import opened FatChains
  import opened FileCaches
  import opened FatContents

  function ClustersNeeded(entry: DirEntry, newSize: nat, b: nat): nat
    requires b > 0
  {
    (if entry.first == 0 then 1 else 0)
    + (if CeilDiv(newSize, b) > CeilDiv(entry.size, b) then CeilDiv(newSize, b) - CeilDiv(entry.size, b) else 0)
  }

  lemma FreeNotZero(f: Fat, total: nat, i: nat)
    requires total <= |f| && i < |FreeClusters(f, total)|
    ensures FreeClusters(f, total)[i] >= 2
  {
    hide FreeFrom;
    assert FreeClusters(f, total)[i] in FreeClusters(f, total);
  }

  lemma LongEnough(f: Fat, total: nat, b: nat, entries: map<Name, DirEntry>, chains: map<Name, seq<nat>>, name: Name)
    requires ChainsOk(f, total, b, entries, chains) && name in entries && b > 0
    ensures CeilDiv(entries[name].size, b) <= |chains[name]| && (entries[name].first != 0 ==> chains[name] != [])
  {
    assert FileOk(f, total, b, entries[name], chains[name]);
    CeilDivLeast(entries[name].size, b, |chains[name]|);
  }

  lemma LastNotFree(f: Fat, total: nat, b: nat, entries: map<Name, DirEntry>, chains: map<Name, seq<nat>>, name: Name)
    requires ChainsOk(f, total, b, entries, chains) && name in entries && entries[name].first != 0
    ensures var chain := chains[name]; chain != [] && chain[|chain| - 1] < |f| && f[chain[|chain| - 1]] != 0 && chain[|chain| - 1] >= 2
  {
    assert FileOk(f, total, b, entries[name], chains[name]);
  }

  /** path starts at `last` and goes on through the first k free clusters; nothing else was touched. */
  ghost predicate NewPath(f: Fat, g: Fat, total: nat, last: nat, k: nat, path: seq<nat>)
  {
    && total <= |f| == |g| && k <= |FreeClusters(f, total)|
    && path == [last] + FreeClusters(f, total)[..k]
    && NoRepeats(path) && Linked(g, path) && SameOutside(f, g, path)
  }

  lemma GrewMore(f: Fat, g: Fat, total: nat, b: nat, disk: Disk, entries: map<Name, DirEntry>,
                 chains: map<Name, seq<nat>>, reserved: set<nat>, name: Name, k: nat, path: seq<nat>)
    returns (longer: seq<nat>)
    requires ChainsOk(f, total, b, entries, chains) && NoLeak(f, total, chains, reserved) && DiskOk(disk, total, b) && name in entries && entries[name].first != 0
    requires chains[name] != [] && NewPath(f, g, total, chains[name][|chains[name]| - 1], k, path)
    ensures ChainsOk(g, total, b, entries, chains[name := longer])
    ensures View(disk, b, entries, chains[name := longer]) == View(disk, b, entries, chains)
    ensures total <= |f| == |g| && |FreeClusters(g, total)| == |FreeClusters(f, total)| - k
    ensures |longer| == |chains[name]| + k
    ensures NoLeak(g, total, chains[name := longer], reserved)
  {
    hide FreeFrom, View, DiskOk, OnDisk, NoLeak, NoRepeats, Linked;
    var chain, all, extra := chains[name], FreeClusters(f, total), path[1..];
    assert extra == all[..k];
    assert FileOk(f, total, b, entries[name], chain);
    hide ChainsOk;
    ChainAndPath(f, g, total, chain, all, k, path);
    longer := chain + extra;
    MulLess(|chain|, |longer|, b);
    assert FileOk(g, total, b, entries[name], longer);
    hide FileOk, IsChain;
    assert entries[name := entries[name]] == entries;
    ReplaceChain(f, g, total, b, entries, chains, name, entries[name], longer);
    GrewMoreView(f, g, total, b, disk, entries, chains, name, extra);
    FreeTaken(f, g, total, all, k);
    assert forall c :: c !in longer ==> c !in path;
    NoLeakKept(f, g, total, chains, reserved, name, longer);
  }

  lemma GrewMoreView(f: Fat, g: Fat, total: nat, b: nat, disk: Disk, entries: map<Name, DirEntry>,
                     chains: map<Name, seq<nat>>, name: Name, extra: seq<nat>)
    requires ChainsOk(f, total, b, entries, chains) && DiskOk(disk, total, b) && name in entries
    requires ChainsOk(g, total, b, entries, chains[name := chains[name] + extra])
    ensures View(disk, b, entries, chains[name := chains[name] + extra]) == View(disk, b, entries, chains)
  {
    hide View, OnDisk;
    FileOnDisk(disk, f, total, b, entries[name], chains[name]);
    FileOnDisk(disk, g, total, b, entries[name], chains[name] + extra);
    assert entries[name := entries[name]] == entries && entries[name].(first := entries[name].first) == entries[name];
    ViewGrown(disk, b, entries, chains, name, entries[name].first, extra);
  }

  /** A chain whose last cluster starts a freshly linked path of free clusters is a longer chain. */
  lemma ChainAndPath(f: Fat, g: Fat, total: nat, chain: seq<nat>, all: seq<nat>, k: nat, path: seq<nat>)
    requires IsChain(f, total, chain) && total <= |f| == |g| && all == FreeClusters(f, total) && k <= |all|
    requires path == [chain[|chain| - 1]] + all[..k] && NoRepeats(path) && Linked(g, path) && SameOutside(f, g, path)
    ensures IsChain(g, total, chain + path[1..])
    ensures forall i :: 0 <= i < |chain| ==> chain[i] !in all
    ensures forall i :: 0 <= i < k ==> all[i] < |g| && g[all[i]] != 0
    ensures forall c :: 2 <= c < total && c !in all[..k] ==> (g[c] == 0 <==> f[c] == 0)
    ensures forall c :: 0 <= c < |f| && c !in chain && f[c] != 0 ==> g[c] == f[c]
  {
    hide FreeFrom;
    ChainNotFree(f, total, chain, all);
    PathLinked(f, g, total, all, k, path);
    LongerChain(f, g, total, chain, all, k, path);
    LastLinked(f, g, total, chain, all, k, path);
  }

  lemma ChainNotFree(f: Fat, total: nat, chain: seq<nat>, all: seq<nat>)
    requires IsChain(f, total, chain) && total <= |f| && all == FreeClusters(f, total)
    ensures forall i :: 0 <= i < |chain| ==> chain[i] !in all
  {
    hide FreeFrom;
    forall i | 0 <= i < |chain|
      ensures chain[i] !in all
    {
      if i < |chain| - 1 { assert f[chain[i]] == chain[i + 1]; }
    }
  }

  lemma PathLinked(f: Fat, g: Fat, total: nat, all: seq<nat>, k: nat, path: seq<nat>)
    requires total <= |f| == |g| && all == FreeClusters(f, total) && k <= |all|
    requires |path| == k + 1 && path[1..] == all[..k] && Linked(g, path)
    ensures forall i :: 0 <= i < k ==> all[i] < |g| && g[all[i]] != 0
  {
    hide FreeFrom;
    forall i | 0 <= i < k
      ensures all[i] < |g| && g[all[i]] != 0
    {
      assert all[i] == path[1..][i] == path[i + 1];
      if i + 1 < |path| - 1 {
        assert g[path[i + 1]] == path[i + 2] && path[i + 2] == path[1..][i + 1] == all[i + 1];
        assert all[i + 1] in all;
      }
    }
  }

  lemma LongerChain(f: Fat, g: Fat, total: nat, chain: seq<nat>, all: seq<nat>, k: nat, path: seq<nat>)
    requires IsChain(f, total, chain) && total <= |f| == |g| && all == FreeClusters(f, total) && k <= |all|
    requires path == [chain[|chain| - 1]] + all[..k] && NoRepeats(path) && Linked(g, path) && SameOutside(f, g, path)
    requires forall i :: 0 <= i < |chain| ==> chain[i] !in all
    ensures IsChain(g, total, chain + path[1..])
  {
    var n, longer := |chain|, chain + path[1..];
    assert path[1..] == all[..k];
    LongerDistinct(chain, all, k);
    hide FreeFrom, NoRepeats;
    forall i | n <= i < |longer|
      ensures 2 <= longer[i] < total
    {
      assert longer[i] == all[i - n] && all[i - n] in all;
    }
    LongerLinked(f, g, chain, path);
  }

  lemma LongerDistinct(chain: seq<nat>, all: seq<nat>, k: nat)
    requires NoRepeats(chain) && NoRepeats(all) && k <= |all|
    requires forall i :: 0 <= i < |chain| ==> chain[i] !in all
    ensures NoRepeats(chain + all[..k])
  {
  }

  lemma LongerLinked(f: Fat, g: Fat, chain: seq<nat>, path: seq<nat>)
    requires NoRepeats(chain) && Linked(f, chain) && Linked(g, path) && SameOutside(f, g, path)
    requires path[0] == chain[|chain| - 1] && forall i :: 0 <= i < |chain| - 1 ==> chain[i] !in path
    ensures Linked(g, chain + path[1..])
  {
    var n, longer := |chain|, chain + path[1..];
    assert forall i :: n - 1 <= i < |longer| ==> longer[i] == path[i - n + 1];
    forall i | 0 <= i < |longer| - 1
      ensures g[longer[i]] == longer[i + 1]
    {
      if i < n - 1 {
        assert longer[i] == chain[i] && longer[i + 1] == chain[i + 1];
        assert f[chain[i]] == chain[i + 1];
      } else {
        assert g[path[i - n + 1]] == path[i - n + 2];
      }
    }
  }

  lemma LastLinked(f: Fat, g: Fat, total: nat, chain: seq<nat>, all: seq<nat>, k: nat, path: seq<nat>)
    requires IsChain(f, total, chain) && total <= |f| == |g| && all == FreeClusters(f, total) && k <= |all|
    requires path == [chain[|chain| - 1]] + all[..k] && Linked(g, path) && SameOutside(f, g, path)
    ensures forall c :: 2 <= c < total && c !in all[..k] ==> (g[c] == 0 <==> f[c] == 0)
    ensures forall c :: 0 <= c < |f| && c !in chain && f[c] != 0 ==> g[c] == f[c]
  {
    hide FreeFrom;
    var last := chain[|chain| - 1];
    assert path[0] == last;
    if k > 0 {
      assert g[path[0]] == path[1] && path[1] == all[0];
      assert all[0] in all;
    }
    assert g[last] != 0 && f[last] != 0;
    forall c | 0 <= c < |f| && c !in chain && f[c] != 0
      ensures g[c] == f[c]
    {
      assert c !in all;
      assert last in chain;
      assert c !in path;
    }
  }

  lemma GrewFirst(f: Fat, g: Fat, total: nat, b: nat, disk: Disk, entries: map<Name, DirEntry>,
                  chains: map<Name, seq<nat>>, reserved: set<nat>, name: Name, c: nat, chain: seq<nat>)
    requires ChainsOk(f, total, b, entries, chains) && NoLeak(f, total, chains, reserved) && DiskOk(disk, total, b) && name in entries && entries[name].first == 0
    requires total <= |f| == |g| && c != 0 && FreeClusters(f, total) != [] && chain == FreeClusters(f, total)[..1] && chain[0] == c
    requires IsChain(g, total, chain) && SameOutside(f, g, chain)
    ensures ChainsOk(g, total, b, entries[name := entries[name].(first := c)], chains[name := chain])
    ensures View(disk, b, entries[name := entries[name].(first := c)], chains[name := chain]) == View(disk, b, entries, chains)
    ensures |FreeClusters(g, total)| == |FreeClusters(f, total)| - 1
    ensures NoLeak(g, total, chains[name := chain], reserved)
  {
    assert FileOk(f, total, b, entries[name], chains[name]);
    assert chains[name] == [] && [] + chain == chain && entries[name].size == 0;
    var all := FreeClusters(f, total);
    assert all[0] == c && chain == [c];
    assert c in all;
    ReplaceChain(f, g, total, b, entries, chains, name, entries[name].(first := c), chain);
    ViewGrown(disk, b, entries, chains, name, c, chain);
    FreeTaken(f, g, total, all, 1);
    NoLeakKept(f, g, total, chains, reserved, name, chain);
  }

  lemma HasChain(f: Fat, total: nat, b: nat, entries: map<Name, DirEntry>, chains: map<Name, seq<nat>>, name: Name)
    requires ChainsOk(f, total, b, entries, chains) && name in entries
    ensures name in chains && (entries[name].first == 0 <==> chains[name] == []) && entries[name].size <= |chains[name]| * b
  {
    assert FileOk(f, total, b, entries[name], chains[name]);
  }

  /** Linking the first k free clusters somewhere leaves exactly the other free clusters free. */
  lemma FreeTaken(f: Fat, g: Fat, total: nat, all: seq<nat>, k: nat)
    requires total <= |f| == |g| && all == FreeClusters(f, total) && k <= |all|
    requires forall i :: 0 <= i < k ==> all[i] < |g| && g[all[i]] != 0
    requires forall c :: 2 <= c < total && c !in all[..k] ==> (g[c] == 0 <==> f[c] == 0)
    ensures |FreeClusters(g, total)| == |all| - k
  {
    var rest := FreeClusters(g, total);
    forall c
      ensures c in rest <==> c in all[k..]
    {
      if c in all[k..] {
        assert c in all;
        var j :| k <= j < |all| && all[j] == c;
        assert c !in all[..k];
      }
      if c in rest {
        assert c !in all[..k];
        assert c in all;
      }
    }
    SameLength(rest, all[k..]);
  }

  lemma {:induction false} SameLength(s: seq<nat>, t: seq<nat>)
    requires NoRepeats(s) && NoRepeats(t) && forall c :: c in s <==> c in t
    ensures |s| == |t|
  {
    assert t != [] ==> t[0] in t;
    if s != [] {
      assert s[0] in s;
      var j :| 0 <= j < |t| && t[j] == s[0];
      var t' := t[..j] + t[j + 1..];
      forall c
        ensures c in s[1..] <==> c in t'
      {
        if c in s[1..] {
          assert c in t;
          var i :| 0 <= i < |t| && t[i] == c;
          assert c == t'[if i < j then i else i - 1];
        }
        if c in t' {
          assert c in t && c != t[j];
          assert c in s;
        }
      }
      SameLength(s[1..], t');
    }
  }

  // ----- cutting a chain

  /** The first k clusters of a chain, once the last of them ends it, are a chain; the rest, on its own, is one too. */
  lemma CutChain(f: Fat, g: Fat, total: nat, chain: seq<nat>, k: nat)
    requires IsChain(f, total, chain) && 0 < k < |chain| && |f| == |g| && total <= FAT32_EOC_MIN
    requires g[chain[k - 1]] == END_OF_CLUSTER_CHAIN
    requires forall c :: 0 <= c < |f| && c !in chain[k..] && c != chain[k - 1] ==> g[c] == f[c]
    ensures IsChain(g, total, chain[..k])
  {
    var cut := chain[..k];
    forall i | 0 <= i < k - 1
      ensures g[cut[i]] == cut[i + 1]
    {
      assert chain[i] !in chain[k..] && chain[i] != chain[k - 1];
      assert f[chain[i]] == chain[i + 1];
    }
  }

  lemma RestOfChain(f: Fat, total: nat, chain: seq<nat>, k: nat)
    requires IsChain(f, total, chain) && k < |chain|
    ensures IsChain(f, total, chain[k..])
  {
    var rest := chain[k..];
    forall i | 0 <= i < |rest| - 1
      ensures f[rest[i]] == rest[i + 1]
    {
      assert f[chain[k + i]] == chain[k + i + 1];
    }
  }

  /** Only the chain changed: its clusters from the k-th on are free, and the one before them ends it. */
  ghost predicate CutAt(f: Fat, g: Fat, chain: seq<nat>, k: nat)
  {
    && |f| == |g| && k < |chain| && (forall i :: 0 <= i < |chain| ==> chain[i] < |g|)
    && (forall i :: k <= i < |chain| ==> g[chain[i]] == 0)
    && (k > 0 ==> g[chain[k - 1]] == END_OF_CLUSTER_CHAIN)
    && (forall c :: 0 <= c < |f| && c !in chain[k..] && (k > 0 ==> c != chain[k - 1]) ==> g[c] == f[c])
  }

  /** After the chain of a file is cut to its first k clusters and the others are freed, the volume is consistent for
      any size the kept clusters can hold. */
  lemma Cut(f: Fat, g: Fat, total: nat, b: nat, entries: map<Name, DirEntry>, chains: map<Name, seq<nat>>,
            reserved: set<nat>,
            name: Name, k: nat, newSize: nat)
    requires ChainsOk(f, total, b, entries, chains) && NoLeak(f, total, chains, reserved) && name in entries
    requires k < |chains[name]| && total <= |f| && total <= FAT32_EOC_MIN && newSize <= k * b && newSize < U32
    requires CutAt(f, g, chains[name], k)
    ensures var entry := DirEntry(if k == 0 then 0 else entries[name].first, newSize);
            ChainsOk(g, total, b, entries[name := entry], chains[name := chains[name][..k]])
    ensures NoLeak(g, total, chains[name := chains[name][..k]], reserved)
  {
    hide NoLeak;
    var chain, cut := chains[name], chains[name][..k];
    assert FileOk(f, total, b, entries[name], chain);
    hide ChainsOk;
    if k > 0 {
      CutChain(f, g, total, chain, k);
    }
    CutOutside(f, g, total, chain, k);
    ReplaceChain(f, g, total, b, entries, chains, name, DirEntry(if k == 0 then 0 else entries[name].first, newSize), cut);
    NoLeakKept(f, g, total, chains, reserved, name, cut);
  }

  lemma CutOutside(f: Fat, g: Fat, total: nat, chain: seq<nat>, k: nat)
    requires IsChain(f, total, chain) && k < |chain| && |f| == |g|
    requires forall i :: k <= i < |chain| ==> g[chain[i]] == 0
    requires forall c :: 0 <= c < |f| && c !in chain[k..] && (k > 0 ==> c != chain[k - 1]) ==> g[c] == f[c]
    ensures forall c :: 0 <= c < |f| && c !in chain ==> g[c] == f[c]
    ensures forall c :: 0 <= c < |f| && g[c] != 0 && c !in chain[..k] ==> f[c] != 0 && c !in chain
  {
    forall c | 0 <= c < |f| && c !in chain
      ensures g[c] == f[c]
    {
      assert k > 0 ==> chain[k - 1] in chain;
      assert c !in chain[k..];
    }
    assert forall c :: c in chain && c !in chain[..k] ==> c in chain[k..];
  }

  lemma MulNext(q: nat, b: nat)
    ensures (q + 1) * b == q * b + b
  {
  }

  lemma CeilDivMonotone(x: nat, y: nat, b: nat)
    requires x <= y && b > 0
    ensures CeilDiv(x, b) <= CeilDiv(y, b)
  {
    hide CeilDiv;
    CeilDivBounds(x, b);
    CeilDivBounds(y, b);
    var p, q := CeilDiv(x, b), CeilDiv(y, b);
    MulNext(q, b);
    if p > q {
      MulLess(q + 1, p, b);
    }
  }

  /** Exactly the clusters cut off become free. */
  lemma CutFrees(f: Fat, g: Fat, total: nat, chain: seq<nat>, k: nat)
    requires IsChain(f, total, chain) && total <= |f| && CutAt(f, g, chain, k)
    ensures |FreeClusters(g, total)| == |FreeClusters(f, total)| + |chain| - k
  {
    hide FreeFrom, Linked;
    var all, rest := FreeClusters(f, total), FreeClusters(g, total);
    FreeExactly(f, total);
    FreeExactly(g, total);
    ChainNotFree(f, total, chain, all);
    var cut := chain[k..];
    assert forall c :: c in cut ==> c !in all;
    forall c
      ensures c in rest <==> c in all + cut
    {
      CutFreesAt(f, g, total, chain, k, c);
    }
    SameLength(rest, all + cut);
  }

  lemma FreeExactly(f: Fat, total: nat)
    requires total <= |f|
    ensures NoRepeats(FreeClusters(f, total)) && forall c :: c in FreeClusters(f, total) <==> 2 <= c < total && f[c] == 0
  {
  }

  lemma CutFreesAt(f: Fat, g: Fat, total: nat, chain: seq<nat>, k: nat, c: nat)
    requires IsChain(f, total, chain) && total <= |f| && CutAt(f, g, chain, k)
    ensures 2 <= c < total && g[c] == 0 <==> (2 <= c < total && f[c] == 0) || c in chain[k..]
  {
    if k > 0 && c == chain[k - 1] {
      assert f[chain[k - 1]] == chain[k];
      assert c !in chain[k..];
    }
  }

  /** The number of clusters a file has after its size was set: as many as the new size needs when it needs fewer, otherwise
      those it had and those added. */
  function ClustersAfter(entry: DirEntry, had: nat, newSize: nat, b: nat): nat
    requires b > 0
  {
    if CeilDiv(newSize, b) < CeilDiv(entry.size, b) then CeilDiv(newSize, b) else had + ClustersNeeded(entry, newSize, b)
  }
}
