/** Files on the volume as byte sequences: what a cluster chain and the clusters on disk amount to. */
module FatContents {
  import opened Common
  import opened FatChains
  import opened FileCaches

  type Bytes = seq<nat>
  type Disk = map<nat, Bytes>

  datatype DirEntry = DirEntry(first: nat, size: nat)

  // ----- cluster arithmetic

  function CeilDiv(x: nat, b: nat): nat
    requires b > 0
  {
    (x + b - 1) / b
  }

  lemma CeilDivBounds(x: nat, b: nat)
    requires b > 0
    ensures x <= CeilDiv(x, b) * b
    ensures CeilDiv(x, b) * b < x + b
  {
    var q := (x + b - 1) / b;
    assert x + b - 1 == b * q + (x + b - 1) % b;
  }

  lemma CeilDivLeast(x: nat, b: nat, n: nat)
    requires b > 0 && x <= n * b
    ensures CeilDiv(x, b) <= n
  {
    CeilDivBounds(x, b);
    var c := CeilDiv(x, b);
    assert (n + 1) * b == n * b + b;
    if c > n {
      MulLess(n + 1, c, b);
    }
  }

  lemma MulLess(x: nat, y: nat, b: nat)
    requires x <= y
    ensures x * b <= y * b
  {
  }

  // ----- the bytes of a chain

  ghost predicate OnDisk(disk: Disk, b: nat, chain: seq<nat>)
  {
    forall i :: 0 <= i < |chain| ==> chain[i] in disk && |disk[chain[i]]| == b
  }

  ghost function ChainBytes(disk: Disk, b: nat, chain: seq<nat>): (r: Bytes)
    requires OnDisk(disk, b, chain)
    ensures |r| == |chain| * b
  {
    if chain == [] then [] else disk[chain[0]] + ChainBytes(disk, b, chain[1..])
  }

  lemma {:induction false} ChainBytesAppend(disk: Disk, b: nat, c: seq<nat>, d: seq<nat>)
    requires OnDisk(disk, b, c) && OnDisk(disk, b, d)
    ensures OnDisk(disk, b, c + d)
    ensures ChainBytes(disk, b, c + d) == ChainBytes(disk, b, c) + ChainBytes(disk, b, d)
  {
    assert OnDisk(disk, b, c + d);
    if c == [] {
      assert c + d == d;
    } else {
      assert (c + d)[1..] == c[1..] + d;
      ChainBytesAppend(disk, b, c[1..], d);
    }
  }

  lemma {:induction false} ChainBytesFrame(disk: Disk, disk': Disk, b: nat, chain: seq<nat>)
    requires OnDisk(disk, b, chain)
    requires forall i :: 0 <= i < |chain| ==> chain[i] in disk' && disk'[chain[i]] == disk[chain[i]]
    ensures OnDisk(disk', b, chain) && ChainBytes(disk', b, chain) == ChainBytes(disk, b, chain)
  {
    if chain != [] {
      ChainBytesFrame(disk, disk', b, chain[1..]);
    }
  }

  /** A file's contents: the first `size` bytes along its chain. */
  ghost function Content(disk: Disk, b: nat, chain: seq<nat>, size: nat): (r: Bytes)
    requires OnDisk(disk, b, chain) && size <= |chain| * b
    ensures |r| == size
  {
    ChainBytes(disk, b, chain)[..size]
  }

  /** Spare clusters at the end do not show. */
  lemma ContentGrown(disk: Disk, b: nat, chain: seq<nat>, extra: seq<nat>, size: nat)
    requires OnDisk(disk, b, chain) && OnDisk(disk, b, chain + extra) && size <= |chain| * b
    ensures size <= |chain + extra| * b && Content(disk, b, chain + extra, size) == Content(disk, b, chain, size)
  {
    assert OnDisk(disk, b, extra) by {
      forall i | 0 <= i < |extra|
        ensures extra[i] in disk && |disk[extra[i]]| == b
      {
        assert (chain + extra)[|chain| + i] == extra[i];
      }
    }
    ChainBytesAppend(disk, b, chain, extra);
    MulLess(|chain|, |chain + extra|, b);
  }

  /** Writing the cluster at position q: the bytes before it, the new cluster, then the rest. */
  lemma ContentWritten(disk: Disk, b: nat, chain: seq<nat>, q: nat, cluster: Bytes)
    requires OnDisk(disk, b, chain) && NoRepeats(chain) && q < |chain| && |cluster| == b
    ensures var disk' := disk[chain[q] := cluster];
            && OnDisk(disk', b, chain) && OnDisk(disk, b, chain[..q])
            && |chain| * b >= q * b + b
            && ChainBytes(disk', b, chain)[..q * b] == ChainBytes(disk, b, chain[..q])
            && ChainBytes(disk', b, chain)[q * b..q * b + b] == cluster
  {
    var disk' := disk[chain[q] := cluster];
    var l, m, r := chain[..q], [chain[q]], chain[q + 1..];
    assert chain == l + (m + r);
    assert OnDisk(disk', b, chain) && OnDisk(disk', b, m) && OnDisk(disk', b, r) && OnDisk(disk', b, l);
    ChainBytesFrame(disk, disk', b, l);
    ChainBytesAppend(disk', b, m, r);
    ChainBytesAppend(disk', b, l, m + r);
    assert ChainBytes(disk', b, m) == cluster + ChainBytes(disk', b, []);
    MulLess(q + 1, |chain|, b);
    assert (q + 1) * b == q * b + b;
  }

  /** Bytes up to position q of a chain are the bytes of its first q clusters. */
  lemma PrefixBytes(disk: Disk, b: nat, chain: seq<nat>, q: nat)
    requires OnDisk(disk, b, chain) && q <= |chain|
    ensures OnDisk(disk, b, chain[..q]) && q * b <= |chain| * b
    ensures ChainBytes(disk, b, chain)[..q * b] == ChainBytes(disk, b, chain[..q])
  {
    assert chain == chain[..q] + chain[q..];
    assert OnDisk(disk, b, chain[..q]) && OnDisk(disk, b, chain[q..]);
    ChainBytesAppend(disk, b, chain[..q], chain[q..]);
    MulLess(q, |chain|, b);
  }

  // ----- all files of a volume

  /** Every file's chain is acyclic, terminated and long enough; chains of different files share no cluster. */
  ghost predicate ChainsOk(fat: Fat, total: nat, b: nat, entries: map<Name, DirEntry>, chains: map<Name, seq<nat>>)
  {
    && chains.Keys == entries.Keys
    && (forall n :: n in entries ==> FileOk(fat, total, b, entries[n], chains[n]))
    && (forall m, n :: m in chains && n in chains && m != n ==> Apart(chains[m], chains[n]))
  }

  ghost predicate Apart(c: seq<nat>, d: seq<nat>)
  {
    forall i :: 0 <= i < |c| ==> c[i] !in d
  }

  ghost predicate FileOk(fat: Fat, total: nat, b: nat, entry: DirEntry, chain: seq<nat>)
  {
    && (entry.first == 0 <==> chain == [])
    && (chain != [] ==> IsChain(fat, total, chain) && chain[0] == entry.first)
    && entry.size <= |chain| * b && entry.size < U32
  }

  ghost predicate DiskOk(disk: Disk, total: nat, b: nat)
  {
    forall c :: 2 <= c < total ==> c in disk && |disk[c]| == b
  }

  /** What a reader of the volume should see: the contents of every file. */
  ghost function View(disk: Disk, b: nat, entries: map<Name, DirEntry>, chains: map<Name, seq<nat>>): map<Name, Bytes>
  {
    map n | n in entries && n in chains && OnDisk(disk, b, chains[n]) && entries[n].size <= |chains[n]| * b
      :: Content(disk, b, chains[n], entries[n].size)
  }

  lemma ViewKeys(fat: Fat, total: nat, disk: Disk, b: nat, entries: map<Name, DirEntry>, chains: map<Name, seq<nat>>)
    requires ChainsOk(fat, total, b, entries, chains) && DiskOk(disk, total, b)
    ensures View(disk, b, entries, chains).Keys == entries.Keys
  {
    forall n | n in entries
      ensures OnDisk(disk, b, chains[n])
    {
      FileOnDisk(disk, fat, total, b, entries[n], chains[n]);
    }
  }

  /** Giving a file more clusters, or its first one, changes no contents. */
  lemma ViewGrown(disk: Disk, b: nat, entries: map<Name, DirEntry>, chains: map<Name, seq<nat>>, name: Name,
                  first: nat, extra: seq<nat>)
    requires name in entries && name in chains && OnDisk(disk, b, chains[name] + extra) && entries[name].size <= |chains[name]| * b
    requires OnDisk(disk, b, chains[name])
    ensures View(disk, b, entries[name := entries[name].(first := first)], chains[name := chains[name] + extra]) == View(disk, b, entries, chains)
  {
    ContentGrown(disk, b, chains[name], extra, entries[name].size);
  }

  lemma FileOnDisk(disk: Disk, fat: Fat, total: nat, b: nat, entry: DirEntry, chain: seq<nat>)
    requires DiskOk(disk, total, b) && FileOk(fat, total, b, entry, chain)
    ensures OnDisk(disk, b, chain)
  {
  }

  /** Rewriting the chain of one file keeps the volume, as long as only its own and free clusters were touched. */
  lemma ReplaceChain(f: Fat, g: Fat, total: nat, b: nat, entries: map<Name, DirEntry>, chains: map<Name, seq<nat>>,
                     name: Name, entry: DirEntry, chain: seq<nat>)
    requires ChainsOk(f, total, b, entries, chains) && name in entries && |f| == |g|
    requires FileOk(g, total, b, entry, chain)
    requires forall c :: 0 <= c < |f| && c !in chains[name] && f[c] != 0 ==> g[c] == f[c]
    requires forall i :: 0 <= i < |chain| ==> chain[i] in chains[name] || (chain[i] < |f| && f[chain[i]] == 0)
    ensures ChainsOk(g, total, b, entries[name := entry], chains[name := chain])
  {
    hide FileOk, Apart;
    forall n | n in entries && n != name
      ensures FileOk(g, total, b, entries[n], chains[n]) && Apart(chains[n], chain) && Apart(chain, chains[n])
    {
      OtherChainKept(f, g, total, b, entries, chains, name, n);
      ApartFrom(f, chains[name], chains[n], chain);
    }
  }

  lemma ApartFrom(f: Fat, own: seq<nat>, other: seq<nat>, chain: seq<nat>)
    requires forall i :: 0 <= i < |other| ==> other[i] < |f| && f[other[i]] != 0 && other[i] !in own
    requires forall i :: 0 <= i < |chain| ==> chain[i] in own || (chain[i] < |f| && f[chain[i]] == 0)
    ensures Apart(other, chain) && Apart(chain, other)
  {
  }

  lemma OtherChainKept(f: Fat, g: Fat, total: nat, b: nat, entries: map<Name, DirEntry>, chains: map<Name, seq<nat>>,
                       name: Name, n: Name)
    requires ChainsOk(f, total, b, entries, chains) && name in entries && n in entries && n != name && |f| == |g|
    requires forall c :: 0 <= c < |f| && c !in chains[name] && f[c] != 0 ==> g[c] == f[c]
    ensures FileOk(g, total, b, entries[n], chains[n])
    ensures forall i :: 0 <= i < |chains[n]| ==> chains[n][i] < |f| && f[chains[n][i]] != 0 && chains[n][i] !in chains[name]
  {
    var chain := chains[n];
    assert FileOk(f, total, b, entries[n], chain) && Apart(chain, chains[name]);
    forall i | 0 <= i < |chain|
      ensures chain[i] < |f| && f[chain[i]] != 0 && chain[i] !in chains[name]
    {
      if i < |chain| - 1 {
        assert f[chain[i]] == chain[i + 1];
      }
    }
  }

  // ----- writing one cluster

  /** A zeroed cluster with the first n bytes of data laid in at offset r. */
  function Staged(b: nat, r: nat, data: Bytes, n: nat): (cluster: Bytes)
    requires r + n <= b && n <= |data|
    ensures |cluster| == b
    ensures cluster[r..r + n] == data[..n]
    ensures forall i :: 0 <= i < b && !(r <= i < r + n) ==> cluster[i] == 0
  {
    seq(r, _ => 0) + data[..n] + seq(b - r - n, _ => 0)
  }

  /** Writing a cluster of one file's chain changes that file's view only. */
  lemma ViewClusterWritten(fat: Fat, total: nat, disk: Disk, b: nat, entries: map<Name, DirEntry>,
                           chains: map<Name, seq<nat>>, name: Name, q: nat, cluster: Bytes)
    requires ChainsOk(fat, total, b, entries, chains) && DiskOk(disk, total, b) && name in entries
    requires q < |chains[name]| && |cluster| == b
    ensures DiskOk(disk[chains[name][q] := cluster], total, b)
    ensures var v, v' := View(disk, b, entries, chains), View(disk[chains[name][q] := cluster], b, entries, chains);
            v'.Keys == v.Keys && forall n :: n in v && n != name ==> v'[n] == v[n]
  {
    var c := chains[name][q];
    var disk' := disk[c := cluster];
    assert FileOk(fat, total, b, entries[name], chains[name]);
    ViewKeys(fat, total, disk, b, entries, chains);
    ViewKeys(fat, total, disk', b, entries, chains);
    forall n | n in entries && n != name
      ensures View(disk', b, entries, chains)[n] == View(disk, b, entries, chains)[n]
    {
      assert Apart(chains[name], chains[n]);
      assert c !in chains[n];
      FileOnDisk(disk, fat, total, b, entries[n], chains[n]);
      ChainBytesFrame(disk, disk', b, chains[n]);
    }
  }

  lemma RestKept(disk: Disk, b: nat, chain: seq<nat>, q: nat, cluster: Bytes)
    requires OnDisk(disk, b, chain) && NoRepeats(chain) && q < |chain| && |cluster| == b
    requires OnDisk(disk[chain[q] := cluster], b, chain) && q * b + b <= |chain| * b
    ensures ChainBytes(disk[chain[q] := cluster], b, chain)[q * b + b..] == ChainBytes(disk, b, chain)[q * b + b..]
  {
    var disk' := disk[chain[q] := cluster];
    var l, r := chain[..q + 1], chain[q + 1..];
    assert chain == l + r;
    assert OnDisk(disk', b, l) && OnDisk(disk', b, r) && OnDisk(disk, b, l) && OnDisk(disk, b, r);
    ChainBytesFrame(disk, disk', b, r);
    ChainBytesAppend(disk', b, l, r);
    ChainBytesAppend(disk, b, l, r);
    assert |l| * b == q * b + b;
  }

  /** Byte i of the contents after one cluster was rewritten and the size changed. */
  lemma ContentAfterWrite(disk: Disk, b: nat, chain: seq<nat>, size: nat, size': nat, q: nat, cluster: Bytes, i: nat)
    requires b > 0 && OnDisk(disk, b, chain) && NoRepeats(chain) && q < |chain| && |cluster| == b
    requires size <= |chain| * b && i < size' <= |chain| * b
    ensures OnDisk(disk[chain[q] := cluster], b, chain)
    ensures q * b <= i < q * b + b ==> Content(disk[chain[q] := cluster], b, chain, size')[i] == cluster[i - q * b]
    ensures !(q * b <= i < q * b + b) && i < size ==> Content(disk[chain[q] := cluster], b, chain, size')[i] == Content(disk, b, chain, size)[i]
  {
    hide OnDisk, NoRepeats;
    ContentWritten(disk, b, chain, q, cluster);
    PrefixBytes(disk, b, chain, q);
    RestKept(disk, b, chain, q, cluster);
    var bytes, after := ChainBytes(disk, b, chain), ChainBytes(disk[chain[q] := cluster], b, chain);
    if q * b <= i < q * b + b {
      assert after[i] == after[q * b..q * b + b][i - q * b];
    } else if i < q * b {
      assert after[i] == after[..q * b][i] && bytes[i] == bytes[..q * b][i];
    } else {
      assert after[i] == after[q * b + b..][i - q * b - b] && bytes[i] == bytes[q * b + b..][i - q * b - b];
    }
  }

  lemma DivSplit(x: nat, b: nat)
    requires b > 0
    ensures x == (x / b) * b + x % b && x % b < b
  {
  }

  /** A cut chain still holds the bytes it kept. */
  lemma ContentCut(disk: Disk, b: nat, chain: seq<nat>, k: nat, size: nat)
    requires OnDisk(disk, b, chain) && k <= |chain| && size <= k * b
    ensures OnDisk(disk, b, chain[..k]) && size <= |chain| * b
    ensures Content(disk, b, chain[..k], size) == Content(disk, b, chain, size)
  {
    PrefixBytes(disk, b, chain, k);
  }

  /** Whatever cluster is in use belongs to a file or was reserved before. */
  ghost predicate NoLeak(fat: Fat, total: nat, chains: map<Name, seq<nat>>, reserved: set<nat>)
  {
    total <= |fat| && forall c :: 2 <= c < total && fat[c] != 0 && c !in reserved ==> Owned(chains, c)
  }

  ghost predicate Owned(chains: map<Name, seq<nat>>, c: nat)
  {
    exists n :: n in chains && c in chains[n]
  }

  lemma NoLeakKept(f: Fat, g: Fat, total: nat, chains: map<Name, seq<nat>>, reserved: set<nat>, name: Name,
                   chain: seq<nat>)
    requires NoLeak(f, total, chains, reserved) && name in chains && |f| == |g|
    requires forall c :: 2 <= c < total && g[c] != 0 && c !in chain ==> f[c] != 0 && c !in chains[name]
    ensures NoLeak(g, total, chains[name := chain], reserved)
  {
    var chains' := chains[name := chain];
    forall c | 2 <= c < total && g[c] != 0 && c !in reserved
      ensures Owned(chains', c)
    {
      if c in chain {
        assert c in chains'[name];
      } else {
        var n :| n in chains && c in chains[n];
        assert c in chains'[n];
      }
    }
  }
}
