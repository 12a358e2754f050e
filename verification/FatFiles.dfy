/** Reading and writing files, as kernel/fs/fat/file.cpp serves them from the FAT, the block device and the file cache.
    The block device is a map from data clusters to their bytes; its failures are inputs of the operations. */
module FatFiles {
  import opened Common
  import opened FatChains
  import opened FileCaches
  import opened FatContents
  import opened FatGrowth

  datatype Error = Ok | NoMemory | InvalidArg | InvalidFd | DeviceWrite | DeviceRead

  /** One open file: the offset lives in the record, not in the handle. */
  datatype Record = Record(name: Name, offset: nat)

  /** Whatever is cached for an existing file is that file's contents. */
  ghost predicate CacheAgrees(caches: map<nat, FileCache>, view: map<Name, Bytes>)
  {
    forall id :: id in caches && caches[id].path in view ==> caches[id].buffer == view[caches[id].path]
  }

  class Volume {
    const bytesPerCluster: nat
    const total: nat
    const fat: array<nat>
    const cache: FileCacheTable
    var disk: Disk
    var entries: map<Name, DirEntry>
    var records: map<nat, Record>
    ghost const reserved: set<nat>
    ghost var chains: map<Name, seq<nat>>

    ghost predicate Consistent()
      reads this, fat
    {
      && bytesPerCluster > 0 && total <= fat.Length && total <= FAT32_EOC_MIN
      && ChainsOk(fat[..], total, bytesPerCluster, entries, chains)
      && DiskOk(disk, total, bytesPerCluster)
      && NoLeak(fat[..], total, chains, reserved)
      && (forall h :: h in records ==> h != 0 && records[h].name in entries)
    }

    ghost function Files(): map<Name, Bytes>
      reads this
    {
      View(disk, bytesPerCluster, entries, chains)
    }

    ghost predicate Valid()
      reads this, fat, cache
    {
      Consistent() && cache.Valid() && CacheAgrees(cache.caches, Files())
    }

    /** A mounted volume with an empty cache and no open file. */
    constructor (fatTable: array<nat>, totalClusters: nat, clusterBytes: nat, device: Disk, root: map<Name, DirEntry>,
                 ghost fileChains: map<Name, seq<nat>>, ghost others: set<nat>)
      requires clusterBytes > 0 && totalClusters <= fatTable.Length && totalClusters <= FAT32_EOC_MIN
      requires ChainsOk(fatTable[..], totalClusters, clusterBytes, root, fileChains) && DiskOk(device, totalClusters, clusterBytes)
      requires NoLeak(fatTable[..], totalClusters, fileChains, others)
      ensures Valid() && fat == fatTable && total == totalClusters && bytesPerCluster == clusterBytes
      ensures disk == device && entries == root && chains == fileChains && reserved == others && records == map[] && fresh(cache)
    {
      bytesPerCluster, total, fat := clusterBytes, totalClusters, fatTable;
      cache := new FileCacheTable();
      disk, entries, records, chains, reserved := device, root, map[], fileChains, others;
    }

    // ----- growing a file

    /** Allocates the first cluster of a file that has none. */
    method EnsureFirstCluster(name: Name) returns (ok: bool)
      requires Consistent() && name in entries
      modifies this`entries, this`chains, fat
      ensures Consistent() && Files() == old(Files())
      ensures ok <==> old(entries)[name].first != 0 || FreeClusters(old(fat[..]), total) != []
      ensures entries.Keys == old(entries).Keys && name in chains && entries[name].size == old(entries)[name].size
      ensures ok ==> entries[name].first != 0
      ensures |FreeClusters(fat[..], total)| == |FreeClusters(old(fat[..]), total)| - (if ok && old(entries)[name].first == 0 then 1 else 0)
      ensures name in old(chains) && chains == old(chains)[name := chains[name]]
      ensures |chains[name]| == |old(chains)[name]| + (if ok && old(entries)[name].first == 0 then 1 else 0)
    {
      hide ChainsOk, DiskOk, FreeFrom, NoLeak, View;
      HasChain(fat[..], total, bytesPerCluster, entries, chains, name);
      assert chains[name := chains[name]] == chains;
      ok := true;
      if entries[name].first == 0 {
        ghost var f := fat[..];
        var c, chain := AllocateClusterChain(fat, total, 1);
        if c == 0 {
          return false;
        }
        GrewFirst(f, fat[..], total, bytesPerCluster, disk, entries, chains, reserved, name, c, chain);
        entries := entries[name := entries[name].(first := c)];
        chains := chains[name := chain];
      }
    }

    /** Follows the chain to its last cluster. */
    method LastCluster(name: Name) returns (last: nat)
      requires Consistent() && name in entries && entries[name].first != 0
      ensures name in chains && chains[name] != [] && last == chains[name][|chains[name]| - 1]
    {
      ghost var chain := chains[name];
      assert FileOk(fat[..], total, bytesPerCluster, entries[name], chain);
      hide ChainsOk, DiskOk, NoLeak;
      last := entries[name].first;
      ghost var i := 0;
      while NextCluster(fat[..], last) != END_OF_CLUSTER_CHAIN
        invariant 0 <= i < |chain| && last == chain[i] && last < fat.Length
        invariant i < |chain| - 1 ==> NextCluster(fat[..], last) == chain[i + 1] != END_OF_CLUSTER_CHAIN
        decreases |chain| - i
      {
        assert i < |chain| - 1 && fat[chain[i]] == chain[i + 1];
        last := NextCluster(fat[..], last);
        i := i + 1;
      }
    }

    method LinkFree(last: nat, toAdd: nat) returns (ghost path: seq<nat>)
      requires total <= fat.Length && last < fat.Length && fat[last] != 0
      requires 0 < toAdd <= |FreeClusters(fat[..], total)|
      modifies fat
      ensures NewPath(old(fat[..]), fat[..], total, last, toAdd, path)
    {
      hide FreeFrom, FreeClusters, Linked, NoRepeats, SameOutside;
      FreeNotZero(fat[..], total, toAdd - 1);
      var r;
      r, path := ExtendClusterChain(fat, total, last, toAdd);
      if r == 0 {
        assert false; // the free count was checked
      }
    }

    /** Appends clusters to a file's chain. With enough free clusters the extension cannot fail. */
    method AddClusters(name: Name, toAdd: nat)
      requires Consistent() && name in entries && entries[name].first != 0
      requires 0 < toAdd <= |FreeClusters(fat[..], total)|
      modifies this`chains, fat
      ensures Consistent() && Files() == old(Files())
      ensures name in chains && name in old(chains) && |chains[name]| == |old(chains)[name]| + toAdd && chains == old(chains)[name := chains[name]]
      ensures |FreeClusters(fat[..], total)| == |FreeClusters(old(fat[..]), total)| - toAdd
    {
      hide ChainsOk, DiskOk, FreeClusters, NewPath, View, NoLeak;
      var last := LastCluster(name);
      ghost var f := fat[..];
      LastNotFree(f, total, bytesPerCluster, entries, chains, name);
      ghost var path := LinkFree(last, toAdd);
      ghost var longer := GrewMore(f, fat[..], total, bytesPerCluster, disk, entries, chains, reserved, name, toAdd, path);
      chains := chains[name := longer];
    }

    /** Makes room for newSize bytes. It fails exactly when too few clusters are free, possibly after giving an empty
        file its first cluster; contents never change. The need is computed from the file size, so an empty file ends
        up with a spare cluster. */
    method GrowFileIfNeeded(name: Name, newSize: nat) returns (ok: bool)
      requires Consistent() && name in entries
      modifies this`entries, this`chains, fat
      ensures Consistent() && Files() == old(Files())
      ensures entries.Keys == old(entries).Keys && name in chains && entries[name].size == old(entries)[name].size
      ensures ok ==> newSize <= |chains[name]| * bytesPerCluster && chains[name] != []
      ensures ok && old(entries)[name].size == 0 ==> CeilDiv(newSize, bytesPerCluster) < |chains[name]|
      ensures ok <==> |FreeClusters(old(fat[..]), total)| >= ClustersNeeded(old(entries)[name], newSize, bytesPerCluster)
      ensures Exchanged(old(fat[..]), fat[..], total, old(chains), chains, name)
      ensures ok ==> |chains[name]| == |old(chains)[name]| + ClustersNeeded(old(entries)[name], newSize, bytesPerCluster)
    {
      hide ChainsOk, DiskOk, FreeClusters, NoLeak, View, CeilDiv;
      ghost var b := bytesPerCluster;
      ok := EnsureFirstCluster(name);
      if !ok {
        return;
      }
      LongEnough(fat[..], total, b, entries, chains, name);
      CeilDivBounds(newSize, b);
      var current, needed := CeilDiv(entries[name].size, bytesPerCluster), CeilDiv(newSize, bytesPerCluster);
      EmptyNeedsNone(b);
      if needed <= current {
        MulLess(needed, |chains[name]|, b);
        return;
      }
      var toAdd := needed - current;
      var free := CountFreeClusters(fat, total);
      if free < toAdd {
        return false;
      }
      AddClusters(name, toAdd);
      MulLess(needed, |chains[name]|, b);
    }

    // ----- writing

    /** Follows the chain q links from the first cluster, stopping at its end. */
    method ClusterAt(name: Name, q: nat) returns (c: nat)
      requires Consistent() && name in entries && entries[name].first != 0
      ensures name in chains && c == if q < |chains[name]| then chains[name][q] else END_OF_CLUSTER_CHAIN
    {
      hide ChainsOk, DiskOk, NoLeak;
      ghost var chain := AChain(fat[..], total, bytesPerCluster, entries, chains, name);
      c := entries[name].first;
      var i := 0;
      while i < q && c != END_OF_CLUSTER_CHAIN
        invariant 0 <= i <= q && i <= |chain|
        invariant c == if i < |chain| then chain[i] else END_OF_CLUSTER_CHAIN
      {
        assert i < |chain| - 1 ==> fat[chain[i]] == chain[i + 1];
        c := NextCluster(fat[..], c);
        i := i + 1;
      }
    }

    method Locate(offset: nat) returns (clusterOffset: nat, offsetInCluster: nat)
      requires bytesPerCluster > 0
      ensures clusterOffset == offset / bytesPerCluster && offsetInCluster == offset % bytesPerCluster < bytesPerCluster
    {
      clusterOffset, offsetInCluster := offset / bytesPerCluster, offset % bytesPerCluster;
    }

    /** Writes at most up to the end of the cluster that holds `offset`. A partial cluster is written only into an
        empty file or at the start of one; whether the buffer and the device come through is up to the caller's world. */
    method WriteFileCluster(name: Name, offset: nat, data: Bytes, count: nat, haveBuffer: bool, device: Device)
      returns (err: Error, writeLen: nat, ghost q: nat)
      requires Valid() && name in entries && entries[name].first != 0 && count <= |data|
      requires device.Failed? ==> |device.left| == bytesPerCluster
      modifies this`disk, cache
      ensures Valid() && q == offset / bytesPerCluster && writeLen == Min(count, bytesPerCluster - offset % bytesPerCluster)
      ensures name in chains && (err.Ok? || err.DeviceWrite? <==>
                                 && q < |chains[name]| && haveBuffer
                                 && (writeLen == bytesPerCluster || entries[name].size == 0 || offset == 0))
      ensures !err.InvalidFd? && !err.DeviceRead? && (err.NoMemory? <==> q < |chains[name]| && !haveBuffer)
      ensures err.Ok? ==> device.Written? && disk == old(disk)[chains[name][q] := Staged(bytesPerCluster, offset % bytesPerCluster, data, writeLen)]
      ensures err.DeviceWrite? ==> device.Failed? && disk == old(disk)[chains[name][q] := device.left]
      ensures err.Ok? || err.DeviceWrite? ==> !Cached(cache.caches, name) && SameButFor(old(Files()), Files(), name)
      ensures !err.Ok? && !err.DeviceWrite? ==> disk == old(disk)
    {
      hide ChainsOk, DiskOk, NoLeak, View, Staged, CachesValid, CacheAgrees, SameButFor;
      var clusterOffset, offsetInCluster := Locate(offset);
      q := clusterOffset;
      writeLen := Min(count, bytesPerCluster - offsetInCluster);
      var target := ClusterAt(name, clusterOffset);
      NotEnd(fat[..], total, bytesPerCluster, entries, chains, name, clusterOffset);
      if target == END_OF_CLUSTER_CHAIN {
        err := InvalidArg;
      } else if !haveBuffer {
        err := NoMemory;
      } else if (offsetInCluster != 0 || writeLen < bytesPerCluster) && entries[name].size != 0 && offset != 0 {
        err := InvalidArg;
      } else {
        var cluster := Staged(bytesPerCluster, offsetInCluster, data, writeLen);
        match device {
          case Written =>
            PutCluster(name, clusterOffset, target, cluster);
            err := Ok;
          case Failed(left) =>
            PutCluster(name, clusterOffset, target, left);
            err := DeviceWrite;
        }
      }
    }

    /** Forgets what is cached for the file, then puts one cluster on the device. */
    method PutCluster(name: Name, ghost q: nat, target: nat, cluster: Bytes)
      requires Valid() && name in entries && name in chains && q < |chains[name]| && target == chains[name][q] && |cluster| == bytesPerCluster
      modifies this`disk, cache
      ensures Valid() && disk == old(disk)[target := cluster]
      ensures !Cached(cache.caches, name) && SameButFor(old(Files()), Files(), name)
    {
      hide ChainsOk, DiskOk, NoLeak, View, CachesValid, CacheAgrees;
      ghost var before := cache.caches;
      var removed := cache.RemoveByPath(name);
      ghost var d := disk;
      disk := disk[target := cluster];
      ViewClusterWritten(fat[..], total, d, bytesPerCluster, entries, chains, name, q, cluster);
      StillAgrees(before, cache.caches, View(d, bytesPerCluster, entries, chains), Files(), name);
    }

    /** Cuts the chain after the last cluster that newSize bytes need and frees exactly the rest, if there is any by the
        size the file has; the caller stores the size. */
    method TruncateFile(name: Name, newSize: nat)
      requires Consistent() && name in entries && newSize <= entries[name].size
      modifies this`entries, this`chains, fat
      ensures name in chains && name in old(chains) && chains == old(chains)[name := chains[name]] && chains[name] <= old(chains)[name]
      ensures name in entries && entries == old(entries)[name := DirEntry(entries[name].first, old(entries)[name].size)]
      ensures newSize <= |chains[name]| * bytesPerCluster
      ensures ChainsOk(fat[..], total, bytesPerCluster, entries[name := DirEntry(entries[name].first, newSize)], chains)
      ensures NoLeak(fat[..], total, chains, reserved)
      ensures var k, chain := CeilDiv(newSize, bytesPerCluster), old(chains)[name];
              if k >= CeilDiv(old(entries)[name].size, bytesPerCluster) then fat[..] == old(fat[..]) && chains == old(chains) && entries == old(entries)
              else
                && k < |chain| && chains[name] == chain[..k] && CutAt(old(fat[..]), fat[..], chain, k)
                && |FreeClusters(fat[..], total)| == |FreeClusters(old(fat[..]), total)| + |chain| - k
    {
      hide ChainsOk, DiskOk, NoLeak, View, CeilDiv, CutAt, FreeClusters;
      ghost var f := fat[..];
      HasChain(f, total, bytesPerCluster, entries, chains, name);
      ghost var chain := chains[name];
      CeilDivBounds(newSize, bytesPerCluster);
      var currentClusters, newClusters := CeilDiv(entries[name].size, bytesPerCluster), CeilDiv(newSize, bytesPerCluster);
      LongEnough(f, total, bytesPerCluster, entries, chains, name);
      SizeBound(f, total, bytesPerCluster, entries, chains, name);
      if newClusters >= currentClusters {
        Resized(f, total, bytesPerCluster, entries, chains, name, newSize);
        assert chains[name := chains[name]] == chains;
        return;
      }
      ghost var all := AChain(f, total, bytesPerCluster, entries, chains, name);
      FreeTail(name, newClusters);
      CutFrees(f, fat[..], total, chain, newClusters);
      if newClusters == 0 {
        entries := entries[name := entries[name].(first := 0)];
      }
      Cut(f, fat[..], total, bytesPerCluster, old(entries), chains, reserved, name, newClusters, newSize);
      assert entries[name := DirEntry(entries[name].first, newSize)] == old(entries)[name := DirEntry(entries[name].first, newSize)];
      chains := chains[name := chain[..newClusters]];
    }

    /** Frees the clusters of a chain from the k-th on and ends the chain before them. */
    method FreeTail(name: Name, k: nat)
      requires Consistent() && name in entries && name in chains && k < |chains[name]|
      modifies fat
      ensures CutAt(old(fat[..]), fat[..], chains[name], k)
    {
      hide ChainsOk, DiskOk, NoLeak, View, IsChain, NoRepeats, Linked;
      ghost var f, chain := fat[..], chains[name];
      HasChain(f, total, bytesPerCluster, entries, chains, name);
      ghost var all := AChain(f, total, bytesPerCluster, entries, chains, name);
      RestOfChain(f, total, chain, k);
      ChainFacts(f, total, chain[k..]);
      if k == 0 {
        FreeClusterChain(fat, entries[name].first, chain[k..]);
      } else {
        var current := ClusterAt(name, k - 1);
        ChainLink(f, total, chain, k);
        var next := NextCluster(fat[..], current);
        FreeClusterChain(fat, next, chain[k..]);
        fat[current] := END_OF_CLUSTER_CHAIN;
      }
    }

    /** Gives the file its new size, which is kept in 32 bits, and frees the clusters a shorter file leaves behind. */
    method SetSize(name: Name, newSize: nat)
      requires Valid() && name in entries && name in chains && newSize <= |chains[name]| * bytesPerCluster && !Cached(cache.caches, name)
      modifies this`entries, this`chains, fat
      ensures Valid() && entries.Keys == old(entries).Keys && SameButFor(old(Files()), Files(), name)
      ensures Files() == View(disk, bytesPerCluster, old(entries)[name := DirEntry(old(entries)[name].first, newSize % U32)], old(chains))
      ensures Exchanged(old(fat[..]), fat[..], total, old(chains), chains, name)
      ensures |chains[name]| == if CeilDiv(newSize, bytesPerCluster) < CeilDiv(old(entries)[name].size, bytesPerCluster) then CeilDiv(newSize, bytesPerCluster) else |old(chains)[name]|
    {
      hide ChainsOk, DiskOk, NoLeak, View, CachesValid, CacheAgrees, SameButFor, CeilDiv, CutAt, FreeClusters;
      ghost var entries0, chains0 := entries, chains;
      if newSize >= entries[name].size {
        CeilDivMonotone(entries[name].size, newSize, bytesPerCluster);
      }
      SizeBound(fat[..], total, bytesPerCluster, entries, chains, name);
      HasChain(fat[..], total, bytesPerCluster, entries, chains, name);
      ChainOnDisk(disk, fat[..], total, bytesPerCluster, entries, chains, name);
      WrapsDown(newSize);
      if newSize != entries[name].size {
        if newSize < entries[name].size {
          TruncateFile(name, newSize);
        } else {
          Resized(fat[..], total, bytesPerCluster, entries, chains, name, newSize % U32);
          assert chains0[name := chains[name]] == chains;
        }
        entries := entries[name := entries[name].(size := newSize % U32)];
        assert entries == entries0[name := DirEntry(entries[name].first, newSize % U32)];
      } else {
        assert chains0[name := chains[name]] == chains;
        assert entries == entries0[name := DirEntry(entries[name].first, newSize % U32)];
      }
      ViewResized(fat[..], total, disk, bytesPerCluster, entries0, chains0, name, entries[name].first, newSize % U32, chains[name]);
      StillAgrees(cache.caches, cache.caches, View(disk, bytesPerCluster, entries0, chains0), Files(), name);
    }

    /** Grows the file, writes one cluster and stores the size. */
    method WriteAt(rec: Record, payload: Bytes, count: nat, haveBuffer: bool, device: Device) returns (err: Error,
                   written: nat)
      requires Valid() && (device.Failed? ==> |device.left| == bytesPerCluster) && rec.name in entries && count <= |payload|
      modifies this`disk, this`entries, this`chains, fat, cache
      ensures Valid() && entries.Keys == old(entries).Keys && !err.InvalidFd?
      ensures written == Min(count, bytesPerCluster - rec.offset % bytesPerCluster)
      ensures err.Ok? <==> Writable(old(fat[..]), total, old(entries)[rec.name], rec.offset, count, bytesPerCluster) && haveBuffer && device.Written?
      ensures !err.Ok? && !err.DeviceWrite? ==> Files() == old(Files())
      ensures err.DeviceWrite? ==> device.Failed? && SameButFor(old(Files()), Files(), rec.name)
      ensures err.Ok? ==> device.Written? && Stored(bytesPerCluster, old(Files()), Files(), rec, payload, count)
      ensures Exchanged(old(fat[..]), fat[..], total, old(chains), chains, rec.name)
      ensures err.Ok? ==> |chains[rec.name]| == ClustersAfter(old(entries)[rec.name], |old(chains)[rec.name]|, rec.offset + count, bytesPerCluster)
    {
      hide ChainsOk, DiskOk, NoLeak, View, CachesValid, CacheAgrees, Staged, Cached, Stored, FreeClusters, CeilDiv, Exchanged,
        ClustersNeeded, SameButFor;
      var b, name := bytesPerCluster, rec.name;
      ghost var fat0, chains0 := fat[..], chains;
      DivSplit(rec.offset, b);
      written := Min(count, b - rec.offset % b);
      ghost var view := Files();
      var grown := GrowFileIfNeeded(name, rec.offset + count);
      if !grown {
        err := NoMemory;
        return;
      }
      ghost var fat1, chains1 := fat[..], chains;
      HasChain(fat[..], total, b, entries, chains, name);
      if count > 0 {
        InsideChain(rec.offset, count, |chains[name]|, b);
      } else if entries[name].size == 0 {
        InsideEmptied(rec.offset, |chains[name]|, b);
      } else if rec.offset == 0 {
        StartOfFile(b);
      }
      err, written := WriteGrown(rec, payload, count, haveBuffer, device);
      ExchangedTwice(fat0, fat1, fat[..], total, chains0, chains1, chains, name);
    }

    /** The write itself, once the chain is long enough. */
    method WriteGrown(rec: Record, payload: Bytes, count: nat, haveBuffer: bool, device: Device) returns (err: Error, written: nat)
      requires Valid() && (device.Failed? ==> |device.left| == bytesPerCluster) && rec.name in entries && count <= |payload|
      requires entries[rec.name].first != 0 && rec.name in chains && rec.offset + count <= |chains[rec.name]| * bytesPerCluster
      modifies this`disk, this`entries, this`chains, fat, cache
      ensures Valid() && entries.Keys == old(entries).Keys && !err.InvalidFd?
      ensures written == Min(count, bytesPerCluster - rec.offset % bytesPerCluster)
      ensures err.Ok? <==> && rec.offset / bytesPerCluster < |old(chains)[rec.name]| && haveBuffer && device.Written?
                           && (written == bytesPerCluster || old(entries)[rec.name].size == 0 || rec.offset == 0)
      ensures !err.Ok? && !err.DeviceWrite? ==> Files() == old(Files())
      ensures err.DeviceWrite? ==> device.Failed? && SameButFor(old(Files()), Files(), rec.name)
      ensures err.Ok? ==> device.Written? && Stored(bytesPerCluster, old(Files()), Files(), rec, payload, count)
      ensures Exchanged(old(fat[..]), fat[..], total, old(chains), chains, rec.name)
      ensures err.Ok? ==> |chains[rec.name]| == if CeilDiv(rec.offset + count, bytesPerCluster) < CeilDiv(old(entries)[rec.name].size, bytesPerCluster)
                                                then CeilDiv(rec.offset + count, bytesPerCluster) else |old(chains)[rec.name]|
    {
      hide ChainsOk, DiskOk, NoLeak, View, CachesValid, CacheAgrees, Staged, Cached, Stored, FreeClusters, CeilDiv, Exchanged;
      var b, name := bytesPerCluster, rec.name;
      HasChain(fat[..], total, b, entries, chains, name);
      ghost var view, disk1, entries1, chains1 := Files(), disk, entries, chains;
      ChainOnDisk(disk, fat[..], total, b, entries, chains, name);
      NothingExchanged(fat[..], total, chains, name);
      ghost var q;
      err, written, q := WriteFileCluster(name, rec.offset, payload, count, haveBuffer, device);
      if err == Ok {
        SetSize(name, rec.offset + count);
        StoredIntro(b, view, disk1, entries1, chains1, disk, Files(), rec, payload, count, q, written);
      }
    }

    /** Serves one write request at the record's offset. Whatever happens the volume stays consistent, other files
        keep their contents, and a request that fails before reaching the device changes no contents at all. */
    method HandleFsWrite(handle: nat, payload: Bytes, len: nat, haveBuffer: bool, device: Device) returns (err: Error,
                         written: nat)
      requires Valid() && (device.Failed? ==> |device.left| == bytesPerCluster)
      modifies this, fat, cache
      ensures Valid() && entries.Keys == old(entries).Keys
      ensures payload == [] ==> err == InvalidArg
      ensures payload != [] ==> (err == InvalidFd <==> handle !in old(records))
      ensures payload != [] && handle in old(records) ==>
                (err.Ok? <==> haveBuffer && device.Written? && var rec := old(records)[handle];
                              Writable(old(fat[..]), total, old(entries)[rec.name], rec.offset, Min(len, |payload|), bytesPerCluster))
      ensures !err.Ok? ==> records == old(records)
      ensures !err.Ok? && !err.DeviceWrite? ==> Files() == old(Files())
      ensures err.DeviceWrite? ==> device.Failed? && handle in old(records) && SameButFor(old(Files()), Files(), old(records)[handle].name)
      ensures err.Ok? ==> device.Written? && payload != [] && WriteDone(bytesPerCluster, old(records), records, handle, Min(len, |payload|), written)
      ensures err.Ok? ==> Stored(bytesPerCluster, old(Files()), Files(), old(records)[handle], payload, Min(len, |payload|))
      ensures payload == [] || handle !in old(records) ==> fat[..] == old(fat[..]) && chains == old(chains)
      ensures handle in old(records) ==>
                var rec := old(records)[handle];
                && Exchanged(old(fat[..]), fat[..], total, old(chains), chains, rec.name)
                && (err.Ok? ==> |chains[rec.name]| == ClustersAfter(old(entries)[rec.name], |old(chains)[rec.name]|, rec.offset + Min(len, |payload|), bytesPerCluster))
    {
      hide ChainsOk, DiskOk, NoLeak, View, CachesValid, CacheAgrees, SameButFor, Stored;
      err, written := InvalidArg, 0;
      if payload == [] {
        if handle in records {
          HasChain(fat[..], total, bytesPerCluster, entries, chains, records[handle].name);
          NothingExchanged(fat[..], total, chains, records[handle].name);
        }
        return;
      }
      var count := Min(len, |payload|);
      if handle !in records {
        return InvalidFd, 0;
      }
      var rec := records[handle];
      err, written := WriteAt(rec, payload, count, haveBuffer, device);
      if err == Ok {
        records := records[handle := rec.(offset := rec.offset + written)];
      }
    }

    // ----- reading

    /** The file's contents through the cache. Fails exactly when the file is not cached and one of the clusters it
        occupies cannot be read; a half-filled cache is never left behind. */
    method LoadFile(name: Name, bad: set<nat>) returns (id: nat)
      requires Valid() && name in entries && entries[name].first != 0
      modifies cache
      ensures Valid() && name in Files()
      ensures id != 0 ==> id in cache.caches && cache.caches[id].path == name && cache.caches[id].buffer == Files()[name]
      ensures name in chains && CeilDiv(entries[name].size, bytesPerCluster) <= |chains[name]|
      ensures id != 0 <==> Cached(old(cache.caches), name)
                           || forall i :: 0 <= i < CeilDiv(entries[name].size, bytesPerCluster) ==> chains[name][i] !in bad
    {
      hide ChainsOk, DiskOk, NoLeak, View, CachesValid, CeilDiv, Zeros, CacheAgrees, Cached;
      LongEnough(fat[..], total, bytesPerCluster, entries, chains, name);
      HasChain(fat[..], total, bytesPerCluster, entries, chains, name);
      ChainOnDisk(disk, fat[..], total, bytesPerCluster, entries, chains, name);
      ghost var was := cache.caches;
      id := cache.FindByPath(name);
      StillHeld(was, cache.caches, Files());
      if id != 0 {
        AgreesAt(was, Files(), id);
        return;
      }
      ghost var victim;
      id, victim := cache.Create(name, entries[name].size);
      var ok, buffer := ReadClusters(name, bad);
      if ok {
        cache.SetBuffer(id, buffer);
        FilledAgrees(was, cache.caches, Files(), id, name);
      } else {
        var removed := cache.RemoveByPath(name);
        NowhereCached(cache.caches, name);
        StillHeld(was, cache.caches, Files());
        id := 0;
      }
    }

    /** Reads the clusters that hold the file's bytes, one after the other. */
    method ReadClusters(name: Name, bad: set<nat>) returns (ok: bool, buffer: Bytes)
      requires Consistent() && name in entries && entries[name].first != 0
      ensures name in Files() && (ok ==> buffer == Files()[name])
      ensures name in chains && CeilDiv(entries[name].size, bytesPerCluster) <= |chains[name]|
      ensures ok <==> forall i :: 0 <= i < CeilDiv(entries[name].size, bytesPerCluster) ==> chains[name][i] !in bad
    {
      hide ChainsOk, DiskOk, NoLeak, CeilDiv, Content;
      var b, size := bytesPerCluster, entries[name].size;
      LongEnough(fat[..], total, b, entries, chains, name);
      HasChain(fat[..], total, b, entries, chains, name);
      ChainOnDisk(disk, fat[..], total, b, entries, chains, name);
      ghost var chain := AChain(fat[..], total, b, entries, chains, name);
      ghost var content := Content(disk, b, chain, size);
      ghost var n := CeilDiv(size, b);
      buffer := seq(size, _ => 0);
      var offset, cluster := 0, entries[name].first;
      ghost var i := 0;
      while cluster != END_OF_CLUSTER_CHAIN && offset < size
        invariant 0 <= i <= n && offset == Min(i * b, size) && |buffer| == size
        invariant cluster == if i < |chain| then chain[i] else END_OF_CLUSTER_CHAIN
        invariant buffer[..offset] == content[..offset]
        invariant forall j :: 0 <= j < i ==> chain[j] !in bad
        decreases n - i
      {
        StillToRead(i, n, size, b);
        if cluster in bad {
          return false, buffer;
        }
        var copyLen := Min(b, size - offset);
        ContentSlice(disk, b, chain, size, i, copyLen);
        buffer := buffer[..offset] + disk[cluster][..copyLen] + buffer[offset + copyLen..];
        assert content[..offset + copyLen] == content[..offset] + content[offset..offset + copyLen];
        offset := offset + copyLen;
        assert i < |chain| - 1 ==> fat[chain[i]] == chain[i + 1];
        cluster := NextCluster(fat[..], cluster);
        i := i + 1;
      }
      AllRead(i, n, |chain|, size, b);
      ok := true;
      assert buffer == buffer[..size] && content == content[..size];
    }

    /** Serves one read request: the window of the file at the record's offset, which moves past it. */
    method HandleFsRead(handle: nat, count: nat, bad: set<nat>) returns (err: Error, data: Bytes)
      requires Valid()
      modifies this`records, cache
      ensures Valid() && Files() == old(Files())
      ensures err == InvalidFd <==> handle !in old(records)
      ensures err == Ok || err == InvalidFd || err == DeviceRead
      ensures err == DeviceRead <==>
              && handle in old(records) && var rec := old(records)[handle];
              && rec.name in chains && CeilDiv(entries[rec.name].size, bytesPerCluster) <= |chains[rec.name]|
              && rec.offset < entries[rec.name].size && !Cached(old(cache.caches), rec.name)
              && exists i :: 0 <= i < CeilDiv(entries[rec.name].size, bytesPerCluster) && chains[rec.name][i] in bad
      ensures err != Ok ==> records == old(records) && data == []
      ensures err == Ok ==> var rec := old(records)[handle];
                            && rec.name in Files() && data == Window(Files()[rec.name], rec.offset, count)
                            && records == old(records)[handle := Record(rec.name, rec.offset + |data|)]
    {
      hide ChainsOk, DiskOk, NoLeak, View, CachesValid, CacheAgrees, CeilDiv, Cached;
      err, data := InvalidFd, [];
      if handle !in records {
        return;
      }
      var rec := records[handle];
      var entry := entries[rec.name];
      ContentSize(disk, fat[..], total, bytesPerCluster, entries, chains, rec.name);
      if entry.size == 0 || entry.first == 0 || rec.offset >= entry.size {
        assert records == records[handle := Record(rec.name, rec.offset + 0)];
        return Ok, [];
      }
      var id := LoadFile(rec.name, bad);
      if id == 0 {
        return DeviceRead, [];
      }
      var n := Min(count, entry.size - rec.offset);
      data := cache.caches[id].buffer[rec.offset..rec.offset + n];
      records := records[handle := rec.(offset := rec.offset + n)];
      err := Ok;
    }

    /** Reading until an empty answer yields exactly the rest of the file, whatever is or is not cached. */
    method ReadToEnd(handle: nat, count: nat) returns (data: Bytes)
      requires Valid() && handle in records && count > 0
      modifies this`records, cache
      ensures Valid() && Files() == old(Files())
      ensures var rec := old(records)[handle];
              rec.name in Files() && data == Files()[rec.name][Min(rec.offset, |Files()[rec.name]|)..]
    {
      hide ChainsOk, DiskOk, NoLeak, View, CachesValid, CacheAgrees;
      ghost var files, rec := Files(), records[handle];
      ContentSize(disk, fat[..], total, bytesPerCluster, entries, chains, rec.name);
      ghost var content := files[rec.name];
      ghost var start := Min(rec.offset, |content|);
      data := [];
      var done := false;
      while !done
        invariant Valid() && Files() == files && start + |data| <= |content|
        invariant handle in records && records[handle].name == rec.name
        invariant if rec.offset <= |content| then records[handle].offset == start + |data| else records[handle].offset == rec.offset && data == []
        invariant data == content[start..start + |data|]
        invariant done ==> start + |data| == |content|
        decreases |content| - start - |data|, !done
      {
        var err, chunk := HandleFsRead(handle, count, {});
        data := data + chunk;
        done := chunk == [];
      }
    }

    /** Writing one whole cluster at a cluster boundary: it fails exactly when too few clusters are free. */
    method WriteCluster(handle: nat, ghost k: nat, chunk: Bytes) returns (ok: bool)
      requires Valid() && handle in records && |chunk| == bytesPerCluster
      requires records[handle].offset == Clusters(k, bytesPerCluster) && Clusters(k + 1, bytesPerCluster) < U32
      modifies this, fat, cache
      ensures Valid() && entries.Keys == old(entries).Keys && old(records)[handle].name in chains
      ensures old(records)[handle].name in old(entries) && old(records)[handle].name in old(chains)
      ensures var name, b := old(records)[handle].name, bytesPerCluster;
              && (ok <==> |FreeClusters(old(fat[..]), total)| >= ClustersNeeded(old(entries)[name], Clusters(k + 1, b), b))
              && (ok ==> records == old(records)[handle := Record(name, Clusters(k + 1, b))])
              && (ok ==> Stored(b, old(Files()), Files(), Record(name, Clusters(k, b)), chunk, b))
              && (ok ==> entries[name].first != 0 && entries[name].size == Clusters(k + 1, b))
              && (ok ==> |FreeClusters(fat[..], total)| + |chains[name]| == |FreeClusters(old(fat[..]), total)| + |old(chains)[name]|)
              && (ok ==> |chains[name]| == ClustersAfter(old(entries)[name], |old(chains)[name]|, Clusters(k + 1, b), b))
      ensures !ok ==> Files() == old(Files()) && records == old(records)
    {
      hide ChainsOk, DiskOk, NoLeak, View, CachesValid, CacheAgrees, Stored, SameButFor, WriteDone, Clusters, FreeClusters,
        Exchanged, ClustersAfter, ClustersNeeded, CeilDiv, Writable;
      ghost var f, before, was, chains1, entry, name, b := fat[..], Files(), records, chains, entries[records[handle].name], records[handle].name, bytesPerCluster;
      HasChain(f, total, b, entries, chains, name);
      AlignedWrite(f, total, entry, k, b);
      var err, written := HandleFsWrite(handle, chunk, bytesPerCluster, true, Written);
      ok := err == Ok;
      ExchangedCount(f, fat[..], total, chains1, chains, name);
      if ok {
        WroteWhole(b, was, records, handle, k, written);
        SizeNow(b, before, Files(), name, k, chunk);
        ContentSize(disk, fat[..], total, b, entries, chains, name);
        SomeClusters(entry, |chains1[name]|, k, b);
        HasChain(fat[..], total, b, entries, chains, name);
      }
    }

    /** Writing whole clusters one after the other. It stops when no cluster is left for one; what was written before is in
        the file, in order. */
    method WriteClusters(handle: nat, ghost start: nat, chunks: seq<Bytes>) returns (n: nat)
      requires Valid() && handle in records && WholeClusters(chunks, bytesPerCluster)
      requires records[handle].offset == Clusters(start, bytesPerCluster) <= entries[records[handle].name].size
      requires Clusters(start + |chunks|, bytesPerCluster) < U32
      modifies this, fat, cache
      ensures Valid() && n <= |chunks|
      ensures records == old(records)[handle := Record(old(records)[handle].name, Clusters(start + n, bytesPerCluster))]
      ensures Appended(old(Files()), Files(), old(records)[handle], chunks, n)
      ensures old(records)[handle].name in old(chains)
      ensures n == WritesThatFit(|FreeClusters(old(fat[..]), total)|, old(entries)[old(records)[handle].name],
                                 |old(chains)[old(records)[handle].name]|, start, |chunks|, bytesPerCluster)
    {
      hide ChainsOk, DiskOk, NoLeak, View, CachesValid, CacheAgrees, Stored, SameButFor, Staged, Appended,
        WholeClusters, Clusters, FreeClusters, ClustersAfter, ClustersNeeded, CeilDiv, Fitted;
      ghost var files, rec, b := Files(), records[handle], bytesPerCluster;
      HasChain(fat[..], total, b, entries, chains, rec.name);
      ghost var free0, entry0, had0 := |FreeClusters(fat[..], total)|, entries[rec.name], |chains[rec.name]|;
      ContentSize(disk, fat[..], total, b, entries, chains, rec.name);
      NothingAppended(files, rec, chunks);
      NothingFitted(free0, entry0, had0, start, b);
      n := 0;
      while n < |chunks|
        invariant Valid() && n <= |chunks| && rec.name in entries && rec.name in chains
        invariant records == old(records)[handle := Record(rec.name, Clusters(start + n, b))]
        invariant Appended(files, Files(), rec, chunks, n)
        invariant Fitted(free0, entry0, had0, start, n, |FreeClusters(fat[..], total)|, entries[rec.name], |chains[rec.name]|, b)
      {
        ghost var before, free, entry, had := Files(), |FreeClusters(fat[..], total)|, entries[rec.name], |chains[rec.name]|;
        ChunkSize(chunks, b, n);
        BelowEnd(start + n + 1, start + |chunks|, b);
        var ok := WriteCluster(handle, start + n, chunks[n]);
        if !ok {
          NoMoreFit(free0, entry0, had0, start, n, |chunks|, free, entry, had, b);
          return;
        }
        OneMoreFits(free0, entry0, had0, start, n, free, entry, had, |FreeClusters(fat[..], total)|, entries[rec.name], |chains[rec.name]|, b);
        OneMoreCluster(b, files, before, Files(), rec, chunks, start, n);
        n := n + 1;
      }
      AllFit(free0, entry0, had0, start, n, |FreeClusters(fat[..], total)|, entries[rec.name], |chains[rec.name]|, b);
    }

    /** What was written cluster by cluster from the start of a file is what another handle reads back. */
    method WriteThenRead(writer: nat, reader: nat, chunks: seq<Bytes>, count: nat) returns (n: nat, data: Bytes)
      requires Valid() && writer in records && reader in records && writer != reader && records[writer].name == records[reader].name
      requires records[writer].offset == 0 && records[reader].offset == 0 && count > 0
      requires WholeClusters(chunks, bytesPerCluster) && Clusters(|chunks|, bytesPerCluster) < U32
      modifies this, fat, cache
      ensures Valid() && n <= |chunks|
      ensures n > 0 ==> data == Concat(chunks[..n])
      ensures old(records)[writer].name in Files() && data == Files()[old(records)[writer].name] && old(records)[writer].name in old(chains)
      ensures n == WritesThatFit(|FreeClusters(old(fat[..]), total)|, old(entries)[old(records)[writer].name],
                                 |old(chains)[old(records)[writer].name]|, 0, |chunks|, bytesPerCluster)
      ensures Appended(old(Files()), Files(), old(records)[writer], chunks, n)
    {
      hide ChainsOk, DiskOk, NoLeak, View, CachesValid, CacheAgrees;
      ContentSize(disk, fat[..], total, bytesPerCluster, entries, chains, records[writer].name);
      n := WriteClusters(writer, 0, chunks);
      data := ReadToEnd(reader, count);
    }

    /** A write of at most one cluster at the start of a file is what another handle reads back; if it fails, that handle
        reads what the file held. */
    method WriteOnceThenRead(writer: nat, reader: nat, payload: Bytes, count: nat) returns (err: Error, data: Bytes)
      requires Valid() && writer in records && reader in records && writer != reader && records[writer].name == records[reader].name
      requires records[writer].offset == 0 && records[reader].offset == 0 && count > 0 && |payload| <= bytesPerCluster < U32
      modifies this, fat, cache
      ensures Valid()
      ensures err.Ok? <==> payload != [] && Writable(old(fat[..]), total, old(entries)[old(records)[writer].name], 0, |payload|, bytesPerCluster)
      ensures Files() == if err.Ok? then old(Files())[old(records)[writer].name := payload] else old(Files())
      ensures old(records)[writer].name in Files() && data == Files()[old(records)[writer].name]
    {
      hide ChainsOk, DiskOk, NoLeak, View, CachesValid, CacheAgrees, Stored, SameButFor, Staged, Writable;
      ghost var files, name := Files(), records[writer].name;
      var written;
      err, written := HandleFsWrite(writer, payload, |payload|, true, Written);
      if err == Ok {
        StoredAtStart(bytesPerCluster, files, Files(), name, payload, |payload|);
        assert payload[..|payload|] == payload;
      }
      data := ReadToEnd(reader, count);
    }
  }

  /** The clusters one file gained or lost are the ones that are free no longer or again; no other file's chain changed. */
  ghost predicate Exchanged(f: Fat, g: Fat, total: nat, before: map<Name, seq<nat>>, after: map<Name, seq<nat>>, name: Name)
  {
    && total <= |f| && total <= |g| && name in before && name in after && after == before[name := after[name]]
    && |FreeClusters(g, total)| + |after[name]| == |FreeClusters(f, total)| + |before[name]|
  }

  lemma ExchangedTwice(f: Fat, g: Fat, h: Fat, total: nat, a: map<Name, seq<nat>>, b: map<Name, seq<nat>>, c: map<Name, seq<nat>>,
                       name: Name)
    requires Exchanged(f, g, total, a, b, name) && Exchanged(g, h, total, b, c, name)
    ensures Exchanged(f, h, total, a, c, name)
  {
    assert a[name := b[name]][name := c[name]] == a[name := c[name]];
  }

  lemma NothingExchanged(f: Fat, total: nat, chains: map<Name, seq<nat>>, name: Name)
    requires total <= |f| && name in chains
    ensures Exchanged(f, f, total, chains, chains, name)
  {
    assert chains[name := chains[name]] == chains;
  }

  /** Fewer caches, of which no contents changed, still agree with the files. */
  lemma StillHeld(was: map<nat, FileCache>, now: map<nat, FileCache>, view: map<Name, Bytes>)
    requires CacheAgrees(was, view)
    ensures (forall i :: i in now ==> i in was && now[i].path == was[i].path && now[i].buffer == was[i].buffer) ==> CacheAgrees(now, view)
  {
  }

  lemma AgreesAt(caches: map<nat, FileCache>, view: map<Name, Bytes>, id: nat)
    requires CacheAgrees(caches, view) && id in caches && caches[id].path in view
    ensures caches[id].buffer == view[caches[id].path]
  {
  }

  lemma FilledAgrees(was: map<nat, FileCache>, now: map<nat, FileCache>, view: map<Name, Bytes>, id: nat, name: Name)
    requires CacheAgrees(was, view) && id in now && now[id].path == name && name in view && now[id].buffer == view[name]
    requires forall i :: i in now && i != id ==> i in was && now[i].path == was[i].path && now[i].buffer == was[i].buffer
    ensures CacheAgrees(now, view)
  {
  }

  lemma NowhereCached(caches: map<nat, FileCache>, name: Name)
    requires !Cached(caches, name)
    ensures forall i :: i in caches ==> caches[i].path != name
  {
  }

  /** What the block device does with one write. */
  datatype Device = Written | Failed(left: Bytes)

  ghost predicate SameButFor(v: map<Name, Bytes>, v': map<Name, Bytes>, name: Name)
  {
    v'.Keys == v.Keys && forall n :: n in v && n != name ==> v'[n] == v[n]
  }

  lemma AChain(f: Fat, total: nat, b: nat, entries: map<Name, DirEntry>, chains: map<Name, seq<nat>>,
               name: Name) returns (chain: seq<nat>)
    requires ChainsOk(f, total, b, entries, chains) && name in entries && entries[name].first != 0
    ensures name in chains && chain == chains[name] && IsChain(f, total, chain) && chain[0] == entries[name].first
  {
    chain := chains[name];
    assert FileOk(f, total, b, entries[name], chain);
  }

  lemma NotEnd(f: Fat, total: nat, b: nat, entries: map<Name, DirEntry>, chains: map<Name, seq<nat>>, name: Name,
               q: nat)
    requires ChainsOk(f, total, b, entries, chains) && name in entries && total <= FAT32_EOC_MIN
    ensures name in chains && (q < |chains[name]| ==> chains[name][q] != END_OF_CLUSTER_CHAIN)
  {
    assert FileOk(f, total, b, entries[name], chains[name]);
  }

  /** Dropping what is cached for a file keeps the cache right when only that file changes. */
  lemma StillAgrees(before: map<nat, FileCache>, after: map<nat, FileCache>, v: map<Name, Bytes>, v': map<Name, Bytes>,
                    name: Name)
    requires CacheAgrees(before, v) && !Cached(after, name) && SameButFor(v, v', name)
    requires forall i :: i in after ==> i in before && after[i] == before[i]
    ensures CacheAgrees(after, v')
  {
  }

  lemma Resized(f: Fat, total: nat, b: nat, entries: map<Name, DirEntry>, chains: map<Name, seq<nat>>, name: Name,
                newSize: nat)
    requires ChainsOk(f, total, b, entries, chains) && name in entries && newSize <= |chains[name]| * b && newSize < U32
    ensures ChainsOk(f, total, b, entries[name := DirEntry(entries[name].first, newSize)], chains)
  {
    hide IsChain;
    var entries' := entries[name := DirEntry(entries[name].first, newSize)];
    assert FileOk(f, total, b, entries[name], chains[name]);
    forall n | n in entries'
      ensures FileOk(f, total, b, entries'[n], chains[n])
    {
      assert FileOk(f, total, b, entries[n], chains[n]);
    }
  }

  lemma ChainOnDisk(disk: Disk, f: Fat, total: nat, b: nat, entries: map<Name, DirEntry>, chains: map<Name, seq<nat>>,
                    name: Name)
    requires ChainsOk(f, total, b, entries, chains) && DiskOk(disk, total, b) && name in entries
    ensures OnDisk(disk, b, chains[name]) && NoRepeats(chains[name]) && View(disk, b, entries, chains).Keys == entries.Keys
  {
    FileOnDisk(disk, f, total, b, entries[name], chains[name]);
    ViewKeys(f, total, disk, b, entries, chains);
  }

  lemma SizeBound(f: Fat, total: nat, b: nat, entries: map<Name, DirEntry>, chains: map<Name, seq<nat>>, name: Name)
    requires ChainsOk(f, total, b, entries, chains) && name in entries
    ensures entries[name].size < U32
  {
    assert FileOk(f, total, b, entries[name], chains[name]);
  }

  lemma ChainFacts(f: Fat, total: nat, chain: seq<nat>)
    requires IsChain(f, total, chain) && total <= FAT32_EOC_MIN
    ensures NoRepeats(chain) && Linked(f, chain) && 0 < chain[0] < FAT32_EOC_MIN
    ensures forall i :: 0 <= i < |chain| ==> 0 < chain[i] < FAT32_EOC_MIN && chain[i] < |f|
  {
  }

  lemma ChainLink(f: Fat, total: nat, chain: seq<nat>, k: nat)
    requires IsChain(f, total, chain) && total <= FAT32_EOC_MIN && 0 < k < |chain|
    ensures chain[k - 1] < |f| && NextCluster(f, chain[k - 1]) == chain[k] && chain[k - 1] != END_OF_CLUSTER_CHAIN
    ensures chain[k - 1] !in chain[k..]
  {
    assert f[chain[k - 1]] == chain[k];
  }

  lemma WrapsDown(x: nat)
    ensures x % U32 <= x && x % U32 < U32 && (x < U32 ==> x % U32 == x)
  {
  }

  /** Shortening or lengthening a file within the clusters it keeps. */
  lemma ViewResized(f: Fat, total: nat, disk: Disk, b: nat, entries: map<Name, DirEntry>, chains: map<Name, seq<nat>>,
                    name: Name, first: nat, size: nat, chain: seq<nat>)
    requires name in entries && name in chains && chain <= chains[name] && DiskOk(disk, total, b)
    requires ChainsOk(f, total, b, entries[name := DirEntry(first, size)], chains[name := chain])
    requires OnDisk(disk, b, chains[name]) && entries[name].size <= |chains[name]| * b
    ensures var v' := View(disk, b, entries[name := DirEntry(first, size)], chains[name := chain]);
            && v' == View(disk, b, entries[name := DirEntry(entries[name].first, size)], chains)
            && SameButFor(View(disk, b, entries, chains), v', name)
  {
    hide ChainsOk, Content, OnDisk, DiskOk;
    HasChain(f, total, b, entries[name := DirEntry(first, size)], chains[name := chain], name);
    assert chain == chains[name][..|chain|];
    ContentCut(disk, b, chains[name], |chain|, size);
  }

  /** What the volume must offer for `count` bytes at `offset`: clusters to grow into, and either a whole cluster to
      overwrite or no contents that a partial cluster would have to be merged with. */
  ghost predicate Writable(f: Fat, total: nat, entry: DirEntry, offset: nat, count: nat, b: nat)
    requires b > 0 && total <= |f|
  {
    && |FreeClusters(f, total)| >= ClustersNeeded(entry, offset + count, b)
    && (Min(count, b - offset % b) == b || entry.size == 0 || offset == 0)
  }

  lemma EmptyNeedsNone(b: nat)
    requires b > 0
    ensures CeilDiv(0, b) == 0
  {
    CeilDivBounds(0, b);
  }

  lemma InsideEmptied(offset: nat, n: nat, b: nat)
    requires b > 0 && CeilDiv(offset, b) < n
    ensures offset / b < n
  {
    CeilDivBounds(offset, b);
    DivSplit(offset, b);
    if offset / b >= n {
      MulLess(CeilDiv(offset, b), offset / b, b);
    }
  }

  lemma StartOfFile(b: nat)
    requires b > 0
    ensures 0 / b == 0
  {
  }

  lemma InsideChain(offset: nat, count: nat, n: nat, b: nat)
    requires b > 0 && count > 0 && offset + count <= n * b
    ensures offset / b < n
  {
    DivSplit(offset, b);
    if offset / b >= n {
      MulLess(n, offset / b, b);
    }
  }

  /** A successful write answers with the bytes that fitted into the cluster and moves the record's offset past them. */
  ghost predicate WriteDone(b: nat, records: map<nat, Record>, records': map<nat, Record>, handle: nat, count: nat,
                            written: nat)
  {
    && b > 0 && handle in records
    && written == Min(count, b - records[handle].offset % b)
    && records' == records[handle := Record(records[handle].name, records[handle].offset + written)]
  }

  /** What a successful write of `count` bytes does to the files: only the written one changes; its size becomes the offset
      plus `count`, in 32 bits; the cluster that holds the offset is the written bytes staged in zeros; and whatever the file
      held in other clusters is still there. (Bytes of `count` beyond that cluster are not written, and bytes beyond the old
      size in other clusters are whatever the disk held.) */
  ghost predicate Stored(b: nat, v: map<Name, Bytes>, v': map<Name, Bytes>, rec: Record, data: Bytes, count: nat)
  {
    && b > 0 && rec.name in v && rec.name in v' && SameButFor(v, v', rec.name) && count <= |data|
    && |v'[rec.name]| == (rec.offset + count) % U32
    && ClusterStored(b, v[rec.name], v'[rec.name], rec.offset / b, Staged(b, rec.offset % b, data, Min(count, b - rec.offset % b)))
  }

  ghost predicate ClusterStored(b: nat, was: Bytes, now: Bytes, q: int, cluster: Bytes)
    requires |cluster| == b
  {
    forall i :: 0 <= i < |now| ==>
      if q * b <= i < q * b + b then now[i] == cluster[i - q * b] else i < |was| ==> now[i] == was[i]
  }

  lemma ViewAt(disk: Disk, b: nat, entries: map<Name, DirEntry>, chains: map<Name, seq<nat>>, name: Name)
    requires name in entries && name in chains && OnDisk(disk, b, chains[name]) && entries[name].size <= |chains[name]| * b
    ensures name in View(disk, b, entries, chains) && View(disk, b, entries, chains)[name] == Content(disk, b, chains[name], entries[name].size)
  {
  }

  lemma StillOnDisk(disk: Disk, b: nat, chain: seq<nat>, q: nat, cluster: Bytes)
    requires OnDisk(disk, b, chain) && q < |chain| && |cluster| == b
    ensures OnDisk(disk[chain[q] := cluster], b, chain)
  {
  }

  lemma StoredIntro(b: nat, v: map<Name, Bytes>, disk: Disk, entries: map<Name, DirEntry>, chains: map<Name, seq<nat>>,
                    disk': Disk, v': map<Name, Bytes>, rec: Record, data: Bytes, count: nat, q: nat, n: nat)
    requires b > 0 && rec.name in entries && rec.name in chains && count <= |data| && v == View(disk, b, entries, chains)
    requires OnDisk(disk, b, chains[rec.name]) && NoRepeats(chains[rec.name]) && entries[rec.name].size <= |chains[rec.name]| * b
    requires q == rec.offset / b && q < |chains[rec.name]| && rec.offset + count <= |chains[rec.name]| * b
    requires n == Min(count, b - rec.offset % b) && disk' == disk[chains[rec.name][q] := Staged(b, rec.offset % b, data, n)]
    requires v' == View(disk', b, entries[rec.name := DirEntry(entries[rec.name].first, (rec.offset + count) % U32)], chains)
    requires SameButFor(v, v', rec.name)
    ensures Stored(b, v, v', rec, data, count)
  {
    hide Staged, View, Content, OnDisk, NoRepeats, SameButFor;
    var name, r, size' := rec.name, rec.offset % b, (rec.offset + count) % U32;
    DivSplit(rec.offset, b);
    WrapsDown(rec.offset + count);
    var size, cluster := entries[name].size, Staged(b, r, data, n);
    StillOnDisk(disk, b, chains[name], q, cluster);
    ViewAt(disk, b, entries, chains, name);
    ViewAt(disk', b, entries[name := DirEntry(entries[name].first, size')], chains, name);
    forall i | 0 <= i < size'
      ensures if q * b <= i < q * b + b then v'[name][i] == cluster[i - q * b] else i < |v[name]| ==> v'[name][i] == v[name][i]
    {
      ContentAfterWrite(disk, b, chains[name], size, size', q, cluster, i);
    }
  }

  lemma StillToRead(i: nat, n: nat, size: nat, b: nat)
    requires b > 0 && n == CeilDiv(size, b) && Min(i * b, size) < size
    ensures i < n && i * b < size && (i + 1) * b == i * b + b
  {
    CeilDivBounds(size, b);
    if i >= n {
      MulLess(n, i, b);
    }
  }

  lemma AllRead(i: nat, n: nat, len: nat, size: nat, b: nat)
    requires b > 0 && n == CeilDiv(size, b) && n <= len && i <= n && (i >= len || Min(i * b, size) >= size)
    ensures Min(i * b, size) == size && i == n
  {
    CeilDivBounds(size, b);
    assert (i + 1) * b == i * b + b;
    if i < n {
      MulLess(i + 1, n, b);
    }
  }

  lemma ContentSlice(disk: Disk, b: nat, chain: seq<nat>, size: nat, i: nat, n: nat)
    requires OnDisk(disk, b, chain) && size <= |chain| * b && i < |chain| && n <= b && i * b + n <= size
    ensures Content(disk, b, chain, size)[i * b..i * b + n] == disk[chain[i]][..n]
  {
    var l, m, r := chain[..i], [chain[i]], chain[i + 1..];
    assert chain == l + (m + r);
    assert OnDisk(disk, b, l) && OnDisk(disk, b, m) && OnDisk(disk, b, r);
    ChainBytesAppend(disk, b, m, r);
    ChainBytesAppend(disk, b, l, m + r);
    assert ChainBytes(disk, b, m) == disk[chain[i]] + ChainBytes(disk, b, []);
    var whole := ChainBytes(disk, b, chain);
    MulLess(i + 1, |chain|, b);
    assert whole[i * b..i * b + b] == disk[chain[i]];
    assert whole[..size][i * b..i * b + n] == whole[i * b..i * b + b][..n];
  }

  function Window(content: Bytes, offset: nat, count: nat): (r: Bytes)
  {
    if offset >= |content| then [] else content[offset..offset + Min(count, |content| - offset)]
  }

  lemma ContentSize(disk: Disk, f: Fat, total: nat, b: nat, entries: map<Name, DirEntry>, chains: map<Name, seq<nat>>,
                    name: Name)
    requires ChainsOk(f, total, b, entries, chains) && DiskOk(disk, total, b) && name in entries
    ensures name in View(disk, b, entries, chains) && |View(disk, b, entries, chains)[name]| == entries[name].size
    ensures entries[name].first == 0 ==> entries[name].size == 0
  {
    ChainOnDisk(disk, f, total, b, entries, chains, name);
    HasChain(f, total, b, entries, chains, name);
  }

  function Concat(chunks: seq<Bytes>): Bytes
  {
    if chunks == [] then [] else Concat(chunks[..|chunks| - 1]) + chunks[|chunks| - 1]
  }

  lemma {:induction false} ConcatLength(chunks: seq<Bytes>, b: nat)
    requires forall i :: 0 <= i < |chunks| ==> |chunks[i]| == b
    ensures |Concat(chunks)| == |chunks| * b
  {
    if chunks != [] {
      ConcatLength(chunks[..|chunks| - 1], b);
    }
  }

  /** The bytes of k clusters. */
  function Clusters(k: nat, b: nat): nat
  {
    k * b
  }

  ghost predicate WholeClusters(chunks: seq<Bytes>, b: nat)
  {
    forall i :: 0 <= i < |chunks| ==> |chunks[i]| == b
  }

  lemma ChunkSize(chunks: seq<Bytes>, b: nat, n: nat)
    requires WholeClusters(chunks, b) && n < |chunks|
    ensures |chunks[n]| == b
  {
  }

  /** The first n chunks follow what the file held before the record's offset; nothing else changed. */
  ghost predicate Appended(files: map<Name, Bytes>, after: map<Name, Bytes>, rec: Record, chunks: seq<Bytes>, n: nat)
  {
    && rec.name in files && rec.offset <= |files[rec.name]| && n <= |chunks|
    && after == if n == 0 then files else files[rec.name := files[rec.name][..rec.offset] + Concat(chunks[..n])]
  }

  lemma NothingAppended(files: map<Name, Bytes>, rec: Record, chunks: seq<Bytes>)
    requires rec.name in files && rec.offset <= |files[rec.name]|
    ensures Appended(files, files, rec, chunks, 0)
  {
  }

  lemma OneMoreCluster(b: nat, files: map<Name, Bytes>, before: map<Name, Bytes>, after: map<Name, Bytes>, rec: Record,
                       chunks: seq<Bytes>, start: nat, n: nat)
    requires b > 0 && n < |chunks| && WholeClusters(chunks, b)
    requires rec.offset == Clusters(start, b) && Clusters(start + |chunks|, b) < U32
    requires Appended(files, before, rec, chunks, n)
    requires Stored(b, before, after, Record(rec.name, Clusters(start + n, b)), chunks[n], b)
    ensures Appended(files, after, rec, chunks, n + 1)
  {
    hide Stored;
    ConcatLength(chunks[..n], b);
    MulLess(start + n + 1, start + |chunks|, b);
    MulAdd(start, n, b);
    StoredWholeCluster(b, before, after, rec.name, start + n, chunks[n]);
    assert chunks[..n + 1][..n] == chunks[..n];
    var kept := files[rec.name][..rec.offset];
    assert before[rec.name][..(start + n) * b] == kept + Concat(chunks[..n]);
    assert after[rec.name] == kept + Concat(chunks[..n + 1]);
  }

  lemma MulAdd(x: nat, y: nat, b: nat)
    ensures (x + y) * b == x * b + y * b && (x + 1) * b == x * b + b && (x + y + 1) * b == (x + y) * b + b
  {
  }

  /** A full cluster written at a cluster boundary not past the end: the file is cut there and the cluster follows. */
  lemma StoredWholeCluster(b: nat, v: map<Name, Bytes>, v': map<Name, Bytes>, name: Name, k: nat, data: Bytes)
    requires b > 0 && |data| == b && Stored(b, v, v', Record(name, k * b), data, b)
    requires k * b <= |v[name]| && (k + 1) * b < U32
    ensures v' == v[name := v[name][..k * b] + data]
  {
    Aligned(k, b);
    MulAdd(k, 0, b);
    assert Staged(b, 0, data, b) == data;
    assert v'[name] == v[name][..k * b] + data;
  }

  /** At most a cluster written at the start replaces the file. */
  lemma StoredAtStart(b: nat, v: map<Name, Bytes>, v': map<Name, Bytes>, name: Name, data: Bytes, count: nat)
    requires Stored(b, v, v', Record(name, 0), data, count) && count <= b < U32
    ensures v' == v[name := data[..count]]
  {
    Aligned(0, b);
    assert v'[name] == data[..count];
  }

  /** How many of the writes find clusters: the first may cut the file or give it clusters, each one after it takes one. */
  function WritesThatFit(free: nat, entry: DirEntry, had: nat, start: nat, writes: nat, b: nat): int
    requires b > 0
  {
    if writes == 0 || free < ClustersNeeded(entry, Clusters(start + 1, b), b) then 0
    else
      var left := free + had - ClustersAfter(entry, had, Clusters(start + 1, b), b);
      if writes < 1 + left then writes else 1 + left
  }

  lemma AlignedWrite(f: Fat, total: nat, entry: DirEntry, k: nat, b: nat)
    requires b > 0 && total <= |f|
    ensures Clusters(k, b) + b == Clusters(k + 1, b)
    ensures Writable(f, total, entry, Clusters(k, b), b, b) <==> |FreeClusters(f, total)| >= ClustersNeeded(entry, Clusters(k + 1, b), b)
  {
    hide FreeClusters, ClustersNeeded;
    Aligned(k, b);
    MulAdd(k, 0, b);
  }

  lemma NextNeedsOne(entry: DirEntry, had: nat, k: nat, b: nat)
    requires b > 0 && entry.first != 0 && entry.size == Clusters(k, b)
    ensures ClustersNeeded(entry, Clusters(k + 1, b), b) == 1 && ClustersAfter(entry, had, Clusters(k + 1, b), b) == had + 1
  {
    WholeCeil(k, b);
    WholeCeil(k + 1, b);
  }

  lemma WholeCeil(k: nat, b: nat)
    requires b > 0
    ensures CeilDiv(Clusters(k, b), b) == k
  {
    DivModUniqueClusters(k, b);
  }

  lemma DivModUniqueClusters(k: nat, b: nat)
    requires b > 0
    ensures (k * b + b - 1) / b == k
  {
    DivSplit(k * b + b - 1, b);
    var q := (k * b + b - 1) / b;
    MulAdd(q, 0, b);
    MulAdd(k, 0, b);
    if q < k {
      MulLess(q + 1, k, b);
    } else if q > k {
      MulLess(k + 1, q, b);
    }
  }

  /** How things stand after n writes. */
  ghost predicate Fitted(free0: nat, entry0: DirEntry, had0: nat, start: nat, n: nat, free: nat, entry: DirEntry, had: nat, b: nat)
  {
    && b > 0
    && (n == 0 ==> free == free0 && entry == entry0 && had == had0)
    && (n > 0 ==> entry.first != 0 && entry.size == Clusters(start + n, b) && free0 >= ClustersNeeded(entry0, Clusters(start + 1, b), b))
    && (n > 0 ==> free + n + ClustersAfter(entry0, had0, Clusters(start + 1, b), b) == free0 + had0 + 1)
  }

  lemma NothingFitted(free: nat, entry: DirEntry, had: nat, start: nat, b: nat)
    requires b > 0
    ensures Fitted(free, entry, had, start, 0, free, entry, had, b)
  {
  }

  lemma OneMoreFits(free0: nat, entry0: DirEntry, had0: nat, start: nat, n: nat, free: nat, entry: DirEntry, had: nat,
                    free': nat, entry': DirEntry, had': nat, b: nat)
    requires Fitted(free0, entry0, had0, start, n, free, entry, had, b)
    requires free >= ClustersNeeded(entry, Clusters(start + n + 1, b), b)
    requires entry'.first != 0 && entry'.size == Clusters(start + n + 1, b)
    requires had' == ClustersAfter(entry, had, Clusters(start + n + 1, b), b) && free' + had' == free + had
    ensures Fitted(free0, entry0, had0, start, n + 1, free', entry', had', b)
  {
    hide Clusters, ClustersAfter, ClustersNeeded;
    if n > 0 {
      NextNeedsOne(entry, had, start + n, b);
    }
  }

  lemma NoMoreFit(free0: nat, entry0: DirEntry, had0: nat, start: nat, n: nat, writes: nat, free: nat, entry: DirEntry, had: nat,
                  b: nat)
    requires Fitted(free0, entry0, had0, start, n, free, entry, had, b) && n < writes
    requires free < ClustersNeeded(entry, Clusters(start + n + 1, b), b)
    ensures n == WritesThatFit(free0, entry0, had0, start, writes, b)
  {
    hide Clusters, ClustersAfter, ClustersNeeded;
    if n > 0 {
      NextNeedsOne(entry, had, start + n, b);
    }
  }

  lemma AllFit(free0: nat, entry0: DirEntry, had0: nat, start: nat, n: nat, free: nat, entry: DirEntry, had: nat, b: nat)
    requires Fitted(free0, entry0, had0, start, n, free, entry, had, b)
    ensures n == WritesThatFit(free0, entry0, had0, start, n, b)
  {
    hide Clusters, ClustersAfter, ClustersNeeded;
  }

  lemma BelowEnd(k: nat, end: nat, b: nat)
    requires k <= end && Clusters(end, b) < U32
    ensures Clusters(k, b) < U32
  {
    MulLess(k, end, b);
  }

  lemma SizeNow(b: nat, v: map<Name, Bytes>, v': map<Name, Bytes>, name: Name, k: nat, data: Bytes)
    requires Stored(b, v, v', Record(name, Clusters(k, b)), data, b) && Clusters(k + 1, b) < U32
    ensures name in v' && |v'[name]| == Clusters(k + 1, b)
  {
    MulAdd(k, 0, b);
  }

  lemma ExchangedCount(f: Fat, g: Fat, total: nat, before: map<Name, seq<nat>>, after: map<Name, seq<nat>>, name: Name)
    requires Exchanged(f, g, total, before, after, name)
    ensures name in before && name in after
    ensures |FreeClusters(g, total)| + |after[name]| == |FreeClusters(f, total)| + |before[name]|
  {
  }

  lemma SomeClusters(entry: DirEntry, had: nat, k: nat, b: nat)
    requires b > 0 && (entry.first == 0 <==> had == 0)
    ensures ClustersAfter(entry, had, Clusters(k + 1, b), b) > 0
  {
    WholeCeil(k + 1, b);
  }

  lemma WroteWhole(b: nat, records: map<nat, Record>, records': map<nat, Record>, handle: nat, k: nat, written: nat)
    requires WriteDone(b, records, records', handle, b, written) && records[handle].offset == Clusters(k, b)
    ensures written == b && records' == records[handle := Record(records[handle].name, Clusters(k + 1, b))]
  {
    Aligned(k, b);
    MulAdd(k, 0, b);
  }

  lemma Aligned(k: nat, b: nat)
    requires b > 0
    ensures (k * b) % b == 0 && (k * b) / b == k
  {
    DivSplit(k * b, b);
    var q := (k * b) / b;
    MulAdd(q, 0, b);
    MulAdd(k, 0, b);
    if q < k {
      MulLess(q + 1, k, b);
    } else if q > k {
      MulLess(k + 1, q, b);
    }
  }
}
