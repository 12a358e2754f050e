/** The file cache of kernel/fs/file_info.cpp: at most MAX_FILE_CACHES buffered files, least recently used evicted. */
module FileCaches {

  const MAX_FILE_CACHES: nat := 50

  type Name = string

  datatype FileCache = FileCache(path: Name, buffer: seq<nat>, lastUsed: nat)

  /** Ids are never reused, no two caches hold the same file, and use times are distinct and in the past. */
  ghost predicate CachesValid(caches: map<nat, FileCache>, lruTick: nat, nextFsId: nat)
  {
    && |caches| <= MAX_FILE_CACHES
    && (forall id :: id in caches ==> 0 < id <= nextFsId && caches[id].lastUsed <= lruTick)
    && (forall i, j :: i in caches && j in caches && i != j ==> caches[i].path != caches[j].path)
    && (forall i, j :: i in caches && j in caches && i != j ==> caches[i].lastUsed != caches[j].lastUsed)
  }

  /** What a reader can get out of the cache: the buffer for each cached file. */
  ghost predicate Holds(caches: map<nat, FileCache>, path: Name, buffer: seq<nat>)
  {
    exists id :: id in caches && caches[id].path == path && caches[id].buffer == buffer
  }

  ghost predicate Cached(caches: map<nat, FileCache>, path: Name)
  {
    exists id :: id in caches && caches[id].path == path
  }

  /** A new cache's buffer. */
  function Zeros(size: nat): seq<nat>
  {
    seq(size, _ => 0)
  }

  class FileCacheTable {
    var caches: map<nat, FileCache>
    var lruTick: nat
    var nextFsId: nat

    ghost predicate Valid()
      reads this
    {
      CachesValid(caches, lruTick, nextFsId)
    }

    constructor ()
      ensures Valid() && caches == map[]
    {
      caches, lruTick, nextFsId := map[], 0, 0;
    }

    /** The cache for path, now the most recently used; 0 when there is none. */
    method FindByPath(path: Name) returns (id: nat)
      requires Valid()
      modifies this
      ensures Valid() && nextFsId == old(nextFsId)
      ensures id == 0 <==> !Cached(old(caches), path)
      ensures id == 0 ==> caches == old(caches) && lruTick == old(lruTick)
      ensures id != 0 ==> id in old(caches) && old(caches)[id].path == path
      ensures id != 0 ==> caches == old(caches)[id := old(caches)[id].(lastUsed := lruTick)] && lruTick == old(lruTick) + 1
    {
      var rest := caches.Keys;
      while rest != {}
        invariant rest <= caches.Keys && caches == old(caches) && lruTick == old(lruTick) && nextFsId == old(nextFsId)
        invariant forall i :: i in caches && i !in rest ==> caches[i].path != path
        decreases rest
      {
        var it :| it in rest;
        if caches[it].path == path {
          lruTick := lruTick + 1;
          caches := caches[it := caches[it].(lastUsed := lruTick)];
          assert caches.Keys == old(caches).Keys;
          return it;
        }
        rest := rest - {it};
      }
      return 0;
    }

    /** A least recently used cache. */
    method Oldest() returns (oldest: nat)
      requires caches != map[]
      ensures oldest in caches
      ensures forall i :: i in caches ==> caches[oldest].lastUsed <= caches[i].lastUsed
    {
      assert caches.Keys != {};
      var rest := caches.Keys;
      oldest :| oldest in rest;
      while rest != {}
        invariant rest <= caches.Keys && oldest in caches
        invariant forall i :: i in caches && i !in rest ==> caches[oldest].lastUsed <= caches[i].lastUsed
        decreases rest
      {
        var it :| it in rest;
        if caches[it].lastUsed < caches[oldest].lastUsed {
          oldest := it;
        }
        rest := rest - {it};
      }
    }

    /** A new zero-filled cache under a new id; a full table first gives up exactly its least recently used entry. */
    method Create(path: Name, size: nat) returns (id: nat, ghost victim: nat)
      requires Valid() && !Cached(caches, path)
      modifies this
      ensures Valid() && id !in old(caches) && id != 0
      ensures var cache := FileCache(path, Zeros(size), lruTick);
              if |old(caches)| < MAX_FILE_CACHES then caches == old(caches)[id := cache]
              else
                && victim in old(caches) && caches == (old(caches) - {victim})[id := cache]
                && forall i :: i in old(caches) ==> old(caches)[victim].lastUsed <= old(caches)[i].lastUsed
    {
      hide CachesValid, Cached, Zeros;
      NewId(caches, lruTick, nextFsId);
      victim := 0;
      if |caches| >= MAX_FILE_CACHES {
        assert caches != map[];
        var oldest := Oldest();
        victim := oldest;
        Evicted(caches, lruTick, nextFsId, oldest, path);
        caches := caches - {oldest};
      }
      nextFsId := nextFsId + 1;
      id := nextFsId;
      lruTick := lruTick + 1;
      Inserted(caches, lruTick - 1, nextFsId - 1, path, Zeros(size));
      caches := caches[id := FileCache(path, Zeros(size), lruTick)];
    }

    /** Replaces the bytes of a cache in place. */
    method SetBuffer(id: nat, buffer: seq<nat>)
      requires Valid() && id in caches
      modifies this`caches
      ensures Valid() && caches == old(caches)[id := old(caches)[id].(buffer := buffer)]
    {
      caches := caches[id := caches[id].(buffer := buffer)];
      assert caches.Keys == old(caches).Keys;
    }

    method RemoveByPath(path: Name) returns (removed: bool)
      requires Valid()
      modifies this`caches
      ensures Valid() && !Cached(caches, path)
      ensures removed <==> Cached(old(caches), path)
      ensures forall i :: i in caches ==> i in old(caches) && caches[i] == old(caches)[i]
      ensures forall i :: i in old(caches) && old(caches)[i].path != path ==> i in caches
    {
      var rest := caches.Keys;
      while rest != {}
        invariant rest <= caches.Keys && caches == old(caches)
        invariant forall i :: i in caches && i !in rest ==> caches[i].path != path
        decreases rest
      {
        var it :| it in rest;
        if caches[it].path == path {
          RemoveSize(caches, it);
          caches := caches - {it};
          return true;
        }
        rest := rest - {it};
      }
      return false;
    }
  }

  lemma NewId(caches: map<nat, FileCache>, lruTick: nat, nextFsId: nat)
    requires CachesValid(caches, lruTick, nextFsId)
    ensures nextFsId + 1 !in caches && |caches| <= MAX_FILE_CACHES
  {
  }

  lemma Evicted(caches: map<nat, FileCache>, lruTick: nat, nextFsId: nat, id: nat, path: Name)
    requires CachesValid(caches, lruTick, nextFsId) && id in caches && !Cached(caches, path)
    ensures CachesValid(caches - {id}, lruTick, nextFsId) && |caches - {id}| < MAX_FILE_CACHES && !Cached(caches - {id}, path)
  {
    RemoveSize(caches, id);
  }

  lemma Inserted(caches: map<nat, FileCache>, lruTick: nat, nextFsId: nat, path: Name, buffer: seq<nat>)
    requires CachesValid(caches, lruTick, nextFsId) && |caches| < MAX_FILE_CACHES && !Cached(caches, path)
    ensures nextFsId + 1 !in caches && CachesValid(caches[nextFsId + 1 := FileCache(path, buffer, lruTick + 1)], lruTick + 1, nextFsId + 1)
  {
    AddSize(caches, nextFsId + 1, FileCache(path, buffer, lruTick + 1));
  }

  lemma RemoveSize(m: map<nat, FileCache>, k: nat)
    requires k in m
    ensures |m - {k}| == |m| - 1
  {
    var m' := m - {k};
    assert m'.Keys == m.Keys - {k};
    assert |m'| == |m'.Keys| && |m| == |m.Keys|;
  }

  lemma AddSize(m: map<nat, FileCache>, k: nat, c: FileCache)
    requires k !in m
    ensures |m[k := c]| == |m| + 1
  {
    assert m[k := c].Keys == m.Keys + {k};
    assert |m[k := c]| == |m[k := c].Keys| && |m| == |m.Keys|;
  }
}
