/** The disk thread's write and read caches. The thread is the only one to change them. */
module DiskCaching {
  import opened Arith
  import opened DiskBlocks
  import opened CacheLists
  import opened CacheUse

  /** Times are in milliseconds. */
  const ONE_SECOND := 1000

  datatype Settings = Settings(cacheSize: int, coalesceWrites: bool, coalesceReads: bool, lru: bool,
                               writeCacheLineSize: int, readCacheLineSize: int)

  /** A block to be written: `buffer` is a whole pool buffer. */
  datatype WriteJob = WriteJob(id: PieceId, offset: int, buffer: seq<Byte>)

  class DiskCache {
    /** The length of every piece, from the storages' file lists. */
    const size: PieceId -> nat
    var settings: Settings
    var disk: Disk
    /** Write cache. */
    var pieces: seq<Entry>
    /** Read cache. */
    var readPieces: seq<Entry>
    var cacheSize: int
    var readCacheSize: int
    /** Disk buffers handed out, in the caches or elsewhere. */
    var inUse: int
    /** How many writes found their cache block occupied; each leaves `cacheSize` one too high. */
    ghost var overwritten: nat

    ghost predicate DiskOk()
      reads this`disk, this`pieces, this`readPieces
    {
      && (forall id :: id in disk ==> |disk[id]| == size(id) <= INT_MAX)
      && (forall i :: 0 <= i < |pieces| ==> pieces[i].id in disk)
      && (forall i :: 0 <= i < |readPieces| ==> readPieces[i].id in disk)
    }

    /** The invariant, except that write cache entries may have run empty. */
    ghost predicate Accounted()
      reads this`disk, this`pieces, this`readPieces, this`cacheSize, this`readCacheSize, this`overwritten
    {
      && DiskOk()
      && ListOk(size, pieces) && ListOk(size, readPieces) && DistinctIds(pieces) && DistinctIds(readPieces)
      && cacheSize == Total(pieces) + Total(readPieces) + overwritten
      && readCacheSize == Total(readPieces)
    }

    ghost predicate Valid()
      reads this`disk, this`pieces, this`readPieces, this`cacheSize, this`readCacheSize, this`overwritten
    {
      Accounted() && NoEmpty(pieces) && NoEmpty(readPieces)
    }

    /** Both caches start empty. */
    constructor (size: PieceId -> nat, settings: Settings, disk: Disk)
      requires forall id :: id in disk ==> |disk[id]| == size(id) <= INT_MAX
      ensures Valid() && this.size == size && this.settings == settings && this.disk == disk
      ensures pieces == [] && readPieces == [] && cacheSize == readCacheSize == inUse == overwritten == 0
    {
      this.size, this.settings, this.disk := size, settings, disk;
      pieces, readPieces, cacheSize, readCacheSize, inUse, overwritten := [], [], 0, 0, 0, 0;
    }

    ghost function Content(id: PieceId): seq<Byte>
      reads this
      requires id in disk
    {
      ContentOf(disk, pieces, id)
    }

    /** Writes the cached blocks start..end of a piece and drops them; returns their number. */
    method FlushRange(e: nat, start: int, end0: int) returns (ret: nat)
      requires Accounted() && e < |pieces| && 0 <= start < end0 && start < |pieces[e].slots|
      modifies this`disk, this`pieces, this`cacheSize, this`inUse
      ensures Accounted() && |pieces| == |old(pieces)|
      ensures SameContent(old(disk), old(pieces), disk, pieces)
      ensures var p, end := old(pieces)[e], Min(end0, |old(pieces)[e].slots|);
              && ret == FullIn(p.slots, start, end)
              && pieces == old(pieces)[e := Entry(p.id, p.lastUse, p.numBlocks - ret, Cleared(p.slots, start, end))]
              && disk == old(disk)[p.id := Overlaid(old(disk)[p.id], p.slots, start, end)]
      ensures cacheSize == old(cacheSize) - ret && inUse == old(inUse) - ret
      ensures NoNewBlocks(old(pieces), pieces)
    {
      hide Overlaid, Cleared, FullIn, SameContent, NoNewBlocks, Total, SlotsOk, DistinctIds;
      var p := pieces[e];
      assert EntryOk(size, p);
      var end := Min(end0, |p.slots|);
      var content, flushed := WriteRuns(settings.coalesceWrites, disk[p.id], p.slots, size(p.id), start, end);
      var slots;
      slots, ret := Release(p.slots, start, end);
      ClearedEntry(size, p, start, end);
      var p' := Entry(p.id, p.lastUse, p.numBlocks - flushed, slots);
      FlushedContent(size, disk, pieces, e, start, end, p');
      TotalReplaced(pieces, e, p');
      DistinctAfterReplace(pieces, e, p');
      ClearedNoNewBlocks(pieces, e, start, end, p');
      disk := disk[p.id := content];
      pieces := pieces[e := p'];
      cacheSize := cacheSize - flushed;
      inUse := inUse - ret;
    }

    /** Drops a write cache entry that has run empty. */
    method EraseEmpty(e: nat)
      requires Accounted() && e < |pieces| && pieces[e].numBlocks == 0
      modifies this`pieces
      ensures Accounted() && pieces == Without(old(pieces), e)
      ensures SameContent(disk, old(pieces), disk, pieces) && NoNewBlocks(old(pieces), pieces)
    {
      hide SameContent, NoNewBlocks, Total, ListOk, DistinctIds, Without;
      WithoutNoNewBlocks(pieces, e);
      RemovedContent(size, disk, pieces, e);
      TotalRemoved(pieces, e);
      pieces := Without(pieces, e);
    }

    /** Flushes the longest run of cached blocks of a piece, unless it is shorter than `lowerLimit`. */
    method FlushContiguousBlocks(e: nat, lowerLimit: int) returns (len: int)
      requires Valid() && e < |pieces|
      modifies this`disk, this`pieces, this`cacheSize, this`inUse
      ensures Valid() && SameContent(old(disk), old(pieces), disk, pieces) && NoNewBlocks(old(pieces), pieces)
      ensures len >= 0 && cacheSize == old(cacheSize) - len && inUse == old(inUse) - len
      ensures len == 0 ==> pieces == old(pieces) && disk == old(disk)
      ensures len == 0 ==> forall lo, hi :: AllFull(old(pieces)[e].slots, lo, hi) && hi > lo ==> hi - lo < lowerLimit
      ensures len > 0 ==> len >= lowerLimit && forall lo, hi :: AllFull(old(pieces)[e].slots, lo, hi) ==> hi - lo <= len
      ensures LineFlushed(old(pieces), e, lowerLimit, pieces)
    {
      hide SameContent, NoNewBlocks, Total, FullIn, Cleared, Overlaid, DistinctIds, ListOk, Without, LineFlushed;
      SameContentReflexive(disk, pieces);
      NoNewBlocksReflexive(pieces);
      var pos;
      pos, len := LongestRun(pieces[e].slots);
      if len < lowerLimit || len <= 0 {
        assert RunFlushed(pieces, e, lowerLimit, pieces, pos, pos + len);
        IsLineFlushed(pieces, e, lowerLimit, pieces, pos, pos + len);
        return 0;
      }
      AllFullCount(pieces[e].slots, pos, pos + len);
      len := FlushRange(e, pos, pos + len);
      if pieces[e].numBlocks == 0 {
        ghost var d1, p1 := disk, pieces;
        EraseEmpty(e);
        SameContentTransitive(old(disk), old(pieces), d1, p1, disk, pieces);
        NoNewBlocksTransitive(old(pieces), p1, pieces);
        WithoutReplaced(old(pieces), e, p1[e]);
      } else {
        CountsArePositive(size, pieces);
      }
      assert RunFlushed(old(pieces), e, lowerLimit, pieces, pos, pos + len);
      IsLineFlushed(old(pieces), e, lowerLimit, pieces, pos, pos + len);
    }

    /** Flushes a whole piece and forgets it: afterwards the disk holds the piece's content. */
    method FlushAndRemove(e: nat) returns (ret: nat)
      requires Valid() && e < |pieces|
      modifies this`disk, this`pieces, this`cacheSize, this`inUse
      ensures Valid() && SameContent(old(disk), old(pieces), disk, pieces) && NoNewBlocks(old(pieces), pieces)
      ensures ret == old(pieces)[e].numBlocks > 0 && cacheSize == old(cacheSize) - ret && inUse == old(inUse) - ret
      ensures pieces == Without(old(pieces), e)
      ensures var id := old(pieces)[e].id;
              FindEntry(pieces, id) == |pieces| && disk[id] == old(Content(id))
    {
      hide SameContent, NoNewBlocks, Total, Cleared, Overlaid, ListOk, FindEntry, FullIn, Without;
      assert EntryOk(size, pieces[e]) by { assert pieces[e] in pieces; EntryAt(size, pieces, e); }
      ghost var id := pieces[e].id;
      WholePieceFits(size(id), |pieces[e].slots|);
      ret := FlushRange(e, 0, INT_MAX);
      ghost var d1, p1 := disk, pieces;
      EraseEmpty(e);
      SameContentTransitive(old(disk), old(pieces), d1, p1, disk, pieces);
      NoNewBlocksTransitive(old(pieces), p1, pieces);
      FindAfterRemove(p1, e, id);
      WithoutReplaced(old(pieces), e, p1[e]);
      UncachedIsDisk(old(disk), old(pieces), disk, pieces, id);
    }

    /** Frees blocks of the least recently used read piece unless it is to be spared; returns their number. */
    method ClearOldestReadPiece(num: nat, ignore: Ignored, now: int) returns (freed: nat)
      requires Valid()
      modifies this`readPieces, this`cacheSize, this`readCacheSize, this`inUse
      ensures Valid()
      ensures cacheSize == old(cacheSize) - freed && readCacheSize == old(readCacheSize) - freed &&
              inUse == old(inUse) - freed
      ensures old(readPieces) == [] ==> freed == 0 && readPieces == []
      ensures old(readPieces) != [] ==>
              exists i, p :: Evicted(old(readPieces), readPieces, num, ignore, now, i, p, freed)
      ensures NoNewIds(old(readPieces), readPieces) && RecentKept(old(readPieces), readPieces, ignore, now)
    {
      hide Total, DistinctIds, EntryOk, Shrunk, IsOldest, NoNewIds, Evicted, Spared, RecentKept;
      NoneEvicted(readPieces, num, ignore, now);
      RecentReflexive(readPieces, ignore, now);
      var i := Oldest(readPieces);
      if i == |readPieces| { return 0; }
      if Spared(readPieces[i], ignore, now) { return 0; }
      var p;
      p, freed := FreeBlocks(size, readPieces[i], num);
      ShrunkList(size, readPieces, i, p);
      cacheSize, readCacheSize, inUse := cacheSize - freed, readCacheSize - freed, inUse - freed;
      readPieces := Shrunk(readPieces, i, p);
      EvictedIds(old(readPieces), readPieces, num, ignore, now, i, p, freed);
      EvictedKeepsRecent(old(readPieces), i, p, ignore, now);
    }

    /**
      Frees read blocks until `blocks0` are free or no read piece may be touched; returns what was freed and what is
      left to free.
     */
    method ClearReadPieces(blocks0: int, ignore: Ignored, now: int) returns (ret: nat, blocks: int)
      requires Valid() && blocks0 > 0
      modifies this`readPieces, this`cacheSize, this`readCacheSize, this`inUse
      ensures Valid() && blocks == blocks0 - ret && 0 <= blocks
      ensures cacheSize == old(cacheSize) - ret && readCacheSize == old(readCacheSize) - ret &&
              inUse == old(inUse) - ret
      ensures blocks > 0 ==> NoneToClear(readPieces, ignore, now)
      ensures NoNewIds(old(readPieces), readPieces) && RecentKept(old(readPieces), readPieces, ignore, now)
    {
      hide Accounted, Evicted, NoneToClear, NoNewIds, RecentKept;
      NoneEvicted(readPieces, 0, ignore, now);
      RecentReflexive(readPieces, ignore, now);
      ret, blocks := 0, blocks0;
      var tmp := 1;
      while tmp > 0 && blocks > 0
        invariant Valid() && blocks == blocks0 - ret && 0 <= blocks && 0 <= tmp
        invariant cacheSize == old(cacheSize) - ret && readCacheSize == old(readCacheSize) - ret &&
                  inUse == old(inUse) - ret
        invariant tmp == 0 ==> NoneToClear(readPieces, ignore, now)
        invariant NoNewIds(old(readPieces), readPieces) && RecentKept(old(readPieces), readPieces, ignore, now)
        decreases blocks, tmp
      {
        ghost var before := readPieces;
        ghost var wanted := blocks;
        tmp := ClearOldestReadPiece(blocks, ignore, now);
        ClearedSome(before, readPieces, wanted, ignore, now, tmp);
        NoNewIdsTransitive(old(readPieces), before, readPieces);
        RecentTransitive(old(readPieces), before, readPieces, ignore, now);
        blocks, ret := blocks - tmp, ret + tmp;
      }
    }

    /** One round of the write cache policy: flushes the least recently used piece, or the longest run. */
    method FlushOne() returns (freed: nat)
      requires Valid() && pieces != []
      modifies this`disk, this`pieces, this`cacheSize, this`inUse
      ensures Valid() && SameContent(old(disk), old(pieces), disk, pieces) && NoNewBlocks(old(pieces), pieces)
      ensures freed > 0 && cacheSize == old(cacheSize) - freed && inUse == old(inUse) - freed
      ensures FlushStep(settings.lru, old(pieces), pieces) && (settings.lru ==> OldestLeft(old(pieces), pieces, None))
      ensures settings.lru ==> exists i :: IsOldest(old(pieces), i) && freed == old(pieces)[i].numBlocks
      ensures !settings.lru ==> forall j, lo, hi ::
                0 <= j < |old(pieces)| && AllFull(old(pieces)[j].slots, lo, hi) ==>
                  hi - lo <= freed
    {
      hide SameContent, NoNewBlocks, Total, DistinctIds, FullCount, OldestLeft, LineFlushed, Without;
      if settings.lru {
        var i := Oldest(pieces);
        OldestOut(pieces, i);
        freed := FlushAndRemove(i);
      } else {
        var i := MostContiguous(pieces);
        ghost var k := SomeRun(size, pieces[i]);
        freed := FlushContiguousBlocks(i, 0);
      }
    }

    /** Frees at least `blocks0` blocks if it may and can; what the caches and the disk say together does not change. */
    method FlushCacheBlocks(blocks0: int, ignore: Ignored, dontFlushWriteBlocks: bool, now: int) returns (ret: nat)
      requires Valid() && blocks0 > 0
      modifies this`disk, this`pieces, this`readPieces, this`cacheSize, this`readCacheSize, this`inUse
      ensures Valid() && SameContent(old(disk), old(pieces), disk, pieces) && NoNewBlocks(old(pieces), pieces)
      ensures cacheSize == old(cacheSize) - ret && inUse == old(inUse) - ret && readCacheSize <= old(readCacheSize)
      ensures dontFlushWriteBlocks ==> disk == old(disk) && pieces == old(pieces) && ret <= blocks0
      ensures dontFlushWriteBlocks && ret < blocks0 ==> NoneToClear(readPieces, ignore, now)
      ensures NoNewIds(old(readPieces), readPieces) && RecentKept(old(readPieces), readPieces, ignore, now)
      ensures !dontFlushWriteBlocks ==> ret >= blocks0 || pieces == []
      ensures settings.lru ==> OldestLeft(old(pieces), pieces, None)
      ensures FlushedOnDemand(settings.lru, old(pieces), pieces, blocks0 - (old(readCacheSize) - readCacheSize))
    {
      hide Accounted, NoEmpty, SameContent, NoNewBlocks, NoneToClear, NoNewIds, OldestLeft, FlushedOnDemand, FlushStep,
           RecentKept;
      SameContentReflexive(disk, pieces);
      NoNewBlocksReflexive(pieces);
      NoneLeft(pieces, None);
      var blocks;
      ret, blocks := ClearReadPieces(blocks0, ignore, now);
      ghost var wanted := blocks;
      NoRounds(settings.lru, pieces, wanted);
      if dontFlushWriteBlocks { return; }
      WriteTotal();
      while blocks > 0
        invariant Valid() && blocks == blocks0 - ret
        invariant SameContent(old(disk), old(pieces), disk, pieces) && NoNewBlocks(old(pieces), pieces)
        invariant NoNewIds(old(readPieces), readPieces) && RecentKept(old(readPieces), readPieces, ignore, now)
        invariant settings.lru ==> OldestLeft(old(pieces), pieces, None)
        invariant cacheSize == old(cacheSize) - ret && inUse == old(inUse) - ret
        invariant readCacheSize == old(readCacheSize) - (blocks0 - wanted)
        invariant FlushedOnDemand(settings.lru, old(pieces), pieces, wanted)
        decreases blocks
      {
        ghost var d1, p1 := disk, pieces;
        if pieces == [] { return; }
        WriteTotal();
        var tmp := FlushOne();
        OneMoreRound(settings.lru, old(pieces), p1, pieces, wanted);
        SameContentTransitive(old(disk), old(pieces), d1, p1, disk, pieces);
        if settings.lru { OldestLeftTransitive(old(pieces), p1, pieces); }
        NoNewBlocksTransitive(old(pieces), p1, pieces);
        blocks, ret := blocks - tmp, ret + tmp;
      }
    }

    lemma WriteTotal()
      requires Valid()
      ensures Total(pieces) == cacheSize - readCacheSize - overwritten
    {
      hide ListOk, DistinctIds, NoEmpty;
    }

    /** Puts a block into a piece of the write cache; a block that is there already is freed but not uncounted. */
    method InsertBlock(i: nat, b: int, data: seq<Byte>, now: int)
      requires Valid() && i < |pieces| && 0 <= b < |pieces[i].slots| && |data| == BLOCK
      modifies this`pieces, this`cacheSize, this`inUse, this`overwritten
      ensures Valid() && BlockWritten(disk, old(pieces), disk, pieces, old(pieces)[i].id, b, data)
      ensures pieces == old(pieces)[i := Refreshed(old(pieces)[i], b, data, now)] && cacheSize == old(cacheSize) + 1
      ensures overwritten == old(overwritten) + (if old(pieces)[i].slots[b].Full? then 1 else 0)
      ensures inUse == old(inUse) - (overwritten - old(overwritten))
    {
      hide BlockWritten, Total, DistinctIds, EntryOk;
      var p := pieces[i];
      var numBlocks := p.numBlocks;
      if p.slots[b].Full? {
        inUse, numBlocks := inUse - 1, numBlocks - 1;
        overwritten := overwritten + 1;
      }
      var p' := Entry(p.id, now, numBlocks + 1, p.slots[b := Full(data)]);
      InsertedContent(size, disk, pieces, i, b, data, p');
      TotalReplaced(pieces, i, p');
      DistinctAfterReplace(pieces, i, p');
      pieces, cacheSize := pieces[i := p'], cacheSize + 1;
    }

    /** Starts caching a piece with its first block, unless it has only one; returns -1 then. */
    method CacheBlock(id: PieceId, b: int, data: seq<Byte>, now: int) returns (r: int)
      requires Valid() && id in disk && FindEntry(pieces, id) == |pieces|
      requires size(id) > 0 && 0 <= b < BlockCount(size(id)) && |data| == BLOCK
      modifies this`pieces, this`cacheSize
      ensures Valid() && (r == 0 || r == -1)
      ensures r == -1 ==> pieces == old(pieces) && cacheSize == old(cacheSize)
      ensures r == -1 <==> BlockCount(size(id)) <= 1
      ensures r == 0 ==> BlockWritten(disk, old(pieces), disk, pieces, id, b, data) && cacheSize == old(cacheSize) + 1
      ensures r == 0 ==> pieces == old(pieces) + [Entry(id, now, 1, NoSlots(size(id))[b := Full(data)])]
    {
      hide BlockWritten, Total, EntryOk, FindEntry, NoSlots;
      if BlockCount(size(id)) <= 1 { return -1; }
      NoSlotsEmpty(size(id));
      var p := Entry(id, now, 1, NoSlots(size(id))[b := Full(data)]);
      FirstBlock(size, p, b, data);
      AppendedContent(disk, pieces, p, NoSlots(size(id)), b, data);
      TotalAppended(pieces, p);
      pieces, cacheSize, r := pieces + [p], cacheSize + 1, 0;
    }

    /** The buffer in the write cache, or straight on disk. `kept` says that the cache took it over. */
    method TakeBlock(id: PieceId, b: int, data: seq<Byte>, now: int) returns (kept: bool)
      requires Valid() && id in disk && size(id) > 0 && 0 <= b < BlockCount(size(id)) && |data| == BLOCK
      modifies this`disk, this`pieces, this`cacheSize, this`inUse, this`overwritten
      ensures Valid() && BlockWritten(old(disk), old(pieces), disk, pieces, id, b, data)
      ensures overwritten == old(overwritten) + (if Occupied(old(pieces), id, b) then 1 else 0)
      ensures inUse - cacheSize ==
              old(inUse) - old(cacheSize) - (if kept then 1 else 0) - (overwritten - old(overwritten))
      ensures inUse <= old(inUse) && cacheSize <= old(cacheSize) + 1 && (!kept ==> pieces == old(pieces))
      ensures kept <==> FindEntry(old(pieces), id) < |old(pieces)| || BlockCount(size(id)) > 1
      ensures BlockTaken(old(pieces), pieces, size(id), id, b, data, now, settings.writeCacheLineSize)
      ensures OthersKept(old(pieces), pieces, id) && UsedNow(old(pieces), pieces, id, now)
    {
      hide BlockWritten, Accounted, NoEmpty, FindEntry, Written, SameContent, NoNewBlocks, UsedNow, OthersKept,
           LineFlushed, BlockTaken, DistinctIds;
      Distinct();
      var i := FindEntry(pieces, id);
      if i < |pieces| {
        SlotsThere(i);
        InsertBlock(i, b, data, now);
        ghost var d1, p1 := disk, pieces;
        var _ := FlushContiguousBlocks(i, settings.writeCacheLineSize);
        FlushAfterWrite(old(disk), old(pieces), d1, p1, disk, pieces, id, b, data);
        TakenIntoLine(old(pieces), pieces, size(id), i, b, data, now, settings.writeCacheLineSize);
        return true;
      }
      var r := CacheBlock(id, b, data, now);
      if r >= 0 {
        TakenAsFirst(old(pieces), pieces, size(id), id, b, data, now, settings.writeCacheLineSize);
        return true;
      }
      NotTaken(pieces, size(id), id, b, data, now, settings.writeCacheLineSize);
      WriteThrough(id, b, data);
      return false;
    }

    lemma Distinct()
      requires Valid()
      ensures DistinctIds(pieces)
    {
      hide ListOk, Total;
    }

    lemma SlotsThere(i: int)
      requires Valid() && 0 <= i < |pieces|
      ensures |pieces[i].slots| == BlockCount(size(pieces[i].id))
    {
      hide FullCount, Total, DistinctIds;
    }

    method WriteThrough(id: PieceId, b: int, data: seq<Byte>)
      requires Valid() && id in disk && FindEntry(pieces, id) == |pieces|
      requires 0 <= b < BlockCount(size(id)) && |data| == BLOCK
      modifies this`disk
      ensures Valid() && BlockWritten(old(disk), pieces, disk, pieces, id, b, data)
    {
      hide BlockWritten, ListOk, NoEmpty, Total, FindEntry, Written, DistinctIds;
      DirectContent(disk, pieces, id, b, data);
      disk := disk[id := Written(disk[id], b * BLOCK, data[..BlockLength(size(id), b)])];
    }

    /**
      A write job: afterwards the piece's content is the old one with the block written, whatever was flushed. The
      source asserts that the block is not cached already; if it is, only the count of cached blocks goes wrong.
     */
    method Write(j: WriteJob, now: int)
      requires Valid() && j.id in disk && j.offset % BLOCK == 0 && 0 <= j.offset < size(j.id) && |j.buffer| == BLOCK
      modifies this`disk, this`pieces, this`readPieces, this`cacheSize, this`readCacheSize, this`inUse, this`overwritten
      ensures Valid()
      ensures BlockWritten(old(disk), old(pieces), disk, pieces, j.id, j.offset / BLOCK, j.buffer)
      ensures inUse - cacheSize == old(inUse) - old(cacheSize) - 1 - (overwritten - old(overwritten))
      ensures inUse <= settings.cacheSize || pieces == []
      ensures old(overwritten) <= overwritten <= old(overwritten) + 1
      ensures overwritten > old(overwritten) ==> Occupied(old(pieces), j.id, j.offset / BLOCK)
      ensures old(inUse) < settings.cacheSize && Occupied(old(pieces), j.id, j.offset / BLOCK) ==>
                overwritten > old(overwritten)
      ensures old(cacheSize) < old(inUse) && overwritten == old(overwritten) ==>
                cacheSize <= Max(old(cacheSize), settings.cacheSize)
      ensures UsedNow(old(pieces), pieces, j.id, now)
      ensures settings.lru ==> OldestLeft(old(pieces), pieces, Only(j.id))
    {
      hide BlockWritten, Accounted, NoEmpty, FindEntry, SameContent, UsedNow, OthersKept, OldestLeft, NoNewBlocks,
           BlockTaken;
      ReadPart();
      NoneLeft(pieces, None);
      SameContentReflexive(disk, pieces);
      NoNewBlocksReflexive(pieces);
      var b := j.offset / BLOCK;
      if inUse >= settings.cacheSize {
        var _ := FlushCacheBlocks(inUse - settings.cacheSize + 1, NoPiece, false, now);
      }
      StillEmpty(old(pieces), pieces, j.id, b);
      KeepsPieces(old(disk), old(pieces), disk, pieces, j.id);
      ghost var d1, p1 := disk, pieces;
      var kept := TakeBlock(j.id, b, j.buffer, now);
      FlushBeforeWrite(old(disk), old(pieces), d1, p1, disk, pieces, j.id, b, j.buffer);
      UsedAfterFlush(old(pieces), p1, pieces, j.id, now);
      ghost var d2, p2 := disk, pieces;
      NoneLeft(p2, None);
      NoNewBlocksReflexive(p2);
      if !kept {
        inUse := inUse - 1;
      } else if inUse > settings.cacheSize {
        var _ := FlushCacheBlocks(inUse - settings.cacheSize, NoPiece, false, now);
        FlushAfterWrite(old(disk), old(pieces), d2, p2, disk, pieces, j.id, b, j.buffer);
        FlushedAfterUse(old(pieces), p2, pieces, j.id, now);
      }
      if settings.lru { OldestLeftAround(old(pieces), p1, p2, pieces, j.id); }
      ReadPart();
    }

    /** The read blocks are some of the cached ones, and all of them when nothing waits to be written. */
    lemma ReadPart()
      requires Valid()
      ensures readCacheSize + overwritten <= cacheSize && (pieces == [] ==> cacheSize == readCacheSize + overwritten)
    {
      hide EntryOk;
      TotalIsCount(size, pieces);
    }

    /** The flush a hash job starts with: the piece is then read from disk, where all of its content is. */
    method FlushForHash(id: PieceId)
      requires Valid() && id in disk
      modifies this`disk, this`pieces, this`cacheSize, this`inUse
      ensures Valid() && SameContent(old(disk), old(pieces), disk, pieces)
      ensures disk[id] == old(Content(id)) && FindEntry(pieces, id) == |pieces|
    {
      hide FindEntry, Accounted, NoEmpty, SameContent;
      SameContentReflexive(disk, pieces);
      var i := FindEntry(pieces, id);
      if i < |pieces| {
        var _ := FlushAndRemove(i);
        KeepsPieces(old(disk), old(pieces), disk, pieces, id);
      }
    }

    /** Allocates buffers for consecutive blocks from `start` on while the cache has room; returns how far it got. */
    method AllocateBlocks(p: Entry, start: int, ignoreCacheSize: bool, num: int) returns (p': Entry, end: int)
      requires EntryOk(size, p) && 0 <= start < |p.slots|
      modifies this`cacheSize, this`readCacheSize, this`inUse
      ensures start <= end <= |p.slots| && end - start <= Max(num, 1)
      ensures cacheSize == old(cacheSize) + (end - start) && readCacheSize == old(readCacheSize) + (end - start)
      ensures inUse == old(inUse) + (end - start) && (ignoreCacheSize || inUse <= Max(old(inUse), settings.cacheSize))
      ensures p'.id == p.id && p'.lastUse == p.lastUse && p'.numBlocks == p.numBlocks + (end - start)
      ensures EntryOk(size, p')
      ensures NewBlocks(p.slots, p'.slots, start, end)
    {
      hide FullCount;
      p', end := p, start;
      while end < |p.slots| && (inUse < settings.cacheSize || ignoreCacheSize)
        invariant start <= end <= |p.slots| && end - start <= Max(num, 1)
        invariant end > start ==> end - start < num
        invariant cacheSize == old(cacheSize) + (end - start) && readCacheSize == old(readCacheSize) + (end - start)
        invariant inUse == old(inUse) + (end - start) &&
                  (ignoreCacheSize || inUse <= Max(old(inUse), settings.cacheSize))
        invariant p'.id == p.id && p'.lastUse == p.lastUse && p'.numBlocks == p.numBlocks + (end - start)
        invariant EntryOk(size, p')
        invariant NewBlocks(p.slots, p'.slots, start, end)
      {
        var gotBuffer: bool := *;
        if p'.slots[end].Full? || !gotBuffer { break; }
        var slot := Full(seq(BLOCK, _ => 0));
        SetCount(p'.slots, end, slot);
        p' := Entry(p.id, p.lastUse, p'.numBlocks + 1, p'.slots[end := slot]);
        cacheSize, readCacheSize, inUse := cacheSize + 1, readCacheSize + 1, inUse + 1;
        end := end + 1;
        if end - start >= num { break; }
      }
    }

    /** Reads blocks from `start` on into a piece; -2 if there was room for none, else the number of bytes. */
    method ReadIntoPiece(p: Entry, start: int, ignoreCacheSize: bool, num: int) returns (p': Entry, ret: int)
      requires EntryOk(size, p) && p.id in disk && |disk[p.id]| == size(p.id) && 0 <= start < |p.slots|
      modifies this`cacheSize, this`readCacheSize, this`inUse
      ensures EntryOk(size, p') && p'.id == p.id && p'.lastUse == p.lastUse
      ensures p.numBlocks <= p'.numBlocks <= p.numBlocks + Max(num, 1)
      ensures ignoreCacheSize || inUse <= Max(old(inUse), settings.cacheSize)
      ensures cacheSize - old(cacheSize) == readCacheSize - old(readCacheSize) == inUse - old(inUse) ==
              p'.numBlocks - p.numBlocks
      ensures var end := start + (p'.numBlocks - p.numBlocks);
              && end <= |p.slots| && NewBlocks(p.slots, p'.slots, start, end)
              && (forall i :: start <= i < end ==> HoldsBlock(disk[p.id], p'.slots[i], i))
              && ret == if end == start then -2 else Min(end * BLOCK, size(p.id)) - start * BLOCK
    {
      hide FullCount, EntryOk;
      var end;
      p', end := AllocateBlocks(p, start, ignoreCacheSize, num);
      if end == start { return p', -2; }
      ret := Min((end - start) * BLOCK, size(p.id) - start * BLOCK);
      ReadStays(size, p, p', start, end, ret);
      if settings.coalesceReads {
        p' := Distribute(size, p', start, end, disk[p.id], disk[p.id][start * BLOCK..start * BLOCK + ret]);
      } else {
        p' := Scatter(size, p', start, end, disk[p.id]);
      }
    }

    /** Brings blocks of an uncached piece into the read cache, making room among the read pieces only. */
    method CacheReadBlock(id: PieceId, offset: int, now: int) returns (ret: int)
      requires Valid() && id in disk && 0 <= offset < size(id) && FindEntry(readPieces, id) == |readPieces|
      modifies this`disk, this`pieces, this`readPieces, this`cacheSize, this`readCacheSize, this`inUse
      ensures Valid() && disk == old(disk) && pieces == old(pieces)
      ensures ret == -2 || ret > 0
      ensures inUse - cacheSize == old(inUse) - old(cacheSize)
      ensures old(cacheSize) <= old(inUse) ==> cacheSize <= Max(old(cacheSize), settings.cacheSize)
      ensures RecentKept(old(readPieces), readPieces, NoPiece, now)
      ensures ret > 0 ==> |readPieces| > 0 && readPieces[|readPieces| - 1].id == id &&
                          readPieces[|readPieces| - 1].lastUse == now &&
                          readPieces[|readPieces| - 1].numBlocks <= Max(settings.readCacheLineSize, 1) &&
                          HoldsBlock(disk[id], readPieces[|readPieces| - 1].slots[offset / BLOCK], offset / BLOCK)
    {
      hide ListOk, DistinctIds, Total, NoEmpty, EntryOk, SameContent, NoNewBlocks, NoneToClear, NoNewIds, FindEntry,
           RecentKept;
      RecentReflexive(readPieces, NoPiece, now);
      NoneEvicted(readPieces, 0, NoPiece, now);
      var blocks := BlockCount(size(id));
      var start := offset / BLOCK;
      var toRead := Min(blocks - start, Max((settings.cacheSize + readCacheSize - inUse) / 2, 3));
      toRead := Min(toRead, settings.readCacheLineSize);
      if inUse + toRead > settings.cacheSize {
        var freed := FlushCacheBlocks(inUse + toRead - settings.cacheSize, NoPiece, true, now);
        if freed == 0 { return -2; }
      }
      var p := Entry(id, now, 0, NoSlots(size(id)));
      EmptyEntry(size, p);
      var p';
      p', ret := ReadIntoPiece(p, start, false, toRead);
      if ret < 0 { return; }
      StillAbsent(old(readPieces), readPieces, id);
      DistinctAppended(readPieces, p');
      ghost var kept := readPieces;
      AppendRead(p');
      RecentAppended(old(readPieces), kept, p', NoPiece, now);
    }

    /**
      Brings a whole uncached piece into the read cache whatever its limit, as hashing from the cache needs it. The
      limit is exceeded only when nothing is left that could be written out.
     */
    method CacheReadPiece(id: PieceId, now: int) returns (ret: int)
      requires Valid() && id in disk && size(id) > 0 && FindEntry(readPieces, id) == |readPieces|
      modifies this`disk, this`pieces, this`readPieces, this`cacheSize, this`readCacheSize, this`inUse
      ensures Valid() && SameContent(old(disk), old(pieces), disk, pieces) && id in disk
      ensures ret == -2 || ret > 0
      ensures inUse - cacheSize == old(inUse) - old(cacheSize)
      ensures old(cacheSize) <= old(inUse) ==> cacheSize <= settings.cacheSize || pieces == []
      ensures ret == size(id) ==>
                && |readPieces| > 0 && readPieces[|readPieces| - 1].id == id
                && readPieces[|readPieces| - 1].lastUse == now
                && WholePiece(disk[id], readPieces[|readPieces| - 1]) && cacheSize >= BlockCount(size(id))
    {
      hide ListOk, DistinctIds, Total, NoEmpty, EntryOk, SameContent, NoNewBlocks, NoneToClear, NoNewIds, FindEntry,
           WholePiece;
      SameContentReflexive(disk, pieces);
      NoneEvicted(readPieces, 0, NoPiece, now);
      var blocks := BlockCount(size(id));
      if inUse + blocks > settings.cacheSize {
        var _ := FlushCacheBlocks(inUse + blocks - settings.cacheSize, NoPiece, false, now);
        KeepsPieces(old(disk), old(pieces), disk, pieces, id);
      }
      var p := Entry(id, now, 0, NoSlots(size(id)));
      EmptyEntry(size, p);
      var p';
      p', ret := ReadIntoPiece(p, 0, true, INT_MAX);
      if ret < 0 { return; }
      StillAbsent(old(readPieces), readPieces, id);
      DistinctAppended(readPieces, p');
      AppendRead(p');
      CountsPiece();
      if ret == size(id) { ReadWhole(size(id), p', disk[id]); }
    }

    /** The blocks of the last read piece are among the cached ones. */
    lemma CountsPiece()
      requires Valid() && readPieces != []
      ensures cacheSize >= readPieces[|readPieces| - 1].numBlocks
    {
      hide EntryOk;
      TotalIsCount(size, pieces);
      TotalIsCount(size, readPieces[..|readPieces| - 1]);
    }

    /** Puts a piece whose blocks are already counted into the read cache. */
    method AppendRead(p: Entry)
      requires DiskOk() && ListOk(size, pieces) && ListOk(size, readPieces) && DistinctIds(pieces) &&
               DistinctIds(readPieces + [p])
      requires NoEmpty(pieces) && NoEmpty(readPieces) && p.id in disk && EntryOk(size, p) && p.numBlocks > 0
      requires cacheSize == Total(pieces) + Total(readPieces) + overwritten + p.numBlocks &&
               readCacheSize == Total(readPieces) + p.numBlocks
      modifies this`readPieces
      ensures Valid() && readPieces == old(readPieces) + [p]
    {
      hide EntryOk, DistinctIds, Total;
      TotalAppended(readPieces, p);
      readPieces := readPieces + [p];
    }
  }

  /**
    What the write cache holds after block `b` of a piece of `length` bytes was taken at time `now`. A piece already
    there is refreshed, and its first longest run of blocks is flushed if it makes a line; a piece of more than one
    block is added with this block alone.
   */
  ghost predicate BlockTaken(es: seq<Entry>, es': seq<Entry>, length: nat, id: PieceId, b: int, data: seq<Byte>,
                             now: int, line: int) {
    var i := FindEntry(es, id);
    if i < |es| then
      0 <= b < |es[i].slots| && LineFlushed(es[i := Refreshed(es[i], b, data, now)], i, line, es')
    else if BlockCount(length) > 1 then
      0 <= b < BlockCount(length) && es' == es + [Entry(id, now, 1, NoSlots(length)[b := Full(data)])]
    else es' == es
  }

  lemma TakenIntoLine(es: seq<Entry>, es': seq<Entry>, length: nat, i: nat, b: int, data: seq<Byte>, now: int,
                      line: int)
    requires DistinctIds(es) && i < |es| && 0 <= b < |es[i].slots| && FindEntry(es, es[i].id) == i
    requires LineFlushed(es[i := Refreshed(es[i], b, data, now)], i, line, es')
    ensures BlockTaken(es, es', length, es[i].id, b, data, now, line)
    ensures OthersKept(es, es', es[i].id) && UsedNow(es, es', es[i].id, now)
  {
    hide FindEntry, UsedNow, OthersKept, LineFlushed;
    var e := Refreshed(es[i], b, data, now);
    ReplacedKeepsOthers(es, i, e);
    LineKeepsOthers(es[i := e], i, line, es');
    OthersKeptTransitive(es, es[i := e], es', e.id);
    KeptIsUsed(es, es', e.id, now);
  }

  lemma TakenAsFirst(es: seq<Entry>, es': seq<Entry>, length: nat, id: PieceId, b: int, data: seq<Byte>, now: int,
                     line: int)
    requires FindEntry(es, id) == |es| && BlockCount(length) > 1 && 0 <= b < BlockCount(length)
    requires es' == es + [Entry(id, now, 1, NoSlots(length)[b := Full(data)])]
    ensures BlockTaken(es, es', length, id, b, data, now, line)
    ensures OthersKept(es, es', id) && UsedNow(es, es', id, now)
  {
    hide FindEntry, UsedNow, OthersKept;
    var e := Entry(id, now, 1, NoSlots(length)[b := Full(data)]);
    AppendedKeepsOthers(es, e);
    FindAfterAppend(es, e, id);
    KeptIsUsed(es, es', id, now);
  }

  lemma NotTaken(es: seq<Entry>, length: nat, id: PieceId, b: int, data: seq<Byte>, now: int, line: int)
    requires FindEntry(es, id) == |es| && BlockCount(length) <= 1
    ensures BlockTaken(es, es, length, id, b, data, now, line) && OthersKept(es, es, id) && UsedNow(es, es, id, now)
  {
    hide FindEntry, UsedNow;
    KeptIsUsed(es, es, id, now);
  }

  lemma IsLineFlushed(es: seq<Entry>, i: int, limit: int, es': seq<Entry>, lo: int, hi: int)
    requires RunFlushed(es, i, limit, es', lo, hi)
    ensures LineFlushed(es, i, limit, es')
  {
  }

  lemma WithoutReplaced(es: seq<Entry>, i: int, e: Entry)
    requires 0 <= i < |es|
    ensures Without(es[i := e], i) == Without(es, i)
  {
  }

  /** Frees a whole piece if it has no more than `num` blocks, else `num` blocks from its ends. */
  method FreeBlocks(size: PieceId -> nat, p: Entry, num: nat) returns (p': Entry, freed: nat)
    requires EntryOk(size, p) && p.numBlocks > 0
    ensures EntryOk(size, p') && p'.id == p.id && p'.lastUse == p.lastUse && p'.numBlocks == p.numBlocks - freed
    ensures freed == Min(num, p.numBlocks)
    ensures |p'.slots| == |p.slots| && forall k :: 0 <= k < |p.slots| ==>
            p'.slots[k] == p.slots[k] || p'.slots[k].Empty?
  {
    hide FullIn, Cleared, FullCount, SlotsOk;
    var slots;
    if num >= p.numBlocks {
      slots, freed := Release(p.slots, 0, |p.slots|);
      ClearedEntry(size, p, 0, |p.slots|);
      WholeCount(p.slots);
    } else {
      slots, freed := EvictEnds(p.slots, num);
      EvictedEntry(size, p, slots, num);
    }
    p' := Entry(p.id, p.lastUse, p.numBlocks - freed, slots);
  }

  /** The read piece that is in use and must not be evicted. */
  datatype Ignored = NoPiece | Piece(id: PieceId)

  /** A read piece is spared if it is in use or less than a second old. */
  predicate Spared(e: Entry, ignore: Ignored, now: int) {
    ignore == Piece(e.id) || now - e.lastUse < ONE_SECOND
  }

  /** Read pieces used less than a second ago, and the one in use, stay as they are. */
  ghost predicate RecentKept(es: seq<Entry>, es': seq<Entry>, ignore: Ignored, now: int) {
    forall e :: e in es && (now - e.lastUse < 1000 || ignore == Piece(e.id)) ==> e in es'
  }

  lemma RecentReflexive(es: seq<Entry>, ignore: Ignored, now: int)
    ensures RecentKept(es, es, ignore, now)
  {
  }

  lemma RecentTransitive(e1: seq<Entry>, e2: seq<Entry>, e3: seq<Entry>, ignore: Ignored, now: int)
    requires RecentKept(e1, e2, ignore, now) && RecentKept(e2, e3, ignore, now)
    ensures RecentKept(e1, e3, ignore, now)
  {
  }

  lemma RecentAppended(es: seq<Entry>, es': seq<Entry>, p: Entry, ignore: Ignored, now: int)
    requires RecentKept(es, es', ignore, now)
    ensures RecentKept(es, es' + [p], ignore, now)
  {
  }

  lemma EvictedKeepsRecent(es: seq<Entry>, i: int, p: Entry, ignore: Ignored, now: int)
    requires 0 <= i < |es| && !Spared(es[i], ignore, now)
    ensures RecentKept(es, Shrunk(es, i, p), ignore, now)
  {
    hide Without;
    var es' := Shrunk(es, i, p);
    forall e | e in es && (now - e.lastUse < 1000 || ignore == Piece(e.id))
      ensures e in es'
    {
      var k :| 0 <= k < |es| && es[k] == e;
      assert k != i;
      assert es'[if |es'| < |es| && k > i then k - 1 else k] == e;
    }
  }

  /** The least recently used read piece, if any, is spared. */
  ghost predicate NoneToClear(es: seq<Entry>, ignore: Ignored, now: int) {
    es == [] || exists i :: IsOldest(es, i) && Spared(es[i], ignore, now)
  }

  /**
    Unless spared, the least recently used entry `i` has become `p`, with as many blocks less as asked for or there
    were, and is gone if none is left.
   */
  ghost predicate Evicted(es: seq<Entry>, es': seq<Entry>, num: nat, ignore: Ignored, now: int, i: int, p: Entry,
                          freed: int) {
    && IsOldest(es, i) && p.id == es[i].id && p.lastUse == es[i].lastUse && |p.slots| == |es[i].slots|
    && (forall k :: 0 <= k < |p.slots| ==> p.slots[k] == es[i].slots[k] || p.slots[k].Empty?)
    && freed == es[i].numBlocks - p.numBlocks == (if Spared(es[i], ignore, now) then 0 else Min(num, es[i].numBlocks))
    && (Spared(es[i], ignore, now) ==> es' == es)
    && (!Spared(es[i], ignore, now) ==> es' == Shrunk(es, i, p))
  }

  lemma NoneEvicted(es: seq<Entry>, num: nat, ignore: Ignored, now: int)
    ensures NoNewIds(es, es)
    ensures forall i :: IsOldest(es, i) && Spared(es[i], ignore, now) ==> Evicted(es, es, num, ignore, now, i, es[i], 0)
  {
    forall j | 0 <= j < |es|
      ensures HasId(es, es[j].id)
    {
    }
  }

  lemma EvictedIds(es: seq<Entry>, es': seq<Entry>, num: nat, ignore: Ignored, now: int, i: int, p: Entry, freed: int)
    requires IsOldest(es, i) && !Spared(es[i], ignore, now)
    requires p.id == es[i].id && p.lastUse == es[i].lastUse && |p.slots| == |es[i].slots|
    requires forall k :: 0 <= k < |p.slots| ==> p.slots[k] == es[i].slots[k] || p.slots[k].Empty?
    requires freed == es[i].numBlocks - p.numBlocks == Min(num, es[i].numBlocks)
    requires es' == Shrunk(es, i, p)
    ensures Evicted(es, es', num, ignore, now, i, p, freed) && NoNewIds(es, es')
  {
    hide Without;
    forall j | 0 <= j < |es'|
      ensures HasId(es, es'[j].id)
    {
      var k := if |es'| < |es| && j >= i then j + 1 else j;
      assert es[k].id == es'[j].id;
    }
  }

  /** If nothing could be freed although something was wanted, the least recently used piece is spared. */
  lemma ClearedSome(es: seq<Entry>, es': seq<Entry>, num: nat, ignore: Ignored, now: int, freed: int)
    requires NoEmpty(es) && num > 0 && (es == [] ==> freed == 0 && es' == [])
    requires es != [] ==> exists i, p :: Evicted(es, es', num, ignore, now, i, p, freed)
    ensures 0 <= freed <= num && (freed == 0 ==> NoneToClear(es', ignore, now))
  {
    hide Without, IsOldest;
    if es != [] {
      var i, p :| Evicted(es, es', num, ignore, now, i, p, freed);
      assert 0 <= i < |es| by { OldestInside(es, i); }
    }
  }

  lemma OldestInside(es: seq<Entry>, i: int)
    requires IsOldest(es, i)
    ensures 0 <= i < |es|
  {
  }

  lemma ClearedEntry(size: PieceId -> nat, p: Entry, lo: int, hi: int)
    requires EntryOk(size, p) && 0 <= lo <= hi <= |p.slots|
    ensures EntryOk(size, Entry(p.id, p.lastUse, p.numBlocks - FullIn(p.slots, lo, hi), Cleared(p.slots, lo, hi)))
  {
    hide Cleared, FullCount, FullIn;
    ClearedCount(p.slots, lo, hi);
  }

  lemma DistinctAfterReplace(es: seq<Entry>, i: int, e: Entry)
    requires 0 <= i < |es| && DistinctIds(es) && e.id == es[i].id
    ensures DistinctIds(es[i := e])
  {
  }

  lemma EntryAt(size: PieceId -> nat, es: seq<Entry>, i: int)
    requires ListOk(size, es) && 0 <= i < |es|
    ensures EntryOk(size, es[i])
  {
  }

  lemma WholePieceFits(size: nat, n: int)
    requires size <= INT_MAX && n == BlockCount(size)
    ensures n <= INT_MAX
  {
  }

  lemma CountsArePositive(size: PieceId -> nat, es: seq<Entry>)
    requires ListOk(size, es)
    ensures forall i :: 0 <= i < |es| ==> es[i].numBlocks >= 0
  {
    TotalNonNegative(size, es);
  }

  lemma UncachedIsDisk(disk: Disk, es: seq<Entry>, disk': Disk, es': seq<Entry>, id: PieceId)
    requires SameContent(disk, es, disk', es') && id in disk && FindEntry(es', id) == |es'|
    ensures id in disk' && disk'[id] == ContentOf(disk, es, id)
  {
    hide FindEntry, Logical;
    assert ContentOf(disk', es', id) == disk'[id];
  }

  lemma WholeCount(slots: seq<Slot>)
    ensures FullIn(slots, 0, |slots|) == FullCount(slots)
  {
  }

  lemma EvictedEntry(size: PieceId -> nat, p: Entry, slots: seq<Slot>, num: nat)
    requires EntryOk(size, p) && |slots| == |p.slots| && FullCount(slots) == FullCount(p.slots) - num
    requires forall i :: 0 <= i < |slots| ==> slots[i] == p.slots[i] || slots[i].Empty?
    ensures EntryOk(size, Entry(p.id, p.lastUse, p.numBlocks - num, slots))
  {
    hide FullCount;
  }

  lemma NoSlotsEmpty(size: nat)
    ensures |NoSlots(size)| == BlockCount(size) && forall i :: 0 <= i < |NoSlots(size)| ==> NoSlots(size)[i].Empty?
  {
  }

  /** The write cache holds block `b` of the piece. */
  predicate Occupied(es: seq<Entry>, id: PieceId, b: int) {
    var i := FindEntry(es, id);
    i < |es| && 0 <= b < |es[i].slots| && es[i].slots[b].Full?
  }

  /** A flush fills no block. */
  lemma StillEmpty(es: seq<Entry>, es': seq<Entry>, id: PieceId, b: int)
    requires NoNewBlocks(es, es')
    ensures Occupied(es', id, b) ==> Occupied(es, id, b)
  {
    hide FindEntry;
  }

  lemma KeepsPieces(disk: Disk, es: seq<Entry>, disk': Disk, es': seq<Entry>, id: PieceId)
    requires SameContent(disk, es, disk', es') && id in disk
    ensures id in disk'
  {
  }

  /** Blocks lo..hi are new in `t`; the others are as in `s`. */
  ghost predicate NewBlocks(s: seq<Slot>, t: seq<Slot>, lo: int, hi: int) {
    && |t| == |s|
    && (forall i :: 0 <= i < |s| && !(lo <= i < hi) ==> t[i] == s[i])
    && (forall i :: 0 <= i < |s| && lo <= i < hi ==> s[i].Empty? && t[i].Full?)
  }

  /** A buffer after block `i` of `content` was read into it. */
  function Filled(s: Slot, content: seq<Byte>, i: int): (r: Slot)
    requires s.Full? && |s.data| == BLOCK && 0 <= i < BlockCount(|content|)
    ensures HoldsBlock(content, r, i)
  {
    var n := BlockLength(|content|, i);
    Full(content[i * BLOCK..i * BLOCK + n] + s.data[n..])
  }

  /** Every block of the piece is there. */
  ghost predicate WholePiece(content: seq<Byte>, p: Entry) {
    |p.slots| == BlockCount(|content|) && forall i :: 0 <= i < |p.slots| ==> HoldsBlock(content, p.slots[i], i)
  }

  /** As many bytes as the piece has can only come from all of its blocks. */
  lemma ReadWhole(length: nat, p: Entry, content: seq<Byte>)
    requires |content| == length > 0 && 0 < p.numBlocks <= |p.slots| == BlockCount(length)
    requires forall i :: 0 <= i < p.numBlocks ==> HoldsBlock(content, p.slots[i], i)
    requires Min(p.numBlocks * BLOCK, length) == length
    ensures WholePiece(content, p) && p.numBlocks == BlockCount(length)
  {
  }

  lemma ReadStays(size: PieceId -> nat, p: Entry, p': Entry, start: int, end: int, n: int)
    requires EntryOk(size, p) && EntryOk(size, p') && p'.id == p.id && 0 <= start < end <= |p'.slots| &&
             NewBlocks(p.slots, p'.slots, start, end)
    requires n == Min((end - start) * BLOCK, size(p.id) - start * BLOCK)
    ensures 0 <= start * BLOCK <= start * BLOCK + n <= size(p.id) && n == Min(end * BLOCK, size(p.id)) - start * BLOCK
  {
    hide FullCount;
    assert start * BLOCK < size(p.id);
  }

  /** Copies a buffer that was read in one go to the blocks, one by one. */
  method Distribute(size: PieceId -> nat, p: Entry, start: int, end: int, ghost content: seq<Byte>, buf: seq<Byte>)
    returns (p': Entry)
    requires EntryOk(size, p) && |content| == size(p.id) && 0 <= start < end <= |p.slots|
    requires var n := Min(end * BLOCK, |content|) - start * BLOCK;
             0 <= start * BLOCK <= start * BLOCK + n <= |content| && buf == content[start * BLOCK..start * BLOCK + n]
    requires forall i :: start <= i < end ==> p.slots[i].Full?
    ensures EntryOk(size, p') && p'.id == p.id && p'.lastUse == p.lastUse && p'.numBlocks == p.numBlocks
    ensures NewBytes(p.slots, p'.slots, start, end)
    ensures forall i :: start <= i < end ==> HoldsBlock(content, p'.slots[i], i)
  {
    hide FullCount, EntryOk, Filled, HoldsBlock;
    p' := p;
    var offset := 0;
    for i := start to end
      invariant EntryOk(size, p') && p'.id == p.id && p'.lastUse == p.lastUse && p'.numBlocks == p.numBlocks
      invariant NewBytes(p.slots, p'.slots, start, end)
      invariant offset == (i - start) * BLOCK
      invariant forall k :: start <= k < i ==> HoldsBlock(content, p'.slots[k], k)
    {
      var n := BlockLength(size(p.id), i);
      FilledEntry(size, p', i, content);
      PartOfBuffer(content, start, end, i, buf);
      p' := Entry(p'.id, p'.lastUse, p'.numBlocks,
                  p'.slots[i := Full(buf[offset..offset + n] + p'.slots[i].data[n..])]);
      offset := offset + BLOCK;
    }
  }

  /** Reads from the disk straight into the blocks, each getting the bytes behind those of the one before. */
  method Scatter(size: PieceId -> nat, p: Entry, start: int, end: int, content: seq<Byte>) returns (p': Entry)
    requires EntryOk(size, p) && |content| == size(p.id) && 0 <= start < end <= |p.slots|
    requires forall i :: start <= i < end ==> p.slots[i].Full?
    ensures EntryOk(size, p') && p'.id == p.id && p'.lastUse == p.lastUse && p'.numBlocks == p.numBlocks
    ensures NewBytes(p.slots, p'.slots, start, end)
    ensures forall i :: start <= i < end ==> HoldsBlock(content, p'.slots[i], i)
  {
    hide FullCount, EntryOk, Filled, HoldsBlock;
    p' := p;
    var pos := start * BLOCK;
    for i := start to end
      invariant EntryOk(size, p') && p'.id == p.id && p'.lastUse == p.lastUse && p'.numBlocks == p.numBlocks
      invariant NewBytes(p.slots, p'.slots, start, end)
      invariant i < end ==> pos == i * BLOCK
      invariant forall k :: start <= k < i ==> HoldsBlock(content, p'.slots[k], k)
    {
      var n := BlockLength(size(p.id), i);
      FilledEntry(size, p', i, content);
      BlockFits(|content|, i);
      p' := Entry(p'.id, p'.lastUse, p'.numBlocks, p'.slots[i := Full(content[pos..pos + n] + p'.slots[i].data[n..])]);
      pos := pos + n;
    }
  }

  /** Only the bytes of full blocks change. */
  ghost predicate NewBytes(s: seq<Slot>, t: seq<Slot>, lo: int, hi: int) {
    && |t| == |s|
    && (forall i :: 0 <= i < |s| && !(lo <= i < hi) ==> t[i] == s[i])
    && (forall i :: 0 <= i < |s| && lo <= i < hi ==> t[i].Full? == s[i].Full?)
  }

  lemma BlockFits(length: nat, i: int)
    requires 0 <= i < BlockCount(length)
    ensures 0 <= i * BLOCK <= i * BLOCK + BlockLength(length, i) <= length && 0 <= BlockLength(length, i) <= BLOCK
    ensures i + 1 < BlockCount(length) ==> BlockLength(length, i) == BLOCK
  {
  }

  lemma PartOfBuffer(content: seq<Byte>, start: int, end: int, i: int, buf: seq<Byte>)
    requires 0 <= start <= i < end <= BlockCount(|content|)
    requires var n := Min(end * BLOCK, |content|) - start * BLOCK;
             0 <= start * BLOCK <= start * BLOCK + n <= |content| && buf == content[start * BLOCK..start * BLOCK + n]
    ensures var n, o := BlockLength(|content|, i), (i - start) * BLOCK;
            && 0 <= o <= o + n <= |buf| && 0 <= n <= BLOCK && 0 <= i * BLOCK <= i * BLOCK + n <= |content|
            && buf[o..o + n] == content[i * BLOCK..i * BLOCK + n]
  {
    BlockFits(|content|, i);
    var n, o := BlockLength(|content|, i), (i - start) * BLOCK;
    assert i * BLOCK + n <= Min(end * BLOCK, |content|);
    assert o + start * BLOCK == i * BLOCK;
    SliceOfSlice(content, start * BLOCK, start * BLOCK + |buf|, o, o + n);
  }

  lemma SliceOfSlice<T>(s: seq<T>, a: int, b: int, c: int, d: int)
    requires 0 <= a <= b <= |s| && 0 <= c <= d <= b - a
    ensures s[a..b][c..d] == s[a + c..a + d]
  {
    var x, y := s[a..b][c..d], s[a + c..a + d];
    assert forall k :: 0 <= k < |x| ==> x[k] == y[k];
  }

  lemma FilledEntry(size: PieceId -> nat, p: Entry, i: int, content: seq<Byte>)
    requires EntryOk(size, p) && |content| == size(p.id) && 0 <= i < |p.slots| && p.slots[i].Full?
    ensures |p.slots| == BlockCount(|content|) && |p.slots[i].data| == BLOCK
    ensures EntryOk(size, Entry(p.id, p.lastUse, p.numBlocks, p.slots[i := Filled(p.slots[i], content, i)]))
    ensures var n := BlockLength(|content|, i);
            && 0 <= n <= BLOCK && i * BLOCK + n <= |content|
            && Filled(p.slots[i], content, i) == Full(content[i * BLOCK..i * BLOCK + n] + p.slots[i].data[n..])
  {
    hide FullCount, Filled, HoldsBlock;
    SetCount(p.slots, i, Filled(p.slots[i], content, i));
    FilledIs(p.slots[i], content, i);
  }

  lemma FilledIs(s: Slot, content: seq<Byte>, i: int)
    requires s.Full? && |s.data| == BLOCK && 0 <= i < BlockCount(|content|)
    ensures var n := BlockLength(|content|, i);
            && 0 <= n <= BLOCK && i * BLOCK + n <= |content|
            && Filled(s, content, i) == Full(content[i * BLOCK..i * BLOCK + n] + s.data[n..])
            && HoldsBlock(content, Filled(s, content, i), i) && |Filled(s, content, i).data| == BLOCK
  {
    BlockFits(|content|, i);
  }

  lemma EmptyEntry(size: PieceId -> nat, p: Entry)
    requires size(p.id) > 0 && p.numBlocks == 0 && p.slots == NoSlots(size(p.id))
    ensures EntryOk(size, p)
  {
    NoSlotsFull(p.slots);
  }

  /** A piece of three blocks read whole into an empty cache for one block: two more blocks than the limit allows. */
  method PieceBeyondLimit(id: PieceId) returns (c: DiskCache, ret: int)
    ensures fresh(c) && c.Valid() && (ret == 3 * BLOCK ==> c.cacheSize > c.settings.cacheSize + 1)
  {
    hide WholePiece, SameContent, ListOk, DistinctIds, Total, NoEmpty;
    c := new DiskCache(_ => 3 * BLOCK, Settings(1, false, false, true, 1, 1), map[id := seq(3 * BLOCK, _ => 0)]);
    ret := c.CacheReadPiece(id, 0);
  }
}
