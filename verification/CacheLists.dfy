/** The lists of cached pieces kept by the disk thread. */
module CacheLists {
  import opened DiskBlocks

  datatype PieceId = PieceId(storage: int, piece: int)

  /** A cached piece: its blocks, how many of them are present, and when it was last used. */
  datatype Entry = Entry(id: PieceId, lastUse: int, numBlocks: int, slots: seq<Slot>)

  /** `size` is the length in bytes of every piece of every storage. */
  ghost predicate EntryOk(size: PieceId -> nat, e: Entry) {
    size(e.id) > 0 && SlotsOk(e.slots, size(e.id)) && e.numBlocks == FullCount(e.slots)
  }

  ghost predicate ListOk(size: PieceId -> nat, es: seq<Entry>) {
    forall i :: 0 <= i < |es| ==> EntryOk(size, es[i])
  }

  ghost predicate DistinctIds(es: seq<Entry>) {
    forall i, j :: 0 <= i < j < |es| ==> es[i].id != es[j].id
  }

  ghost predicate NoEmpty(es: seq<Entry>) {
    forall i :: 0 <= i < |es| ==> es[i].numBlocks > 0
  }

  ghost function Total(es: seq<Entry>): int {
    if es == [] then 0 else Total(es[..|es| - 1]) + es[|es| - 1].numBlocks
  }

  /** The position of the entry for `id`, or `|es|`. */
  function FindEntry(es: seq<Entry>, id: PieceId): (i: nat)
    ensures i <= |es|
    ensures i < |es| ==> es[i].id == id
    ensures forall j :: 0 <= j < i ==> es[j].id != id
  {
    if es == [] || es[0].id == id then 0 else 1 + FindEntry(es[1..], id)
  }

  type Disk = map<PieceId, seq<Byte>>

  /** The content of a piece as the disk and the write cache say together. */
  ghost function ContentOf(disk: Disk, es: seq<Entry>, id: PieceId): seq<Byte>
    requires id in disk
  {
    var i := FindEntry(es, id);
    if i < |es| then Logical(disk[id], es[i].slots) else disk[id]
  }

  ghost predicate SameContent(disk: Disk, es: seq<Entry>, disk': Disk, es': seq<Entry>) {
    disk'.Keys == disk.Keys && forall id :: id in disk ==> ContentOf(disk', es', id) == ContentOf(disk, es, id)
  }

  lemma SameContentReflexive(disk: Disk, es: seq<Entry>)
    ensures SameContent(disk, es, disk, es)
  {
  }

  lemma SameContentTransitive(d1: Disk, e1: seq<Entry>, d2: Disk, e2: seq<Entry>, d3: Disk, e3: seq<Entry>)
    requires SameContent(d1, e1, d2, e2) && SameContent(d2, e2, d3, e3)
    ensures SameContent(d1, e1, d3, e3)
  {
    hide ContentOf;
  }

  function Without(es: seq<Entry>, i: int): (r: seq<Entry>)
    requires 0 <= i < |es|
    ensures |r| == |es| - 1
    ensures forall j :: 0 <= j < |r| ==> r[j] == es[if j < i then j else j + 1]
  {
    es[..i] + es[i + 1..]
  }

  lemma {:induction false} TotalReplaced(es: seq<Entry>, i: int, e: Entry)
    requires 0 <= i < |es|
    ensures Total(es[i := e]) == Total(es) - es[i].numBlocks + e.numBlocks
  {
    var n := |es| - 1;
    if i == n {
      assert es[i := e][..n] == es[..n];
    } else {
      TotalReplaced(es[..n], i, e);
      assert es[i := e][..n] == es[..n][i := e];
    }
  }

  lemma {:induction false} TotalRemoved(es: seq<Entry>, i: int)
    requires 0 <= i < |es|
    ensures Total(Without(es, i)) == Total(es) - es[i].numBlocks
  {
    hide Without;
    var n := |es| - 1;
    if i == n {
      assert Without(es, i) == es[..n];
    } else {
      TotalRemoved(es[..n], i);
      assert Without(es, i)[..n - 1] == Without(es[..n], i);
    }
  }

  lemma {:induction false} TotalIsCount(size: PieceId -> nat, es: seq<Entry>)
    requires ListOk(size, es)
    ensures Total(es) >= 0
  {
    hide EntryOk;
    if es != [] {
      TotalIsCount(size, es[..|es| - 1]);
      CountOfEntry(size, es[|es| - 1]);
    }
  }

  lemma CountOfEntry(size: PieceId -> nat, e: Entry)
    requires EntryOk(size, e)
    ensures e.numBlocks >= 0
  {
  }

  lemma TotalAppended(es: seq<Entry>, e: Entry)
    ensures Total(es + [e]) == Total(es) + e.numBlocks
  {
    assert (es + [e])[..|es|] == es;
  }

  lemma {:induction false} TotalNonNegative(size: PieceId -> nat, es: seq<Entry>)
    requires ListOk(size, es)
    ensures Total(es) >= 0 && forall i :: 0 <= i < |es| ==> Total(es) >= es[i].numBlocks >= 0
  {
    hide FullCount;
    if es != [] {
      var n := |es| - 1;
      assert EntryOk(size, es[n]);
      TotalNonNegative(size, es[..n]);
      forall i | 0 <= i < |es|
        ensures Total(es) >= es[i].numBlocks >= 0
      {
        assert i < n ==> es[..n][i] == es[i];
      }
    }
  }

  lemma FindIs(es: seq<Entry>, i: int)
    requires 0 <= i < |es| && DistinctIds(es)
    ensures FindEntry(es, es[i].id) == i
  {
  }

  /** Replacing an entry by one for the same piece does not disturb the others. */
  lemma FindAfterReplace(es: seq<Entry>, i: int, e: Entry, id: PieceId)
    requires 0 <= i < |es| && e.id == es[i].id
    ensures FindEntry(es[i := e], id) == FindEntry(es, id)
  {
    hide FindEntry;
    var es' := es[i := e];
    assert forall j :: 0 <= j < |es| ==> es'[j].id == es[j].id;
  }

  /** Writing out blocks lo..hi of entry `i` and dropping them from the cache. */
  lemma FlushedContent(size: PieceId -> nat, disk: Disk, es: seq<Entry>, i: int, lo: int, hi: int, e: Entry)
    requires ListOk(size, es) && DistinctIds(es) && 0 <= i < |es| && es[i].id in disk
    requires 0 <= lo && hi <= |es[i].slots|
    requires e.id == es[i].id && e.slots == Cleared(es[i].slots, lo, hi)
    ensures SameContent(disk, es, disk[e.id := Overlaid(disk[e.id], es[i].slots, lo, hi)], es[i := e])
  {
    hide FindEntry, Overlaid, Logical, Cleared;
    var disk', es' := disk[e.id := Overlaid(disk[e.id], es[i].slots, lo, hi)], es[i := e];
    FindIs(es, i);
    FlushKeepsLogical(disk[e.id], es[i].slots, lo, hi);
    forall id | id in disk
      ensures ContentOf(disk', es', id) == ContentOf(disk, es, id)
    {
      FindAfterReplace(es, i, e, id);
    }
  }

  lemma FindAfterRemove(es: seq<Entry>, i: int, id: PieceId)
    requires 0 <= i < |es| && DistinctIds(es)
    ensures id != es[i].id ==> var f := FindEntry(es, id); FindEntry(Without(es, i), id) == if f < i then f else f - 1
    ensures id == es[i].id ==> FindEntry(Without(es, i), id) == |es| - 1
  {
    hide FindEntry, Without;
    var r := Without(es, i);
    var f, g := FindEntry(es, id), FindEntry(r, id);
    if id != es[i].id {
      var h := if f < i then f else f - 1;
      assert h < |r| ==> r[h].id == id;
      assert forall j :: 0 <= j < h ==> r[j].id != id;
    } else {
      assert forall j :: 0 <= j < |r| ==> r[j].id != id;
    }
  }

  /** Every piece of `es'` is in `es`. */
  ghost predicate NoNewIds(es: seq<Entry>, es': seq<Entry>) {
    forall j :: 0 <= j < |es'| ==> HasId(es, es'[j].id)
  }

  ghost predicate HasId(es: seq<Entry>, id: PieceId) {
    exists i :: 0 <= i < |es| && es[i].id == id
  }

  lemma NoNewIdsTransitive(e1: seq<Entry>, e2: seq<Entry>, e3: seq<Entry>)
    requires NoNewIds(e1, e2) && NoNewIds(e2, e3)
    ensures NoNewIds(e1, e3)
  {
    forall j | 0 <= j < |e3|
      ensures HasId(e1, e3[j].id)
    {
      assert HasId(e2, e3[j].id);
    }
  }

  lemma StillAbsent(es: seq<Entry>, es': seq<Entry>, id: PieceId)
    requires NoNewIds(es, es') && FindEntry(es, id) == |es|
    ensures FindEntry(es', id) == |es'|
  {
    hide FindEntry;
    var i := FindEntry(es', id);
    if i < |es'| { assert false; }
  }

  lemma DistinctAppended(es: seq<Entry>, e: Entry)
    requires DistinctIds(es) && FindEntry(es, e.id) == |es|
    ensures DistinctIds(es + [e])
  {
    hide FindEntry;
  }

  /** Dropping an entry without cached blocks. */
  lemma RemovedContent(size: PieceId -> nat, disk: Disk, es: seq<Entry>, i: int)
    requires ListOk(size, es) && DistinctIds(es) && 0 <= i < |es| && es[i].numBlocks == 0
    ensures SameContent(disk, es, disk, Without(es, i)) && ListOk(size, Without(es, i)) && DistinctIds(Without(es, i))
  {
    hide FindEntry, Without, Logical, FullCount;
    assert EntryOk(size, es[i]);
    CountZero(es[i].slots);
    FindIs(es, i);
    forall id | id in disk
      ensures ContentOf(disk, Without(es, i), id) == ContentOf(disk, es, id)
    {
      FindAfterRemove(es, i, id);
      EmptyIsDisk(disk[id], es[i].slots);
    }
  }

  /** Entry `i` is the first with the smallest time of last use. */
  ghost predicate IsOldest(es: seq<Entry>, i: int) {
    && 0 <= i < |es|
    && (forall j :: 0 <= j < |es| ==> es[i].lastUse <= es[j].lastUse)
    && (forall j :: 0 <= j < i ==> es[i].lastUse < es[j].lastUse)
  }

  method Oldest(es: seq<Entry>) returns (i: nat)
    ensures i <= |es| && (i == |es| <==> es == [])
    ensures i < |es| ==> IsOldest(es, i)
  {
    if es == [] { return 0; }
    i := 0;
    for k := 1 to |es|
      invariant i < k && forall j :: 0 <= j < k ==> es[i].lastUse <= es[j].lastUse
      invariant forall j :: 0 <= j < i ==> es[i].lastUse < es[j].lastUse
    {
      if es[k].lastUse < es[i].lastUse { i := k; }
    }
  }

  /** The first entry with the longest run of cached blocks. */
  method MostContiguous(es: seq<Entry>) returns (i: nat)
    ensures i <= |es| && (i == |es| <==> es == [])
    ensures i < |es| ==> exists lo, hi :: AllFull(es[i].slots, lo, hi) &&
                           forall j, a, b :: 0 <= j < |es| && AllFull(es[j].slots, a, b) ==>
                             if j < i then b - a < hi - lo else b - a <= hi - lo
  {
    if es == [] { return 0; }
    i := 0;
    var pos, best := LongestRun(es[0].slots);
    for k := 1 to |es|
      invariant i < k && AllFull(es[i].slots, pos, pos + best)
      invariant forall j, a, b :: 0 <= j < k && AllFull(es[j].slots, a, b) ==>
                  if j < i then b - a < best else b - a <= best
    {
      var at, len := LongestRun(es[k].slots);
      if best < len { i, pos, best := k, at, len; }
    }
  }

  /** A piece with a cached block has a run of at least one. */
  lemma SomeRun(size: PieceId -> nat, e: Entry) returns (k: int)
    requires EntryOk(size, e) && e.numBlocks > 0
    ensures 0 <= k < |e.slots| && AllFull(e.slots, k, k + 1)
  {
    if forall i :: 0 <= i < |e.slots| ==> e.slots[i].Empty? {
      NoneFull(e.slots, 0, |e.slots|);
      assert false;
    }
    k :| 0 <= k < |e.slots| && e.slots[k].Full?;
  }

  /** `es'` caches no block of any piece that `es` does not, and its pieces were last used when they were in `es`. */
  ghost predicate NoNewBlocks(es: seq<Entry>, es': seq<Entry>) {
    forall id :: FindEntry(es', id) < |es'| ==> FewerBlocks(es, es', id)
  }

  ghost predicate FewerBlocks(es: seq<Entry>, es': seq<Entry>, id: PieceId) {
    var i, j := FindEntry(es, id), FindEntry(es', id);
    && i < |es| && j < |es'| && |es'[j].slots| == |es[i].slots| && es'[j].lastUse == es[i].lastUse
    && forall k :: 0 <= k < |es[i].slots| && es[i].slots[k].Empty? ==> es'[j].slots[k].Empty?
  }

  lemma NoNewBlocksReflexive(es: seq<Entry>)
    ensures NoNewBlocks(es, es)
  {
  }

  lemma NoNewBlocksTransitive(e1: seq<Entry>, e2: seq<Entry>, e3: seq<Entry>)
    requires NoNewBlocks(e1, e2) && NoNewBlocks(e2, e3)
    ensures NoNewBlocks(e1, e3)
  {
    hide FindEntry;
    forall id | FindEntry(e3, id) < |e3|
      ensures FewerBlocks(e1, e3, id)
    {
      assert FewerBlocks(e2, e3, id) && FewerBlocks(e1, e2, id);
    }
  }

  lemma ClearedNoNewBlocks(es: seq<Entry>, i: int, lo: int, hi: int, e: Entry)
    requires 0 <= i < |es| && e.id == es[i].id && e.lastUse == es[i].lastUse && e.slots == Cleared(es[i].slots, lo, hi)
    ensures NoNewBlocks(es, es[i := e])
  {
    hide FindEntry;
    var es' := es[i := e];
    forall id | FindEntry(es', id) < |es'|
      ensures FewerBlocks(es, es', id)
    {
      FindAfterReplace(es, i, e, id);
    }
  }

  lemma WithoutNoNewBlocks(es: seq<Entry>, i: int)
    requires 0 <= i < |es| && DistinctIds(es)
    ensures NoNewBlocks(es, Without(es, i))
  {
    hide FindEntry, Without;
    var es' := Without(es, i);
    forall id | FindEntry(es', id) < |es'|
      ensures FewerBlocks(es, es', id)
    {
      FindAfterRemove(es, i, id);
    }
  }

  /** Caching one more block of a piece that is already in the list. */
  lemma InsertedContent(size: PieceId -> nat, disk: Disk, es: seq<Entry>, i: int, b: int, data: seq<Byte>, e: Entry)
    requires ListOk(size, es) && DistinctIds(es) && 0 <= i < |es| && es[i].id in disk
    requires |disk[es[i].id]| == size(es[i].id) && 0 <= b < |es[i].slots| && |data| == BLOCK
    requires e.id == es[i].id && e.slots == es[i].slots[b := Full(data)]
    requires e.numBlocks == es[i].numBlocks + (if es[i].slots[b].Empty? then 1 else 0)
    ensures EntryOk(size, e) && BlockWritten(disk, es, disk, es[i := e], e.id, b, data)
  {
    hide FindEntry, Logical, Written, FullCount;
    var id, es' := es[i].id, es[i := e];
    FindIs(es, i);
    SetCount(es[i].slots, b, Full(data));
    assert EntryOk(size, es[i]);
    InsertedLogical(disk[id], es[i].slots, b, data);
    assert es'[i] == e;
    forall other | other in disk
      ensures FindEntry(es', other) == FindEntry(es, other)
    {
      FindAfterReplace(es, i, e, other);
    }
    assert |ContentOf(disk, es, id)| == size(id);
    assert ContentOf(disk, es', id) == Logical(disk[id], e.slots);
    forall other | other in disk && other != id
      ensures ContentOf(disk, es', other) == ContentOf(disk, es, other)
    {
      var f := FindEntry(es, other);
      assert f < |es| ==> es'[f] == es[f];
    }
  }

  /** Caching the first block of a piece. */
  lemma AppendedContent(disk: Disk, es: seq<Entry>, e: Entry, none: seq<Slot>, b: int, data: seq<Byte>)
    requires e.id in disk && FindEntry(es, e.id) == |es| && |none| == BlockCount(|disk[e.id]|)
    requires 0 <= b < |none| && |data| == BLOCK && (forall i :: 0 <= i < |none| ==> none[i].Empty?)
    requires e.slots == none[b := Full(data)]
    ensures BlockWritten(disk, es, disk, es + [e], e.id, b, data)
  {
    hide FindEntry, Logical, Written, ContentOf;
    EmptyIsDisk(disk[e.id], none);
    InsertedLogical(disk[e.id], none, b, data);
    forall id | id in disk
      ensures ContentOf(disk, es + [e], id) ==
              if id == e.id then Logical(disk[id], e.slots) else ContentOf(disk, es, id)
    {
      ContentAppended(disk, es, e, id);
    }
    Uncached(disk, es, e.id);
  }

  lemma ContentAppended(disk: Disk, es: seq<Entry>, e: Entry, id: PieceId)
    requires id in disk && FindEntry(es, e.id) == |es|
    ensures ContentOf(disk, es + [e], id) ==
            if id == e.id then Logical(disk[id], e.slots) else ContentOf(disk, es, id)
  {
    hide FindEntry, Logical;
    FindAfterAppend(es, e, id);
  }

  lemma Uncached(disk: Disk, es: seq<Entry>, id: PieceId)
    requires id in disk && FindEntry(es, id) == |es|
    ensures ContentOf(disk, es, id) == disk[id]
  {
  }

  lemma FirstBlock(size: PieceId -> nat, e: Entry, b: int, data: seq<Byte>)
    requires size(e.id) > 0 && 0 <= b < BlockCount(size(e.id)) && |data| == BLOCK && e.numBlocks == 1
    requires e.slots == NoSlots(size(e.id))[b := Full(data)]
    ensures EntryOk(size, e)
  {
    var none := NoSlots(size(e.id));
    NoSlotsFull(none);
    SetCount(none, b, Full(data));
  }

  function NoSlots(size: nat): (s: seq<Slot>) {
    seq(BlockCount(size), _ => Empty)
  }

  lemma NoSlotsFull(s: seq<Slot>)
    requires forall i :: 0 <= i < |s| ==> s[i].Empty?
    ensures FullCount(s) == 0
  {
    NoneFull(s, 0, |s|);
  }

  lemma FindAfterAppend(es: seq<Entry>, e: Entry, id: PieceId)
    ensures FindEntry(es + [e], id) == if FindEntry(es, id) < |es| then FindEntry(es, id) else if id == e.id then |es|
            else |es| + 1
  {
    hide FindEntry;
    var f := es + [e];
    assert forall j :: 0 <= j < |es| ==> f[j] == es[j];
    assert f[|es|] == e;
  }

  /** Block `b` of piece `id` was written with `data`; nothing else changed. */
  ghost predicate BlockWritten(disk: Disk, es: seq<Entry>, disk': Disk, es': seq<Entry>, id: PieceId, b: int,
                               data: seq<Byte>) {
    && disk'.Keys == disk.Keys && id in disk
    && (forall other :: other in disk && other != id ==> ContentOf(disk', es', other) == ContentOf(disk, es, other))
    && var was, now := ContentOf(disk, es, id), ContentOf(disk', es', id);
       var n := BlockLength(|was|, b);
       && 0 <= b && 0 < n <= |data| && b * BLOCK + n <= |was|
       && now == Written(was, b * BLOCK, data[..n])
  }

  lemma FlushBeforeWrite(d1: Disk, e1: seq<Entry>, d2: Disk, e2: seq<Entry>, d3: Disk, e3: seq<Entry>, id: PieceId,
                         b: int, data: seq<Byte>)
    requires SameContent(d1, e1, d2, e2) && BlockWritten(d2, e2, d3, e3, id, b, data)
    ensures BlockWritten(d1, e1, d3, e3, id, b, data)
  {
    hide ContentOf;
  }

  lemma FlushAfterWrite(d1: Disk, e1: seq<Entry>, d2: Disk, e2: seq<Entry>, d3: Disk, e3: seq<Entry>, id: PieceId,
                        b: int, data: seq<Byte>)
    requires BlockWritten(d1, e1, d2, e2, id, b, data) && SameContent(d2, e2, d3, e3)
    ensures BlockWritten(d1, e1, d3, e3, id, b, data)
  {
    hide ContentOf;
  }

  /** Writing a block of an uncached piece straight to disk. */
  lemma DirectContent(disk: Disk, es: seq<Entry>, id: PieceId, b: int, data: seq<Byte>)
    requires id in disk && FindEntry(es, id) == |es| && 0 <= b
    requires var n := BlockLength(|disk[id]|, b); 0 < n <= |data| && b * BLOCK + n <= |disk[id]|
    ensures var n := BlockLength(|disk[id]|, b);
            BlockWritten(disk, es, disk[id := Written(disk[id], b * BLOCK, data[..n])], es, id, b, data)
  {
    hide FindEntry, Logical, Written;
  }
}
