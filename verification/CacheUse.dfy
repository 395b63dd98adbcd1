/** Which blocks a flush takes, and when the pieces left in the write cache were last used. */
module CacheUse {
  import opened DiskBlocks
  import opened CacheLists

  // ----- flushing a line -----

  /** Entry `i` replaced by `e`, or gone if that has no blocks. */
  function Shrunk(es: seq<Entry>, i: int, e: Entry): seq<Entry>
    requires 0 <= i < |es|
  {
    if e.numBlocks == 0 then Without(es, i) else es[i := e]
  }

  /** A cache without empty entries stays one. */
  lemma ShrunkList(size: PieceId -> nat, es: seq<Entry>, i: int, e: Entry)
    requires ListOk(size, es) && DistinctIds(es) && NoEmpty(es) && 0 <= i < |es|
    requires EntryOk(size, e) && e.id == es[i].id && e.numBlocks >= 0
    ensures var es' := Shrunk(es, i, e);
            && ListOk(size, es') && DistinctIds(es') && NoEmpty(es')
            && Total(es') == Total(es) - es[i].numBlocks + e.numBlocks
            && forall j :: 0 <= j < |es'| ==> exists k :: 0 <= k < |es| && es[k].id == es'[j].id
  {
    hide EntryOk, Total, Without;
    TotalReplaced(es, i, e);
    TotalRemoved(es, i);
    var es' := Shrunk(es, i, e);
    forall j | 0 <= j < |es'|
      ensures exists k :: 0 <= k < |es| && es[k].id == es'[j].id
    {
      var k := if |es'| < |es| && j >= i then j + 1 else j;
      assert es[k].id == es'[j].id;
    }
  }

  ghost function Flushed(e: Entry, lo: int, hi: int): Entry
    requires 0 <= lo <= hi <= |e.slots|
  {
    Entry(e.id, e.lastUse, e.numBlocks - (hi - lo), Cleared(e.slots, lo, hi))
  }

  /** `es'` is `es` after the first longest run lo..hi of entry `i` was flushed, if it has `limit` blocks or more. */
  ghost predicate RunFlushed(es: seq<Entry>, i: int, limit: int, es': seq<Entry>, lo: int, hi: int) {
    && 0 <= i < |es| && FirstLongest(es[i].slots, lo, hi)
    && es' == if lo == hi || hi - lo < limit then es else Shrunk(es, i, Flushed(es[i], lo, hi))
  }

  ghost predicate LineFlushed(es: seq<Entry>, i: int, limit: int, es': seq<Entry>) {
    exists lo, hi :: RunFlushed(es, i, limit, es', lo, hi)
  }

  /** No piece but `id` enters, leaves or changes. */
  ghost predicate OthersKept(es: seq<Entry>, es': seq<Entry>, id: PieceId) {
    forall other :: other != id ==> SamePiece(es, es', other)
  }

  ghost predicate SamePiece(es: seq<Entry>, es': seq<Entry>, id: PieceId) {
    var i, j := FindEntry(es, id), FindEntry(es', id);
    (i < |es| <==> j < |es'|) && (i < |es| ==> es'[j] == es[i])
  }

  lemma ReplacedKeepsOthers(es: seq<Entry>, i: int, e: Entry)
    requires 0 <= i < |es| && e.id == es[i].id && DistinctIds(es)
    ensures OthersKept(es, es[i := e], e.id) && DistinctIds(es[i := e])
  {
    hide FindEntry;
    var es' := es[i := e];
    forall other | other != e.id
      ensures SamePiece(es, es', other)
    {
      FindAfterReplace(es, i, e, other);
    }
  }

  lemma RemovedKeepsOthers(es: seq<Entry>, i: int)
    requires 0 <= i < |es| && DistinctIds(es)
    ensures OthersKept(es, Without(es, i), es[i].id)
  {
    hide FindEntry, Without;
    forall other | other != es[i].id
      ensures SamePiece(es, Without(es, i), other)
    {
      FindAfterRemove(es, i, other);
    }
  }

  lemma AppendedKeepsOthers(es: seq<Entry>, e: Entry)
    requires FindEntry(es, e.id) == |es|
    ensures OthersKept(es, es + [e], e.id)
  {
    hide FindEntry;
    forall other | other != e.id
      ensures SamePiece(es, es + [e], other)
    {
      FindAfterAppend(es, e, other);
    }
  }

  lemma OthersKeptTransitive(e1: seq<Entry>, e2: seq<Entry>, e3: seq<Entry>, id: PieceId)
    requires OthersKept(e1, e2, id) && OthersKept(e2, e3, id)
    ensures OthersKept(e1, e3, id)
  {
    hide FindEntry;
    forall other | other != id
      ensures SamePiece(e1, e3, other)
    {
      assert SamePiece(e1, e2, other) && SamePiece(e2, e3, other);
    }
  }

  /** Flushing a line keeps the other pieces, and the time of use of this one. */
  lemma LineKeepsOthers(es: seq<Entry>, i: int, limit: int, es': seq<Entry>)
    requires LineFlushed(es, i, limit, es') && DistinctIds(es)
    ensures OthersKept(es, es', es[i].id)
    ensures var j := FindEntry(es', es[i].id); j < |es'| ==> es'[j].lastUse == es[i].lastUse
  {
    hide FindEntry, FirstLongest, Without;
    var lo, hi :| RunFlushed(es, i, limit, es', lo, hi);
    FindIs(es, i);
    if es' == es { return; }
    FirstIsInside(es[i].slots, lo, hi);
    var e := Flushed(es[i], lo, hi);
    ReplacedKeepsOthers(es, i, e);
    FindAfterReplace(es, i, e, e.id);
    RemovedKeepsOthers(es, i);
    FindAfterRemove(es, i, e.id);
  }

  lemma FirstIsInside(slots: seq<Slot>, lo: int, hi: int)
    requires FirstLongest(slots, lo, hi)
    ensures 0 <= lo <= hi <= |slots|
  {
  }

  // ----- times of last use -----

  /** A piece with block `b` put in at time `now`. */
  ghost function Refreshed(e: Entry, b: int, data: seq<Byte>, now: int): Entry
    requires 0 <= b < |e.slots|
  {
    Entry(e.id, now, e.numBlocks + (if e.slots[b].Empty? then 1 else 0), e.slots[b := Full(data)])
  }

  /** Piece `id`, if it is in `es'`, was last used `now`; every other piece of `es'` was when it was in `es`. */
  ghost predicate UsedNow(es: seq<Entry>, es': seq<Entry>, id: PieceId, now: int) {
    forall other :: FindEntry(es', other) < |es'| ==> UsedAsSaid(es, es', id, now, other)
  }

  ghost predicate UsedAsSaid(es: seq<Entry>, es': seq<Entry>, id: PieceId, now: int, other: PieceId) {
    var i, j := FindEntry(es, other), FindEntry(es', other);
    j < |es'| ==> if other == id then es'[j].lastUse == now else i < |es| && es'[j].lastUse == es[i].lastUse
  }

  lemma KeptIsUsed(es: seq<Entry>, es': seq<Entry>, id: PieceId, now: int)
    requires OthersKept(es, es', id) && (var j := FindEntry(es', id); j < |es'| ==> es'[j].lastUse == now)
    ensures UsedNow(es, es', id, now)
  {
    hide FindEntry;
    forall other | FindEntry(es', other) < |es'|
      ensures UsedAsSaid(es, es', id, now, other)
    {
      assert other != id ==> SamePiece(es, es', other);
    }
  }

  lemma UsedAfterFlush(e1: seq<Entry>, e2: seq<Entry>, e3: seq<Entry>, id: PieceId, now: int)
    requires NoNewBlocks(e1, e2) && UsedNow(e2, e3, id, now)
    ensures UsedNow(e1, e3, id, now)
  {
    hide FindEntry;
    forall other | FindEntry(e3, other) < |e3|
      ensures UsedAsSaid(e1, e3, id, now, other)
    {
      assert UsedAsSaid(e2, e3, id, now, other);
      assert other != id ==> FewerBlocks(e1, e2, other);
    }
  }

  lemma FlushedAfterUse(e1: seq<Entry>, e2: seq<Entry>, e3: seq<Entry>, id: PieceId, now: int)
    requires UsedNow(e1, e2, id, now) && NoNewBlocks(e2, e3)
    ensures UsedNow(e1, e3, id, now)
  {
    hide FindEntry;
    forall other | FindEntry(e3, other) < |e3|
      ensures UsedAsSaid(e1, e3, id, now, other)
    {
      assert FewerBlocks(e2, e3, other) && UsedAsSaid(e1, e2, id, now, other);
    }
  }

  // ----- least recently used first -----

  /** No piece of `es` but `id` has left that was used after one, other than `id`, that is still in `es'`. */
  ghost predicate OldestLeft(es: seq<Entry>, es': seq<Entry>, id: Spare) {
    forall gone, left :: Gone(es, es', id, gone) && Stays(es', id, left) ==> LastUse(es, gone) <= LastUse(es', left)
  }

  /** The piece a statement does not speak of, if any. */
  datatype Spare = None | Only(id: PieceId)

  ghost predicate Gone(es: seq<Entry>, es': seq<Entry>, id: Spare, gone: PieceId) {
    id != Only(gone) && FindEntry(es, gone) < |es| && FindEntry(es', gone) == |es'|
  }

  ghost predicate Stays(es: seq<Entry>, id: Spare, left: PieceId) {
    id != Only(left) && FindEntry(es, left) < |es|
  }

  ghost function LastUse(es: seq<Entry>, id: PieceId): int {
    var i := FindEntry(es, id);
    if i < |es| then es[i].lastUse else 0
  }

  lemma NoneLeft(es: seq<Entry>, id: Spare)
    ensures OldestLeft(es, es, id)
  {
    hide FindEntry;
  }

  /** Taking out the least recently used piece. */
  lemma OldestOut(es: seq<Entry>, i: int)
    requires IsOldest(es, i) && DistinctIds(es)
    ensures OldestLeft(es, Without(es, i), None)
  {
    hide FindEntry, Without;
    var es' := Without(es, i);
    forall gone, left | Gone(es, es', None, gone) && Stays(es', None, left)
      ensures LastUse(es, gone) <= LastUse(es', left)
    {
      FindAfterRemove(es, i, gone);
      FindAfterRemove(es, i, left);
      var k := FindEntry(es', left);
      assert es'[k] == es[if k < i then k else k + 1];
      assert gone == es[i].id;
    }
  }

  lemma OldestLeftTransitive(e1: seq<Entry>, e2: seq<Entry>, e3: seq<Entry>)
    requires NoNewBlocks(e1, e2) && NoNewBlocks(e2, e3) && OldestLeft(e1, e2, None) && OldestLeft(e2, e3, None)
    ensures OldestLeft(e1, e3, None)
  {
    hide FindEntry;
    forall gone, left | Gone(e1, e3, None, gone) && Stays(e3, None, left)
      ensures LastUse(e1, gone) <= LastUse(e3, left)
    {
      assert FewerBlocks(e2, e3, left);
      assert Stays(e2, None, left);
      if FindEntry(e2, gone) < |e2| {
        assert FewerBlocks(e1, e2, gone);
        assert Gone(e2, e3, None, gone);
      } else {
        assert Gone(e1, e2, None, gone);
      }
    }
  }

  /** A flush, the change of one piece, and another flush. */
  lemma OldestLeftAround(e1: seq<Entry>, e2: seq<Entry>, e3: seq<Entry>, e4: seq<Entry>, id: PieceId)
    requires NoNewBlocks(e1, e2) && OldestLeft(e1, e2, None) && OthersKept(e2, e3, id)
    requires NoNewBlocks(e3, e4) && OldestLeft(e3, e4, None)
    ensures OldestLeft(e1, e4, Only(id))
  {
    hide FindEntry;
    forall gone, left | Gone(e1, e4, Only(id), gone) && Stays(e4, Only(id), left)
      ensures LastUse(e1, gone) <= LastUse(e4, left)
    {
      assert FewerBlocks(e3, e4, left) && SamePiece(e2, e3, left) && SamePiece(e2, e3, gone);
      assert Stays(e4, None, left) && Stays(e2, None, left);
      if FindEntry(e2, gone) < |e2| {
        assert FewerBlocks(e1, e2, gone);
        assert Gone(e3, e4, None, gone);
      } else {
        assert Gone(e1, e2, None, gone);
      }
    }
  }

  // ----- flushing until there is room -----

  /** Entry `i` is the first of those with the longest run of cached blocks. */
  ghost predicate HasLongest(es: seq<Entry>, i: int) {
    && 0 <= i < |es|
    && exists lo, hi :: AllFull(es[i].slots, lo, hi) &&
         forall j, a, b :: 0 <= j < |es| && AllFull(es[j].slots, a, b) ==>
           if j < i then b - a < hi - lo else b - a <= hi - lo
  }

  /** One round of a policy: the least recently used piece, or the longest run of blocks, is flushed. */
  ghost predicate FlushStep(lru: bool, es: seq<Entry>, es': seq<Entry>) {
    if lru then exists i :: IsOldest(es, i) && es' == Without(es, i)
    else exists i :: HasLongest(es, i) && LineFlushed(es, i, 0, es')
  }

  /** Rounds from `es` to `es'`, each at a time when less than `wanted` blocks had been flushed. */
  ghost predicate FlushRun(lru: bool, es: seq<Entry>, es': seq<Entry>, wanted: int, states: seq<seq<Entry>>) {
    && |states| > 0 && states[0] == es && states[|states| - 1] == es'
    && forall k :: 0 <= k < |states| - 1 ==> FlushRound(lru, Total(es), wanted, states, k)
  }

  ghost predicate FlushRound(lru: bool, total: int, wanted: int, states: seq<seq<Entry>>, k: int)
    requires 0 <= k < |states| - 1
  {
    var next := k + 1;
    total - Total(states[k]) < wanted && FlushStep(lru, states[k], states[next])
  }

  ghost predicate FlushedOnDemand(lru: bool, es: seq<Entry>, es': seq<Entry>, wanted: int) {
    exists states :: FlushRun(lru, es, es', wanted, states)
  }

  lemma NoRounds(lru: bool, es: seq<Entry>, wanted: int)
    ensures FlushedOnDemand(lru, es, es, wanted)
  {
    assert FlushRun(lru, es, es, wanted, [es]);
  }

  lemma OneMoreRound(lru: bool, e1: seq<Entry>, e2: seq<Entry>, e3: seq<Entry>, wanted: int)
    requires FlushedOnDemand(lru, e1, e2, wanted) && Total(e1) - Total(e2) < wanted && FlushStep(lru, e2, e3)
    ensures FlushedOnDemand(lru, e1, e3, wanted)
  {
    hide FlushStep, Total;
    var states :| FlushRun(lru, e1, e2, wanted, states);
    var more := states + [e3];
    forall k | 0 <= k < |more| - 1
      ensures FlushRound(lru, Total(e1), wanted, more, k)
    {
      if k < |states| - 1 { assert FlushRound(lru, Total(e1), wanted, states, k); }
    }
    assert FlushRun(lru, e1, e3, wanted, more);
  }
}
