/** The piece picker: the buckets of pieces, the download table and the choice of blocks behind its methods. */
module PiecePicking {
  import opened PieceRecords
  import opened Buckets
  import opened CountingSort
  import opened PieceSurvey
  import opened DownloadTable
  import opened PickedBlocks
  import opened WholeRuns
  import opened RandomWalk
  import opened BlockPicking

  /** The picker's counters agree with the piece map. */
  ghost predicate SurveyOk(pm: seq<PiecePos>, cursor: int, reverseCursor: int, numHave: int, numFiltered: int,
                           numHaveFiltered: int) {
    && |pm| < WE_HAVE_INDEX
    && LegalPriorities(pm)
    && CursorsOk(pm, cursor, reverseCursor)
    && numHave == Tally(HaveFlags(pm))
    && numFiltered == Tally(FilteredFlags(pm, false))
    && numHaveFiltered == Tally(FilteredFlags(pm, true))
  }

  class PiecePicker {
    var pieceMap: seq<PiecePos>
    var pieces: seq<int>
    var bounds: seq<int>
    var seeds: nat
    var dirty: bool
    var downloads: seq<Download>
    var blockInfo: seq<seq<BlockInfo>>
    var blocksPerPiece: nat
    var blocksInLastPiece: nat
    var numFiltered: int
    var numHaveFiltered: int
    var numHave: int
    var cursor: int
    var reverseCursor: int
    var sparseRegions: int

    /** Everything `check_invariant` asserts, except the order of the download table. */
    ghost predicate Valid()
      reads this
    {
      && SurveyOk(pieceMap, cursor, reverseCursor, numHave, numFiltered, numHaveFiltered)
      && TableOk(pieceMap, downloads, blockInfo, blocksPerPiece, blocksInLastPiece)
      && (!dirty ==> Ok(pieces, bounds, Indices(pieceMap), Priorities(pieceMap, seeds)))
    }

    /** The block records of piece `p`. */
    ghost function BlocksOf(p: int): seq<BlockInfo>
      reads this
    {
      Blocks(downloads, blockInfo, p)
    }

    ghost function SpeedOf(p: int): Speed
      reads this`downloads
    {
      SpeedIn(downloads, p)
    }

    function BlocksInPiece(p: int): nat
      reads this
    {
      if p + 1 == |pieceMap| then blocksInLastPiece else blocksPerPiece
    }

    ghost predicate BucketsClean()
      reads this
    {
      && |pieceMap| < WE_HAVE_INDEX
      && Ok(pieces, bounds, Indices(pieceMap), Priorities(pieceMap, seeds))
    }

    /** The index is right except that the piece at `elemIndex` sits in the bucket of its former priority. */
    ghost predicate BucketsStale(priority: int, elemIndex: int)
      reads this
    {
      && |pieceMap| < WE_HAVE_INDEX
      && 0 <= elemIndex < |pieces| && 0 <= pieces[elemIndex] < |pieceMap|
      && var x := pieces[elemIndex];
      && Ok(pieces, bounds, Indices(pieceMap)[x := elemIndex], Priorities(pieceMap, seeds)[x := priority])
    }

    /** Stores piece `x` at position `k`. */
    method Place(k: int, x: int, ghost before: seq<PiecePos>)
      requires Repositioned(before, pieceMap)
      requires 0 <= x < |pieceMap| && !pieceMap[x].Have() && 0 <= k < |pieces| <= WE_HAVE_INDEX
      modifies this`pieces, this`pieceMap
      ensures pieces == old(pieces)[k := x]
      ensures Indices(pieceMap) == Indices(old(pieceMap))[x := k]
      ensures Priorities(pieceMap, seeds) == Priorities(old(pieceMap), seeds)
      ensures Repositioned(before, pieceMap)
    {
      SetIndexKeepsPriorities(pieceMap, x, k, seeds);
      pieces := pieces[k := x];
      pieceMap := SetIndex(pieceMap, x, k);
    }

    /** Grows the boundary vector so that bucket `priority` exists. */
    method ReserveBucket(priority: int, ghost ix: seq<int>, ghost pr: seq<int>)
      requires priority >= 0 && Ok(pieces, bounds, ix, pr)
      modifies this`bounds
      ensures Ok(pieces, bounds, ix, pr) &&
              |bounds| == (if |old(bounds)| > priority then |old(bounds)| else priority + 1)
      ensures forall q :: 0 <= q < |old(bounds)| ==> bounds[q] == old(bounds)[q]
    {
      if |bounds| <= priority {
        var end := |pieces|;
        var grown := bounds + seq(priority + 1 - |bounds|, _ => end);
        Extend(pieces, bounds, grown, ix, pr);
        bounds := grown;
      }
    }

    method Remove(priority0: int, elemIndex0: int)
      requires !dirty && BucketsStale(priority0, elemIndex0)
      requires pieceMap[pieces[elemIndex0]].Priority(seeds) == -1
      modifies this`pieces, this`bounds, this`pieceMap
      ensures BucketsClean()
      ensures Repositioned(old(pieceMap), pieceMap)
      ensures pieceMap[old(pieces)[elemIndex0]] == old(pieceMap)[old(pieces)[elemIndex0]]
    {
      hide Hole, Ok, Repositioned, Indices, Priorities, PiecePos.Priority;
      RepositionedReflexive(pieceMap);
      var priority, elemIndex := priority0, elemIndex0;
      ghost var x, pr := pieces[elemIndex], Priorities(pieceMap, seeds);
      NoMorePositionsThanPieces(pieces, bounds, Indices(pieceMap)[x := elemIndex], pr[x := priority]);
      Vacate(pieces, bounds, Indices(pieceMap), pr, x, elemIndex, priority);
      var nextIndex := elemIndex;
      while true
        invariant 0 <= priority < |bounds| == |old(bounds)|
        invariant nextIndex == elemIndex
        invariant |pieceMap| == |old(pieceMap)| && |pieces| <= |pieceMap| < WE_HAVE_INDEX
        invariant Priorities(pieceMap, seeds) == pr && 0 <= x < |pr| && pr[x] == -1
        invariant Hole(pieces, bounds, Indices(pieceMap), pr, x, elemIndex, priority)
        invariant Repositioned(old(pieceMap), pieceMap) && pieceMap[x] == old(pieceMap)[x]
        decreases |bounds| - priority
      {
        var temp;
        ghost var p0 := priority;
        while true
          invariant p0 <= priority < |bounds| == |old(bounds)|
          invariant Hole(pieces, bounds, Indices(pieceMap), pr, x, elemIndex, priority)
          decreases |bounds| - priority
          modifies this`bounds
        {
          temp := bounds[priority] - 1;
          if temp == elemIndex {
            HoleUpInPlace(pieces, bounds, Indices(pieceMap), pr, x, elemIndex, priority);
          } else {
            HoleUp(pieces, bounds, Indices(pieceMap), pr, x, elemIndex, priority);
          }
          bounds := bounds[priority := temp];
          priority := priority + 1;
          if !(nextIndex == temp && priority < |bounds|) { break; }
        }
        if nextIndex == temp { break; }
        nextIndex := temp;
        var piece := pieces[nextIndex];
        Place(elemIndex, piece, old(pieceMap));
        elemIndex := nextIndex;
        if priority == |bounds| { break; }
      }
      Drop(pieces, bounds, Indices(pieceMap), pr, x, elemIndex);
      pieces := pieces[..|pieces| - 1];
    }

    /** The do-while of `add`: moves the bucket ends up to and including that of bucket `last`. */
    method RaiseThrough(pos: int, from: int, ghost b0: seq<int>, ghost p: int, ghost last: int)
      returns (temp: int, priority: int)
      requires 0 <= p <= from <= last < |b0| && bounds == Raised(b0, p, from)
      requires forall q :: from <= q < last ==> b0[q] == pos
      requires b0[last] == pos ==> last == |b0| - 1
      modifies this`bounds
      ensures priority == last + 1 && temp == b0[last] && bounds == Raised(b0, p, priority)
    {
      priority := from;
      while true
        invariant from <= priority <= last
        invariant bounds == Raised(b0, p, priority)
        decreases last - priority
      {
        temp := bounds[priority];
        bounds := bounds[priority := temp + 1];
        priority := priority + 1;
        if !(temp == pos && priority < |bounds|) { break; }
      }
    }

    /** Mid-way through `add`: piece `index` is in hand and bucket ends below `priority` are already raised. */
    ghost predicate Adding(b0: seq<int>, p: int, pr: seq<int>, index: int, newIndex: int, priority: int)
      reads this
    {
      && Priorities(pieceMap, seeds) == pr && |pr| < WE_HAVE_INDEX
      && 0 <= p <= priority <= |b0| && bounds == Raised(b0, p, priority)
      && Chain(pieces, b0, p, Indices(pieceMap), pr, index, newIndex)
      && newIndex <= b0[pr[index]]
      && (priority == p == pr[index] || (priority == pr[index] + 1 && newIndex == b0[pr[index]]))
      && pieces[|pieces| - 1] == -1
    }

    /** One round of the loop of `add`; the piece in hand becomes -1 once the free slot at the end is used. */
    method Displace(index: int, newIndex: int, priority: int, ghost b0: seq<int>, ghost p: int, ghost pr: seq<int>,
                    ghost before: seq<PiecePos>)
      returns (index': int, newIndex': int, priority': int)
      requires Adding(b0, p, pr, index, newIndex, priority) && priority < |b0|
      requires Repositioned(before, pieceMap)
      modifies this`pieces, this`bounds, this`pieceMap
      ensures priority < priority' <= |b0| == |bounds|
      ensures index' != -1 ==> Adding(b0, p, pr, index', newIndex', priority')
      ensures index' == -1 ==> priority' == |b0| && |pieceMap| < WE_HAVE_INDEX
                               && Ok(pieces, bounds, Indices(pieceMap), Priorities(pieceMap, seeds))
      ensures Repositioned(before, pieceMap)
    {
      hide Ok, Raised, Repositioned, Indices, Priorities, PiecePos.Priority;
      ChainSkips(pieces, b0, p, Indices(pieceMap), pr, index, newIndex);
      index' := pieces[newIndex];
      ghost var last;
      if newIndex < |pieces| - 1 {
        ChainStep(pieces, b0, p, Indices(pieceMap), pr, index, newIndex);
        last := pr[index'];
      } else {
        ChainEnd(pieces, b0, p, Indices(pieceMap), pr, index, newIndex);
        last := |b0| - 1;
      }
      Place(newIndex, index, before);
      newIndex', priority' := RaiseThrough(newIndex, priority, b0, p, last);
    }

    method Add(index0: int)
      requires !dirty && |pieceMap| < WE_HAVE_INDEX
      requires 0 <= index0 < |pieceMap| && pieceMap[index0].Priority(seeds) >= 0
      requires Ok(pieces, bounds, Indices(pieceMap), Priorities(pieceMap, seeds)[index0 := -1])
      modifies this`pieces, this`bounds, this`pieceMap
      ensures BucketsClean()
      ensures Repositioned(old(pieceMap), pieceMap)
    {
      hide Chain, Ok, Raised, Repositioned, Indices, Priorities, PiecePos.Priority;
      RepositionedReflexive(pieceMap);
      var index := index0;
      ghost var pr := Priorities(pieceMap, seeds);
      var priority := pieceMap[index].Priority(seeds);
      ReserveBucket(priority, Indices(pieceMap), pr[index := -1]);
      ghost var b0, p := bounds, priority;
      BucketRange(pieces, bounds, Indices(pieceMap), pr[index := -1], priority);
      var rangeStart, rangeEnd := if priority == 0 then 0 else bounds[priority - 1], bounds[priority];
      var newIndex :| rangeStart <= newIndex <= rangeEnd;
      ChainBegin(pieces, bounds, Indices(pieceMap), pr, index, newIndex);
      RaisedNowhere(b0, p);
      pieces := pieces + [-1];
      while true
        invariant Adding(b0, p, pr, index, newIndex, priority) && priority < |b0|
        invariant Repositioned(old(pieceMap), pieceMap)
        decreases |b0| - priority
      {
        index, newIndex, priority := Displace(index, newIndex, priority, b0, p, pr, old(pieceMap));
        if priority >= |bounds| { break; }
      }
      if index != -1 {
        ChainSkips(pieces, b0, p, Indices(pieceMap), pr, index, newIndex);
        ChainEnd(pieces, b0, p, Indices(pieceMap), pr, index, newIndex);
        Place(newIndex, index, old(pieceMap));
      }
    }

    method Shuffle(priority: int, elemIndex: int)
      requires !dirty && BucketsClean() && InBucket(bounds, priority, elemIndex)
      modifies this`pieces, this`pieceMap
      ensures BucketsClean()
      ensures Repositioned(old(pieceMap), pieceMap)
    {
      hide Repositioned, Indices, Priorities, PiecePos.Priority;
      RepositionedReflexive(pieceMap);
      ghost var pr := Priorities(pieceMap, seeds);
      var rangeStart, rangeEnd := if priority == 0 then 0 else bounds[priority - 1], bounds[priority];
      var otherIndex :| rangeStart <= otherIndex < rangeEnd;
      if otherIndex == elemIndex { return; }
      Swap(pieces, bounds, Indices(pieceMap), pr, priority, otherIndex, elemIndex);
      NoMorePositionsThanPieces(pieces, bounds, Indices(pieceMap), pr);
      var p1, p2 := pieces[otherIndex], pieces[elemIndex];
      Place(elemIndex, p1, old(pieceMap));
      Place(otherIndex, p2, old(pieceMap));
      assert pieces == old(pieces)[otherIndex := p2][elemIndex := p1];
    }

    /** The hole left by a piece whose bucket changes sinks from bucket `priority0` to `newPriority`. */
    method SinkHole(priority0: int, newPriority: int, elemIndex0: int, x: int, ghost pr: seq<int>)
      returns (elemIndex: int)
      requires 0 <= newPriority < priority0 < |bounds| && |pieces| <= |pieceMap| < WE_HAVE_INDEX
      requires Priorities(pieceMap, seeds) == pr &&
               Hole(pieces, bounds, Indices(pieceMap), pr, x, elemIndex0, priority0)
      requires 0 <= elemIndex0 < |pieces| && pieces[elemIndex0] == x
      modifies this`pieces, this`bounds, this`pieceMap
      ensures Priorities(pieceMap, seeds) == pr && |pieces| == |old(pieces)| && |bounds| == |old(bounds)|
      ensures Hole(pieces, bounds, Indices(pieceMap), pr, x, elemIndex, newPriority)
      ensures Repositioned(old(pieceMap), pieceMap)
    {
      hide Hole, Repositioned, Indices, Priorities, PiecePos.Priority;
      RepositionedReflexive(pieceMap);
      elemIndex := elemIndex0;
      var priority, temp := priority0, x;
      while true
        invariant newPriority < priority < |bounds| == |old(bounds)|
        invariant |pieces| == |old(pieces)| && 0 <= elemIndex < |pieces| && pieces[elemIndex] == temp
        invariant temp == x || (0 <= temp < |pr| && pr[temp] > priority)
        invariant |pieceMap| == |pr| && Priorities(pieceMap, seeds) == pr && Repositioned(old(pieceMap), pieceMap)
        invariant Hole(pieces, bounds, Indices(pieceMap), pr, x, elemIndex, priority)
        decreases priority
      {
        priority := priority - 1;
        var newIndex := bounds[priority];
        if newIndex == elemIndex {
          HoleDownInPlace(pieces, bounds, Indices(pieceMap), pr, x, elemIndex, priority + 1);
        } else {
          HoleDown(pieces, bounds, Indices(pieceMap), pr, x, elemIndex, priority + 1);
        }
        bounds := bounds[priority := newIndex + 1];
        if temp != pieces[newIndex] {
          temp := pieces[newIndex];
          Place(elemIndex, temp, old(pieceMap));
        }
        elemIndex := newIndex;
        if priority == newPriority { break; }
      }
    }

    /** The hole left by a piece whose bucket changes rises from bucket `priority0` to `newPriority`. */
    method RaiseHole(priority0: int, newPriority: int, elemIndex0: int, x: int, ghost pr: seq<int>)
      returns (elemIndex: int)
      requires 0 <= priority0 < newPriority < |bounds| && |pieces| <= |pieceMap| < WE_HAVE_INDEX
      requires Priorities(pieceMap, seeds) == pr &&
               Hole(pieces, bounds, Indices(pieceMap), pr, x, elemIndex0, priority0)
      requires 0 <= elemIndex0 < |pieces| && pieces[elemIndex0] == x
      modifies this`pieces, this`bounds, this`pieceMap
      ensures Priorities(pieceMap, seeds) == pr && |pieces| == |old(pieces)| && |bounds| == |old(bounds)|
      ensures Hole(pieces, bounds, Indices(pieceMap), pr, x, elemIndex, newPriority)
      ensures Repositioned(old(pieceMap), pieceMap)
    {
      hide Hole, Repositioned, Indices, Priorities, PiecePos.Priority;
      RepositionedReflexive(pieceMap);
      elemIndex := elemIndex0;
      var priority, temp := priority0, x;
      while true
        invariant 0 <= priority < newPriority < |bounds| == |old(bounds)|
        invariant |pieces| == |old(pieces)| && 0 <= elemIndex < |pieces| && pieces[elemIndex] == temp
        invariant temp == x || (0 <= temp < |pr| && pr[temp] < priority)
        invariant |pieceMap| == |pr| && Priorities(pieceMap, seeds) == pr && Repositioned(old(pieceMap), pieceMap)
        invariant Hole(pieces, bounds, Indices(pieceMap), pr, x, elemIndex, priority)
        decreases newPriority - priority
      {
        var newIndex := bounds[priority] - 1;
        if newIndex == elemIndex {
          HoleUpInPlace(pieces, bounds, Indices(pieceMap), pr, x, elemIndex, priority);
        } else {
          HoleUp(pieces, bounds, Indices(pieceMap), pr, x, elemIndex, priority);
        }
        bounds := bounds[priority := newIndex];
        if temp != pieces[newIndex] {
          temp := pieces[newIndex];
          Place(elemIndex, temp, old(pieceMap));
        }
        elemIndex := newIndex;
        priority := priority + 1;
        if priority == newPriority { break; }
      }
    }

    /** Moves the piece at `elemIndex`, listed under the former priority `priority`, to where it belongs now. */
    method Update(priority: int, elemIndex0: int)
      requires !dirty && priority >= 0 && BucketsStale(priority, elemIndex0)
      requires pieceMap[pieces[elemIndex0]].Priority(seeds) >= -1
      requires pieceMap[pieces[elemIndex0]].Have() || pieceMap[pieces[elemIndex0]].index == elemIndex0
      modifies this`pieces, this`bounds, this`pieceMap
      ensures BucketsClean()
      ensures Repositioned(old(pieceMap), pieceMap)
    {
      hide Hole, Ok, Repositioned, Indices, Priorities, PiecePos.Priority;
      RepositionedReflexive(pieceMap);
      var elemIndex := elemIndex0;
      var index := pieces[elemIndex];
      ghost var pr := Priorities(pieceMap, seeds);
      var newPriority := pieceMap[index].Priority(seeds);
      if newPriority == priority {
        assert Indices(pieceMap)[index] == elemIndex;
        assert Indices(pieceMap)[index := elemIndex] == Indices(pieceMap);
        assert pr[index := priority] == pr;
        return;
      }
      if newPriority == -1 {
        Remove(priority, elemIndex);
        return;
      }
      NoMorePositionsThanPieces(pieces, bounds, Indices(pieceMap)[index := elemIndex], pr[index := priority]);
      ReserveBucket(newPriority, Indices(pieceMap)[index := elemIndex], pr[index := priority]);
      Vacate(pieces, bounds, Indices(pieceMap), pr, index, elemIndex, priority);
      if priority > newPriority {
        elemIndex := SinkHole(priority, newPriority, elemIndex, index, pr);
      } else {
        elemIndex := RaiseHole(priority, newPriority, elemIndex, index, pr);
      }
      Fill(pieces, bounds, Indices(pieceMap), pr, index, elemIndex, newPriority);
      Place(elemIndex, index, old(pieceMap));
      ghost var placed := pieceMap;
      Shuffle(newPriority, elemIndex);
      RepositionedTransitive(old(pieceMap), placed, pieceMap);
    }

    // ----- rebuilding the index from scratch -----

    /** First pass: counts the pieces of every priority and ranks each piece within its bucket. */
    method CountPriorities(bs0: seq<int>) returns (bs: seq<int>)
      requires |pieceMap| < WE_HAVE_INDEX && |bs0| > 0 && LegalPriorities(pieceMap)
      modifies this`pieceMap
      ensures Repositioned(old(pieceMap), pieceMap)
      ensures Priorities(pieceMap, seeds) == Priorities(old(pieceMap), seeds)
      ensures |bs| > 0
      ensures var pr := Priorities(pieceMap, seeds);
              && (forall q :: 0 <= q < |bs| ==> bs[q] == Count(pr, q, |pr|))
              && (forall i :: 0 <= i < |pr| ==> -1 <= pr[i] < |bs|)
              && (forall i :: 0 <= i < |pr| && pr[i] >= 0 ==> pieceMap[i].index == Count(pr, pr[i], i))
    {
      hide Repositioned, Indices, Priorities, PiecePos.Priority;
      RepositionedReflexive(pieceMap);
      ghost var pr := Priorities(pieceMap, seeds);
      bs := seq(|bs0|, _ => 0);
      var i := 0;
      while i < |pieceMap|
        invariant 0 <= i <= |pieceMap| == |pr| && |bs| > 0
        invariant Priorities(pieceMap, seeds) == pr && Repositioned(old(pieceMap), pieceMap)
        invariant LegalPriorities(pieceMap)
        invariant forall q :: 0 <= q < |bs| ==> bs[q] == Count(pr, q, i)
        invariant forall q :: |bs| <= q ==> Count(pr, q, i) == 0
        invariant forall j :: 0 <= j < i ==> -1 <= pr[j] < |bs|
        invariant forall j :: 0 <= j < i && pr[j] >= 0 ==> pieceMap[j].index == Count(pr, pr[j], j)
      {
        var prio := pieceMap[i].Priority(seeds);
        DownloadFlagKeepsListing(pieceMap[i], false, seeds, seeds);
        if prio != -1 {
          if prio >= |bs| {
            bs := bs + seq(prio + 1 - |bs|, _ => 0);
          }
          CountMonotone(pr, prio, i, i);
          SetIndexKeepsPriorities(pieceMap, i, bs[prio], seeds);
          RepositionedTransitive(old(pieceMap), pieceMap, SetIndex(pieceMap, i, bs[prio]));
          pieceMap := SetIndex(pieceMap, i, bs[prio]);
          bs := bs[prio := bs[prio] + 1];
        }
        i := i + 1;
      }
    }

    /** Second pass: turns counts into bucket ends. */
    static method Accumulate(counts: seq<int>, ghost pr: seq<int>) returns (bs: seq<int>, total: int)
      requires forall q :: 0 <= q < |counts| ==> counts[q] == Count(pr, q, |pr|)
      ensures |bs| == |counts| && total == Below(pr, |bs|, |pr|)
      ensures forall q :: 0 <= q < |bs| ==> bs[q] == Below(pr, q + 1, |pr|)
    {
      bs, total := counts, 0;
      BelowZero(pr, |pr|);
      for i := 0 to |bs|
        invariant |bs| == |counts| && total == Below(pr, i, |pr|)
        invariant forall q :: 0 <= q < i ==> bs[q] == Below(pr, q + 1, |pr|)
        invariant forall q :: i <= q < |bs| ==> bs[q] == counts[q]
      {
        BelowStep(pr, i, |pr|);
        bs := bs[i := bs[i] + total];
        total := bs[i];
      }
    }

    /** Third pass: puts every listed piece into its slot. */
    method PlaceAll(ps0: seq<int>, bs: seq<int>) returns (ps: seq<int>)
      requires |bs| > 0
      requires var pr := Priorities(pieceMap, seeds);
               && (forall i :: 0 <= i < |pr| ==> -1 <= pr[i] < |bs|)
               && (forall i :: 0 <= i < |pr| && pr[i] >= 0 ==> pieceMap[i].index == Count(pr, pr[i], i))
               && (forall q :: 0 <= q < |bs| ==> bs[q] == Below(pr, q + 1, |pr|))
               && |ps0| == Below(pr, |bs|, |pr|)
      ensures Listing(ps, bs, Priorities(pieceMap, seeds))
    {
      hide Priorities, PiecePos.Priority, Listing;
      ghost var pr := Priorities(pieceMap, seeds);
      ps := ps0;
      BelowZero(pr, |pr|);
      for i := 0 to |pieceMap|
        invariant |ps| == |ps0|
        invariant forall j :: 0 <= j < i && pr[j] >= 0 ==> Slot(pr, j) < |ps| && ps[Slot(pr, j)] == j
      {
        var prio := pieceMap[i].Priority(seeds);
        if prio != -1 {
          var newIndex := (if prio == 0 then 0 else bs[prio - 1]) + pieceMap[i].index;
          SlotInBucket(pr, i);
          BelowMonotone(pr, pr[i] + 1, |bs|);
          forall j | 0 <= j < i && pr[j] >= 0
            ensures Slot(pr, j) != newIndex
          {
            SlotInjective(pr, j, i);
          }
          ps := ps[newIndex := i];
        }
      }
      PlacedIsListing(ps, bs, pr);
    }

    /** Fourth pass: shuffles every bucket; each exchange partner is an arbitrary earlier position of the bucket. */
    static method ShuffleAll(ps0: seq<int>, bs: seq<int>, ghost pr: seq<int>) returns (ps: seq<int>)
      requires Listing(ps0, bs, pr)
      ensures Listing(ps, bs, pr)
    {
      ps := ps0;
      var start := 0;
      for q := 0 to |bs|
        invariant Listing(ps, bs, pr) && |ps| == |ps0|
        invariant start == Start(bs, q)
      {
        if start == bs[q] { continue; }
        ps := ShuffleRange(ps, start, bs[q], bs, pr, q);
        start := bs[q];
      }
    }

    static method ShuffleRange(ps0: seq<int>, start: int, end: int, ghost bs: seq<int>, ghost pr: seq<int>,
                               ghost q: int)
      returns (ps: seq<int>)
      requires Listing(ps0, bs, pr) && 0 <= q < |bs| && start == Start(bs, q) && end == bs[q] && start < end
      ensures Listing(ps, bs, pr) && |ps| == |ps0|
    {
      hide Listing;
      ps := ps0;
      for i := start + 1 to end
        invariant Listing(ps, bs, pr) && |ps| == |ps0|
      {
        var j :| start <= j <= i;
        SwapKeepsListing(ps, bs, pr, q, i, j);
        ps := ps[i := ps[j]][j := ps[i]];
      }
    }

    method UpdatePieces()
      requires dirty && Valid()
      modifies this`pieces, this`bounds, this`pieceMap, this`dirty
      ensures !dirty && Valid() && |pieceMap| == |old(pieceMap)|
      ensures Repositioned(old(pieceMap), pieceMap)
    {
      hide Repositioned, Indices, Priorities, PiecePos.Priority, Listing, Ok, TableOk, CursorsOk, Tally, Count, Below,
           HaveFlags, FilteredFlags;
      var bs := if |bounds| == 0 then [0] else bounds;
      bs := CountPriorities(bs);
      ghost var pr := Priorities(pieceMap, seeds);
      var total;
      bs, total := Accumulate(bs, pr);
      BelowZero(pr, |pr|);
      var ps := if total <= |pieces| then pieces[..total] else pieces + seq(total - |pieces|, _ => 0);
      ps := PlaceAll(ps, bs);
      ps := ShuffleAll(ps, bs, pr);
      bounds := bs;
      pieces := ps;
      RecordPositions(pr, old(pieceMap));
      dirty := false;
      RepositionedKeepsRest(old(pieceMap), pieceMap);
    }

    /** Last pass: records every piece's position. */
    method RecordPositions(ghost pr: seq<int>, ghost before: seq<PiecePos>)
      requires Listing(pieces, bounds, pr) && pr == Priorities(pieceMap, seeds)
      requires |pieceMap| < WE_HAVE_INDEX && Repositioned(before, pieceMap)
      modifies this`pieceMap
      ensures BucketsClean() && Repositioned(before, pieceMap)
    {
      hide Repositioned, Indices, Priorities, PiecePos.Priority;
      ListingFitsPieces(pieces, bounds, pr);
      for k := 0 to |pieces|
        invariant |pieceMap| == |pr| && pr == Priorities(pieceMap, seeds) && Repositioned(before, pieceMap)
        invariant forall j :: 0 <= j < k ==> pieceMap[pieces[j]].index == j
      {
        SetIndexKeepsPriorities(pieceMap, pieces[k], k, seeds);
        RepositionedTransitive(before, pieceMap, SetIndex(pieceMap, pieces[k], k));
        pieceMap := SetIndex(pieceMap, pieces[k], k);
      }
      ListingIsOk(pieces, bounds, Indices(pieceMap), pr);
    }

    // ----- operations that change one piece's standing -----

    /** After the record of piece `x` changed, moves it from the bucket of its former priority. */
    method Relist(prevPriority: int, x: int, ghost pm0: seq<PiecePos>)
      requires !dirty && 0 <= x < |pm0| < WE_HAVE_INDEX && LegalPriorities(pieceMap)
      requires |pieceMap| == |pm0| && pieceMap == pm0[x := pieceMap[x]] && pieceMap[x].index == pm0[x].index
      requires prevPriority == pm0[x].Priority(seeds) && prevPriority >= 0
      requires Ok(pieces, bounds, Indices(pm0), Priorities(pm0, seeds))
      modifies this`pieces, this`bounds, this`pieceMap
      ensures BucketsClean() && Repositioned(old(pieceMap), pieceMap)
    {
      hide Repositioned, PiecePos.Priority, Fits;
      DownloadFlagKeepsListing(pieceMap[x], false, seeds, seeds);
      assert Indices(pieceMap)[x := pieceMap[x].index] == Indices(pm0);
      assert Priorities(pieceMap, seeds)[x := prevPriority] == Priorities(pm0, seeds);
      assert 0 <= Indices(pm0)[x] < |pieces|;
      Update(prevPriority, pieceMap[x].index);
    }

    /** After the record of an unlisted piece `x` changed so that it must be listed. */
    method ListAnew(x: int, ghost pm0: seq<PiecePos>)
      requires !dirty && 0 <= x < |pm0| < WE_HAVE_INDEX
      requires |pieceMap| == |pm0| && pieceMap == pm0[x := pieceMap[x]]
      requires pm0[x].Priority(seeds) == -1 && pieceMap[x].Priority(seeds) >= 0
      requires Ok(pieces, bounds, Indices(pm0), Priorities(pm0, seeds))
      modifies this`pieces, this`bounds, this`pieceMap
      ensures BucketsClean() && Repositioned(old(pieceMap), pieceMap)
    {
      hide Repositioned, PiecePos.Priority;
      assert Priorities(pieceMap, seeds)[x := -1] == Priorities(pm0, seeds);
      UnlistedIndexIsFree(pieces, bounds, Indices(pm0), Priorities(pm0, seeds), x, pieceMap[x].index);
      assert Indices(pm0)[x := pieceMap[x].index] == Indices(pieceMap);
      Add(x);
    }

    /** `pm` could replace the piece map as far as counters and download table are concerned. */
    ghost predicate RestOk(pm: seq<PiecePos>)
      reads this
    {
      && SurveyOk(pm, cursor, reverseCursor, numHave, numFiltered, numHaveFiltered)
      && TableOk(pm, downloads, blockInfo, blocksPerPiece, blocksInLastPiece)
    }

    lemma RepositionedKeepsRest(pm: seq<PiecePos>, pm': seq<PiecePos>)
      requires RestOk(pm) && Repositioned(pm, pm')
      ensures RestOk(pm') && |pm'| == |pm|
    {
      hide TableOk;
      RepositionedKeepsSurvey(pm, pm', cursor, reverseCursor);
      TableFollowsFlags(pm, pm', downloads, blockInfo, blocksPerPiece, blocksInLastPiece);
    }

    lemma PeerCountsKeepRest(pm: seq<PiecePos>, pm': seq<PiecePos>)
      requires RestOk(pm) && OnlyPeerCounts(pm, pm')
      ensures RestOk(pm')
    {
      PeerCountsAreNoSurvey(pm, pm', cursor, reverseCursor, numHave, numFiltered, numHaveFiltered);
      hide TableOk;
      TableFollowsFlags(pm, pm', downloads, blockInfo, blocksPerPiece, blocksInLastPiece);
    }

    /** The common end of the operations that may change the priority of piece `x`. */
    method Requeue(prevPriority: int, x: int, ghost pm0: seq<PiecePos>)
      requires RestOk(pieceMap) && 0 <= x < |pm0| == |pieceMap|
      requires pieceMap == pm0[x := pieceMap[x]] && pieceMap[x].index == pm0[x].index
      requires prevPriority == pm0[x].Priority(seeds) && prevPriority >= -1
      requires !dirty ==> Ok(pieces, bounds, Indices(pm0), Priorities(pm0, seeds))
      modifies this`pieces, this`bounds, this`pieceMap
      ensures Valid() && Repositioned(old(pieceMap), pieceMap)
    {
      hide Repositioned, PiecePos.Priority, Ok, TableOk, CursorsOk, Indices, Priorities, HaveFlags, FilteredFlags,
           Tally;
      RepositionedReflexive(pieceMap);
      if dirty { return; }
      var newPriority := pieceMap[x].Priority(seeds);
      if prevPriority == newPriority {
        SameStanding(pm0, x, pieceMap[x], seeds);
        return;
      }
      ghost var pm1 := pieceMap;
      DownloadFlagKeepsListing(pieceMap[x], false, seeds, seeds);
      if prevPriority == -1 {
        ListAnew(x, pm0);
      } else {
        Relist(prevPriority, x, pm0);
      }
      RepositionedKeepsRest(pm1, pieceMap);
    }

    method IncRefcount(index: int)
      requires Valid() && 0 <= index < |pieceMap|
      modifies this`pieces, this`bounds, this`pieceMap
      ensures Valid()
      ensures var p := old(pieceMap)[index];
              Repositioned(old(pieceMap)[index := p.(peerCount := (p.peerCount + 1) % PEER_COUNT_RANGE)], pieceMap)
    {
      hide Repositioned, PiecePos.Priority, Ok, TableOk, CursorsOk, Indices, Priorities, HaveFlags, FilteredFlags,
           Tally;
      var p := pieceMap[index];
      DownloadFlagKeepsListing(p, false, seeds, seeds);
      var prevPriority := p.Priority(seeds);
      ghost var pm0 := pieceMap;
      pieceMap := pieceMap[index := p.(peerCount := (p.peerCount + 1) % PEER_COUNT_RANGE)];
      PeerCountsKeepRest(pm0, pieceMap);
      Requeue(prevPriority, index, pm0);
    }

    method DecRefcount(index: int)
      requires Valid() && 0 <= index < |pieceMap| && pieceMap[index].peerCount > 0
      modifies this`pieces, this`bounds, this`pieceMap
      ensures Valid()
      ensures var p := old(pieceMap)[index];
              Repositioned(old(pieceMap)[index := p.(peerCount := p.peerCount - 1)], pieceMap)
    {
      hide Repositioned, PiecePos.Priority, Ok, TableOk, CursorsOk, Indices, Priorities, HaveFlags, FilteredFlags,
           Tally;
      var p := pieceMap[index];
      DownloadFlagKeepsListing(p, false, seeds, seeds);
      var prevPriority := p.Priority(seeds);
      ghost var pm0 := pieceMap;
      pieceMap := pieceMap[index := p.(peerCount := p.peerCount - 1)];
      PeerCountsKeepRest(pm0, pieceMap);
      Requeue(prevPriority, index, pm0);
    }

    method IncRefcountAll()
      requires Valid()
      modifies this`seeds, this`dirty
      ensures Valid() && seeds == old(seeds) + 1
    {
      hide SurveyOk, TableOk, Ok, Priorities, Indices;
      SeedsMatterOnlyWhenZero(pieceMap, seeds, if seeds == 0 then 0 else seeds + 1);
      seeds := seeds + 1;
      if seeds == 1 {
        dirty := true;
      }
    }

    method DecRefcountAll()
      requires Valid()
      requires seeds == 0 ==> forall i :: 0 <= i < |pieceMap| ==> pieceMap[i].peerCount > 0
      modifies this`seeds, this`dirty, this`pieceMap
      ensures Valid() && seeds == (if old(seeds) > 0 then old(seeds) - 1 else 0)
      ensures old(seeds) > 0 ==> pieceMap == old(pieceMap)
      ensures old(seeds) == 0 ==> OnlyPeerCounts(old(pieceMap), pieceMap)
                                  && forall i :: 0 <= i < |pieceMap| ==>
                                      pieceMap[i].peerCount == old(pieceMap)[i].peerCount - 1
    {
      hide Ok, TableOk, SurveyOk;
      if seeds > 0 {
        SeedsMatterOnlyWhenZero(pieceMap, seeds, if seeds == 1 then 1 else seeds - 1);
        seeds := seeds - 1;
        if seeds == 0 {
          dirty := true;
        }
        return;
      }
      for i := 0 to |pieceMap|
        invariant OnlyPeerCounts(old(pieceMap), pieceMap) && seeds == old(seeds) && dirty == old(dirty)
        invariant forall j :: 0 <= j < |pieceMap| ==>
                  pieceMap[j].peerCount == old(pieceMap)[j].peerCount - (if j < i then 1 else 0)
      {
        pieceMap := pieceMap[i := pieceMap[i].(peerCount := pieceMap[i].peerCount - 1)];
      }
      PeerCountsKeepRest(old(pieceMap), pieceMap);
      dirty := true;
    }

    method IncRefcountMask(bitmask: seq<bool>)
      requires Valid() && |bitmask| == |pieceMap|
      modifies this`dirty, this`pieceMap
      ensures Valid() && OnlyPeerCounts(old(pieceMap), pieceMap)
      ensures forall i :: 0 <= i < |pieceMap| && bitmask[i] ==>
                            pieceMap[i].peerCount == (old(pieceMap)[i].peerCount + 1) % PEER_COUNT_RANGE
      ensures forall i :: 0 <= i < |pieceMap| && !bitmask[i] ==> pieceMap[i] == old(pieceMap)[i]
    {
      hide Ok, TableOk, SurveyOk;
      var updated := false;
      for i := 0 to |bitmask|
        invariant OnlyPeerCounts(old(pieceMap), pieceMap)
        invariant dirty == old(dirty) && (!updated ==> pieceMap == old(pieceMap))
        invariant forall j :: 0 <= j < |pieceMap| ==>
                                var count := old(pieceMap)[j].peerCount;
                                pieceMap[j].peerCount ==
                                  if j < i && bitmask[j] then (count + 1) % PEER_COUNT_RANGE else count
      {
        if bitmask[i] {
          pieceMap := pieceMap[i := pieceMap[i].(peerCount := (pieceMap[i].peerCount + 1) % PEER_COUNT_RANGE)];
          updated := true;
        }
      }
      PeerCountsKeepRest(old(pieceMap), pieceMap);
      if updated { dirty := true; }
    }

    method DecRefcountMask(bitmask: seq<bool>)
      requires Valid() && |bitmask| == |pieceMap|
      modifies this`dirty, this`pieceMap
      ensures Valid() && OnlyPeerCounts(old(pieceMap), pieceMap)
      ensures forall i :: 0 <= i < |pieceMap| && bitmask[i] ==>
              pieceMap[i].peerCount == OneLess(old(pieceMap)[i].peerCount)
      ensures forall i :: 0 <= i < |pieceMap| && !bitmask[i] ==> pieceMap[i] == old(pieceMap)[i]
    {
      hide Ok, TableOk, SurveyOk;
      var updated := false;
      for i := 0 to |bitmask|
        invariant OnlyPeerCounts(old(pieceMap), pieceMap)
        invariant dirty == old(dirty) && (!updated ==> pieceMap == old(pieceMap))
        invariant forall j :: 0 <= j < |pieceMap| ==>
                                var count := old(pieceMap)[j].peerCount;
                                pieceMap[j].peerCount == if j < i && bitmask[j] then OneLess(count) else count
      {
        if bitmask[i] {
          pieceMap := pieceMap[i := pieceMap[i].(peerCount := OneLess(pieceMap[i].peerCount))];
          updated := true;
        }
      }
      PeerCountsKeepRest(old(pieceMap), pieceMap);
      if updated { dirty := true; }
    }

    // ----- cursors -----

    /** Piece `index` has just become settled: moves the cursors past it. */
    method AdvanceCursors(index: int, ghost pm0: seq<PiecePos>)
      requires CursorsOk(pm0, cursor, reverseCursor) && 0 <= index < |pm0| == |pieceMap|
      requires pieceMap == pm0[index := pieceMap[index]] && pieceMap[index].Settled()
      modifies this`cursor, this`reverseCursor
      ensures CursorsOk(pieceMap, cursor, reverseCursor)
    {
      if cursor == reverseCursor - 1 && cursor == index {
        cursor := |pieceMap|;
        reverseCursor := 0;
      } else if cursor == index {
        cursor := cursor + 1;
        while cursor < |pieceMap| && pieceMap[cursor].Settled()
          invariant 0 <= cursor <= |pieceMap| && reverseCursor == old(reverseCursor)
          invariant forall k :: 0 <= k < cursor ==> pieceMap[k].Settled()
        {
          cursor := cursor + 1;
        }
      } else if reverseCursor - 1 == index {
        reverseCursor := reverseCursor - 1;
        while reverseCursor > 0 && pieceMap[reverseCursor - 1].Settled()
          invariant 0 <= reverseCursor <= |pieceMap| && cursor == old(cursor)
          invariant forall k :: reverseCursor <= k < |pieceMap| ==> pieceMap[k].Settled()
        {
          reverseCursor := reverseCursor - 1;
        }
      }
    }

    /**
      Piece `index` is wanted again: pulls the cursors back over it. The source then tests
      whether the cursors meet; the assertion shows that they never do.
     */
    method RetractCursors(index: int, ghost pm0: seq<PiecePos>)
      requires CursorsOk(pm0, cursor, reverseCursor) && 0 <= index < |pm0| == |pieceMap|
      requires forall k :: 0 <= k < |pm0| && k != index ==> pieceMap[k].Settled() == pm0[k].Settled()
      requires !pieceMap[index].Settled()
      modifies this`cursor, this`reverseCursor
      ensures CursorsOk(pieceMap, cursor, reverseCursor)
    {
      if index < cursor { cursor := index; }
      if index >= reverseCursor { reverseCursor := index + 1; }
      assert reverseCursor != cursor;
    }

    // ----- the download table -----

    /** Opens an entry with a cleared row for piece `p`. */
    method AddDownloadPiece(p: int)
      requires Allocated(downloads, blockInfo, blocksPerPiece) && Find(downloads, p) == |downloads|
      modifies this`downloads, this`blockInfo
      ensures downloads == old(downloads) + [Download(p, NoSpeed, |old(downloads)|, 0, 0, 0)]
      ensures Appended(old(downloads), old(blockInfo), blocksPerPiece, downloads[|old(downloads)|], blockInfo)
    {
      hide Find;
      var n, width := |downloads|, blocksPerPiece;
      if |blockInfo| < n + 1 {
        blockInfo := blockInfo + [seq(width, _ => FRESH_BLOCK)];
      }
      downloads := downloads + [Download(p, NoSpeed, n, 0, 0, 0)];
      var row := blockInfo[n];
      for i := 0 to width
        invariant |row| == width && forall k :: 0 <= k < i ==> row[k] == FRESH_BLOCK
      {
        row := row[i := FRESH_BLOCK];
      }
      blockInfo := blockInfo[n := row];
    }

    /** Closes entry `i`; the owner of the last row moves into the freed row. */
    method EraseDownloadPiece(i: int)
      requires TableOk(pieceMap, downloads, blockInfo, blocksPerPiece, blocksInLastPiece) && 0 <= i < |downloads|
      modifies this`downloads, this`blockInfo, this`pieceMap
      ensures TableOk(pieceMap, downloads, blockInfo, blocksPerPiece, blocksInLastPiece)
      ensures 0 <= old(downloads)[i].index < |old(pieceMap)|
      ensures var p := old(downloads)[i].index;
              && pieceMap == Unflagged(old(pieceMap), p)
              && Find(downloads, p) == |downloads|
              && forall q :: q != p ==> BlocksOf(q) == old(BlocksOf(q)) && SpeedOf(q) == old(SpeedOf(q))
      ensures SortedWithout(old(downloads), i) ==> Sorted(downloads)
    {
      hide Find, FindSlot, Erased, TableOk, Blocks, Sorted, SortedWithout;
      EraseStep(pieceMap, downloads, blockInfo, blocksPerPiece, blocksInLastPiece, i);
      var p := downloads[i].index;
      var ds, rows := TakeOut(downloads, blockInfo, i);
      pieceMap := pieceMap[p := pieceMap[p].(downloading := false)];
      downloads, blockInfo := ds, rows;
    }

    static method TakeOut(ds0: seq<Download>, rows0: seq<seq<BlockInfo>>, i: int)
      returns (ds: seq<Download>, rows: seq<seq<BlockInfo>>)
      requires 0 <= i < |ds0| && FindSlot(ds0, |ds0| - 1) < |ds0| <= |rows0| && 0 <= ds0[i].slot < |rows0|
      ensures var o := FindSlot(ds0, |ds0| - 1);
              ds == Erased(ds0, i, o) && rows == rows0[ds0[i].slot := rows0[ds0[o].slot]]
    {
      hide FindSlot, Erased;
      var other := FindSlot(ds0, |ds0| - 1);
      ds, rows := ds0, rows0;
      if i != other {
        rows := rows[ds[i].slot := rows[ds[other].slot]];
        ds := ds[other := ds[other].(slot := ds[i].slot)];
      }
      assert rows == rows0[ds0[i].slot := rows0[ds0[other].slot]];
      ds := ds[..i] + ds[i + 1..];
      ErasedIs(ds0, i, other, ds);
    }

    /** Moves entry `dp`, whose count of complete blocks may have grown, up to its place. */
    method SortPiece(dp: int)
      requires Allocated(downloads, blockInfo, blocksPerPiece) && 0 <= dp < |downloads|
      modifies this`downloads
      ensures Allocated(downloads, blockInfo, blocksPerPiece)
      ensures SameRecords(old(downloads), downloads, blockInfo)
      ensures SortedExcept(old(downloads), dp) ==> Sorted(downloads)
      ensures dp == 0 || old(downloads)[dp - 1].Complete() >= old(downloads)[dp].Complete() ==>
              downloads == old(downloads)
    {
      hide Find, Allocated, SameRecords;
      SameRecordsReflexive(downloads, blockInfo);
      if dp == 0 { return; }
      var complete := downloads[dp].Complete();
      var i := dp;
      while i != 0
        invariant 0 <= i <= dp && |downloads| == |old(downloads)| && downloads[i].Complete() == complete
        invariant Allocated(downloads, blockInfo, blocksPerPiece)
        invariant SameRecords(old(downloads), downloads, blockInfo)
        invariant SortedExcept(old(downloads), dp) ==> SortedExcept(downloads, i)
        invariant i == dp ==> downloads == old(downloads)
        invariant i < dp ==> old(downloads)[dp - 1].Complete() < complete
      {
        var j := i - 1;
        if downloads[j].Complete() >= complete { return; }
        SortStep(old(downloads), downloads, blockInfo, blocksPerPiece, i);
        downloads := downloads[j := downloads[i]][i := downloads[j]];
        i := j;
      }
    }

    // ----- pieces that arrive, disappear or change their user priority -----

    /** Piece `x` leaves the buckets: it was listed under `priority` at `infoIndex` and now has priority -1. */
    method Delist(priority: int, infoIndex: int, x: int, ghost pm0: seq<PiecePos>)
      requires RestOk(pieceMap) && 0 <= x < |pm0| == |pieceMap|
      requires pieceMap == pm0[x := pieceMap[x]] && infoIndex == pm0[x].index
      requires priority == pm0[x].Priority(seeds) >= -1 && pieceMap[x].Priority(seeds) == -1
      requires !dirty ==> Ok(pieces, bounds, Indices(pm0), Priorities(pm0, seeds))
      modifies this`pieces, this`bounds, this`pieceMap
      ensures Valid() && Repositioned(old(pieceMap), pieceMap)
    {
      hide Repositioned, PiecePos.Priority, TableOk, CursorsOk, HaveFlags, FilteredFlags, Tally, Fits;
      RepositionedReflexive(pieceMap);
      assert Indices(pieceMap) == Indices(pm0)[x := pieceMap[x].index];
      assert Priorities(pieceMap, seeds) == Priorities(pm0, seeds)[x := -1];
      if dirty { return; }
      if priority == -1 {
        UnlistedIndexIsFree(pieces, bounds, Indices(pm0), Priorities(pm0, seeds), x, pieceMap[x].index);
        assert Priorities(pieceMap, seeds) == Priorities(pm0, seeds);
        return;
      }
      assert Indices(pieceMap)[x := infoIndex] == Indices(pm0);
      assert Priorities(pieceMap, seeds)[x := priority] == Priorities(pm0, seeds);
      assert 0 <= Indices(pm0)[x] < |pieces| && pieces[Indices(pm0)[x]] == x;
      ghost var pm1 := pieceMap;
      Remove(priority, infoIndex);
      RepositionedKeepsRest(pm1, pieceMap);
    }

    /** Drops the download entry of a piece, if it has one. */
    method CloseDownload(index: int)
      requires RestOk(pieceMap) && 0 <= index < |pieceMap|
      modifies this`downloads, this`blockInfo, this`pieceMap
      ensures RestOk(pieceMap) && pieceMap == Unflagged(old(pieceMap), index)
      ensures forall q :: q != index ==> BlocksOf(q) == old(BlocksOf(q)) && SpeedOf(q) == old(SpeedOf(q))
      ensures SortedWithout(old(downloads), Find(old(downloads), index)) ==> Sorted(downloads)
    {
      hide TableOk, SurveyOk, Find, Blocks, Describes;
      if pieceMap[index].downloading {
        FlaggedEntry(pieceMap, downloads, blockInfo, blocksPerPiece, blocksInLastPiece, index);
        FlagIsNoSurvey(pieceMap, index, false, cursor, reverseCursor, numHave, numFiltered, numHaveFiltered);
        EraseDownloadPiece(Find(downloads, index));
      } else {
        assert pieceMap == Unflagged(pieceMap, index);
        UnflaggedHasNoBlocks(pieceMap, downloads, blockInfo, blocksPerPiece, blocksInLastPiece, index);
      }
    }

    /** Updates the number of runs of missing pieces for the arrival of `index`. */
    method CountRuns(index: int)
      requires 0 <= index < |pieceMap| && !pieceMap[index].Have()
      modifies this`sparseRegions
      ensures sparseRegions - MissingRuns(SetIndex(pieceMap, index, WE_HAVE_INDEX)) ==
              old(sparseRegions) - MissingRuns(pieceMap)
    {
      hide Tally;
      ArrivalChangesRuns(HaveFlags(pieceMap), index);
      assert HaveFlags(SetIndex(pieceMap, index, WE_HAVE_INDEX)) == HaveFlags(pieceMap)[index := true];
      if index == 0 {
        if index == |pieceMap| - 1 || pieceMap[index + 1].Have() {
          sparseRegions := sparseRegions - 1;
        }
      } else if index == |pieceMap| - 1 {
        if pieceMap[index - 1].Have() {
          sparseRegions := sparseRegions - 1;
        }
      } else {
        var haveBefore, haveAfter := pieceMap[index - 1].Have(), pieceMap[index + 1].Have();
        if haveAfter && haveBefore {
          sparseRegions := sparseRegions - 1;
        } else if !haveAfter && !haveBefore {
          sparseRegions := sparseRegions + 1;
        }
      }
    }

    /** Records the arrival of a missing piece in every counter. */
    method CountArrival(index: int)
      requires RestOk(pieceMap) && 0 <= index < |pieceMap| && !pieceMap[index].Have() && !pieceMap[index].downloading
      modifies this`sparseRegions, this`numFiltered, this`numHaveFiltered, this`numHave, this`pieceMap, this`cursor,
               this`reverseCursor
      ensures RestOk(pieceMap) && pieceMap == SetIndex(old(pieceMap), index, WE_HAVE_INDEX)
      ensures sparseRegions - MissingRuns(pieceMap) == old(sparseRegions) - MissingRuns(old(pieceMap))
    {
      hide Tally, TableOk, MissingRuns, CursorsOk, HaveFlags, FilteredFlags;
      ghost var pm0 := pieceMap;
      var p := pieceMap[index];
      TalliesAfter(pieceMap, index, p.(index := WE_HAVE_INDEX));
      TableFollowsFlags(pieceMap, SetIndex(pieceMap, index, WE_HAVE_INDEX), downloads, blockInfo, blocksPerPiece,
                        blocksInLastPiece);
      CountRuns(index);
      if p.Filtered() {
        numFiltered := numFiltered - 1;
        numHaveFiltered := numHaveFiltered + 1;
      }
      numHave := numHave + 1;
      pieceMap := SetIndex(pieceMap, index, WE_HAVE_INDEX);
      AdvanceCursors(index, pm0);
    }

    method WeHave(index: int)
      requires Valid() && 0 <= index < |pieceMap|
      modifies this`pieces, this`bounds, this`pieceMap, this`downloads, this`blockInfo, this`sparseRegions,
               this`numFiltered, this`numHaveFiltered, this`numHave, this`cursor, this`reverseCursor
      ensures Valid()
      ensures var p := old(pieceMap)[index];
              Repositioned(old(pieceMap)[index := p.(downloading := false, index := WE_HAVE_INDEX)], pieceMap)
      ensures forall q :: q != index ==> BlocksOf(q) == old(BlocksOf(q)) && SpeedOf(q) == old(SpeedOf(q))
      ensures Sorted(old(downloads)) ==> Sorted(downloads)
      ensures sparseRegions - MissingRuns(pieceMap) == old(sparseRegions) - MissingRuns(old(pieceMap))
    {
      hide Ok, Tally, TableOk, SurveyOk, CursorsOk, Indices, Priorities, Repositioned, Find, Blocks, PiecePos.Priority,
           HaveFlags;
      var p := pieceMap[index];
      var infoIndex := p.index;
      var priority := p.Priority(seeds);
      ListedFromMinusOne(pieceMap, index, seeds, cursor, reverseCursor, numHave, numFiltered, numHaveFiltered);
      ghost var pm0 := pieceMap;
      if p.Have() { HaveHasNoDownload(pieceMap, downloads, blockInfo, blocksPerPiece, blocksInLastPiece, index); }
      CloseDownload(index);
      UnflagKeepsHave(pm0, index);
      if p.Have() {
        assert pieceMap == pm0;
        assert pm0 == pm0[index := p.(downloading := false, index := WE_HAVE_INDEX)];
        RepositionedReflexive(pieceMap);
        return;
      }
      CountArrival(index);
      ghost var pm2 := pieceMap;
      assert pm2 == pm0[index := p.(downloading := false, index := WE_HAVE_INDEX)];
      Delist(priority, infoIndex, index, pm0);
      RepositionedKeepsSurvey(pm2, pieceMap, 0, 0);
    }

    /**
      Takes back a piece. The number of missing runs is not maintained here, so it stays
      right exactly when one neighbour, counting the ends as had, is had and the other is not.
     */
    method WeDontHave(index: int)
      requires Valid() && 0 <= index < |pieceMap| && !pieceMap[index].downloading
      modifies this`pieces, this`bounds, this`pieceMap, this`numFiltered, this`numHaveFiltered, this`numHave,
               this`cursor, this`reverseCursor
      ensures Valid()
      ensures !old(pieceMap)[index].Have() ==> pieceMap == old(pieceMap)
      ensures old(pieceMap)[index].Have() ==> Repositioned(SetIndex(old(pieceMap), index, 0), pieceMap)
      ensures old(pieceMap)[index].Have() ==>
                var had, n := HaveFlags(old(pieceMap)), |pieceMap|;
                (MissingRuns(pieceMap) == MissingRuns(old(pieceMap)) <==>
                 (index == 0 || had[index - 1]) != (index == n - 1 || had[index + 1]))
    {
      hide Ok, Tally, TableOk, SurveyOk, CursorsOk, Indices, Priorities, Repositioned, PiecePos.Priority, FilteredFlags,
           RunStarts;
      if !pieceMap[index].Have() { return; }
      ghost var pm0, pm1 := pieceMap, SetIndex(pieceMap, index, 0);
      DepartureChangesRuns(pm0, index);
      CountDeparture(index);
      Reinstate(index, pm0);
      RepositionedKeepsSurvey(pm1, pieceMap, 0, 0);
    }

    /** Records the loss of a piece in the tallies and the cursors. */
    method CountDeparture(index: int)
      requires RestOk(pieceMap) && 0 <= index < |pieceMap| && pieceMap[index].Have() && !pieceMap[index].downloading
      modifies this`pieceMap, this`numFiltered, this`numHaveFiltered, this`numHave, this`cursor, this`reverseCursor
      ensures RestOk(pieceMap) && pieceMap == SetIndex(old(pieceMap), index, 0)
    {
      hide Tally, TableOk, CursorsOk, HaveFlags, FilteredFlags;
      ghost var pm0 := pieceMap;
      var p := pieceMap[index];
      pieceMap := SetIndex(pieceMap, index, 0);
      TalliesAfter(pm0, index, pieceMap[index]);
      TableFollowsFlags(pm0, pieceMap, downloads, blockInfo, blocksPerPiece, blocksInLastPiece);
      if p.Filtered() {
        numFiltered := numFiltered + 1;
        numHaveFiltered := numHaveFiltered - 1;
        SettledAlike(pm0, pieceMap, cursor, reverseCursor);
      } else {
        RetractCursors(index, pm0);
      }
      numHave := numHave - 1;
    }

    /** Piece `x` was had and is missing now: lists it if it is wanted and available. */
    method Reinstate(x: int, ghost pm0: seq<PiecePos>)
      requires RestOk(pieceMap) && 0 <= x < |pm0| == |pieceMap|
      requires pieceMap == pm0[x := pieceMap[x]] && pm0[x].Have()
      requires !dirty ==> Ok(pieces, bounds, Indices(pm0), Priorities(pm0, seeds))
      modifies this`pieces, this`bounds, this`pieceMap
      ensures Valid() && Repositioned(old(pieceMap), pieceMap)
    {
      hide Ok, Tally, TableOk, CursorsOk, Indices, Priorities, Repositioned, PiecePos.Priority, FilteredFlags,
           HaveFlags;
      RepositionedReflexive(pieceMap);
      if dirty { return; }
      DownloadFlagKeepsListing(pieceMap[x], false, seeds, seeds);
      if pieceMap[x].Priority(seeds) >= 0 {
        ghost var pm1 := pieceMap;
        ListAnew(x, pm0);
        RepositionedKeepsRest(pm1, pieceMap);
      } else {
        UnlistedIndexIsFree(pieces, bounds, Indices(pm0), Priorities(pm0, seeds), x, pieceMap[x].index);
        assert Indices(pieceMap) == Indices(pm0)[x := pieceMap[x].index];
        assert Priorities(pieceMap, seeds) == Priorities(pm0, seeds);
      }
    }

    /** Changes the user priority of a piece in the record, the filter counts and the cursors. */
    method Refilter(index: int, newPiecePriority: nat) returns (ret: bool)
      requires RestOk(pieceMap) && 0 <= index < |pieceMap| && newPiecePriority < PRIORITY_LEVELS
      modifies this`pieceMap, this`numFiltered, this`numHaveFiltered, this`cursor, this`reverseCursor
      ensures RestOk(pieceMap)
      ensures pieceMap == old(pieceMap)[index := old(pieceMap)[index].(piecePriority := newPiecePriority)]
      ensures ret <==> pieceMap[index].Filtered() != old(pieceMap)[index].Filtered()
    {
      hide Tally, TableOk, CursorsOk, HaveFlags, FilteredFlags;
      ghost var pm0 := pieceMap;
      var p := pieceMap[index];
      pieceMap := pieceMap[index := p.(piecePriority := newPiecePriority)];
      TalliesAfter(pm0, index, pieceMap[index]);
      TableFollowsFlags(pm0, pieceMap, downloads, blockInfo, blocksPerPiece, blocksInLastPiece);
      ret := false;
      if newPiecePriority == FILTER_PRIORITY && p.piecePriority != FILTER_PRIORITY {
        if p.Have() {
          numHaveFiltered := numHaveFiltered + 1;
          SettledAlike(pm0, pieceMap, cursor, reverseCursor);
        } else {
          numFiltered := numFiltered + 1;
          AdvanceCursors(index, pm0);
        }
        ret := true;
      } else if newPiecePriority != FILTER_PRIORITY && p.piecePriority == FILTER_PRIORITY {
        if p.Have() {
          numHaveFiltered := numHaveFiltered - 1;
          SettledAlike(pm0, pieceMap, cursor, reverseCursor);
        } else {
          numFiltered := numFiltered - 1;
          RetractCursors(index, pm0);
        }
        ret := true;
      } else {
        SettledAlike(pm0, pieceMap, cursor, reverseCursor);
      }
    }

    method SetPiecePriority(index: int, newPiecePriority: nat) returns (ret: bool)
      requires Valid() && 0 <= index < |pieceMap| && newPiecePriority < PRIORITY_LEVELS
      modifies this`pieces, this`bounds, this`pieceMap, this`numFiltered, this`numHaveFiltered, this`cursor,
               this`reverseCursor
      ensures Valid()
      ensures Repositioned(old(pieceMap)[index := old(pieceMap)[index].(piecePriority := newPiecePriority)], pieceMap)
      ensures ret <==> (newPiecePriority == FILTER_PRIORITY) != old(pieceMap)[index].Filtered()
    {
      hide Ok, Tally, TableOk, SurveyOk, CursorsOk, Indices, Priorities, Repositioned, PiecePos.Priority;
      var p := pieceMap[index];
      if newPiecePriority == p.piecePriority {
        RepositionedReflexive(pieceMap);
        assert pieceMap == pieceMap[index := p.(piecePriority := newPiecePriority)];
        return false;
      }
      ListedFromMinusOne(pieceMap, index, seeds, cursor, reverseCursor, numHave, numFiltered, numHaveFiltered);
      var prevPriority := p.Priority(seeds);
      ghost var pm0 := pieceMap;
      ret := Refilter(index, newPiecePriority);
      Requeue(prevPriority, index, pm0);
    }

    // ----- blocks -----

    /** Opens an entry for a missing piece and moves the piece to the bucket of partial pieces. */
    method OpenDownload(p: int)
      requires Valid() && 0 <= p < |pieceMap| && !pieceMap[p].downloading && !pieceMap[p].Have()
      modifies this`pieces, this`bounds, this`pieceMap, this`downloads, this`blockInfo
      ensures Valid()
      ensures Repositioned(old(pieceMap)[p := old(pieceMap)[p].(downloading := true)], pieceMap)
      ensures downloads == old(downloads) + [Download(p, NoSpeed, |old(downloads)|, 0, 0, 0)] &&
              Find(downloads, p) == |old(downloads)|
      ensures |BlocksOf(p)| == blocksPerPiece && forall k :: 0 <= k < blocksPerPiece ==> BlocksOf(p)[k] == FRESH_BLOCK
      ensures forall q :: q != p ==> BlocksOf(q) == old(BlocksOf(q)) && SpeedOf(q) == old(SpeedOf(q))
      ensures Sorted(old(downloads)) ==> Sorted(downloads)
    {
      hide Ok, Tally, SurveyOk, Indices, Priorities, Repositioned, PiecePos.Priority, Find, Allocated, Counted, Sorted;
      ghost var pm0 := pieceMap;
      ListedFromMinusOne(pieceMap, p, seeds, cursor, reverseCursor, numHave, numFiltered, numHaveFiltered);
      FlagIsNoSurvey(pm0, p, true, cursor, reverseCursor, numHave, numFiltered, numHaveFiltered);
      var prio := pieceMap[p].Priority(seeds);
      pieceMap := pieceMap[p := pieceMap[p].(downloading := true)];
      ghost var pm1 := pieceMap;
      SurveyIsLegal(pm1, cursor, reverseCursor, numHave, numFiltered, numHaveFiltered);
      if prio >= 0 && !dirty {
        Relist(prio, p, pm0);
      } else {
        FlagKeepsUnlisted(pm0, p, seeds);
        RepositionedReflexive(pieceMap);
      }
      AddDownloadPiece(p);
      OpenStep(pm0, old(downloads), old(blockInfo), blocksPerPiece, blocksInLastPiece, p, blockInfo);
      RepositionedKeepsRest(pm1, pieceMap);
    }

    /** Stores `b` as block `k` of piece `p` and adjusts the entry's counters. */
    method SetBlock(p: int, k: int, b: BlockInfo, speed: Speed)
      requires Valid() && 0 <= p < |pieceMap| && pieceMap[p].downloading && 0 <= k < BlocksInPiece(p)
      requires k < |BlocksOf(p)| && Find(downloads, p) < |downloads|
      requires b.state == Requested <==> b.numPeers > 0
      requires speed != NoSpeed <==>
               downloads[Find(downloads, p)].requested + Delta(BlocksOf(p)[k].state, b.state, Requested) > 0
      modifies this`downloads, this`blockInfo
      ensures Valid() && Find(downloads, p) == Find(old(downloads), p) && |downloads| == |old(downloads)|
      ensures k < |old(BlocksOf(p))| && BlocksOf(p) == old(BlocksOf(p))[k := b]
      ensures forall q :: q != p ==> BlocksOf(q) == old(BlocksOf(q)) && SpeedOf(q) == old(SpeedOf(q))
      ensures SpeedOf(p) == speed
      ensures var i := Find(downloads, p);
              downloads == old(downloads)[i := Recount(old(downloads)[i], old(BlocksOf(p))[k].state, b.state, speed)]
    {
      hide Ok, SurveyOk, Indices, Priorities, Find, TableOk;
      FlaggedEntry(pieceMap, downloads, blockInfo, blocksPerPiece, blocksInLastPiece, p);
      ghost var ds, rows := downloads, blockInfo;
      var i := Find(downloads, p);
      var d := downloads[i];
      var from := blockInfo[d.slot][k].state;
      blockInfo := blockInfo[d.slot := blockInfo[d.slot][k := b]];
      downloads := downloads[i := Recount(d, from, b.state, speed)];
      SetBlockStep(pieceMap, ds, rows, blocksPerPiece, blocksInLastPiece, p, k, b, speed, downloads, blockInfo);
    }

    /** Sorts the entry of piece `p` upwards. */
    method Resort(p: int)
      requires Valid() && Find(downloads, p) < |downloads|
      modifies this`downloads
      ensures Valid() && |downloads| == |old(downloads)|
      ensures forall q :: BlocksOf(q) == old(BlocksOf(q)) && SpeedOf(q) == old(SpeedOf(q))
      ensures var i := Find(old(downloads), p);
              && (SortedExcept(old(downloads), i) ==> Sorted(downloads))
              && (i == 0 || old(downloads)[i - 1].Complete() >= old(downloads)[i].Complete() ==>
                  downloads == old(downloads))
    {
      hide Ok, SurveyOk, Indices, Priorities, Find, Allocated, Counted, Sorted, SortedExcept;
      ghost var ds := downloads;
      SortPiece(Find(downloads, p));
      CountedFollows(ds, downloads, blockInfo, BlockSizes(|pieceMap|, blocksPerPiece, blocksInLastPiece));
      SameRecordsStayFlagged(pieceMap, ds, downloads, blockInfo);
    }

    /** The entry of piece `p` after opening it if there was none. */
    method EnsureOpen(p: int) returns (d: Download, row: seq<BlockInfo>)
      requires Valid() && 0 <= p < |pieceMap| && !pieceMap[p].Have()
      modifies this`pieces, this`bounds, this`pieceMap, this`downloads, this`blockInfo
      ensures Valid() && |pieceMap| == |old(pieceMap)| && pieceMap[p].downloading
      ensures Repositioned(old(pieceMap)[p := old(pieceMap)[p].(downloading := true)], pieceMap)
      ensures row == BlocksOf(p) == RowOrFresh(old(BlocksOf(p)), blocksPerPiece)
      ensures Find(downloads, p) < |downloads| && d == downloads[Find(downloads, p)]
      ensures Describes(d, row, BlocksInPiece(p)) && d.state == old(SpeedOf(p))
      ensures forall q :: q != p ==> BlocksOf(q) == old(BlocksOf(q)) && SpeedOf(q) == old(SpeedOf(q))
      ensures Sorted(old(downloads)) ==> Sorted(downloads)
    {
      hide Ok, SurveyOk, Indices, Priorities, Find, Repositioned, TableOk, Sorted, Describes, CountState;
      if !pieceMap[p].downloading {
        UnflaggedHasNoBlocks(pieceMap, downloads, blockInfo, blocksPerPiece, blocksInLastPiece, p);
        OpenDownload(p);
        RepositionedFlag(old(pieceMap)[p := old(pieceMap)[p].(downloading := true)], pieceMap, p);
        assert BlocksOf(p) == seq(blocksPerPiece, _ => FRESH_BLOCK);
      } else {
        RepositionedReflexive(pieceMap);
        assert pieceMap == pieceMap[p := pieceMap[p].(downloading := true)];
      }
      FlaggedEntry(pieceMap, downloads, blockInfo, blocksPerPiece, blocksInLastPiece, p);
      d := downloads[Find(downloads, p)];
      row := blockInfo[d.slot];
    }

    /** Marks a block as requested from `peer`; false when it already arrived. */
    method MarkAsDownloading(p: int, k: int, peer: nat, speed: Speed) returns (ok: bool)
      requires Valid() && 0 <= p < |pieceMap| && 0 <= k < BlocksInPiece(p) && !pieceMap[p].Have() && speed != NoSpeed
      modifies this`pieces, this`bounds, this`pieceMap, this`downloads, this`blockInfo
      ensures Valid()
      ensures Repositioned(old(pieceMap)[p := old(pieceMap)[p].(downloading := true)], pieceMap)
      ensures var row := RowOrFresh(old(BlocksOf(p)), blocksPerPiece);
              && k < |row|
              && (ok <==> row[k].state !in {Writing, Finished})
              && BlocksOf(p) == if ok then row[k := BlockInfo(peer, row[k].numPeers + 1, Requested)] else row
      ensures SpeedOf(p) == if ok && old(SpeedOf(p)) == NoSpeed then speed else old(SpeedOf(p))
      ensures forall q :: q != p ==> BlocksOf(q) == old(BlocksOf(q)) && SpeedOf(q) == old(SpeedOf(q))
      ensures Sorted(old(downloads)) ==> Sorted(downloads)
    {
      hide Ok, SurveyOk, Indices, Priorities, Find, Repositioned, TableOk, CountState;
      var d, row := EnsureOpen(p);
      var info := row[k];
      if info.state == Writing || info.state == Finished {
        return false;
      }
      SpeedAfterRequest(d, row, BlocksInPiece(p), k);
      SetBlock(p, k, BlockInfo(peer, info.numPeers + 1, Requested), if d.state == NoSpeed then speed else d.state);
      return true;
    }

    /** Stores an entry and a block without regard to the counters, and sorts the entry upwards. */
    method Overwrite(i: int, k: int, d: Download, b: BlockInfo)
      requires Allocated(downloads, blockInfo, blocksPerPiece) && 0 <= i < |downloads| && 0 <= k < blocksPerPiece
      requires d.index == downloads[i].index && d.slot == downloads[i].slot && d.Complete() >= downloads[i].Complete()
      modifies this`downloads, this`blockInfo
      ensures old(downloads)[i].slot < |old(blockInfo)| == |blockInfo| &&
              blockInfo == old(blockInfo)[d.slot := old(blockInfo)[d.slot][k := b]]
      ensures SameRecords(old(downloads)[i := d], downloads, blockInfo)
      ensures BlocksOf(d.index) == old(blockInfo)[d.slot][k := b] && SpeedOf(d.index) == d.state
      ensures forall q :: q != d.index ==> BlocksOf(q) == old(BlocksOf(q)) && SpeedOf(q) == old(SpeedOf(q))
      ensures Sorted(old(downloads)) ==> Sorted(downloads)
    {
      hide Find, Sorted, SortedExcept;
      var row := blockInfo[d.slot][k := b];
      RewriteEntry(downloads, blockInfo, blocksPerPiece, i, d, row);
      FullerEntry(downloads, i, d);
      downloads, blockInfo := downloads[i := d], blockInfo[d.slot := row];
      SortPiece(i);
    }

    /**
      Marks a block as received and being written; the source asserts that it was not being written already. The
      picker stays consistent exactly when the block was not written already.
     */
    method MarkAsWriting(p: int, k: int, peer: nat)
      requires Valid() && 0 <= p < |pieceMap| && 0 <= k < BlocksInPiece(p) && !pieceMap[p].Have()
      requires k < |BlocksOf(p)| ==> BlocksOf(p)[k].state != Writing
      modifies this`pieces, this`bounds, this`pieceMap, this`downloads, this`blockInfo
      ensures Repositioned(old(pieceMap)[p := old(pieceMap)[p].(downloading := true)], pieceMap)
      ensures var row := RowOrFresh(old(BlocksOf(p)), blocksPerPiece);
              && k < |row| && BlocksOf(p) == row[k := BlockInfo(peer, 0, Writing)]
              && (Valid() <==> row[k].state != Finished)
      ensures SpeedOf(p) == NoSpeed || SpeedOf(p) == old(SpeedOf(p))
      ensures forall q :: q != p ==> BlocksOf(q) == old(BlocksOf(q)) && SpeedOf(q) == old(SpeedOf(q))
      ensures Sorted(old(downloads)) ==> Sorted(downloads)
    {
      hide Ok, SurveyOk, Indices, Priorities, Find, Repositioned, TableOk, CountState;
      var d, row := EnsureOpen(p);
      SpeedAfterReceipt(d, row, BlocksInPiece(p), k);
      var requested := if row[k].state == Requested then d.requested - 1 else d.requested;
      if row[k].state == Finished {
        MarkWritten(p, k, peer);
      } else {
        SetBlock(p, k, BlockInfo(peer, 0, Writing), if requested == 0 then NoSpeed else d.state);
        Resort(p);
      }
    }

    /** The same for a block that was written: it is now counted twice. */
    method MarkWritten(p: int, k: int, peer: nat)
      requires Valid() && 0 <= p < |pieceMap| && pieceMap[p].downloading && 0 <= k < BlocksInPiece(p)
      requires k < |BlocksOf(p)| && BlocksOf(p)[k].state == Finished
      modifies this`downloads, this`blockInfo
      ensures !Valid() && k < |old(BlocksOf(p))| && BlocksOf(p) == old(BlocksOf(p))[k := BlockInfo(peer, 0, Writing)]
      ensures SpeedOf(p) == NoSpeed || SpeedOf(p) == old(SpeedOf(p))
      ensures forall q :: q != p ==> BlocksOf(q) == old(BlocksOf(q)) && SpeedOf(q) == old(SpeedOf(q))
      ensures Sorted(old(downloads)) ==> Sorted(downloads)
    {
      hide Ok, SurveyOk, Indices, Priorities, Find, Allocated, CountState, Sorted, SameRecords, Describes;
      FlaggedEntry(pieceMap, downloads, blockInfo, blocksPerPiece, blocksInLastPiece, p);
      var i := Find(downloads, p);
      var d := downloads[i];
      MarkWritingExact(d, blockInfo[d.slot], BlocksInPiece(p), k, peer);
      var d' := d.(writing := d.writing + 1, state := if d.requested == 0 then NoSpeed else d.state);
      RowWidth(downloads, blockInfo, blocksPerPiece, i);
      Overwrite(i, k, d', BlockInfo(peer, 0, Writing));
      MiscountStays(old(downloads)[i := d'], downloads, blockInfo,
                    BlockSizes(|pieceMap|, blocksPerPiece, blocksInLastPiece), i);
    }

    /**
      Marks a block as written; the source asserts that no peer is still asked for it. The picker stays consistent
      exactly when the piece was not already had: a piece that is had must not have an entry.
     */
    method MarkAsFinished(p: int, k: int, peer: nat)
      requires Valid() && 0 <= p < |pieceMap| && 0 <= k < BlocksInPiece(p)
      requires k < |BlocksOf(p)| ==> BlocksOf(p)[k].state != Requested
      modifies this`pieces, this`bounds, this`pieceMap, this`downloads, this`blockInfo
      ensures Valid() <==> !old(pieceMap)[p].Have()
      ensures Repositioned(old(pieceMap)[p := old(pieceMap)[p].(downloading := true)], pieceMap)
      ensures var row := RowOrFresh(old(BlocksOf(p)), blocksPerPiece);
              k < |row| && BlocksOf(p) == if row[k].state == Finished then row
                  else row[k := BlockInfo(peer, 0, Finished)]
      ensures SpeedOf(p) == old(SpeedOf(p))
      ensures forall q :: q != p ==> BlocksOf(q) == old(BlocksOf(q)) && SpeedOf(q) == old(SpeedOf(q))
      ensures Sorted(old(downloads)) ==> Sorted(downloads)
    {
      hide Ok, SurveyOk, Indices, Priorities, Find, Repositioned, TableOk, CountState;
      if pieceMap[p].Have() {
        FinishHad(p, k, peer);
        return;
      }
      var d, row := EnsureOpen(p);
      if row[k].state == Finished { return; }
      SpeedAfterReceipt(d, row, BlocksInPiece(p), k);
      SetBlock(p, k, BlockInfo(peer, 0, Finished), d.state);
      if row[k].state != Writing {
        Resort(p);
      }
    }

    /** The same for a piece that is had: it gets an entry all the same. */
    method FinishHad(p: int, k: int, peer: nat)
      requires Valid() && 0 <= p < |pieceMap| && 0 <= k < BlocksInPiece(p) && pieceMap[p].Have()
      modifies this`pieceMap, this`downloads, this`blockInfo
      ensures !Valid() && old(BlocksOf(p)) == [] && k < blocksPerPiece && SpeedOf(p) == old(SpeedOf(p)) == NoSpeed
      ensures pieceMap == old(pieceMap)[p := old(pieceMap)[p].(downloading := true)] && Repositioned(pieceMap, pieceMap)
      ensures BlocksOf(p) == seq(blocksPerPiece, _ => FRESH_BLOCK)[k := BlockInfo(peer, 0, Finished)]
      ensures forall q :: q != p ==> BlocksOf(q) == old(BlocksOf(q)) && SpeedOf(q) == old(SpeedOf(q))
      ensures Sorted(old(downloads)) ==> Sorted(downloads)
    {
      hide Ok, SurveyOk, Indices, Priorities, Find, Repositioned, Counted, CountState, SameRecords, Describes;
      HaveHasNoDownload(pieceMap, downloads, blockInfo, blocksPerPiece, blocksInLastPiece, p);
      UnflaggedHasNoBlocks(pieceMap, downloads, blockInfo, blocksPerPiece, blocksInLastPiece, p);
      pieceMap := pieceMap[p := pieceMap[p].(downloading := true)];
      RepositionedReflexive(pieceMap);
      ghost var ds, rows, n := downloads, blockInfo, |downloads|;
      AddDownloadPiece(p);
      CountsAreCounts(ds, rows, BlockSizes(|pieceMap|, blocksPerPiece, blocksInLastPiece));
      AppendedTable(ds, rows, blocksPerPiece, downloads[n], blockInfo);
      assert blockInfo[n] == seq(blocksPerPiece, _ => FRESH_BLOCK);
      Overwrite(|downloads| - 1, k, Download(p, NoSpeed, |downloads| - 1, 1, 0, 0), BlockInfo(peer, 0, Finished));
    }

    /** Closes the entry of piece `p` and returns the piece to the bucket of unstarted pieces. */
    method Abandon(p: int)
      requires Valid() && 0 <= p < |pieceMap| && pieceMap[p].downloading
      modifies this`pieces, this`bounds, this`pieceMap, this`downloads, this`blockInfo
      ensures Valid()
      ensures Repositioned(Unflagged(old(pieceMap), p), pieceMap)
      ensures forall q :: q != p ==> BlocksOf(q) == old(BlocksOf(q)) && SpeedOf(q) == old(SpeedOf(q))
      ensures SortedWithout(old(downloads), Find(old(downloads), p)) ==> Sorted(downloads)
    {
      hide Ok, Tally, TableOk, SurveyOk, Indices, Priorities, Repositioned, PiecePos.Priority, Find, Blocks, Sorted,
           SortedWithout;
      ghost var pm0 := pieceMap;
      ListedFromMinusOne(pieceMap, p, seeds, cursor, reverseCursor, numHave, numFiltered, numHaveFiltered);
      var prevPriority := pieceMap[p].Priority(seeds);
      CloseDownload(p);
      Requeue(prevPriority, p, pm0);
    }

    /** A piece failed its hash check. */
    method RestorePiece(p: int)
      requires Valid() && 0 <= p < |pieceMap| && pieceMap[p].downloading
      modifies this`pieces, this`bounds, this`pieceMap, this`downloads, this`blockInfo
      ensures Valid()
      ensures Repositioned(Unflagged(old(pieceMap), p), pieceMap)
      ensures forall q :: q != p ==> BlocksOf(q) == old(BlocksOf(q)) && SpeedOf(q) == old(SpeedOf(q))
      ensures Sorted(old(downloads)) ==> Sorted(downloads)
    {
      Abandon(p);
    }

    /** One peer no longer delivers the block; a piece without any active block leaves the table. */
    method AbortDownload(p: int, k: int)
      requires Valid() && 0 <= p < |pieceMap| && 0 <= k < BlocksInPiece(p)
      modifies this`pieces, this`bounds, this`pieceMap, this`downloads, this`blockInfo
      ensures Valid()
      ensures var row := old(BlocksOf(p));
              var row', n := AfterAbort(row, k), old(BlocksInPiece(p));
              var idle := row' != row && n <= |row'| && ActiveBlocks(row', n) == 0;
              && BlocksOf(p) == (if idle then [] else row')
              && Repositioned(if idle then Unflagged(old(pieceMap), p) else old(pieceMap), pieceMap)
      ensures SpeedOf(p) == NoSpeed || SpeedOf(p) == old(SpeedOf(p))
      ensures forall q :: q != p ==> BlocksOf(q) == old(BlocksOf(q)) && SpeedOf(q) == old(SpeedOf(q))
      ensures Sorted(old(downloads)) ==> Sorted(downloads)
    {
      hide Ok, SurveyOk, Indices, Priorities, Find, TableOk, Repositioned, CountState;
      RepositionedReflexive(pieceMap);
      if !pieceMap[p].downloading {
        UnflaggedHasNoBlocks(pieceMap, downloads, blockInfo, blocksPerPiece, blocksInLastPiece, p);
        return;
      }
      FlaggedEntry(pieceMap, downloads, blockInfo, blocksPerPiece, blocksInLastPiece, p);
      var d := downloads[Find(downloads, p)];
      var info := blockInfo[d.slot][k];
      if info.state != Requested { return; }
      SpeedAfterReceipt(d, blockInfo[d.slot], BlocksInPiece(p), k);
      if info.numPeers > 1 {
        OthersStillAsk(d, blockInfo[d.slot], BlocksInPiece(p), k);
        SetBlock(p, k, info.(numPeers := info.numPeers - 1), d.state);
        return;
      }
      RecountDescribes(d, blockInfo[d.slot], BlocksInPiece(p), k, FRESH_BLOCK,
                       if d.requested - 1 == 0 then NoSpeed else d.state);
      SetBlock(p, k, FRESH_BLOCK, if d.requested - 1 == 0 then NoSpeed else d.state);
      if d.requested - 1 + d.finished + d.writing == 0 {
        Abandon(p);
        Vanished(old(pieceMap), pieceMap, downloads, blockInfo, blocksPerPiece, blocksInLastPiece, p);
      }
    }

    /**
      Writing a block failed. The entry only ever moves up, so a table that was in order stays
      in order exactly when the entry goes away or the next one is not fuller than what is left.
     */
    method WriteFailed(p: int, k: int)
      requires Valid() && 0 <= p < |pieceMap| && 0 <= k < BlocksInPiece(p)
      requires k < |BlocksOf(p)| && BlocksOf(p)[k].state == Writing && pieceMap[p].downloading
      modifies this`pieces, this`bounds, this`pieceMap, this`downloads, this`blockInfo
      ensures Valid()
      ensures var row', n, i := old(BlocksOf(p))[k := FRESH_BLOCK], old(BlocksInPiece(p)), Find(old(downloads), p);
              var idle := n <= |row'| && ActiveBlocks(row', n) == 0;
              && BlocksOf(p) == (if idle then [] else row')
              && Repositioned(if idle then Unflagged(old(pieceMap), p) else old(pieceMap), pieceMap)
              && (Sorted(old(downloads)) ==>
                    (Sorted(downloads) <==> idle || i + 1 >= |old(downloads)|
                                            || old(downloads)[i].Complete() - 1 >= old(downloads)[i + 1].Complete()))
      ensures SpeedOf(p) == NoSpeed || SpeedOf(p) == old(SpeedOf(p))
      ensures forall q :: q != p ==> BlocksOf(q) == old(BlocksOf(q)) && SpeedOf(q) == old(SpeedOf(q))
    {
      hide Ok, SurveyOk, Indices, Priorities, Find, TableOk, Repositioned, CountState, Sorted;
      RepositionedReflexive(pieceMap);
      FlaggedEntry(pieceMap, downloads, blockInfo, blocksPerPiece, blocksInLastPiece, p);
      var i := Find(downloads, p);
      var d := downloads[i];
      SpeedAfterReceipt(d, blockInfo[d.slot], BlocksInPiece(p), k);
      WritingHasNoPeers(d, blockInfo[d.slot], BlocksInPiece(p), k);
      RecountDescribes(d, blockInfo[d.slot], BlocksInPiece(p), k, FRESH_BLOCK, d.state);
      OneLessComplete(downloads, i, Recount(d, Writing, NoState, d.state));
      ghost var lowered := downloads[i := Recount(d, Writing, NoState, d.state)];
      SetBlock(p, k, FRESH_BLOCK, d.state);
      if d.finished + d.writing - 1 + d.requested == 0 {
        SortedWithoutOne(old(downloads), downloads, i);
        Abandon(p);
        Vanished(old(pieceMap), pieceMap, downloads, blockInfo, blocksPerPiece, blocksInLastPiece, p);
      } else {
        Resort(p);
      }
    }

    /** A picker for a torrent of `totalBlocks` blocks: nothing is had, nobody has anything. */
    constructor (blocksPerPiece: nat, totalBlocks: nat)
      requires blocksPerPiece > 0 && PieceCount(totalBlocks, blocksPerPiece) < WE_HAVE_INDEX
      ensures Valid() && dirty && seeds == 0 && downloads == []
      ensures |pieceMap| == PieceCount(totalBlocks, blocksPerPiece)
      ensures forall i :: 0 <= i < |pieceMap| ==> pieceMap[i] == PiecePos(0, false, 1, 0)
      ensures |pieceMap| > 0 ==> sparseRegions == MissingRuns(pieceMap)
    {
      var n := PieceCount(totalBlocks, blocksPerPiece);
      this.pieceMap := seq(n, _ => PiecePos(0, false, 1, 0));
      this.pieces, this.bounds, this.seeds, this.dirty := [], [0], 0, true;
      this.downloads, this.blockInfo := [], [];
      this.blocksPerPiece := blocksPerPiece;
      this.blocksInLastPiece := LastPieceBlocks(totalBlocks, blocksPerPiece);
      this.numFiltered, this.numHaveFiltered, this.numHave := 0, 0, 0;
      this.cursor, this.reverseCursor, this.sparseRegions := 0, n, 1;
      new;
      hide SurveyOk, TableOk, MissingRuns, PieceCount, LastPieceBlocks;
      FreshPicker(pieceMap, this.blocksPerPiece, blocksInLastPiece);
    }

    // ----- picking -----

    function TablesNow(): Tables
      reads this
    {
      Tables(pieceMap, downloads, blockInfo, blocksPerPiece, blocksInLastPiece)
    }

    /** Where `rand() % m_piece_map.size()` lets the random walk start. */
    function StartPiece(random: nat): int
      reads this
    {
      if |pieceMap| == 0 then 0 else random % |pieceMap|
    }

    /** Picks blocks for one peer; `random` is the random number of the random mode. */
    method PickPieces(bits: seq<bool>, numBlocks: int, preferWhole0: nat, peer: nat, speed: Speed, options0: Options,
                      suggested: seq<int>, random: nat)
      returns (blocks: seq<PieceBlock>)
      requires Valid() && |bits| == |pieceMap| && numBlocks > 0
      requires !(options0.rarestFirst && options0.sequential)
      requires |pieceMap| > 0 || options0.rarestFirst || options0.sequential
      requires forall p :: p in suggested ==> 0 <= p < |pieceMap|
      modifies this`pieces, this`bounds, this`pieceMap, this`dirty
      ensures Valid() && Repositioned(old(pieceMap), pieceMap)
      ensures var t, start := TablesNow(), StartPiece(random);
              var course := Course(suggested, seeds, start);
              var r := Effective(t, bits, numBlocks, preferWhole0, peer, speed, options0, course);
              FullPick(t, r, suggested, seeds, start, blocks)
    {
      hide Find, Ok, TableOk, SurveyOk, CursorsOk, Progress, Thorough, Within, Twice, Repositioned, Handled, GoodPick,
           FullPick, NoRepeats, Reached, HandledSeen, SingleRuns, Crowded, PartialsSeen, Effective, TakesOnce, Neat;
      RepositionedReflexive(pieceMap);
      var t, start := TablesNow(), StartPiece(random);
      ghost var course := Course(suggested, seeds, start);
      var r := ReadRequest(t, bits, numBlocks, preferWhole0, peer, speed, options0, course);
      OnceMeansOrderly(t, r, suggested, start);
      var s; ghost var seen;
      s, seen := PickFirst(t, r, suggested);
      if s.numBlocks <= 0 {
        EnoughPicked(t, r, suggested, seeds, start, seen, s);
        return s.interesting;
      }
      s, seen := PickMain(t, r, seen, suggested, start, s);
      SameRequest(t, pieceMap, r, bits, numBlocks, preferWhole0, peer, speed, options0, course);
      t := TablesNow();
      if s.numBlocks <= 0 {
        EnoughPicked(t, r, suggested, seeds, start, seen, s);
        return s.interesting;
      }
      AllLookedAt(t, r, seen, s);
      blocks := PickLast(t, r, seen, s);
      if Crowded(t, r, suggested, seeds, start) { PrefixRepeats(s.interesting, blocks); }
      PickIsFull(t, r, suggested, seeds, start, seen, blocks);
    }

    /** The main walk: sequential, rarest first, or from a random start. */
    method PickMain(t: Tables, r: Request, ghost seen0: set<int>, suggested: seq<int>, startPiece: int, s0: Picked)
      returns (s: Picked, ghost seen: set<int>)
      requires Valid() && t == TablesNow() && r.Ok(t) && Sound(t, r, seen0, s0) && s0.numBlocks > 0
      requires 0 <= startPiece < |pieceMap| || r.options.rarestFirst || r.options.sequential
      requires forall p :: p in seen0 ==> Handled(t, r, suggested, p)
      requires HandledSeen(t, r, suggested, seen0) && PartialsSeen(t, r, seen0)
      requires r.course == Course(suggested, seeds, startPiece) && Begun(t, r, s0)
      requires !FromRandom(r) ==> Orderly(t, r)
      requires r.strict ==> SingleRuns(t, r.bits, r.preferWhole) || Neat(t, r, suggested, startPiece)
      modifies this`pieces, this`bounds, this`pieceMap, this`dirty
      ensures Valid() && Repositioned(old(pieceMap), pieceMap) && |pieceMap| == |old(pieceMap)| && r.Ok(TablesNow())
      ensures Progress(TablesNow(), r, seen, s) && Thorough(TablesNow(), r, seen, s) && Within(TablesNow(), r, s)
      ensures s.numBlocks > 0 ==> forall p :: Reached(TablesNow(), r, suggested, seeds, p) ==> p in seen
      ensures s.numBlocks > 0 && Crowded(TablesNow(), r, suggested, seeds, startPiece) ==> !NoRepeats(s.interesting)
    {
      hide Find, Ok, TableOk, SurveyOk, Progress, Thorough, Within, Twice, Repositioned, Indices, Priorities, NoRepeats,
           Crowded, Stretch, SingleRuns, Reached, HandledSeen, PartialsSeen, Handled, PiecePos.Priority, Interior, Neat,
           AllSeen, Orderly;
      RepositionedReflexive(pieceMap);
      if r.options.sequential {
        CursorsInRange(pieceMap, cursor, reverseCursor, numHave, numFiltered, numHaveFiltered);
        s, seen := PickSequential(t, r, seen0, suggested, cursor, reverseCursor, s0);
        if s.numBlocks > 0 {
          EveryReached(t, r, suggested, seeds, seen0, seen);
          CrowdRepeats(t, r, suggested, seeds, startPiece, seen, s);
        }
      } else if r.options.rarestFirst {
        if dirty {
          UpdatePieces();
        }
        RepositionedTables(t, pieceMap, r, seen0, s0);
        s, seen := PickRarest(TablesNow(), r, seen0, suggested, s0);
        if s.numBlocks > 0 {
          EveryReached(TablesNow(), r, suggested, seeds, seen0, seen);
          CrowdRepeats(TablesNow(), r, suggested, seeds, startPiece, seen, s);
        }
      } else {
        ghost var a := StretchOf(t, r, suggested, seeds, startPiece);
        s, seen := PickRandom(t, r, seen0, suggested, startPiece, s0, a);
        if s.numBlocks > 0 { EveryReached(t, r, suggested, seeds, seen0, seen); }
      }
    }

    /** Walks the buckets, rarest first or in the reverse order. */
    method PickRarest(t: Tables, r: Request, ghost seen0: set<int>, suggested: seq<int>, s0: Picked)
      returns (s: Picked, ghost seen: set<int>)
      requires Valid() && !dirty && t == TablesNow() && r.Ok(t) && Orderly(t, r) && Sound(t, r, seen0, s0)
      requires s0.numBlocks > 0
      requires forall p :: p in seen0 ==> Handled(t, r, suggested, p)
      requires Prepared(t, r, seen0) && r.course.suggested == suggested && r.course.seeds == seeds && Begun(t, r, s0)
      requires r.options.rarestFirst && !r.options.sequential
      modifies this`bounds
      ensures Valid() && Sound(t, r, seen, s) && seen0 <= seen
      ensures s.numBlocks > 0 ==> forall p :: Wanted(t, r.bits, p) && pieceMap[p].Priority(seeds) >= 0 ==> p in seen
    {
      hide Find, Ok, TableOk, SurveyOk, Sound, Handled, Indices, Priorities, PiecePos.Priority;
      ghost var ix, pr := Indices(pieceMap), Priorities(pieceMap, seeds);
      if r.options.reverse {
        var size := ((|bounds| + PRIO_FACTOR - 1) / PRIO_FACTOR) * PRIO_FACTOR;
        if size > |bounds| {
          ReserveBucket(size - 1, ix, pr);
        }
        PiecesListedOnce(pieces, bounds, ix, pr);
        s, seen := PickReverse(t, r, seen0, suggested, pieces, bounds, ix, pr, s0);
      } else {
        PiecesListedOnce(pieces, bounds, ix, pr);
        PiecesTimely(t, r, seen0, pieces, bounds, ix, pr);
        s, seen := PickRun(t, r, seen0, pieces, suggested, s0);
      }
    }
  }

  /** The number of pieces that hold `total` blocks. */
  function PieceCount(total: nat, perPiece: nat): nat
    requires perPiece > 0
  {
    (total + perPiece - 1) / perPiece
  }

  function LastPieceBlocks(total: nat, perPiece: nat): (n: nat)
    requires perPiece > 0
    ensures 0 < n <= perPiece
  {
    if total % perPiece == 0 then perPiece else total % perPiece
  }

  lemma Euclid(a: nat, b: nat, q: nat, r: nat)
    requires b > 0 && q == a / b && r == a % b
    ensures a == q * b + r && r < b
  {
  }

  lemma QuotientIs(a: nat, b: nat, q: nat, r: nat)
    requires b > 0 && r < b && a == q * b + r
    ensures a / b == q
  {
    var q', r' := a / b, a % b;
    Euclid(a, b, q', r');
    if q' < q {
      Wider(q', q, b);
    } else if q < q' {
      Wider(q, q', b);
    }
  }

  /** All pieces but the last are full. */
  lemma PiecesHoldAll(total: nat, perPiece: nat)
    requires total > 0 && perPiece > 0
    ensures (PieceCount(total, perPiece) - 1) * perPiece + LastPieceBlocks(total, perPiece) == total
  {
    var q, r := total / perPiece, total % perPiece;
    assert total == q * perPiece + r;
    if r == 0 {
      QuotientIs(total + perPiece - 1, perPiece, q, perPiece - 1);
      assert (q - 1) * perPiece + perPiece == q * perPiece;
    } else {
      assert (q + 1) * perPiece == q * perPiece + perPiece;
      QuotientIs(total + perPiece - 1, perPiece, q + 1, r - 1);
    }
  }

  lemma FullerEntry(ds: seq<Download>, i: int, d: Download)
    requires 0 <= i < |ds| && d.Complete() >= ds[i].Complete()
    ensures Sorted(ds) ==> SortedExcept(ds[i := d], i)
  {
  }

  lemma RowWidth(ds: seq<Download>, rows: seq<seq<BlockInfo>>, width: nat, i: int)
    requires Allocated(ds, rows, width) && 0 <= i < |ds|
    ensures 0 <= ds[i].slot < |rows| && |rows[ds[i].slot]| == width
  {
  }

  lemma AppendedTable(ds: seq<Download>, rows: seq<seq<BlockInfo>>, width: nat, d: Download, rows': seq<seq<BlockInfo>>)
    requires Allocated(ds, rows, width) && Appended(ds, rows, width, d, rows') && forall i :: 0 <= i < |ds| ==>
             ds[i].Complete() >= 0
    ensures Allocated(ds + [d], rows', width) && |rows'[|ds|]| == width && (Sorted(ds) ==> Sorted(ds + [d]))
    ensures forall q :: q != d.index ==>
              Blocks(ds + [d], rows', q) == Blocks(ds, rows, q) && SpeedIn(ds + [d], q) == SpeedIn(ds, q)
  {
    hide Find, Blocks;
    forall q | q != d.index
      ensures Blocks(ds + [d], rows', q) == Blocks(ds, rows, q) && SpeedIn(ds + [d], q) == SpeedIn(ds, q)
    {
      AppendedKeepsOthers(ds, rows, width, d, rows', q);
    }
  }

  lemma StretchOf(t: Tables, r: Request, suggested: seq<int>, seeds: nat, start: int) returns (a: int)
    ensures FromRandom(r) && Crowded(t, r, suggested, seeds, start) ==>
              Stretch(t, r, suggested, a) || Interior(t, r, suggested, start)
  {
    hide Stretch, Interior;
    a := 0;
    if FromRandom(r) && Crowded(t, r, suggested, seeds, start) && !Interior(t, r, suggested, start) {
      a :| Stretch(t, r, suggested, a);
    }
  }

  /** Moving pieces about in the buckets does not change how the request is read. */
  lemma SameRequest(t: Tables, pm: seq<PiecePos>, r: Request, bits: seq<bool>, numBlocks: int, preferWhole: nat,
                    peer: nat, speed: Speed, options: Options, course: Course)
    requires Repositioned(t.pm, pm)
    requires r == Effective(t, bits, numBlocks, preferWhole, peer, speed, options, course)
    ensures r == Effective(t.(pm := pm), bits, numBlocks, preferWhole, peer, speed, options, course)
  {
    hide TakesOnce, Repositioned;
    SameOnce(t, pm, r.(strict := false), course.suggested, course.start);
  }

  lemma SameOnce(t: Tables, pm: seq<PiecePos>, r: Request, suggested: seq<int>, start: int)
    requires Repositioned(t.pm, pm)
    ensures TakesOnce(t.(pm := pm), r, suggested, start) <==> TakesOnce(t, r, suggested, start)
  {
    hide Neighbours, Repositioned, CanPick, NoRepeats;
    var t' := t.(pm := pm);
    SameNeighbours(t, pm, r.bits);
    SameCanPick(t, pm, r.bits);
    assert forall a :: Stretch(t', r, suggested, a) <==> Stretch(t, r, suggested, a);
    assert Interior(t', r, suggested, start) <==> Interior(t, r, suggested, start);
  }

  lemma SameCanPick(t: Tables, pm: seq<PiecePos>, bits: seq<bool>)
    requires Repositioned(t.pm, pm)
    ensures |pm| == |t.pm|
    ensures |bits| == |pm| ==>
              forall p :: 0 <= p < |pm| ==> (CanPick(t.(pm := pm), bits, p) <==> CanPick(t, bits, p))
  {
    hide PiecePos.Have, PiecePos.Filtered;
    SameFlags(t.pm, pm);
  }

  lemma PeerCountsAreNoSurvey(pm: seq<PiecePos>, pm': seq<PiecePos>, c: int, r: int, nh: int, nf: int, nhf: int)
    requires SurveyOk(pm, c, r, nh, nf, nhf) && OnlyPeerCounts(pm, pm')
    ensures SurveyOk(pm', c, r, nh, nf, nhf)
  {
    hide Tally;
    assert HaveFlags(pm') == HaveFlags(pm);
    assert FilteredFlags(pm', true) == FilteredFlags(pm, true) && FilteredFlags(pm', false) == FilteredFlags(pm, false);
  }

  lemma FlagIsNoSurvey(pm: seq<PiecePos>, x: int, flag: bool, c: int, r: int, nh: int, nf: int, nhf: int)
    requires SurveyOk(pm, c, r, nh, nf, nhf) && 0 <= x < |pm|
    ensures SurveyOk(pm[x := pm[x].(downloading := flag)], c, r, nh, nf, nhf)
  {
    hide Tally;
    TalliesAfter(pm, x, pm[x].(downloading := flag));
  }

  lemma UnflagKeepsHave(pm: seq<PiecePos>, x: int)
    requires 0 <= x < |pm|
    ensures HaveFlags(Unflagged(pm, x)) == HaveFlags(pm)
  {
  }

  lemma HaveHasNoDownload(pm: seq<PiecePos>, ds: seq<Download>, rows: seq<seq<BlockInfo>>, width: nat, last: nat,
                          x: int)
    requires TableOk(pm, ds, rows, width, last) && 0 <= x < |pm| && pm[x].Have()
    ensures !pm[x].downloading
  {
    hide Find, Allocated, Counted;
  }

  lemma ListedFromMinusOne(pm: seq<PiecePos>, x: int, seeds: nat, c: int, r: int, nh: int, nf: int, nhf: int)
    requires SurveyOk(pm, c, r, nh, nf, nhf) && 0 <= x < |pm|
    ensures pm[x].Priority(seeds) >= -1
  {
  }

  lemma SettledAlike(pm: seq<PiecePos>, pm': seq<PiecePos>, c: int, r: int)
    requires CursorsOk(pm, c, r) && |pm'| == |pm| && forall i :: 0 <= i < |pm| ==> pm'[i].Settled() == pm[i].Settled()
    ensures CursorsOk(pm', c, r)
  {
  }

  lemma DepartureChangesRuns(pm: seq<PiecePos>, x: int)
    requires 0 <= x < |pm| && pm[x].Have()
    ensures var had, n := HaveFlags(pm), |pm|;
            MissingRuns(SetIndex(pm, x, 0)) ==
                MissingRuns(pm) - RunChange(x == 0 || had[x - 1], x == n - 1 || had[x + 1])
  {
    hide Tally, RunStarts;
    var had := HaveFlags(pm);
    assert HaveFlags(SetIndex(pm, x, 0)) == had[x := false];
    assert had == had[x := false][x := true];
    ArrivalChangesRuns(had[x := false], x);
  }

  lemma SurveyIsLegal(pm: seq<PiecePos>, c: int, r: int, nh: int, nf: int, nhf: int)
    requires SurveyOk(pm, c, r, nh, nf, nhf)
    ensures LegalPriorities(pm) && |pm| < WE_HAVE_INDEX
  {
  }

  /** Flagging an unlisted piece leaves it unlisted. */
  lemma FlagKeepsUnlisted(pm: seq<PiecePos>, x: int, seeds: nat)
    requires 0 <= x < |pm|
    ensures var pm' := pm[x := pm[x].(downloading := true)];
            Indices(pm') == Indices(pm) &&
                (pm[x].Priority(seeds) == -1 && pm[x].piecePriority < PRIORITY_LEVELS ==>
                 Priorities(pm', seeds) == Priorities(pm, seeds))
  {
    if pm[x].piecePriority < PRIORITY_LEVELS { DownloadFlagKeepsListing(pm[x], true, seeds, seeds); }
  }

  lemma SameRecordsStayFlagged(pm: seq<PiecePos>, ds: seq<Download>, ds': seq<Download>, rows: seq<seq<BlockInfo>>)
    requires Flagged(pm, ds) && SameRecords(ds, ds', rows)
    ensures Flagged(pm, ds')
    ensures forall q :: Blocks(ds', rows, q) == Blocks(ds, rows, q) && SpeedIn(ds', q) == SpeedIn(ds, q)
  {
    hide Find;
    forall i | 0 <= i < |ds'|
      ensures 0 <= ds'[i].index < |pm|
    {
      assert ds'[i] in multiset(ds');
      assert ds'[i] in ds;
    }
    forall p | 0 <= p < |pm|
      ensures pm[p].downloading <==> Find(ds', p) < |ds'|
    {
      assert Blocks(ds', rows, p) == Blocks(ds, rows, p) && SpeedIn(ds', p) == SpeedIn(ds, p);
    }
  }

  lemma RepositionedFlag(pm: seq<PiecePos>, pm': seq<PiecePos>, p: int)
    requires Repositioned(pm, pm') && 0 <= p < |pm| && pm[p].downloading
    ensures 0 <= p < |pm'| && |pm'| == |pm| && pm'[p].downloading
  {
  }

  lemma SpeedAfterRequest(d: Download, row: seq<BlockInfo>, n: nat, k: int)
    requires Describes(d, row, n) && 0 <= k < n
    ensures d.requested + Delta(row[k].state, Requested, Requested) > 0
  {
    if row[k].state == Requested { CountBounds(row, n, Requested, k); }
  }

  lemma SpeedAfterReceipt(d: Download, row: seq<BlockInfo>, n: nat, k: int)
    requires Describes(d, row, n) && 0 <= k < n
    ensures d.requested >= 0 && d.requested + Delta(row[k].state, Writing, Requested) >= 0
    ensures d.state == NoSpeed <==> d.requested == 0
  {
    if row[k].state == Requested { CountBounds(row, n, Requested, k); }
  }

  lemma UnflaggedHasNoBlocks(pm: seq<PiecePos>, ds: seq<Download>, rows: seq<seq<BlockInfo>>, width: nat, last: nat,
                             p: int)
    requires TableOk(pm, ds, rows, width, last) && 0 <= p < |pm| && !pm[p].downloading
    ensures Blocks(ds, rows, p) == [] && Find(ds, p) == |ds|
  {
    hide Find, Allocated, Counted;
  }

  lemma Vanished(pm: seq<PiecePos>, pm': seq<PiecePos>, ds: seq<Download>, rows: seq<seq<BlockInfo>>, width: nat,
                 last: nat, p: int)
    requires 0 <= p < |pm| && Repositioned(Unflagged(pm, p), pm') && TableOk(pm', ds, rows, width, last)
    ensures Blocks(ds, rows, p) == [] && SpeedIn(ds, p) == NoSpeed
  {
    hide TableOk;
    UnflaggedHasNoBlocks(pm', ds, rows, width, last, p);
  }

  /** The block records after one peer gives up block `k`. */
  ghost function AfterAbort(row: seq<BlockInfo>, k: nat): seq<BlockInfo> {
    if k >= |row| || row[k].state != Requested then row
    else if row[k].numPeers > 1 then row[k := row[k].(numPeers := row[k].numPeers - 1)]
    else row[k := FRESH_BLOCK]
  }

  ghost function ActiveBlocks(row: seq<BlockInfo>, n: nat): nat
    requires n <= |row|
  {
    CountState(row, n, Requested) + CountState(row, n, Writing) + CountState(row, n, Finished)
  }

  lemma OthersStillAsk(d: Download, row: seq<BlockInfo>, n: nat, k: int)
    requires Describes(d, row, n) && 0 <= k < n && row[k].state == Requested
    ensures d.requested > 0
    ensures row[k].numPeers > 0 && ActiveBlocks(row[k := row[k].(numPeers := row[k].numPeers - 1)], n) > 0
  {
    CountBounds(row, n, Requested, k);
    CountAfter(row, k, row[k].(numPeers := row[k].numPeers - 1), n, Requested);
  }

  lemma WritingHasNoPeers(d: Download, row: seq<BlockInfo>, n: nat, k: int)
    requires Describes(d, row, n) && 0 <= k < n && row[k].state == Writing
    ensures d.writing > 0
  {
    CountBounds(row, n, Writing, k);
  }

  lemma OneLessComplete(ds: seq<Download>, i: int, d: Download)
    requires 0 <= i < |ds| && d.Complete() == ds[i].Complete() - 1
    ensures Sorted(ds) ==> (i == 0 || ds[i - 1].Complete() >= d.Complete())
    ensures Sorted(ds) ==> (Sorted(ds[i := d]) <==> i + 1 >= |ds| || d.Complete() >= ds[i + 1].Complete())
  {
    var e := ds[i := d];
    if Sorted(ds) && i + 1 < |ds| {
      assert e[i] == d && e[i + 1] == ds[i + 1];
    }
  }

  lemma SortedWithoutOne(ds: seq<Download>, ds': seq<Download>, i: int)
    requires 0 <= i < |ds| && |ds'| == |ds| && ds' == ds[i := ds'[i]]
    ensures Sorted(ds) ==> SortedWithout(ds', i)
  {
  }

  /** The initial state of the picker's counters and tables. */
  lemma FreshPicker(pm: seq<PiecePos>, width: nat, last: nat)
    requires |pm| < WE_HAVE_INDEX && 0 < last <= width && forall i :: 0 <= i < |pm| ==>
             pm[i] == PiecePos(0, false, 1, 0)
    ensures SurveyOk(pm, 0, |pm|, 0, 0, 0) && TableOk(pm, [], [], width, last)
    ensures |pm| > 0 ==> MissingRuns(pm) == 1
  {
    hide Tally;
    TallyNone(HaveFlags(pm));
    TallyNone(FilteredFlags(pm, true));
    TallyNone(FilteredFlags(pm, false));
    NothingHadIsOneRun(HaveFlags(pm));
  }

  /** The block records a piece has once it has an entry. */
  ghost function RowOrFresh(row: seq<BlockInfo>, width: nat): seq<BlockInfo> {
    if row == [] then seq(width, _ => FRESH_BLOCK) else row
  }

  lemma CursorsInRange(pm: seq<PiecePos>, c: int, r: int, nh: int, nf: int, nhf: int)
    requires SurveyOk(pm, c, r, nh, nf, nhf)
    ensures 0 <= c <= |pm| && 0 <= r <= |pm|
    ensures forall p :: 0 <= p < |pm| && !pm[p].Have() && !pm[p].Filtered() ==> c <= p < r
  {
  }

  /** The list runs through the buckets in order, so that it comes to the rarer pieces first. */
  lemma PiecesTimely(t: Tables, r: Request, seen: set<int>, ps: seq<int>, bs: seq<int>, ix: seq<int>, pr: seq<int>)
    requires Ok(ps, bs, ix, pr) && pr == Priorities(t.pm, r.course.seeds) && Prepared(t, r, seen)
    requires r.options.rarestFirst && !r.options.sequential && !r.options.reverse
    ensures RunTimely(t, r, seen, r.course.suggested, ps)
  {
    hide Ok, Prepared, Handled, PiecePos.Priority, Wanted, CanPick;
    PiecesListedOnce(ps, bs, ix, pr);
    forall i | 0 <= i < |ps| && !Handled(t, r, r.course.suggested, ps[i])
      ensures SoonerSeen(t, r, seen + Before(t, r, ps, i), ps[i])
    {
      assert ps[i] in ps;
      forall q | InMainWalk(t, r, q) && Earlier(t, r, q, ps[i])
        ensures q in seen + Before(t, r, ps, i)
      {
        assert pr[q] < pr[ps[i]];
        RarerIsBefore(ps, bs, ix, pr, i, q);
      }
      MorePrepared(t, r, seen, seen + Before(t, r, ps, i));
      LastStage(t, r, seen + Before(t, r, ps, i), ps[i]);
    }
  }

  /** The wanted pieces among the first `i`. */
  ghost function Before(t: Tables, r: Request, ps: seq<int>, i: int): set<int>
    requires 0 <= i <= |ps|
  {
    set p | p in ps[..i] && Wanted(t, r.bits, p)
  }

  lemma RarerIsBefore(ps: seq<int>, bs: seq<int>, ix: seq<int>, pr: seq<int>, i: int, q: int)
    requires Ok(ps, bs, ix, pr) && 0 <= i < |ps| && 0 <= ps[i] < |pr| && 0 <= q < |pr| && 0 <= pr[q] < pr[ps[i]]
    ensures q in ps[..i]
  {
    assert Fits(ps, bs, ix, pr, i) && Fits(ps, bs, ix, pr, ix[q]);
    assert ps[..i][ix[q]] == q;
  }

  lemma PiecesListedOnce(ps: seq<int>, bs: seq<int>, ix: seq<int>, pr: seq<int>)
    requires Ok(ps, bs, ix, pr)
    ensures NoRepeats(ps) && forall p :: p in ps ==> 0 <= p < |pr|
    ensures forall p :: 0 <= p < |pr| && pr[p] >= 0 ==> p in ps && pr[p] < |bs|
  {
    BucketIsPriorityClass(ps, bs, ix, pr, 0);
    forall k | 0 <= k < |ps|
      ensures 0 <= ps[k] < |pr| && pr[ps[k]] < |bs|
    {
      assert Fits(ps, bs, ix, pr, k);
    }
  }
}
