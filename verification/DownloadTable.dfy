/**
  The table of partially downloaded pieces: one entry per piece, each owning one row
  of block records. `slot` is the row number behind the entry's block pointer.
 */
module DownloadTable {
  import opened Finite
  import opened PieceRecords

  datatype BlockState = NoState | Requested | Writing | Finished

  /** `peer` is 0 when no peer is recorded. */
  datatype BlockInfo = BlockInfo(peer: nat, numPeers: nat, state: BlockState)

  datatype Speed = NoSpeed | Slow | Medium | Fast

  datatype Download = Download(index: int, state: Speed, slot: int, finished: int, writing: int, requested: int) {
    /** The sort key of the table. */
    function Complete(): int {
      finished + writing
    }
  }

  const FRESH_BLOCK := BlockInfo(0, 0, NoState)

  /** The position of the entry for piece `p`, or `|ds|`. */
  function Find(ds: seq<Download>, p: int): (i: nat)
    ensures i <= |ds|
    ensures i < |ds| ==> ds[i].index == p
    ensures forall j :: 0 <= j < i ==> ds[j].index != p
  {
    if ds == [] || ds[0].index == p then 0 else 1 + Find(ds[1..], p)
  }

  /** The position of the entry that owns row `s`, or `|ds|`. */
  function FindSlot(ds: seq<Download>, s: int): (i: nat)
    ensures i <= |ds|
    ensures i < |ds| ==> ds[i].slot == s
    ensures forall j :: 0 <= j < i ==> ds[j].slot != s
  {
    if ds == [] || ds[0].slot == s then 0 else 1 + FindSlot(ds[1..], s)
  }

  /** The block records of piece `p`, or [] when it has no entry. */
  ghost function Blocks(ds: seq<Download>, rows: seq<seq<BlockInfo>>, p: int): seq<BlockInfo> {
    var i := Find(ds, p);
    if i < |ds| && 0 <= ds[i].slot < |rows| then rows[ds[i].slot] else []
  }

  /** The speed at which piece `p` is being downloaded. */
  ghost function SpeedIn(ds: seq<Download>, p: int): Speed {
    var i := Find(ds, p);
    if i < |ds| then ds[i].state else NoSpeed
  }

  /** How many of the first `n` blocks are in state `s`. */
  ghost function CountState(row: seq<BlockInfo>, n: nat, s: BlockState): nat
    requires n <= |row|
  {
    if n == 0 then 0 else CountState(row, n - 1, s) + (if row[n - 1].state == s then 1 else 0)
  }

  /** Entry `d` describes `row`, of which `n` blocks belong to the piece. */
  ghost predicate Describes(d: Download, row: seq<BlockInfo>, n: nat) {
    && n <= |row|
    && d.finished == CountState(row, n, Finished)
    && d.writing == CountState(row, n, Writing)
    && d.requested == CountState(row, n, Requested)
    && (d.state != NoSpeed <==> d.requested > 0)
    && (forall k :: 0 <= k < n ==> (row[k].state == Requested <==> row[k].numPeers > 0))
  }

  /** The entries use exactly the rows 0..|ds|, one each, and no piece has two entries. */
  ghost predicate Allocated(ds: seq<Download>, rows: seq<seq<BlockInfo>>, width: nat) {
    && |ds| <= |rows|
    && (forall s :: 0 <= s < |rows| ==> |rows[s]| == width)
    && (forall i :: 0 <= i < |ds| ==> 0 <= ds[i].slot < |ds|)
    && (forall i, j :: 0 <= i < j < |ds| ==> ds[i].slot != ds[j].slot)
    && (forall i, j :: 0 <= i < j < |ds| ==> ds[i].index != ds[j].index)
  }

  /** Every entry's counters agree with its row; `sizes` gives the number of blocks of each piece. */
  ghost predicate Counted(ds: seq<Download>, rows: seq<seq<BlockInfo>>, sizes: seq<nat>) {
    forall i :: 0 <= i < |ds| ==>
                  && 0 <= ds[i].index < |sizes| && 0 <= ds[i].slot < |rows|
                  && Describes(ds[i], rows[ds[i].slot], sizes[ds[i].index])
  }

  /** Fullest pieces first. */
  ghost predicate Sorted(ds: seq<Download>) {
    forall i, j :: 0 <= i < j < |ds| ==> ds[i].Complete() >= ds[j].Complete()
  }

  /** Sorted, except that entry `i` may be fuller than entries before it. */
  ghost predicate SortedExcept(ds: seq<Download>, i: int)
    requires 0 <= i < |ds|
  {
    && (forall a, b :: 0 <= a < b < |ds| && b != i ==> ds[a].Complete() >= ds[b].Complete())
  }

  /** Sorted once entry `i` is taken out. */
  ghost predicate SortedWithout(ds: seq<Download>, i: int) {
    forall a, b :: 0 <= a < b < |ds| && a != i && b != i ==> ds[a].Complete() >= ds[b].Complete()
  }

  lemma FindUnique(ds: seq<Download>, i: int)
    requires 0 <= i < |ds| && forall j, k :: 0 <= j < k < |ds| ==> ds[j].index != ds[k].index
    ensures Find(ds, ds[i].index) == i
  {
  }

  /** All rows below |ds| are in use; in particular some entry owns the last one. */
  lemma EveryRowOwned(ds: seq<Download>, rows: seq<seq<BlockInfo>>, width: nat, s: int) returns (i: int)
    requires Allocated(ds, rows, width) && 0 <= s < |ds|
    ensures 0 <= i < |ds| && ds[i].slot == s
  {
    i := Pigeonhole(seq(|ds|, j requires 0 <= j < |ds| => ds[j].slot), s);
  }

  // ----- one block changes state -----

  /** What changing block `k` to `b` does to the three counters. */
  function Delta(from: BlockState, to: BlockState, s: BlockState): int {
    (if to == s then 1 else 0) - (if from == s then 1 else 0)
  }

  lemma {:induction false} CountAfter(row: seq<BlockInfo>, k: int, b: BlockInfo, n: nat, s: BlockState)
    requires 0 <= k < |row| && n <= |row|
    ensures CountState(row[k := b], n, s) ==
            CountState(row, n, s) + (if k < n then Delta(row[k].state, b.state, s) else 0)
  {
    if n > 0 { CountAfter(row, k, b, n - 1, s); }
  }

  lemma {:induction false} CountBounds(row: seq<BlockInfo>, n: nat, s: BlockState, k: int)
    requires n <= |row| && 0 <= k < n && row[k].state == s
    ensures 0 < CountState(row, n, s)
  {
    if k < n - 1 { CountBounds(row, n - 1, s, k); }
  }

  /** The counters that describe a row after block `k` becomes `b`. */
  function Recount(d: Download, from: BlockState, to: BlockState, speed: Speed): Download {
    d.(state := speed, finished := d.finished + Delta(from, to, Finished),
       writing := d.writing + Delta(from, to, Writing), requested := d.requested + Delta(from, to, Requested))
  }

  lemma RecountDescribes(d: Download, row: seq<BlockInfo>, n: nat, k: int, b: BlockInfo, speed: Speed)
    requires Describes(d, row, n) && 0 <= k < n
    requires b.state == Requested <==> b.numPeers > 0
    requires speed != NoSpeed <==> d.requested + Delta(row[k].state, b.state, Requested) > 0
    ensures Describes(Recount(d, row[k].state, b.state, speed), row[k := b], n)
  {
    CountAfter(row, k, b, n, Finished);
    CountAfter(row, k, b, n, Writing);
    CountAfter(row, k, b, n, Requested);
  }

  lemma {:induction false} FreshCounts(row: seq<BlockInfo>, n: nat, s: BlockState)
    requires n <= |row| && s != NoState && forall k :: 0 <= k < n ==> row[k].state == NoState
    ensures CountState(row, n, s) == 0
  {
    if n > 0 { FreshCounts(row, n - 1, s); }
  }

  /** A fresh entry describes a row of fresh blocks. */
  lemma FreshDescribes(d: Download, row: seq<BlockInfo>, n: nat)
    requires n <= |row| && forall k :: 0 <= k < |row| ==> row[k] == FRESH_BLOCK
    requires d.finished == d.writing == d.requested == 0 && d.state == NoSpeed
    ensures Describes(d, row, n)
  {
    FreshCounts(row, n, Finished);
    FreshCounts(row, n, Writing);
    FreshCounts(row, n, Requested);
  }

  // ----- the table operations, on values -----

  /** The table after block `k` of entry `i` becomes `b`. */
  ghost predicate BlockChanged(ds: seq<Download>, rows: seq<seq<BlockInfo>>, i: int, k: int, b: BlockInfo, speed: Speed,
                               ds': seq<Download>, rows': seq<seq<BlockInfo>>)
    requires 0 <= i < |ds| && 0 <= ds[i].slot < |rows| && 0 <= k < |rows[ds[i].slot]|
  {
    var s := ds[i].slot;
    rows' == rows[s := rows[s][k := b]] && ds' == ds[i := Recount(ds[i], rows[s][k].state, b.state, speed)]
  }

  lemma BlockChangedKeeps(ds: seq<Download>, rows: seq<seq<BlockInfo>>, width: nat, sizes: seq<nat>, i: int, k: int,
                          b: BlockInfo, speed: Speed, ds': seq<Download>, rows': seq<seq<BlockInfo>>)
    requires Allocated(ds, rows, width) && Counted(ds, rows, sizes)
    requires 0 <= i < |ds| && 0 <= k < sizes[ds[i].index] && BlockChanged(ds, rows, i, k, b, speed, ds', rows')
    requires b.state == Requested <==> b.numPeers > 0
    requires speed != NoSpeed <==> ds[i].requested + Delta(rows[ds[i].slot][k].state, b.state, Requested) > 0
    ensures Allocated(ds', rows', width) && Counted(ds', rows', sizes)
    ensures Blocks(ds', rows', ds[i].index) == Blocks(ds, rows, ds[i].index)[k := b]
    ensures forall p :: p != ds[i].index ==>
              Blocks(ds', rows', p) == Blocks(ds, rows, p) && SpeedIn(ds', p) == SpeedIn(ds, p)
    ensures forall p :: Find(ds', p) == Find(ds, p)
  {
    hide Find, CountState;
    var s := ds[i].slot;
    RecountDescribes(ds[i], rows[s], sizes[ds[i].index], k, b, speed);
    forall p
      ensures Find(ds', p) == Find(ds, p)
    {
      SameIndicesSameFind(ds, ds', p);
    }
    FindUnique(ds, i);
  }

  lemma SameIndicesSameFind(ds: seq<Download>, ds': seq<Download>, p: int)
    requires |ds| == |ds'| && forall i :: 0 <= i < |ds| ==> ds[i].index == ds'[i].index
    ensures Find(ds', p) == Find(ds, p)
  {
  }

  /** The table after an entry for piece `d.index` is appended with a cleared row. */
  ghost predicate Appended(ds: seq<Download>, rows: seq<seq<BlockInfo>>, width: nat, d: Download,
                           rows': seq<seq<BlockInfo>>) {
    && Find(ds, d.index) == |ds|
    && d == Download(d.index, NoSpeed, |ds|, 0, 0, 0)
    && |rows'| > |ds| && |rows'| >= |rows| >= |ds|
    && (forall s :: 0 <= s < |ds| ==> rows'[s] == rows[s])
    && (forall s :: |ds| <= s < |rows'| ==> |rows'[s]| == width)
    && (forall k :: 0 <= k < |rows'[|ds|]| ==> rows'[|ds|][k] == FRESH_BLOCK)
  }

  lemma AppendedKeeps(ds: seq<Download>, rows: seq<seq<BlockInfo>>, width: nat, sizes: seq<nat>, d: Download,
                      rows': seq<seq<BlockInfo>>)
    requires Allocated(ds, rows, width) && Counted(ds, rows, sizes)
    requires Appended(ds, rows, width, d, rows')
    requires 0 <= d.index < |sizes| && sizes[d.index] <= width
    ensures Allocated(ds + [d], rows', width) && Counted(ds + [d], rows', sizes)
  {
    hide Describes, Find;
    FreshDescribes(d, rows'[|ds|], sizes[d.index]);
  }

  lemma AppendedKeepsOthers(ds: seq<Download>, rows: seq<seq<BlockInfo>>, width: nat, d: Download,
                            rows': seq<seq<BlockInfo>>, p: int)
    requires Allocated(ds, rows, width) && Appended(ds, rows, width, d, rows')
    ensures Find(ds + [d], d.index) == |ds|
    ensures p != d.index ==> Blocks(ds + [d], rows', p) == Blocks(ds, rows, p) && SpeedIn(ds + [d], p) == SpeedIn(ds, p)
    ensures p != d.index ==> (Find(ds + [d], p) < |ds| + 1 <==> Find(ds, p) < |ds|)
  {
    hide Find;
    var e := ds + [d];
    assert e[|ds|] == d && forall j :: 0 <= j < |ds| ==> e[j] == ds[j];
    var g := Find(e, p);
    assert g < |ds| ==> ds[g].index == p;
  }

  /** The table after entry `i` is erased: the owner of the last row moves into the freed one. */
  ghost function Erased(ds: seq<Download>, i: int, o: int): (e: seq<Download>)
    requires 0 <= i < |ds| && 0 <= o < |ds|
    ensures |e| == |ds| - 1
    ensures forall j {:trigger e[j]} :: 0 <= j < |e| ==>
              var m := if j < i then j else j + 1;
              e[j] == (if m == o then ds[o].(slot := ds[i].slot) else ds[m])
  {
    var moved := ds[o := ds[o].(slot := ds[i].slot)];
    moved[..i] + moved[i + 1..]
  }

  lemma ErasedIs(ds: seq<Download>, i: int, o: int, e: seq<Download>)
    requires 0 <= i < |ds| && 0 <= o < |ds|
    requires i != o ==> e == ds[o := ds[o].(slot := ds[i].slot)][..i] + ds[o := ds[o].(slot := ds[i].slot)][i + 1..]
    requires i == o ==> e == ds[..i] + ds[i + 1..]
    ensures e == Erased(ds, i, o)
  {
  }

  lemma ErasedStaysAllocated(ds: seq<Download>, rows: seq<seq<BlockInfo>>, width: nat, i: int, o: int,
                             rows': seq<seq<BlockInfo>>)
    requires Allocated(ds, rows, width)
    requires 0 <= i < |ds| && 0 <= o < |ds| && ds[o].slot == |ds| - 1
    requires rows' == rows[ds[i].slot := rows[ds[o].slot]]
    ensures Allocated(Erased(ds, i, o), rows', width)
    ensures Find(Erased(ds, i, o), ds[i].index) == |ds| - 1
  {
    hide Find, Erased;
  }

  lemma ErasedStaysCounted(ds: seq<Download>, rows: seq<seq<BlockInfo>>, width: nat, sizes: seq<nat>, i: int, o: int,
                           rows': seq<seq<BlockInfo>>)
    requires Allocated(ds, rows, width) && Counted(ds, rows, sizes)
    requires 0 <= i < |ds| && 0 <= o < |ds| && ds[o].slot == |ds| - 1
    requires rows' == rows[ds[i].slot := rows[ds[o].slot]]
    ensures Counted(Erased(ds, i, o), rows', sizes)
  {
    hide Erased, CountState;
    var e := Erased(ds, i, o);
    forall j | 0 <= j < |e|
      ensures 0 <= e[j].index < |sizes| && 0 <= e[j].slot < |rows'|
      ensures Describes(e[j], rows'[e[j].slot], sizes[e[j].index])
    {
      var m := if j < i then j else j + 1;
      assert Describes(ds[m], rows[ds[m].slot], sizes[ds[m].index]);
    }
  }

  lemma ErasedFind(ds: seq<Download>, i: int, o: int, p: int)
    requires 0 <= i < |ds| && 0 <= o < |ds| && p != ds[i].index
    ensures var f := Find(ds, p);
            Find(Erased(ds, i, o), p) == if f < i then f else f - 1
  {
    hide Find, Erased;
    var e, f, g := Erased(ds, i, o), Find(ds, p), Find(Erased(ds, i, o), p);
    var h := if f < i then f else f - 1;
    assert h < |e| ==> e[h].index == p;
    assert forall j :: 0 <= j < h ==> e[j].index != p;
  }

  /** Erasing one entry leaves every other piece's block records as they were. */
  lemma ErasedKeepsOthers(ds: seq<Download>, rows: seq<seq<BlockInfo>>, width: nat, i: int, o: int,
                          rows': seq<seq<BlockInfo>>, p: int)
    requires Allocated(ds, rows, width)
    requires 0 <= i < |ds| && 0 <= o < |ds| && ds[o].slot == |ds| - 1 && p != ds[i].index
    requires rows' == rows[ds[i].slot := rows[ds[o].slot]]
    ensures Blocks(Erased(ds, i, o), rows', p) == Blocks(ds, rows, p) && SpeedIn(Erased(ds, i, o), p) == SpeedIn(ds, p)
    ensures Find(Erased(ds, i, o), p) < |ds| - 1 <==> Find(ds, p) < |ds|
  {
    hide Find, Erased;
    ErasedFind(ds, i, o, p);
  }

  /** The order of the remaining entries does not change. */
  lemma ErasedStaysSorted(ds: seq<Download>, i: int, o: int)
    requires 0 <= i < |ds| && 0 <= o < |ds| && SortedWithout(ds, i)
    ensures Sorted(Erased(ds, i, o))
  {
    hide Erased;
  }

  /** Exchanging two entries. */
  lemma SwapKeeps(ds: seq<Download>, rows: seq<seq<BlockInfo>>, width: nat, i: int, j: int)
    requires Allocated(ds, rows, width) && 0 <= i < |ds| && 0 <= j < |ds|
    ensures Allocated(ds[i := ds[j]][j := ds[i]], rows, width)
  {
  }

  lemma SwapKeepsBlocks(ds: seq<Download>, rows: seq<seq<BlockInfo>>, width: nat, i: int, j: int, p: int)
    requires Allocated(ds, rows, width) && 0 <= i < |ds| && 0 <= j < |ds|
    ensures Blocks(ds[i := ds[j]][j := ds[i]], rows, p) == Blocks(ds, rows, p)
    ensures SpeedIn(ds[i := ds[j]][j := ds[i]], p) == SpeedIn(ds, p)
    ensures Find(ds[i := ds[j]][j := ds[i]], p) < |ds| <==> Find(ds, p) < |ds|
  {
    hide Find;
    var e := ds[i := ds[j]][j := ds[i]];
    var f := Find(ds, p);
    if f < |ds| {
      FindUnique(e, if f == i then j else if f == j then i else f);
    }
  }

  // ----- the table as part of the picker -----

  /** The number of blocks of every piece; only the last piece may be shorter. */
  ghost function BlockSizes(n: nat, width: nat, last: nat): (s: seq<nat>)
    ensures |s| == n && forall i :: 0 <= i < n ==> s[i] == (if i + 1 == n then last else width)
  {
    seq(n, i requires 0 <= i < n => if i + 1 == n then last else width)
  }

  /** The download flag of a piece says whether it has an entry; pieces we have carry no flag. */
  ghost predicate Flagged(pm: seq<PiecePos>, ds: seq<Download>) {
    && (forall i :: 0 <= i < |ds| ==> 0 <= ds[i].index < |pm|)
    && (forall p :: 0 <= p < |pm| ==> (pm[p].downloading <==> Find(ds, p) < |ds|))
    && (forall p :: 0 <= p < |pm| && pm[p].Have() ==> !pm[p].downloading)
  }

  ghost predicate TableOk(pm: seq<PiecePos>, ds: seq<Download>, rows: seq<seq<BlockInfo>>, width: nat, last: nat) {
    && 0 < last <= width
    && Allocated(ds, rows, width)
    && Counted(ds, rows, BlockSizes(|pm|, width, last))
    && Flagged(pm, ds)
  }

  /** Only flags and the pieces we have matter to the table. */
  lemma TableFollowsFlags(pm: seq<PiecePos>, pm': seq<PiecePos>, ds: seq<Download>, rows: seq<seq<BlockInfo>>,
                          width: nat, last: nat)
    requires TableOk(pm, ds, rows, width, last) && |pm'| == |pm|
    requires forall i :: 0 <= i < |pm| ==> pm'[i].downloading == pm[i].downloading
    requires forall i :: 0 <= i < |pm| && pm'[i].Have() ==> pm[i].Have() || !pm[i].downloading
    ensures TableOk(pm', ds, rows, width, last)
  {
    hide Allocated, Counted, Find;
  }

  /** The entry of a flagged piece. */
  lemma FlaggedEntry(pm: seq<PiecePos>, ds: seq<Download>, rows: seq<seq<BlockInfo>>, width: nat, last: nat, p: int)
    requires TableOk(pm, ds, rows, width, last) && 0 <= p < |pm| && pm[p].downloading
    ensures var i := Find(ds, p);
            && i < |ds| && ds[i].index == p && 0 <= ds[i].slot < |rows| && !pm[p].Have()
            && |rows[ds[i].slot]| == width
            && Describes(ds[i], rows[ds[i].slot], BlockSizes(|pm|, width, last)[p])
  {
    hide Find, Describes;
  }

  /** The same pieces with the same block records, possibly in another order. */
  ghost predicate SameRecords(ds: seq<Download>, ds': seq<Download>, rows: seq<seq<BlockInfo>>) {
    && |ds'| == |ds| && multiset(ds') == multiset(ds)
    && forall p ::
         && Blocks(ds', rows, p) == Blocks(ds, rows, p) && SpeedIn(ds', p) == SpeedIn(ds, p)
         && (Find(ds', p) < |ds| <==> Find(ds, p) < |ds|)
  }

  lemma SameRecordsReflexive(ds: seq<Download>, rows: seq<seq<BlockInfo>>)
    ensures SameRecords(ds, ds, rows)
  {
  }

  lemma SwapSameRecords(ds0: seq<Download>, ds: seq<Download>, rows: seq<seq<BlockInfo>>, width: nat, i: int)
    requires Allocated(ds, rows, width) && SameRecords(ds0, ds, rows) && 0 < i < |ds|
    ensures SameRecords(ds0, ds[i - 1 := ds[i]][i := ds[i - 1]], rows)
  {
    hide Find, Blocks, Allocated;
    var ds' := ds[i - 1 := ds[i]][i := ds[i - 1]];
    forall p
      ensures Blocks(ds', rows, p) == Blocks(ds0, rows, p) && SpeedIn(ds', p) == SpeedIn(ds0, p)
      ensures Find(ds', p) < |ds0| <==> Find(ds0, p) < |ds0|
    {
      SwapKeepsBlocks(ds, rows, width, i - 1, i, p);
      assert Blocks(ds, rows, p) == Blocks(ds0, rows, p) && SpeedIn(ds, p) == SpeedIn(ds0, p);
    }
  }

  /** One exchange of `sort_piece`. */
  lemma SortStep(ds0: seq<Download>, ds: seq<Download>, rows: seq<seq<BlockInfo>>, width: nat, i: int)
    requires Allocated(ds, rows, width) && SameRecords(ds0, ds, rows) && 0 < i < |ds|
    requires ds[i - 1].Complete() < ds[i].Complete()
    ensures var ds' := ds[i - 1 := ds[i]][i := ds[i - 1]];
            && Allocated(ds', rows, width) && SameRecords(ds0, ds', rows)
            && (SortedExcept(ds, i) ==> SortedExcept(ds', i - 1))
  {
    hide SameRecords, Allocated;
    SwapSameRecords(ds0, ds, rows, width, i);
    SwapKeeps(ds, rows, width, i - 1, i);
  }

  /** The counters stay right when entries only change places. */
  lemma CountedFollows(ds: seq<Download>, ds': seq<Download>, rows: seq<seq<BlockInfo>>, sizes: seq<nat>)
    requires Counted(ds, rows, sizes) && SameRecords(ds, ds', rows)
    ensures Counted(ds', rows, sizes)
  {
    hide Describes, Blocks;
    forall i | 0 <= i < |ds'|
      ensures ds'[i] in ds
    {
      assert ds'[i] in multiset(ds');
    }
  }

  /** An entry and its row are rewritten, whatever its counters then say. */
  lemma RewriteEntry(ds: seq<Download>, rows: seq<seq<BlockInfo>>, width: nat, i: int, d: Download, row: seq<BlockInfo>)
    requires Allocated(ds, rows, width) && 0 <= i < |ds| && d.index == ds[i].index && d.slot == ds[i].slot &&
             |row| == width
    ensures var ds', rows' := ds[i := d], rows[d.slot := row];
            && Allocated(ds', rows', width) && Find(ds', d.index) == i
            && Blocks(ds', rows', d.index) == row
            && forall q :: q != d.index ==>
                 Blocks(ds', rows', q) == Blocks(ds, rows, q) && SpeedIn(ds', q) == SpeedIn(ds, q)
  {
    hide Find;
    var ds' := ds[i := d];
    FindUnique(ds', i);
    forall q
      ensures Find(ds', q) == Find(ds, q)
    {
      SameIndicesSameFind(ds, ds', q);
    }
  }

  /** Wrong counters stay wrong when entries only change places. */
  lemma MiscountStays(ds: seq<Download>, ds': seq<Download>, rows: seq<seq<BlockInfo>>, sizes: seq<nat>, i: int)
    requires 0 <= i < |ds| && 0 <= ds[i].index < |sizes| && 0 <= ds[i].slot < |rows| && SameRecords(ds, ds', rows)
    requires !Describes(ds[i], rows[ds[i].slot], sizes[ds[i].index])
    ensures !Counted(ds', rows, sizes)
  {
    hide Describes, Blocks;
    assert ds[i] in multiset(ds);
    var j :| 0 <= j < |ds'| && ds'[j] == ds[i];
  }

  /** The piece map after entry `i` is closed. */
  ghost function Unflagged(pm: seq<PiecePos>, p: int): seq<PiecePos>
    requires 0 <= p < |pm|
  {
    pm[p := pm[p].(downloading := false)]
  }

  lemma EraseStep(pm: seq<PiecePos>, ds: seq<Download>, rows: seq<seq<BlockInfo>>, width: nat, last: nat, i: int)
    requires TableOk(pm, ds, rows, width, last) && 0 <= i < |ds|
    ensures 0 <= ds[i].index < |pm|
    ensures var o, p := FindSlot(ds, |ds| - 1), ds[i].index;
            && o < |ds| <= |rows| && 0 <= ds[i].slot < |rows| && 0 <= ds[o].slot < |rows|
            && var e, rows' := Erased(ds, i, o), rows[ds[i].slot := rows[ds[o].slot]];
            && TableOk(Unflagged(pm, p), e, rows', width, last)
            && Find(e, p) == |e|
            && (forall q :: q != p ==> Blocks(e, rows', q) == Blocks(ds, rows, q) && SpeedIn(e, q) == SpeedIn(ds, q))
            && (SortedWithout(ds, i) ==> Sorted(e))
  {
    hide Find, Erased, FindSlot, Counted, Blocks;
    var owner := EveryRowOwned(ds, rows, width, |ds| - 1);
    var o, p := FindSlot(ds, |ds| - 1), ds[i].index;
    var e, rows' := Erased(ds, i, o), rows[ds[i].slot := rows[ds[o].slot]];
    ErasedStaysAllocated(ds, rows, width, i, o, rows');
    ErasedStaysCounted(ds, rows, width, BlockSizes(|pm|, width, last), i, o, rows');
    forall q | q != p
      ensures Blocks(e, rows', q) == Blocks(ds, rows, q) && SpeedIn(e, q) == SpeedIn(ds, q)
      ensures Find(e, q) < |e| <==> Find(ds, q) < |ds|
    {
      ErasedKeepsOthers(ds, rows, width, i, o, rows', q);
    }
    if SortedWithout(ds, i) { ErasedStaysSorted(ds, i, o); }
  }

  lemma CountsAreCounts(ds: seq<Download>, rows: seq<seq<BlockInfo>>, sizes: seq<nat>)
    requires Counted(ds, rows, sizes)
    ensures forall i :: 0 <= i < |ds| ==> ds[i].Complete() >= 0 && ds[i].requested >= 0
  {
    hide CountState;
    forall i | 0 <= i < |ds|
      ensures ds[i].Complete() >= 0 && ds[i].requested >= 0
    {
      assert Describes(ds[i], rows[ds[i].slot], sizes[ds[i].index]);
    }
  }

  /** Opening an entry for an unflagged missing piece. */
  lemma OpenStep(pm: seq<PiecePos>, ds: seq<Download>, rows: seq<seq<BlockInfo>>, width: nat, last: nat, p: int,
                 rows': seq<seq<BlockInfo>>)
    requires TableOk(pm, ds, rows, width, last) && 0 <= p < |pm| && !pm[p].Have()
    requires Appended(ds, rows, width, Download(p, NoSpeed, |ds|, 0, 0, 0), rows')
    ensures var e := ds + [Download(p, NoSpeed, |ds|, 0, 0, 0)];
            && TableOk(pm[p := pm[p].(downloading := true)], e, rows', width, last)
            && Find(e, p) == |ds|
            && (forall q :: q != p ==> Blocks(e, rows', q) == Blocks(ds, rows, q) && SpeedIn(e, q) == SpeedIn(ds, q))
            && (Sorted(ds) ==> Sorted(e))
  {
    hide Find, Allocated, Counted, Blocks;
    var d := Download(p, NoSpeed, |ds|, 0, 0, 0);
    AppendedKeeps(ds, rows, width, BlockSizes(|pm|, width, last), d, rows');
    CountsAreCounts(ds, rows, BlockSizes(|pm|, width, last));
    forall q
      ensures Find(ds + [d], p) == |ds|
      ensures q != p ==> Blocks(ds + [d], rows', q) == Blocks(ds, rows, q) && SpeedIn(ds + [d], q) == SpeedIn(ds, q)
      ensures q != p ==> (Find(ds + [d], q) < |ds| + 1 <==> Find(ds, q) < |ds|)
    {
      AppendedKeepsOthers(ds, rows, width, d, rows', q);
    }
  }

  /** Changing block `k` of the entry of piece `p`. */
  lemma SetBlockStep(pm: seq<PiecePos>, ds: seq<Download>, rows: seq<seq<BlockInfo>>, width: nat, last: nat, p: int,
                     k: int, b: BlockInfo, speed: Speed, ds': seq<Download>, rows': seq<seq<BlockInfo>>)
    requires TableOk(pm, ds, rows, width, last) && 0 <= p < |pm| && pm[p].downloading
    requires 0 <= k < BlockSizes(|pm|, width, last)[p]
    requires var i := Find(ds, p);
             && i < |ds| && 0 <= ds[i].slot < |rows| && k < |rows[ds[i].slot]|
             && BlockChanged(ds, rows, i, k, b, speed, ds', rows')
             && (speed != NoSpeed <==> ds[i].requested + Delta(rows[ds[i].slot][k].state, b.state, Requested) > 0)
    requires b.state == Requested <==> b.numPeers > 0
    ensures TableOk(pm, ds', rows', width, last)
    ensures Find(ds', p) == Find(ds, p)
    ensures k < |Blocks(ds, rows, p)| && Blocks(ds', rows', p) == Blocks(ds, rows, p)[k := b]
    ensures forall q :: q != p ==> Blocks(ds', rows', q) == Blocks(ds, rows, q) && SpeedIn(ds', q) == SpeedIn(ds, q)
  {
    hide Find, Allocated;
    var i := Find(ds, p);
    BlockChangedKeeps(ds, rows, width, BlockSizes(|pm|, width, last), i, k, b, speed, ds', rows');
  }

  /**
    What `mark_as_writing` does to the counters of a block it finds in state `row[k].state`:
    they stay right exactly when the block was not already written or being written.
   */
  lemma MarkWritingExact(d: Download, row: seq<BlockInfo>, n: nat, k: int, peer: nat)
    requires Describes(d, row, n) && 0 <= k < n
    ensures var asked := d.requested - (if row[k].state == Requested then 1 else 0);
            var speed := if asked == 0 then NoSpeed else d.state;
            var d' := d.(requested := asked, writing := d.writing + 1, state := speed);
            Describes(d', row[k := BlockInfo(peer, 0, Writing)], n) <==> row[k].state in {NoState, Requested}
  {
    CountAfter(row, k, BlockInfo(peer, 0, Writing), n, Finished);
    CountAfter(row, k, BlockInfo(peer, 0, Writing), n, Writing);
    CountAfter(row, k, BlockInfo(peer, 0, Writing), n, Requested);
    hide CountState;
  }

  /** The entry and the block as `mark_as_finished` leaves them. */
  function FinishedEntry(d: Download, b: BlockInfo): Download {
    if b.state == Finished then d
    else d.(finished := d.finished + 1, writing := d.writing - (if b.state == Writing then 1 else 0))
  }

  function FinishedBlock(b: BlockInfo, peer: nat): BlockInfo {
    if b.state == Finished then b else BlockInfo(peer, b.numPeers, Finished)
  }

  /** What `mark_as_finished` does to the counters: they stay right exactly when the block was not requested. */
  lemma MarkFinishedExact(d: Download, row: seq<BlockInfo>, n: nat, k: int, peer: nat)
    requires Describes(d, row, n) && 0 <= k < n
    ensures Describes(FinishedEntry(d, row[k]), row[k := FinishedBlock(row[k], peer)], n) <==> row[k].state != Requested
  {
    var b := FinishedBlock(row[k], peer);
    CountAfter(row, k, b, n, Finished);
    CountAfter(row, k, b, n, Writing);
    CountAfter(row, k, b, n, Requested);
    assert row[k].state == Finished ==> row[k := b] == row;
    hide CountState;
  }

  /** Of two blocks of a piece one is written; marking it as being written counts it twice. */
  lemma FinishedMarkedAsWriting()
    ensures var row, d := [BlockInfo(0, 0, Finished), FRESH_BLOCK], Download(0, NoSpeed, 0, 1, 0, 0);
            && Describes(d, row, 2)
            && !Describes(d.(writing := 1), row[0 := BlockInfo(7, 0, Writing)], 2)
  {
    var row, d := [BlockInfo(0, 0, Finished), FRESH_BLOCK], Download(0, NoSpeed, 0, 1, 0, 0);
    assert forall s :: CountState(row, 1, s) == if s == Finished then 1 else 0;
    assert forall s :: CountState(row, 2, s) == if s == Finished || s == NoState then 1 else 0;
    assert Describes(d, row, 2);
    MarkWritingExact(d, row, 2, 0, 7);
  }

  /** Of two blocks of a piece one is asked for; marking it as finished leaves it counted as requested. */
  lemma RequestedMarkedAsFinished()
    ensures var row, d := [BlockInfo(7, 1, Requested), FRESH_BLOCK], Download(0, Slow, 0, 0, 0, 1);
            && Describes(d, row, 2)
            && !Describes(FinishedEntry(d, row[0]), row[0 := FinishedBlock(row[0], 7)], 2)
  {
    var row, d := [BlockInfo(7, 1, Requested), FRESH_BLOCK], Download(0, Slow, 0, 0, 0, 1);
    assert forall s :: CountState(row, 1, s) == if s == Requested then 1 else 0;
    assert forall s :: CountState(row, 2, s) == if s == Requested || s == NoState then 1 else 0;
    assert Describes(d, row, 2);
    MarkFinishedExact(d, row, 2, 0, 7);
  }
}
