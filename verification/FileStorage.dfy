/** The list of files of a torrent: adding, optimising the layout, and mapping between pieces and files. */
module FileStorages {
  import opened Arith
  import opened FileLayout
  import opened Decimals

  const ALIGNMENT := 8192

  datatype Request = Request(piece: int, start: int, length: int)

  /** A file whose start has to be aligned. */
  predicate Large(f: FileEntry, limit: int) {
    limit >= 0 && f.size > limit && !f.pad
  }

  function EffectiveLimit(limit: int): int {
    if 0 <= limit < ALIGNMENT then ALIGNMENT else limit
  }

  ghost predicate Aligned(files: seq<FileEntry>, n: int, limit: int)
    requires 0 <= n <= |files|
  {
    forall i :: 0 <= i < n && Large(files[i], limit) ==> files[i].offset % ALIGNMENT == 0
  }

  ghost predicate PadsOk(pads: multiset<FileEntry>) {
    forall f :: f in pads ==> f.pad && 0 < f.size < ALIGNMENT && f.fileBase == 0
  }

  /** There are pad files only if some file of the input has to be aligned. */
  ghost predicate PadsNeeded(pads: multiset<FileEntry>, input: multiset<FileEntry>, limit: int) {
    pads != multiset{} ==> exists f :: f in input && Large(f, limit)
  }

  ghost predicate PathsOk(files: seq<FileEntry>) {
    forall i :: 0 <= i < |files| ==> files[i].path != []
  }

  /** The state of the optimiser between two files: the first `i` are laid out, aligned, and end at `off`. */
  ghost predicate Placed(files: seq<FileEntry>, i: int, off: int, limit: int, input: multiset<FileEntry>,
                         pads: multiset<FileEntry>) {
    && LaidOut(files, i) && off == SizeOf(files, i) && SizesOk(files) && PathsOk(files)
    && Aligned(files, i, limit) && PadsOk(pads) && Bag(files) == input + pads
    && (limit < 0 ==> pads == multiset{}) && PadsNeeded(pads, input, limit)
  }

  /** The largest file among those behind `i` that fits into `space`, or `|files|`. */
  method BestFit(files: seq<FileEntry>, i: int, space: int) returns (best: int)
    requires 0 <= i < |files|
    ensures i < best <= |files| && (best < |files| ==> files[best].size <= space)
    ensures forall j :: i < j < |files| && files[j].size <= space ==>
            best < |files| && files[j].size <= files[best].size
  {
    best := |files|;
    for j := i + 1 to |files|
      invariant i < best <= |files| && (best < |files| ==> best < j && files[best].size <= space)
      invariant forall k :: i < k < j && files[k].size <= space ==> best < |files| && files[k].size <= files[best].size
    {
      if files[j].size <= space && (best == |files| || files[j].size > files[best].size) { best := j; }
    }
  }

  method Largest(files: seq<FileEntry>) returns (i: int)
    requires files != []
    ensures 0 <= i < |files| && forall j :: 0 <= j < |files| ==> files[j].size <= files[i].size
  {
    i := 0;
    for k := 1 to |files|
      invariant 0 <= i < k && forall j :: 0 <= j < k ==> files[j].size <= files[i].size
    {
      if files[k].size > files[i].size { i := k; }
    }
  }

  function PlacedAt(files: seq<FileEntry>, i: int, off: int): seq<FileEntry>
    requires 0 <= i < |files|
  {
    files[i := files[i].(offset := off)]
  }

  /** Laying out file `i` where the previous ones end. */
  lemma PlaceNext(files: seq<FileEntry>, i: int, off: int, limit: int, input: multiset<FileEntry>,
                  pads: multiset<FileEntry>)
    requires Placed(files, i, off, limit, input, pads) && i < |files|
    requires Large(files[i], limit) ==> off % ALIGNMENT == 0
    ensures Placed(PlacedAt(files, i, off), i + 1, off + files[i].size, limit, input, pads)
  {
    hide Bag, PadsOk;
    var files' := PlacedAt(files, i, off);
    LayNext(files, files', i);
    BagReplaced(files, i, files'[i]);
  }

  /** Moving a later file in front of file `i`. */
  lemma MoveForward(files: seq<FileEntry>, i: int, j: int, off: int, limit: int, input: multiset<FileEntry>,
                    pads: multiset<FileEntry>)
    requires Placed(files, i, off, limit, input, pads) && i <= j < |files|
    ensures Placed(Inserted(Removed(files, j), i, files[j]), i, off, limit, input, pads)
  {
    hide Bag, PadsOk, Inserted, Removed;
    var files' := Inserted(Removed(files, j), i, files[j]);
    assert forall k :: 0 <= k < i ==> files'[k] == files[k];
    KeepsPrefix(files, files', i, limit);
    BagRemoved(files, j);
    BagInserted(Removed(files, j), i, files[j]);
  }

  lemma KeepsPrefix(files: seq<FileEntry>, files': seq<FileEntry>, i: int, limit: int)
    requires LaidOut(files, i) && i <= |files'| && Aligned(files, i, limit)
    requires forall k :: 0 <= k < i ==> files'[k] == files[k]
    ensures LaidOut(files', i) && Aligned(files', i, limit) && SizeOf(files', i) == SizeOf(files, i)
  {
    forall k | 0 <= k <= i
      ensures SizeOf(files', k) == SizeOf(files, k)
    {
      SizeOfSame(files, files', k);
    }
  }

  /** Putting a new pad file in front of file `i`. */
  lemma AddPad(files: seq<FileEntry>, i: int, off: int, limit: int, input: multiset<FileEntry>,
               pads: multiset<FileEntry>, pad: FileEntry)
    requires Placed(files, i, off, limit, input, pads) && i < |files| && Large(files[i], limit)
    requires pad.pad && 0 < pad.size < ALIGNMENT && pad.fileBase == 0 && pad.path != []
    ensures Placed(Inserted(files, i, pad), i, off, limit, input, pads + multiset{Unplaced(pad)})
  {
    hide Bag, Inserted;
    var files' := Inserted(files, i, pad);
    KeepsPrefix(files, files', i, limit);
    BagInserted(files, i, pad);
    InBag(files, i);
    assert Unplaced(files[i]) in input;
  }

  lemma InBag(files: seq<FileEntry>, i: int)
    requires 0 <= i < |files|
    ensures Unplaced(files[i]) in Bag(files)
  {
    assert AllUnplaced(files)[i] == Unplaced(files[i]);
  }

  class FileStorage {
    var files: seq<FileEntry>
    var totalSize: int
    var pieceLength: int
    var numPieces: int

    ghost predicate Valid()
      reads this
    {
      SizesOk(files) && LaidOut(files, |files|) && totalSize == SizeOf(files, |files|)
    }

    constructor ()
      ensures Valid() && files == []
    {
      files, totalSize, pieceLength, numPieces := [], 0, 0, 0;
    }

    method AddFile(f: FileEntry)
      requires Valid() && f.size >= 0
      modifies this`files, this`totalSize
      ensures Valid() && files == old(files) + [f.(offset := old(totalSize))] && totalSize == old(totalSize) + f.size
    {
      var files' := files + [f.(offset := totalSize)];
      LayNext(files, files', |files|);
      files, totalSize := files', totalSize + f.size;
    }

    /**
     * Reorders the files and, if `limit` is not negative, pads so that every large file is aligned. Returns
     * the pad files it made.
     */
    method Optimize(limit0: int) returns (ghost pads: multiset<FileEntry>)
      requires Valid() && files != [] && PathsOk(files)
      modifies this`files, this`totalSize
      ensures Valid() && Bag(files) == Bag(old(files)) + pads && PadsOk(pads)
      ensures Aligned(files, |files|, EffectiveLimit(limit0))
      ensures limit0 >= 0 ==>
                forall i :: 0 <= i < |files| && !files[i].pad && files[i].size > limit0 && files[i].size > ALIGNMENT ==>
                              files[i].offset % ALIGNMENT == 0
      ensures limit0 < 0 ==> pads == multiset{}
      ensures pads != multiset{} ==>
                exists f :: f in Bag(old(files)) && !f.pad && f.size > limit0 >= 0 && f.size > ALIGNMENT
      ensures forall i :: 0 <= i < |files| ==> files[i].size <= files[0].size
    {
      hide Bag, SizeOf, LaidOut, Aligned, PadsOk, SizesOk, PathsOk;
      var limit := EffectiveLimit(limit0);
      var big := Largest(files);
      files, pads := Swapped(files, big), multiset{};
      SwappedPlaced(old(files), big, limit);
      var i, off, count := 0, 0, 0;
      while i < |files|
        invariant 0 <= i <= |files| && Placed(files, i, off, limit, Bag(old(files)), pads)
        invariant |files| > 0 && (i == 0 ==> off == 0)
        invariant forall k :: 0 <= k < |files| ==> files[k].size <= files[0].size
        decreases |files| - i
      {
        files, i, off, count, pads := PlaceOne(files, i, off, count, limit, Bag(old(files)), pads);
      }
      AllPlaced(files, i, off, limit, Bag(old(files)), pads);
      if limit0 >= 0 { AlignedBeyond(files, limit0); }
      NeededBeyond(pads, Bag(old(files)), limit0);
      totalSize := off;
    }

    /** Where byte `offset` of the torrent lies: the last file that starts at or before it. */
    method FileAtOffset(offset: int) returns (k: int)
      requires Valid() && files != [] && 0 <= offset
      ensures 0 <= k < |files| && files[k].offset <= offset
      ensures forall i :: k < i < |files| ==> files[i].offset > offset
    {
      hide SizeOf;
      var lo, hi := 0, |files|;
      OffsetsAscend(files);
      while lo < hi
        invariant 0 <= lo <= hi <= |files|
        invariant forall i :: 0 <= i < lo ==> files[i].offset <= offset
        invariant forall i :: hi <= i < |files| ==> files[i].offset > offset
      {
        var mid := (lo + hi) / 2;
        if files[mid].offset <= offset { lo := mid + 1; } else { hi := mid; }
      }
      k := lo - 1;
    }

    /** The parts of files that hold `size` bytes of a piece from `offset` on. */
    method MapBlock(piece: int, offset: int, size: int) returns (slices: seq<Slice>)
      requires Valid() && 0 <= size && 0 <= piece * pieceLength + offset <= totalSize - size
      ensures files == [] ==> slices == []
      ensures files != [] ==> Tiles(files, slices, piece * pieceLength + offset, size)
    {
      hide SizeOf, Tiles;
      slices := [];
      if files == [] { return; }
      var target := piece * pieceLength + offset;
      var k := FileAtOffset(target);
      var left, fileOffset := size, target - files[k].offset;
      FirstFile(files, totalSize, k, target);
      NoSlices(files, target);
      while left > 0
        invariant 0 <= k && 0 <= left <= size
        invariant left > 0 ==>
                    && 0 <= fileOffset && k <= |files|
                    && StartOf(files, totalSize, k) + fileOffset == target + (size - left)
        invariant left > 0 && k < |files| ==> fileOffset <= files[k].size
        invariant left > 0 ==> k < |files| || fileOffset == 0
        invariant Tiles(files, slices, target, size - left)
        invariant left > 0 ==> forall j :: 0 <= j < |slices| ==> slices[j].fileIndex < k
        decreases left > 0, |files| - k
      {
        Reaches(files, totalSize, k);
        if fileOffset < files[k].size {
          var s := Slice(k, fileOffset + files[k].fileBase, Min(files[k].size - fileOffset, left));
          TilesExtended(files, slices, target, size - left, s);
          left, fileOffset, slices := left - s.size, fileOffset + s.size, slices + [s];
        }
        fileOffset, k := fileOffset - files[k].size, k + 1;
      }
    }
  }

  /** The piece and the place in it of a position in a file. */
  function MapFile(files: seq<FileEntry>, pieceLength: int, fileIndex: int, fileOffset: int, size: int): (r: Request)
    requires 0 <= fileIndex < |files| && pieceLength > 0 && 0 <= fileOffset + files[fileIndex].offset
    ensures 0 <= r.start < pieceLength && r.length == size
    ensures r.piece * pieceLength + r.start == files[fileIndex].offset + fileOffset
  {
    var offset := fileOffset + files[fileIndex].offset;
    Request(offset / pieceLength, offset - offset / pieceLength * pieceLength, size)
  }

  /** Mapping a position in a file to a piece and the block back to files leads to that position. */
  lemma MapBlockInvertsMapFile(files: seq<FileEntry>, pieceLength: int, fileIndex: int, fileOffset: int, size: int,
                               slices: seq<Slice>)
    requires SizesOk(files) && LaidOut(files, |files|) && pieceLength > 0 && size > 0
    requires 0 <= fileIndex < |files| && 0 <= fileOffset < files[fileIndex].size && files[fileIndex].offset >= 0
    requires var r := MapFile(files, pieceLength, fileIndex, fileOffset, size);
             Tiles(files, slices, r.piece * pieceLength + r.start, r.length)
    ensures slices != [] && slices[0].fileIndex == fileIndex &&
            slices[0].offset == fileOffset + files[fileIndex].fileBase
  {
    hide SizeOf, SliceSizes, MapFile;
    var x := files[fileIndex].offset + fileOffset;
    FirstSlice(files, slices, x, size);
    SameFile(files, fileIndex, slices[0].fileIndex, x);
  }

  /** What is missing to the next boundary. */
  function Gap(off: int): int {
    ALIGNMENT - off % ALIGNMENT
  }

  ghost predicate NoneFits(files: seq<FileEntry>, i: int, space: int) {
    forall j :: 0 <= j < |files| && i < j ==> files[j].size > space
  }

  /**
    One turn of the optimiser's loop: a pad file is made only where no later file fits, else the largest one is
    moved.
   */
  method PlaceOne(files0: seq<FileEntry>, i0: int, off0: int, count0: nat, limit: int, ghost input: multiset<FileEntry>,
                  ghost pads0: multiset<FileEntry>)
    returns (files: seq<FileEntry>, i: int, off: int, count: nat, ghost pads: multiset<FileEntry>)
    requires Placed(files0, i0, off0, limit, input, pads0) && i0 < |files0| && (limit < 0 || limit >= ALIGNMENT)
    requires i0 == 0 ==> off0 == 0
    requires forall k :: 0 <= k < |files0| ==> files0[k].size <= files0[0].size
    ensures 0 < i <= |files| && |files| - i < |files0| - i0 && Placed(files, i, off, limit, input, pads)
    ensures |files| == |files0| || |files| == |files0| + 1
    ensures |files| == |files0| + 1 ==> files[i0].pad && files[i0].size == Gap(off0) && NoneFits(files0, i0, Gap(off0))
    ensures |files| == |files0| && Large(files0[i0], limit) && off0 % ALIGNMENT != 0 ==>
              files[i0].size <= Gap(off0) && forall j :: i0 < j < |files0| && files0[j].size <= Gap(off0) ==>
                  files0[j].size <= files[i0].size
    ensures forall k :: 0 <= k < |files| ==> files[k].size <= files[0].size
  {
    hide Placed, Inserted, Removed;
    PlacedSizes(files0, i0, off0, limit, input, pads0);
    files, i, off, count, pads := files0, i0, off0, count0, pads0;
    if limit >= 0 && off % ALIGNMENT != 0 && files[i].size > limit && !files[i].pad {
      var space := Gap(off);
      var best := BestFit(files, i, space);
      if best < |files| {
        MoveForward(files, i, best, off, limit, input, pads);
        files := Inserted(Removed(files, best), i, files[best]);
        PlaceNext(files, i, off, limit, input, pads);
        files, i, off := PlacedAt(files, i, off), i + 1, off + files[i].size;
        return;
      }
      var pad := FileEntry([files[i].path[0], "_____padding_file_", Decimal(count)], off, space, 0, true);
      AddPad(files, i, off, limit, input, pads, pad);
      files, pads := Inserted(files, i, pad), pads + multiset{Unplaced(pad)};
      PlaceNext(files, i, off, limit, input, pads);
      assert PlacedAt(files, i, off) == files;
      i, off, count := i + 1, off + space, count + 1;
    }
    PlaceNext(files, i, off, limit, input, pads);
    files, i, off := PlacedAt(files, i, off), i + 1, off + files[i].size;
  }

  lemma PlacedSizes(files: seq<FileEntry>, i: int, off: int, limit: int, input: multiset<FileEntry>,
                    pads: multiset<FileEntry>)
    requires Placed(files, i, off, limit, input, pads)
    ensures 0 <= i <= |files| && PathsOk(files) && SizesOk(files)
  {
  }

  lemma SwappedPlaced(files: seq<FileEntry>, big: int, limit: int)
    requires SizesOk(files) && PathsOk(files) && 0 <= big < |files|
    ensures Placed(Swapped(files, big), 0, 0, limit, Bag(files), multiset{})
  {
    hide Bag;
    BagSwapped(files, big);
  }

  lemma AllPlaced(files: seq<FileEntry>, i: int, off: int, limit: int, input: multiset<FileEntry>,
                  pads: multiset<FileEntry>)
    requires Placed(files, i, off, limit, input, pads) && i == |files|
    ensures SizesOk(files) && LaidOut(files, |files|) && off == SizeOf(files, |files|)
    ensures Aligned(files, |files|, limit) && PadsOk(pads) && Bag(files) == input + pads &&
            PadsNeeded(pads, input, limit)
  {
  }

  lemma AlignedBeyond(files: seq<FileEntry>, limit0: int)
    requires Aligned(files, |files|, EffectiveLimit(limit0)) && limit0 >= 0
    ensures forall i :: 0 <= i < |files| && !files[i].pad && files[i].size > limit0 && files[i].size > ALIGNMENT ==>
                          files[i].offset % ALIGNMENT == 0
  {
  }

  lemma NeededBeyond(pads: multiset<FileEntry>, input: multiset<FileEntry>, limit0: int)
    requires PadsNeeded(pads, input, EffectiveLimit(limit0))
    ensures pads != multiset{} ==> exists f :: f in input && !f.pad && f.size > limit0 >= 0 && f.size > ALIGNMENT
  {
  }

  // ----- addresses -----

  lemma OffsetsAscend(files: seq<FileEntry>)
    requires SizesOk(files) && LaidOut(files, |files|)
    ensures forall i, j :: 0 <= i < j < |files| ==>
            0 <= files[i].offset && files[i].offset + files[i].size <= files[j].offset
    ensures files != [] ==> files[0].offset == 0
  {
    forall i, j | 0 <= i < j < |files|
      ensures 0 <= files[i].offset && files[i].offset + files[i].size <= files[j].offset
    {
      var k := i + 1;
      SizeOfAscends(files, 0, i);
      SizeOfAscends(files, k, j);
    }
  }

  /** Where file `k` starts, or the torrent ends. */
  ghost function StartOf(files: seq<FileEntry>, total: int, k: int): int
    requires 0 <= k <= |files|
  {
    if k < |files| then files[k].offset else total
  }

  lemma FirstFile(files: seq<FileEntry>, total: int, k: int, target: int)
    requires SizesOk(files) && LaidOut(files, |files|) && total == SizeOf(files, |files|) && 0 <= k < |files|
    requires files[k].offset <= target <= total && forall i :: k < i < |files| ==> files[i].offset > target
    ensures target - files[k].offset <= files[k].size
  {
    if k + 1 < |files| {
      var n := k + 1;
      assert files[n].offset == SizeOf(files, n);
    }
  }

  lemma NoSlices(files: seq<FileEntry>, start: int)
    ensures Tiles(files, [], start, 0)
  {
  }

  /** A byte that is still missing lies in file `k` or behind it. */
  lemma Reaches(files: seq<FileEntry>, total: int, k: int)
    requires SizesOk(files) && LaidOut(files, |files|) && total == SizeOf(files, |files|) && 0 <= k <= |files|
    ensures k < |files| ==> StartOf(files, total, k + 1) == files[k].offset + files[k].size
  {
  }

  lemma FirstSlice(files: seq<FileEntry>, slices: seq<Slice>, start: int, size: int)
    requires Tiles(files, slices, start, size) && size > 0
    ensures slices != [] && SliceOk(files, slices, start, 0) && SliceSizes(slices, 0) == 0
  {
  }

  /** A byte lies in one file only. */
  lemma SameFile(files: seq<FileEntry>, a: int, b: int, x: int)
    requires SizesOk(files) && LaidOut(files, |files|) && 0 <= a < |files| && 0 <= b < |files|
    requires files[a].offset <= x < files[a].offset + files[a].size &&
             files[b].offset <= x < files[b].offset + files[b].size
    ensures a == b
  {
    OffsetsAscend(files);
  }

  // ----- piece sizes -----

  function PieceSize(total: int, length: int, pieces: int, index: int): int {
    if index == pieces - 1 then total - (pieces - 1) * length else length
  }

  ghost function PieceSizes(total: int, length: int, pieces: int, n: nat): int {
    if n == 0 then 0 else PieceSizes(total, length, pieces, n - 1) + PieceSize(total, length, pieces, n - 1)
  }

  /** With as many pieces as needed, every piece has a proper size and together they make up the torrent. */
  lemma PiecesTile(total: nat, length: nat, pieces: nat)
    requires length > 0 && pieces == (total + length - 1) / length
    ensures PieceSizes(total, length, pieces, pieces) == total
    ensures forall i :: 0 <= i < pieces ==> 0 < PieceSize(total, length, pieces, i) <= length
  {
    Ceiling(total, length, pieces);
    if pieces > 0 { FullPieces(total, length, pieces, pieces - 1); }
  }

  lemma Ceiling(total: nat, length: nat, pieces: nat)
    requires length > 0 && pieces == (total + length - 1) / length
    ensures pieces > 0 ==> (pieces - 1) * length < total <= pieces * length
    ensures pieces == 0 ==> total == 0
  {
    assert pieces * length <= total + length - 1 < (pieces + 1) * length;
  }

  lemma {:induction false} FullPieces(total: int, length: int, pieces: int, n: nat)
    requires n < pieces
    ensures PieceSizes(total, length, pieces, n) == n * length
  {
    if n > 0 { FullPieces(total, length, pieces, n - 1); }
  }
}
