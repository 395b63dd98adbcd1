/** Files laid end to end in a torrent: prefix sums, bags of files, slices. */
module FileLayout {

  datatype FileEntry = FileEntry(path: seq<string>, offset: int, size: int, fileBase: int, pad: bool)

  datatype Slice = Slice(fileIndex: int, offset: int, size: int)

  /** The sizes of the first `n` files. */
  ghost function SizeOf(files: seq<FileEntry>, n: int): int
    requires 0 <= n <= |files|
  {
    if n == 0 then 0 else SizeOf(files, n - 1) + files[n - 1].size
  }

  /** The first `n` files lie end to end from 0. */
  ghost predicate LaidOut(files: seq<FileEntry>, n: int) {
    && 0 <= n <= |files|
    && forall i :: 0 <= i < n ==> files[i].offset == SizeOf(files, i)
  }

  ghost predicate SizesOk(files: seq<FileEntry>) {
    forall i :: 0 <= i < |files| ==> files[i].size >= 0
  }

  lemma {:induction false} SizeOfSame(a: seq<FileEntry>, b: seq<FileEntry>, n: int)
    requires 0 <= n <= |a| && n <= |b| && forall i :: 0 <= i < n ==> a[i].size == b[i].size
    ensures SizeOf(a, n) == SizeOf(b, n)
  {
    if n > 0 { SizeOfSame(a, b, n - 1); }
  }

  lemma {:induction false} SizeOfAscends(files: seq<FileEntry>, m: int, n: int)
    requires SizesOk(files) && 0 <= m <= n <= |files|
    ensures SizeOf(files, m) <= SizeOf(files, n)
    decreases n
  {
    if m < n { SizeOfAscends(files, m, n - 1); }
  }

  /** Laying out one more file. */
  lemma LayNext(files: seq<FileEntry>, files': seq<FileEntry>, n: int)
    requires LaidOut(files, n) && n < |files'| && |files| >= n
    requires forall i :: 0 <= i < n ==> files'[i] == files[i]
    requires files'[n].offset == SizeOf(files, n)
    ensures LaidOut(files', n + 1) && SizeOf(files', n + 1) == SizeOf(files, n) + files'[n].size
  {
    forall i | 0 <= i <= n
      ensures SizeOf(files', i) == SizeOf(files, i)
    {
      SizeOfSame(files, files', i);
    }
  }

  // ----- bags of files -----

  /** A file without its place in the torrent. */
  function Unplaced(f: FileEntry): FileEntry {
    f.(offset := 0)
  }

  function AllUnplaced(files: seq<FileEntry>): (r: seq<FileEntry>)
    ensures |r| == |files| && forall i :: 0 <= i < |files| ==> r[i] == Unplaced(files[i])
  {
    seq(|files|, i requires 0 <= i < |files| => Unplaced(files[i]))
  }

  /** The files of a list, whatever their order and place. */
  ghost function Bag(files: seq<FileEntry>): multiset<FileEntry> {
    multiset(AllUnplaced(files))
  }

  lemma BagJoin(a: seq<FileEntry>, b: seq<FileEntry>)
    ensures Bag(a + b) == Bag(a) + Bag(b)
  {
    hide AllUnplaced, Unplaced;
    assert AllUnplaced(a + b) == AllUnplaced(a) + AllUnplaced(b);
  }

  lemma BagOne(f: FileEntry)
    ensures Bag([f]) == multiset{Unplaced(f)}
  {
    assert AllUnplaced([f]) == [Unplaced(f)];
  }

  /** Putting file `f` in front of file `i`. */
  function Inserted(files: seq<FileEntry>, i: int, f: FileEntry): (r: seq<FileEntry>)
    requires 0 <= i <= |files|
    ensures |r| == |files| + 1 && r[i] == f
    ensures forall k :: 0 <= k < |r| && k != i ==> r[k] == files[if k < i then k else k - 1]
  {
    files[..i] + [f] + files[i..]
  }

  function Removed(files: seq<FileEntry>, i: int): (r: seq<FileEntry>)
    requires 0 <= i < |files|
    ensures |r| == |files| - 1
    ensures forall k :: 0 <= k < |r| ==> r[k] == files[if k < i then k else k + 1]
  {
    files[..i] + files[i + 1..]
  }

  lemma BagInserted(files: seq<FileEntry>, i: int, f: FileEntry)
    requires 0 <= i <= |files|
    ensures Bag(Inserted(files, i, f)) == Bag(files) + multiset{Unplaced(f)}
  {
    hide Bag, Unplaced;
    BagJoin(files[..i] + [f], files[i..]);
    BagJoin(files[..i], [f]);
    BagOne(f);
    BagJoin(files[..i], files[i..]);
    assert files == files[..i] + files[i..];
  }

  lemma BagRemoved(files: seq<FileEntry>, i: int)
    requires 0 <= i < |files|
    ensures Bag(files) == Bag(Removed(files, i)) + multiset{Unplaced(files[i])}
  {
    hide Removed, Inserted, Bag, Unplaced;
    BagInserted(Removed(files, i), i, files[i]);
    assert Inserted(Removed(files, i), i, files[i]) == files;
  }

  /** Replacing a file by one that differs only in place. */
  lemma BagReplaced(files: seq<FileEntry>, i: int, f: FileEntry)
    requires 0 <= i < |files| && Unplaced(f) == Unplaced(files[i])
    ensures Bag(files[i := f]) == Bag(files)
  {
    hide Bag, Removed;
    BagRemoved(files, i);
    BagRemoved(files[i := f], i);
    assert Removed(files[i := f], i) == Removed(files, i);
  }

  function Swapped(files: seq<FileEntry>, i: int): (r: seq<FileEntry>)
    requires 0 <= i < |files|
  {
    files[i := files[0]][0 := files[i]]
  }

  lemma BagSwapped(files: seq<FileEntry>, i: int)
    requires 0 <= i < |files|
    ensures Bag(Swapped(files, i)) == Bag(files)
  {
    hide Bag, Removed;
    if i == 0 {
      assert Swapped(files, i) == files;
    } else {
      var s := Swapped(files, i);
      var a, b := Removed(files, i), Removed(s, i);
      BagRemoved(files, i);
      BagRemoved(s, i);
      BagRemoved(a, 0);
      BagRemoved(b, 0);
      assert Removed(a, 0) == Removed(b, 0);
    }
  }

  // ----- slices -----

  ghost function SliceSizes(slices: seq<Slice>, n: int): int
    requires 0 <= n <= |slices|
  {
    if n == 0 then 0 else SliceSizes(slices, n - 1) + slices[n - 1].size
  }

  /** Slice `k` starts where the previous one ended, lies inside its file and is not empty. */
  ghost predicate SliceOk(files: seq<FileEntry>, slices: seq<Slice>, start: int, k: int)
    requires 0 <= k < |slices|
  {
    var s := slices[k];
    && 0 <= s.fileIndex < |files|
    && var f := files[s.fileIndex];
       && f.fileBase <= s.offset && 0 < s.size && s.offset - f.fileBase + s.size <= f.size
       && f.offset + (s.offset - f.fileBase) == start + SliceSizes(slices, k)
  }

  /** The slices tile the byte range [start, start + size) in order. */
  ghost predicate Tiles(files: seq<FileEntry>, slices: seq<Slice>, start: int, size: int) {
    && (forall k :: 0 <= k < |slices| ==> SliceOk(files, slices, start, k))
    && (forall j, k :: 0 <= j < k < |slices| ==> slices[j].fileIndex < slices[k].fileIndex)
    && SliceSizes(slices, |slices|) == size
  }

  lemma {:induction false} SliceSizesSame(a: seq<Slice>, b: seq<Slice>, n: int)
    requires 0 <= n <= |a| && n <= |b| && forall i :: 0 <= i < n ==> a[i] == b[i]
    ensures SliceSizes(a, n) == SliceSizes(b, n)
  {
    if n > 0 { SliceSizesSame(a, b, n - 1); }
  }

  /** Adding a slice that continues the tiling. */
  lemma TilesExtended(files: seq<FileEntry>, slices: seq<Slice>, start: int, done: int, s: Slice)
    requires Tiles(files, slices, start, done) && 0 <= s.fileIndex < |files|
    requires var f := files[s.fileIndex];
             && f.fileBase <= s.offset && 0 < s.size && s.offset - f.fileBase + s.size <= f.size
             && f.offset + (s.offset - f.fileBase) == start + done
    requires forall k :: 0 <= k < |slices| ==> slices[k].fileIndex < s.fileIndex
    ensures Tiles(files, slices + [s], start, done + s.size)
  {
    hide SliceSizes;
    var r := slices + [s];
    forall k | 0 <= k < |r|
      ensures SliceOk(files, r, start, k)
    {
      SliceSizesSame(slices, r, k);
      assert k < |slices| ==> SliceOk(files, slices, start, k);
    }
    SizesOfOneMore(slices, s);
  }

  lemma SizesOfOneMore(slices: seq<Slice>, s: Slice)
    ensures SliceSizes(slices + [s], |slices| + 1) == SliceSizes(slices, |slices|) + s.size
  {
    SliceSizesSame(slices, slices + [s], |slices|);
  }
}
