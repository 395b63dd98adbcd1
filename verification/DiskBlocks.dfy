/** Cached blocks of one piece, laid over the piece's bytes on disk. */
module DiskBlocks {
  import opened Arith

  /** The contents of a byte are only ever copied. */
  type Byte = int

  const BLOCK := 16384

  /** A cached block; `data` is a whole pool buffer even when the piece's last block is shorter. */
  datatype Slot = Empty | Full(data: seq<Byte>)

  function BlockCount(size: nat): nat {
    (size + BLOCK - 1) / BLOCK
  }

  /** The number of bytes of block `i` of a piece. */
  function BlockLength(size: nat, i: int): int {
    Min(size - i * BLOCK, BLOCK)
  }

  /** One slot per block of a piece of `size` bytes. */
  ghost predicate SlotsOk(slots: seq<Slot>, size: nat) {
    && |slots| == BlockCount(size)
    && forall i :: 0 <= i < |slots| && slots[i].Full? ==> |slots[i].data| == BLOCK
  }

  /** Byte `x` lies in a cached block with number in [lo, hi). */
  ghost predicate Covered(slots: seq<Slot>, lo: int, hi: int, x: int) {
    lo <= x / BLOCK < hi && 0 <= x / BLOCK < |slots| && slots[x / BLOCK].Full? && x % BLOCK < |slots[x / BLOCK].data|
  }

  /** The piece with its cached blocks lo..hi put in place. */
  ghost function Overlaid(content: seq<Byte>, slots: seq<Slot>, lo: int, hi: int): (r: seq<Byte>)
    ensures |r| == |content|
    ensures forall x :: 0 <= x < |content| ==>
                          r[x] == if x >= 0 && Covered(slots, lo, hi, x) then slots[x / BLOCK].data[x % BLOCK]
                              else content[x]
  {
    seq(|content|, x requires 0 <= x < |content| =>
        if Covered(slots, lo, hi, x) then slots[x / BLOCK].data[x % BLOCK] else content[x])
  }

  /** What the cache and the disk say together. */
  ghost function Logical(content: seq<Byte>, slots: seq<Slot>): (r: seq<Byte>)
    ensures |r| == |content|
  {
    Overlaid(content, slots, 0, |slots|)
  }

  ghost function Cleared(slots: seq<Slot>, lo: int, hi: int): (r: seq<Slot>)
    ensures |r| == |slots|
    ensures forall i :: 0 <= i < |slots| ==> r[i] == if lo <= i < hi then Empty else slots[i]
  {
    seq(|slots|, i requires 0 <= i < |slots| => if lo <= i < hi then Empty else slots[i])
  }

  /** The number of cached blocks with number in [lo, hi). */
  ghost function FullIn(slots: seq<Slot>, lo: int, hi: int): nat
    requires 0 <= lo && hi <= |slots|
    decreases hi - lo
  {
    if lo >= hi then 0 else FullIn(slots, lo, hi - 1) + (if slots[hi - 1].Full? then 1 else 0)
  }

  ghost function FullCount(slots: seq<Slot>): nat {
    FullIn(slots, 0, |slots|)
  }

  /** The central fact: writing out blocks and then dropping them leaves the logical content alone. */
  lemma FlushKeepsLogical(content: seq<Byte>, slots: seq<Slot>, lo: int, hi: int)
    requires 0 <= lo && hi <= |slots|
    ensures Logical(Overlaid(content, slots, lo, hi), Cleared(slots, lo, hi)) == Logical(content, slots)
  {
    hide Overlaid, Cleared;
    var c', s' := Overlaid(content, slots, lo, hi), Cleared(slots, lo, hi);
    forall x | 0 <= x < |content|
      ensures Logical(c', s')[x] == Logical(content, slots)[x]
    {
      assert Covered(s', 0, |s'|, x) <==> Covered(slots, 0, |slots|, x) && !(lo <= x / BLOCK < hi);
    }
  }

  /** A piece without cached blocks is what is on disk. */
  lemma EmptyIsDisk(content: seq<Byte>, slots: seq<Slot>)
    requires forall i :: 0 <= i < |slots| ==> slots[i].Empty?
    ensures Logical(content, slots) == content
  {
    hide Overlaid;
  }

  /** Byte `x` of a run that starts with block `r`. */
  ghost predicate RunByte(slots: seq<Slot>, r: int, i: int, bytes: seq<Byte>, x: int)
    requires 0 <= x < |bytes|
  {
    var y := r * BLOCK + x;
    Covered(slots, r, i, y) && bytes[x] == slots[y / BLOCK].data[y % BLOCK]
  }

  /** `bytes` is what the cached blocks r..i of a piece of `size` bytes contribute. */
  ghost predicate IsRun(slots: seq<Slot>, size: nat, r: int, i: int, bytes: seq<Byte>) {
    && 0 <= r < i <= |slots|
    && |bytes| == Min(i * BLOCK, size) - r * BLOCK
    && forall x :: 0 <= x < |bytes| ==> RunByte(slots, r, i, bytes, x)
  }

  function Written(content: seq<Byte>, offset: int, bytes: seq<Byte>): (r: seq<Byte>)
    requires 0 <= offset && offset + |bytes| <= |content|
    ensures |r| == |content|
    ensures forall x :: 0 <= x < |content| ==>
            r[x] == if offset <= x < offset + |bytes| then bytes[x - offset] else content[x]
  {
    content[..offset] + bytes + content[offset + |bytes|..]
  }

  /** Writing a run where the flush computes its offset puts exactly its blocks in place. */
  lemma RunLands(content: seq<Byte>, slots: seq<Slot>, size: nat, lo: int, r: int, i: int, bytes: seq<Byte>)
    requires SlotsOk(slots, size) && |content| == size && 0 <= lo <= r && IsRun(slots, size, r, i, bytes)
    ensures 0 <= Min(i * BLOCK, size) - |bytes| == r * BLOCK && r * BLOCK + |bytes| <= size
    ensures Written(Overlaid(content, slots, lo, r), r * BLOCK, bytes) == Overlaid(content, slots, lo, i)
  {
    hide Overlaid, Written;
    var w := Written(Overlaid(content, slots, lo, r), r * BLOCK, bytes);
    forall x | 0 <= x < size
      ensures w[x] == Overlaid(content, slots, lo, i)[x]
    {
      if r * BLOCK <= x < r * BLOCK + |bytes| {
        assert RunByte(slots, r, i, bytes, x - r * BLOCK);
      } else {
        assert x / BLOCK < r || x / BLOCK >= i;
      }
    }
  }

  /** An uncached block changes nothing. */
  lemma SkipEmpty(content: seq<Byte>, slots: seq<Slot>, lo: int, i: int)
    requires 0 <= i < |slots| && slots[i].Empty?
    ensures Overlaid(content, slots, lo, i + 1) == Overlaid(content, slots, lo, i)
  {
    hide Overlaid;
  }

  /** Appending block `i` to a run, or starting one. */
  lemma ExtendRun(slots: seq<Slot>, size: nat, r: int, i: int, bytes: seq<Byte>)
    requires SlotsOk(slots, size) && 0 <= r <= i < |slots| && slots[i].Full?
    requires r < i ==> IsRun(slots, size, r, i, bytes)
    requires r == i ==> bytes == []
    ensures 0 < BlockLength(size, i) <= BLOCK
    ensures IsRun(slots, size, r, i + 1, bytes + slots[i].data[..BlockLength(size, i)])
  {
    var n := BlockLength(size, i);
    assert i * BLOCK < size;
    var out := bytes + slots[i].data[..n];
    assert |out| == Min((i + 1) * BLOCK, size) - r * BLOCK;
    var j := i + 1;
    forall x | 0 <= x < |out|
      ensures RunByte(slots, r, j, out, x)
    {
      if x < |bytes| {
        assert RunByte(slots, r, i, bytes, x);
      } else {
        var y := x - |bytes|;
        assert r * BLOCK + x == i * BLOCK + y && 0 <= y < BLOCK;
        assert (i * BLOCK + y) / BLOCK == i && (i * BLOCK + y) % BLOCK == y;
      }
    }
  }

  // ----- the write loop of flush_range -----

  /** A gathered write: the buffers one after the other. */
  function Join(iov: seq<seq<Byte>>): seq<Byte> {
    if iov == [] then [] else Join(iov[..|iov| - 1]) + iov[|iov| - 1]
  }

  lemma JoinAppend(iov: seq<seq<Byte>>, b: seq<Byte>)
    ensures Join(iov + [b]) == Join(iov) + b
  {
    assert (iov + [b])[..|iov|] == iov;
  }

  /** Where the flush collects the current run: one buffer, or a list of block buffers. */
  datatype Gather = Gather(coalesce: bool, buf: seq<Byte>, offset: int, size: int, iov: seq<seq<Byte>>) {
    function Bytes(): seq<Byte>
      requires 0 <= size <= |buf|
    {
      if coalesce then buf[..size] else Join(iov)
    }
  }

  /** The gathered bytes are the run r..i, or nothing when r == i. */
  ghost predicate Gathered(g: Gather, slots: seq<Slot>, size: nat, r: int, i: int) {
    && 0 <= g.size <= |g.buf| == size
    && (g.size == 0 ==> r == i && g.offset == 0 && g.iov == [])
    && (g.size > 0 ==> IsRun(slots, size, r, i, g.Bytes()) && g.offset == (i - r) * BLOCK)
    && |g.Bytes()| == g.size
  }

  /** Takes block `i` into the current run. */
  method GatherBlock(g: Gather, slots: seq<Slot>, size: nat, ghost r: int, i: int) returns (g': Gather)
    requires SlotsOk(slots, size) && 0 <= r <= i < |slots| && slots[i].Full? && Gathered(g, slots, size, r, i)
    ensures Gathered(g', slots, size, r, i + 1) && g'.size > 0 && g'.coalesce == g.coalesce
  {
    hide IsRun;
    RunLength(g, slots, size, r, i);
    ExtendRun(slots, size, r, i, g.Bytes());
    var n := BlockLength(size, i);
    var block := slots[i].data[..n];
    if g.coalesce {
      var buf := Written(g.buf, g.offset, block);
      assert buf[..g.size + n] == g.buf[..g.size] + block;
      g' := g.(buf := buf, offset := g.offset + BLOCK, size := g.size + n);
    } else {
      JoinAppend(g.iov, block);
      g' := g.(iov := g.iov + [block], offset := g.offset + BLOCK, size := g.size + n);
    }
  }

  lemma RunLength(g: Gather, slots: seq<Slot>, size: nat, r: int, i: int)
    requires SlotsOk(slots, size) && 0 <= r <= i < |slots| && Gathered(g, slots, size, r, i)
    ensures g.size == g.offset == (i - r) * BLOCK && (g.size == 0 ==> g.Bytes() == []) && (g.size == 0 <==> r == i)
    ensures g.offset + BlockLength(size, i) <= size
  {
  }

  /** The first loop of `flush_range`: writes every run of cached blocks in [start, end). */
  method WriteRuns(coalesce: bool, content0: seq<Byte>, slots: seq<Slot>, size: nat, start: int, end: int)
    returns (content: seq<Byte>, flushed: nat)
    requires SlotsOk(slots, size) && |content0| == size && 0 <= start < end <= |slots|
    ensures content == Overlaid(content0, slots, start, end)
    ensures flushed == FullIn(slots, start, end)
  {
    hide Overlaid, Gathered, IsRun, SlotsOk;
    content, flushed := content0, 0;
    var g := Gather(coalesce, seq(size, _ => 0), 0, 0, []);
    ghost var r := start;
    EmptyGather(g, slots, size, start);
    NothingOverlaid(content0, slots, start);
    var i := start;
    while i <= end
      invariant start <= r <= i <= end + 1
      invariant i <= end ==> Gathered(g, slots, size, r, i) && content == Overlaid(content0, slots, start, r)
      invariant i <= end ==> flushed == FullIn(slots, start, i)
      invariant i > end ==> content == Overlaid(content0, slots, start, end) && flushed == FullIn(slots, start, end)
    {
      GatherBounds(g, slots, size, r, i);
      if i == end || slots[i].Empty? {
        if g.size > 0 {
          WriteGathered(content0, slots, size, start, r, i, g);
          content := Written(content, Min(i * BLOCK, size) - g.size, g.Bytes());
          g := g.(offset := 0, size := 0, iov := []);
        }
        if i < end {
          SkipEmpty(content0, slots, start, i);
          EmptyGather(g, slots, size, i + 1);
          r := i + 1;
        }
      } else {
        g := GatherBlock(g, slots, size, r, i);
        flushed := flushed + 1;
      }
      i := i + 1;
    }
  }

  lemma EmptyGather(g: Gather, slots: seq<Slot>, size: nat, i: int)
    requires g.size == 0 && g.offset == 0 && g.iov == [] && |g.buf| == size
    ensures Gathered(g, slots, size, i, i)
  {
  }

  lemma NothingOverlaid(content: seq<Byte>, slots: seq<Slot>, i: int)
    ensures Overlaid(content, slots, i, i) == content
  {
    hide Overlaid;
  }

  lemma GatherBounds(g: Gather, slots: seq<Slot>, size: nat, r: int, i: int)
    requires Gathered(g, slots, size, r, i)
    ensures 0 <= g.size <= |g.buf| == size && |g.Bytes()| == g.size
    ensures g.size == 0 ==> r == i && g.offset == 0 && g.iov == []
  {
  }

  lemma WriteGathered(content0: seq<Byte>, slots: seq<Slot>, size: nat, start: int, r: int, i: int, g: Gather)
    requires SlotsOk(slots, size) && |content0| == size && 0 <= start <= r && Gathered(g, slots, size, r, i) &&
             g.size > 0
    ensures 0 <= Min(i * BLOCK, size) - g.size && Min(i * BLOCK, size) - g.size + |g.Bytes()| <= size
    ensures Written(Overlaid(content0, slots, start, r), Min(i * BLOCK, size) - g.size, g.Bytes()) ==
            Overlaid(content0, slots, start, i)
  {
    hide Overlaid, Written, IsRun;
    RunLands(content0, slots, size, start, r, i, g.Bytes());
  }

  // ----- counting cached blocks -----

  lemma {:induction false} FullSplit(slots: seq<Slot>, lo: int, mid: int, hi: int)
    requires 0 <= lo <= mid <= hi <= |slots|
    ensures FullIn(slots, lo, hi) == FullIn(slots, lo, mid) + FullIn(slots, mid, hi)
    decreases hi
  {
    if mid < hi { FullSplit(slots, lo, mid, hi - 1); }
  }

  lemma {:induction false} FullSame(s: seq<Slot>, t: seq<Slot>, lo: int, hi: int)
    requires 0 <= lo && hi <= |s| && hi <= |t| && forall i :: lo <= i < hi ==> s[i].Full? == t[i].Full?
    ensures FullIn(s, lo, hi) == FullIn(t, lo, hi)
    decreases hi - lo
  {
    if lo < hi { FullSame(s, t, lo, hi - 1); }
  }

  lemma {:induction false} NoneFull(s: seq<Slot>, lo: int, hi: int)
    requires 0 <= lo && hi <= |s| && forall i :: lo <= i < hi ==> s[i].Empty?
    ensures FullIn(s, lo, hi) == 0
    decreases hi - lo
  {
    if lo < hi { NoneFull(s, lo, hi - 1); }
  }

  /** Clearing a range removes exactly the blocks in it. */
  lemma ClearedCount(slots: seq<Slot>, lo: int, hi: int)
    requires 0 <= lo <= hi <= |slots|
    ensures FullCount(Cleared(slots, lo, hi)) == FullCount(slots) - FullIn(slots, lo, hi)
  {
    hide Cleared;
    var c, n := Cleared(slots, lo, hi), |slots|;
    FullSplit(slots, 0, lo, n);
    FullSplit(slots, lo, hi, n);
    FullSplit(c, 0, lo, n);
    FullSplit(c, lo, hi, n);
    FullSame(slots, c, 0, lo);
    FullSame(slots, c, hi, n);
    NoneFull(c, lo, hi);
  }

  lemma SetCount(slots: seq<Slot>, i: int, s: Slot)
    requires 0 <= i < |slots|
    ensures FullCount(slots[i := s]) ==
            FullCount(slots) + (if s.Full? then 1 else 0) - (if slots[i].Full? then 1 else 0)
  {
    var t, n := slots[i := s], |slots|;
    FullSplit(slots, 0, i, n);
    FullSplit(slots, i, i + 1, n);
    FullSplit(t, 0, i, n);
    FullSplit(t, i, i + 1, n);
    FullSame(slots, t, 0, i);
    FullSame(slots, t, i + 1, n);
  }

  lemma CountZero(slots: seq<Slot>)
    requires FullCount(slots) == 0
    ensures forall i :: 0 <= i < |slots| ==> slots[i].Empty?
  {
    forall i | 0 <= i < |slots|
      ensures slots[i].Empty?
    {
      FullSplit(slots, 0, i, |slots|);
      FullSplit(slots, i, i + 1, |slots|);
    }
  }

  /** Counts and drops the cached blocks of a range, as the second loop of `flush_range` and `free_piece` do. */
  method Release(slots0: seq<Slot>, lo: int, hi: int) returns (slots: seq<Slot>, freed: nat)
    requires 0 <= lo <= hi <= |slots0|
    ensures slots == Cleared(slots0, lo, hi) && freed == FullIn(slots0, lo, hi)
  {
    slots, freed := slots0, 0;
    for i := lo to hi
      invariant |slots| == |slots0| && freed == FullIn(slots0, lo, i)
      invariant forall k :: 0 <= k < |slots| ==> slots[k] == if lo <= k < i then Empty else slots0[k]
    {
      if slots[i].Full? {
        slots := slots[i := Empty];
        freed := freed + 1;
      }
    }
  }

  // ----- the longest run -----

  ghost predicate AllFull(slots: seq<Slot>, lo: int, hi: int) {
    0 <= lo <= hi <= |slots| && forall i :: lo <= i < hi ==> slots[i].Full?
  }

  /** The first of the longest unbroken ranges of cached blocks. */
  ghost predicate FirstLongest(slots: seq<Slot>, lo: int, hi: int) {
    && AllFull(slots, lo, hi)
    && forall a, b :: AllFull(slots, a, b) ==> b - a < hi - lo || (b - a == hi - lo && lo <= a)
  }

  method LongestRun(slots: seq<Slot>) returns (pos: int, len: int)
    ensures len >= 0 && FirstLongest(slots, pos, pos + len)
  {
    pos, len := 0, 0;
    var current, start := 0, 0;
    for i := 0 to |slots|
      invariant 0 <= current && start + current == i && 0 <= start
      invariant AllFull(slots, start, i) && (start > 0 ==> slots[start - 1].Empty?)
      invariant len >= 0 && AllFull(slots, pos, pos + len) && pos + len <= i
      invariant forall lo, hi :: AllFull(slots, lo, hi) && hi < start ==>
                  hi - lo < len || (hi - lo == len && pos <= lo)
      invariant len == 0 ==> pos == 0
    {
      if slots[i].Full? {
        current := current + 1;
      } else {
        if current > len {
          len := current;
          pos := start;
        }
        current := 0;
        start := i + 1;
      }
    }
    if current > len {
      len := current;
      pos := start;
    }
  }

  lemma {:induction false} AllFullCount(slots: seq<Slot>, lo: int, hi: int)
    requires AllFull(slots, lo, hi)
    ensures FullIn(slots, lo, hi) == hi - lo
    decreases hi
  {
    if lo < hi { AllFullCount(slots, lo, hi - 1); }
  }

  // ----- partial eviction -----

  /**
    Drops `num` blocks alternately from the start and the end; more than `num` are cached, so the indices stay
    inside.
   */
  method EvictEnds(slots0: seq<Slot>, num: nat) returns (slots: seq<Slot>, freed: nat)
    requires num < FullCount(slots0)
    ensures freed == num && |slots| == |slots0| && FullCount(slots) == FullCount(slots0) - num
    ensures forall i :: 0 <= i < |slots| ==> slots[i] == slots0[i] || slots[i].Empty?
  {
    slots, freed := slots0, 0;
    var left, start, end := num, 0, |slots| - 1;
    while left != 0
      invariant 0 <= left <= num && freed == num - left && |slots| == |slots0|
      invariant 0 <= start && end < |slots|
      invariant FullCount(slots) == FullCount(slots0) - freed
      invariant forall i :: 0 <= i < |slots| && (i < start || i > end) ==> slots[i].Empty?
      invariant forall i :: 0 <= i < |slots| ==> slots[i] == slots0[i] || slots[i].Empty?
      decreases left
    {
      start := SkipForward(slots, start, end);
      SetCount(slots, start, Empty);
      slots := slots[start := Empty];
      freed, left := freed + 1, left - 1;
      if left == 0 { break; }
      end := SkipBackward(slots, start, end);
      SetCount(slots, end, Empty);
      slots := slots[end := Empty];
      freed, left := freed + 1, left - 1;
    }
  }

  /** The first cached block from `start` on; the array is read before the bound is tested. */
  method SkipForward(slots: seq<Slot>, start0: int, end: int) returns (start: int)
    requires FullCount(slots) > 0 && 0 <= start0 && end < |slots|
    requires forall i :: 0 <= i < |slots| && (i < start0 || i > end) ==> slots[i].Empty?
    ensures start0 <= start <= end && slots[start].Full?
    ensures forall i :: 0 <= i < start ==> slots[i].Empty?
  {
    start := start0;
    SomeFull(slots, start, end);
    while slots[start].Empty? && start <= end
      invariant start0 <= start <= end
      invariant forall i :: 0 <= i < start ==> slots[i].Empty?
    {
      start := start + 1;
      SomeFull(slots, start, end);
    }
  }

  /** The last cached block up to `end`. */
  method SkipBackward(slots: seq<Slot>, start: int, end0: int) returns (end: int)
    requires FullCount(slots) > 0 && 0 <= start && end0 < |slots|
    requires forall i :: 0 <= i < |slots| && (i < start || i > end0) ==> slots[i].Empty?
    ensures start <= end <= end0 && slots[end].Full?
    ensures forall i :: end < i < |slots| ==> slots[i].Empty?
  {
    end := end0;
    SomeFull(slots, start, end);
    while slots[end].Empty? && start <= end
      invariant start <= end <= end0
      invariant forall i :: end < i < |slots| ==> slots[i].Empty?
      decreases end
    {
      end := end - 1;
      SomeFull(slots, start, end);
    }
  }

  lemma SomeFull(slots: seq<Slot>, lo: int, hi: int)
    requires FullCount(slots) > 0 && forall i :: 0 <= i < |slots| && (i < lo || i > hi) ==> slots[i].Empty?
    ensures lo <= hi && hi >= 0 && lo < |slots|
  {
    if lo > hi || hi < 0 || lo >= |slots| {
      NoneFull(slots, 0, |slots|);
      assert false;
    }
  }

  // ----- putting blocks in -----

  /** Caching a block makes the piece read as if the block had been written. */
  lemma InsertedLogical(content: seq<Byte>, slots: seq<Slot>, b: int, data: seq<Byte>)
    requires 0 <= b < |slots| && |slots| == BlockCount(|content|) && |data| == BLOCK
    ensures b * BLOCK + BlockLength(|content|, b) <= |content| && BlockLength(|content|, b) > 0
    ensures Logical(content, slots[b := Full(data)])
         == Written(Logical(content, slots), b * BLOCK, data[..BlockLength(|content|, b)])
  {
    hide Overlaid, Written;
    var n := BlockLength(|content|, b);
    var t := slots[b := Full(data)];
    var w := Written(Logical(content, slots), b * BLOCK, data[..n]);
    forall x | 0 <= x < |content|
      ensures Logical(content, t)[x] == w[x]
    {
      assert b * BLOCK <= x < b * BLOCK + n <==> x / BLOCK == b;
      assert x / BLOCK == b ==> x % BLOCK == x - b * BLOCK;
      assert x / BLOCK != b ==> (Covered(t, 0, |t|, x) <==> Covered(slots, 0, |slots|, x));
    }
  }

  /** Slot `s` holds block `i` of `content`. */
  ghost predicate HoldsBlock(content: seq<Byte>, s: Slot, i: int) {
    var n := BlockLength(|content|, i);
    0 <= i && 0 <= n && s.Full? && |s.data| == BLOCK && s.data[..n] == content[i * BLOCK..i * BLOCK + n]
  }

}
