/**
  The bucket-sorted piece index, as plain integer sequences.

  `ps` lists the pickable pieces, `bs[q]` is one past the end of the bucket of
  priority `q`, `ix` maps a piece to its position in `ps`, and `pr` gives every
  piece its priority (-1 for a piece that must not be listed).
 */
module Buckets {
  import opened Finite

  /** The first position of bucket `q`; bucket `|bs|` is the tail behind every bucket. */
  function Start(bs: seq<int>, q: int): int
    requires 0 <= q <= |bs|
  {
    if q == 0 then 0 else bs[q - 1]
  }

  ghost predicate Ascending(bs: seq<int>) {
    && (forall q :: 0 <= q < |bs| ==> 0 <= bs[q])
    && (forall q, r :: 0 <= q <= r < |bs| ==> bs[q] <= bs[r])
    && (forall q, r :: 0 <= q < r <= |bs| ==> bs[q] <= Start(bs, r))
  }

  /** Position `k` lies in the bucket of priority `q`. */
  ghost predicate InBucket(bs: seq<int>, q: int, k: int) {
    0 <= q < |bs| && Start(bs, q) <= k < bs[q]
  }

  /** The entry at position `k` is a piece whose bucket covers `k` and whose index points back. */
  ghost predicate Fits(ps: seq<int>, bs: seq<int>, ix: seq<int>, pr: seq<int>, k: int)
    requires |ix| == |pr| && 0 <= k < |ps|
  {
    && 0 <= ps[k] < |pr|
    && ix[ps[k]] == k
    && InBucket(bs, pr[ps[k]], k)
  }

  /** The invariant of a non-dirty index. */
  ghost predicate Ok(ps: seq<int>, bs: seq<int>, ix: seq<int>, pr: seq<int>) {
    && |ix| == |pr|
    && |bs| > 0
    && Ascending(bs)
    && bs[|bs| - 1] == |ps|
    && (forall k :: 0 <= k < |ps| ==> Fits(ps, bs, ix, pr, k))
    && (forall i :: 0 <= i < |pr| && pr[i] >= 0 ==> 0 <= ix[i] < |ps| && ps[ix[i]] == i)
  }

  /** The pieces found in bucket `q`. */
  ghost function Members(ps: seq<int>, bs: seq<int>, q: int): set<int>
    requires 0 <= q < |bs| && 0 <= Start(bs, q) <= bs[q] <= |ps|
  {
    set k | Start(bs, q) <= k < bs[q] :: ps[k]
  }

  /** What `Ok` is for: a bucket holds exactly the pieces of its priority, each once. */
  lemma BucketIsPriorityClass(ps: seq<int>, bs: seq<int>, ix: seq<int>, pr: seq<int>, q: int)
    requires Ok(ps, bs, ix, pr) && 0 <= q < |bs|
    ensures 0 <= Start(bs, q) <= bs[q] <= |ps|
    ensures Members(ps, bs, q) == set i | 0 <= i < |pr| && pr[i] == q
    ensures |Members(ps, bs, q)| == bs[q] - Start(bs, q)
    ensures forall j, k :: 0 <= j < k < |ps| ==> ps[j] != ps[k]
  {
    var a, b := Start(bs, q), bs[q];
    forall i | 0 <= i < |pr| && pr[i] == q
      ensures i in Members(ps, bs, q)
    {
      assert Fits(ps, bs, ix, pr, ix[i]);
    }
    forall i | i in Members(ps, bs, q)
      ensures 0 <= i < |pr| && pr[i] == q
    {
      var k :| a <= k < b && ps[k] == i;
      assert Fits(ps, bs, ix, pr, k);
      SameBucket(bs, q, pr[i], k);
    }
    forall j, k | 0 <= j < k < |ps|
      ensures ps[j] != ps[k]
    {
      assert Fits(ps, bs, ix, pr, j) && Fits(ps, bs, ix, pr, k);
    }
    RangeSize(ps, a, b);
  }

  lemma BucketRange(ps: seq<int>, bs: seq<int>, ix: seq<int>, pr: seq<int>, q: int)
    requires Ok(ps, bs, ix, pr) && 0 <= q < |bs|
    ensures 0 <= Start(bs, q) <= bs[q] <= |ps|
  {
    assert bs[q] <= bs[|bs| - 1];
    assert q > 0 ==> bs[q - 1] <= bs[q];
  }

  /** Two clean indexes over the same priorities list the same pieces in the same bucket ranges. */
  lemma CleanIndexIsCanonical(ps: seq<int>, bs: seq<int>, ix: seq<int>, ps': seq<int>, bs': seq<int>, ix': seq<int>,
                              pr: seq<int>, q: int)
    requires Ok(ps, bs, ix, pr) && Ok(ps', bs', ix', pr)
    requires 0 <= q < |bs| && q < |bs'|
    ensures Start(bs, q) == Start(bs', q) && bs[q] == bs'[q]
    ensures bs[q] <= |ps| && bs'[q] <= |ps'| && 0 <= Start(bs, q) <= bs[q]
    ensures Members(ps, bs, q) == Members(ps', bs', q)
    decreases q
  {
    BucketIsPriorityClass(ps, bs, ix, pr, q);
    BucketIsPriorityClass(ps', bs', ix', pr, q);
    if q > 0 {
      CleanIndexIsCanonical(ps, bs, ix, ps', bs', ix', pr, q - 1);
    }
  }

  /** Buckets do not overlap. */
  lemma SameBucket(bs: seq<int>, q: int, r: int, k: int)
    requires Ascending(bs) && InBucket(bs, q, k) && InBucket(bs, r, k)
    ensures q == r
  {
  }

  /** There are no more positions than pieces. */
  lemma NoMorePositionsThanPieces(ps: seq<int>, bs: seq<int>, ix: seq<int>, pr: seq<int>)
    requires Ok(ps, bs, ix, pr)
    ensures |ps| <= |pr|
  {
    BucketIsPriorityClass(ps, bs, ix, pr, 0);
    RangeSize(ps, 0, |ps|);
    var listed := set k | 0 <= k < |ps| :: ps[k];
    forall i | i in listed
      ensures 0 <= i < |pr|
    {
      var k :| 0 <= k < |ps| && ps[k] == i;
      assert Fits(ps, bs, ix, pr, k);
    }
    SubrangeSize(listed, |pr|);
  }

  // ----- a position being vacated: remove and update move a hole from bucket to bucket -----

  /**
    Piece `x` is out of the index and position `hole`, in bucket `h`, is free to be
    overwritten; everything else is in place. Bucket `|bs|` is one extra slot at the end.
   */
  ghost predicate Hole(ps: seq<int>, bs: seq<int>, ix: seq<int>, pr: seq<int>, x: int, hole: int, h: int) {
    && |ix| == |pr|
    && |bs| > 0
    && Ascending(bs)
    && 0 <= h <= |bs|
    && |ps| == bs[|bs| - 1] + (if h == |bs| then 1 else 0)
    && Start(bs, h) <= hole < (if h == |bs| then |ps| else bs[h])
    && (forall k :: 0 <= k < |ps| && k != hole ==> Fits(ps, bs, ix, pr, k) && ps[k] != x)
    && (forall i :: 0 <= i < |pr| && pr[i] >= 0 && i != x ==> 0 <= ix[i] < |ps| && ix[i] != hole && ps[ix[i]] == i)
  }

  lemma Vacate(ps: seq<int>, bs: seq<int>, ix: seq<int>, pr: seq<int>, x: int, hole: int, p: int)
    requires 0 <= x < |pr| && |ix| == |pr|
    requires Ok(ps, bs, ix[x := hole], pr[x := p]) && 0 <= hole < |ps| && ps[hole] == x
    ensures 0 <= p < |bs| && Hole(ps, bs, ix, pr, x, hole, p)
  {
    assert Fits(ps, bs, ix[x := hole], pr[x := p], hole);
    forall k | 0 <= k < |ps| && k != hole
      ensures Fits(ps, bs, ix, pr, k) && ps[k] != x
    {
      assert Fits(ps, bs, ix[x := hole], pr[x := p], k);
    }
    forall i | 0 <= i < |pr| && pr[i] >= 0 && i != x
      ensures 0 <= ix[i] < |ps| && ix[i] != hole && ps[ix[i]] == i
    {
      assert pr[x := p][i] == pr[i] && ix[x := hole][i] == ix[i];
    }
  }

  lemma RaiseOne(bs: seq<int>, q: int, v: int)
    requires Ascending(bs) && 0 <= q < |bs|
    requires Start(bs, q) <= v && (q + 1 < |bs| ==> v <= bs[q + 1])
    ensures Ascending(bs[q := v])
  {
    var bs' := bs[q := v];
    forall a, b | 0 <= a < b <= |bs'|
      ensures bs'[a] <= Start(bs', b)
    {
      assert bs[a] <= Start(bs, b);
      if a == q && b > q + 1 {
        assert bs[q + 1] <= bs[b - 1];
      }
      if a < q && b == q + 1 {
        assert bs[a] <= Start(bs, q);
      }
    }
  }

  /** The hole is the last slot of bucket `h`: hand it over to bucket `h + 1`. */
  lemma HoleUpInPlace(ps: seq<int>, bs: seq<int>, ix: seq<int>, pr: seq<int>, x: int, hole: int, h: int)
    requires Hole(ps, bs, ix, pr, x, hole, h) && h < |bs| && bs[h] - 1 == hole
    ensures Hole(ps, bs[h := hole], ix, pr, x, hole, h + 1)
  {
    var bs' := bs[h := hole];
    RaiseOne(bs, h, hole);
    forall k | 0 <= k < |ps| && k != hole
      ensures Fits(ps, bs', ix, pr, k)
    {
      assert Fits(ps, bs, ix, pr, k);
    }
  }

  /** Otherwise the last entry of bucket `h` fills the hole and its slot goes to bucket `h + 1`. */
  lemma HoleUp(ps: seq<int>, bs: seq<int>, ix: seq<int>, pr: seq<int>, x: int, hole: int, h: int)
    requires Hole(ps, bs, ix, pr, x, hole, h) && h < |bs| && bs[h] - 1 != hole
    ensures var last := bs[h] - 1;
            0 <= hole < |ps| && 0 <= last < |ps| && 0 <= ps[last] < |ix| && pr[ps[last]] == h
            && ps[last] != x && ix[ps[last]] == last
            && Hole(ps[hole := ps[last]], bs[h := last], ix[ps[last] := hole], pr, x, last, h + 1)
  {
    var last := bs[h] - 1;
    var bs' := bs[h := last];
    RaiseOne(bs, h, last);
    assert Fits(ps, bs, ix, pr, last);
    SameBucket(bs, h, pr[ps[last]], last);
    var y := ps[last];
    var ps', ix' := ps[hole := y], ix[y := hole];
    forall k | 0 <= k < |ps'| && k != last
      ensures Fits(ps', bs', ix', pr, k) && ps'[k] != x
    {
      assert k != hole ==> Fits(ps, bs, ix, pr, k);
    }
  }

  /** The hole is the first slot of bucket `h`: give it to bucket `h - 1`. */
  lemma HoleDownInPlace(ps: seq<int>, bs: seq<int>, ix: seq<int>, pr: seq<int>, x: int, hole: int, h: int)
    requires Hole(ps, bs, ix, pr, x, hole, h) && 0 < h < |bs| && bs[h - 1] == hole
    ensures Hole(ps, bs[h - 1 := hole + 1], ix, pr, x, hole, h - 1)
  {
    var bs' := bs[h - 1 := hole + 1];
    RaiseOne(bs, h - 1, hole + 1);
    forall k | 0 <= k < |ps| && k != hole
      ensures Fits(ps, bs', ix, pr, k)
    {
      assert Fits(ps, bs, ix, pr, k);
    }
  }

  /** Otherwise the first entry of bucket `h` fills the hole and its slot goes to bucket `h - 1`. */
  lemma HoleDown(ps: seq<int>, bs: seq<int>, ix: seq<int>, pr: seq<int>, x: int, hole: int, h: int)
    requires Hole(ps, bs, ix, pr, x, hole, h) && 0 < h < |bs| && bs[h - 1] != hole
    ensures var first := bs[h - 1];
            0 <= hole < |ps| && 0 <= first < |ps| && 0 <= ps[first] < |ix| && pr[ps[first]] == h
            && ps[first] != x && ix[ps[first]] == first
            && Hole(ps[hole := ps[first]], bs[h - 1 := first + 1], ix[ps[first] := hole], pr, x, first, h - 1)
  {
    var first := bs[h - 1];
    var bs' := bs[h - 1 := first + 1];
    RaiseOne(bs, h - 1, first + 1);
    assert Fits(ps, bs, ix, pr, first);
    SameBucket(bs, h, pr[ps[first]], first);
    var y := ps[first];
    var ps', ix' := ps[hole := y], ix[y := hole];
    forall k | 0 <= k < |ps'| && k != first
      ensures Fits(ps', bs', ix', pr, k) && ps'[k] != x
    {
      assert k != hole ==> Fits(ps, bs, ix, pr, k);
    }
    hide Fits, Ascending;
    forall i | 0 <= i < |pr| && pr[i] >= 0 && i != x
      ensures 0 <= ix'[i] < |ps'| && ix'[i] != first && ps'[ix'[i]] == i
    {
    }
  }

  /** Putting `x` into the hole completes an update. */
  lemma Fill(ps: seq<int>, bs: seq<int>, ix: seq<int>, pr: seq<int>, x: int, hole: int, h: int)
    requires Hole(ps, bs, ix, pr, x, hole, h) && h < |bs| && 0 <= x < |pr| && pr[x] == h
    ensures 0 <= hole < |ps| && InBucket(bs, h, hole)
    ensures Ok(ps[hole := x], bs, ix[x := hole], pr)
  {
    var ps', ix' := ps[hole := x], ix[x := hole];
    forall k | 0 <= k < |ps'|
      ensures Fits(ps', bs, ix', pr, k)
    {
      assert k != hole ==> Fits(ps, bs, ix, pr, k);
    }
  }

  /** Dropping the slot behind every bucket completes a removal. */
  lemma Drop(ps: seq<int>, bs: seq<int>, ix: seq<int>, pr: seq<int>, x: int, hole: int)
    requires Hole(ps, bs, ix, pr, x, hole, |bs|) && 0 <= x < |pr| && pr[x] < 0
    ensures hole == |ps| - 1 && Ok(ps[..|ps| - 1], bs, ix, pr)
  {
    var ps' := ps[..|ps| - 1];
    forall k | 0 <= k < |ps'|
      ensures Fits(ps', bs, ix, pr, k)
    {
      assert Fits(ps, bs, ix, pr, k);
    }
  }

  /** New empty buckets at the end change nothing. */
  lemma Extend(ps: seq<int>, bs: seq<int>, bs': seq<int>, ix: seq<int>, pr: seq<int>)
    requires Ok(ps, bs, ix, pr)
    requires |bs| <= |bs'| && bs'[..|bs|] == bs && forall q :: |bs| <= q < |bs'| ==> bs'[q] == |ps|
    ensures Ok(ps, bs', ix, pr)
  {
    assert forall q :: 0 <= q < |bs| ==> bs'[q] == bs[q];
    forall k | 0 <= k < |ps|
      ensures Fits(ps, bs', ix, pr, k)
    {
      assert Fits(ps, bs, ix, pr, k);
    }
  }

  /** The recorded position of an unlisted piece means nothing. */
  lemma UnlistedIndexIsFree(ps: seq<int>, bs: seq<int>, ix: seq<int>, pr: seq<int>, x: int, v: int)
    requires Ok(ps, bs, ix, pr) && 0 <= x < |pr| && pr[x] < 0
    ensures Ok(ps, bs, ix[x := v], pr)
  {
    var ix' := ix[x := v];
    forall k | 0 <= k < |ps|
      ensures Fits(ps, bs, ix', pr, k)
    {
      assert Fits(ps, bs, ix, pr, k);
    }
  }

  /** Exchanging two entries of one bucket. */
  lemma Swap(ps: seq<int>, bs: seq<int>, ix: seq<int>, pr: seq<int>, q: int, j: int, k: int)
    requires Ok(ps, bs, ix, pr) && InBucket(bs, q, j) && InBucket(bs, q, k)
    ensures 0 <= j < |ps| && 0 <= k < |ps| && 0 <= ps[j] < |ix| && 0 <= ps[k] < |ix|
    ensures ix[ps[j]] == j && ix[ps[k]] == k && pr[ps[j]] == q == pr[ps[k]]
    ensures Ok(ps[j := ps[k]][k := ps[j]], bs, ix[ps[j] := k][ps[k] := j], pr)
  {
    assert bs[q] <= bs[|bs| - 1];
    assert Fits(ps, bs, ix, pr, j) && Fits(ps, bs, ix, pr, k);
    SameBucket(bs, q, pr[ps[j]], j);
    SameBucket(bs, q, pr[ps[k]], k);
    var ps', ix' := ps[j := ps[k]][k := ps[j]], ix[ps[j] := k][ps[k] := j];
    forall m | 0 <= m < |ps'|
      ensures Fits(ps', bs, ix', pr, m)
    {
      assert Fits(ps, bs, ix, pr, m);
    }
  }

  // ----- the chain of displacements started by add -----

  /** `b1` is `b0` with every bucket end from `p` on moved up by one. */
  ghost function Raised(b0: seq<int>, p: int, c: int): (b1: seq<int>)
    ensures |b1| == |b0|
    ensures forall q :: 0 <= q < |b0| ==> b1[q] == b0[q] + (if p <= q < c then 1 else 0)
  {
    seq(|b0|, q requires 0 <= q < |b0| => b0[q] + (if p <= q < c then 1 else 0))
  }

  lemma RaisedNowhere(b0: seq<int>, p: int)
    ensures Raised(b0, p, p) == b0
  {
  }

  /**
    Piece `x` is in hand and goes to position `pos`. Below `pos` the entries fit the
    final boundaries `b1`; from `pos` on they still fit the original `b0`, up to the
    free slot at the end. `b0` had the buckets from `p` on one slot shorter.
   */
  ghost predicate Chain(ps: seq<int>, b0: seq<int>, p: int, ix: seq<int>, pr: seq<int>, x: int, pos: int) {
    && |ix| == |pr|
    && |b0| > 0
    && Ascending(b0)
    && 0 <= p < |b0|
    && |ps| == b0[|b0| - 1] + 1 <= |pr| + 1
    && 0 <= pos < |ps|
    && 0 <= x < |pr| && p <= pr[x] < |b0|
    && InBucket(Raised(b0, p, |b0|), pr[x], pos)
    && (forall k :: 0 <= k < pos ==> Fits(ps, Raised(b0, p, |b0|), ix, pr, k) && ps[k] != x)
    && (forall k :: pos <= k < |ps| - 1 ==> Fits(ps, b0, ix, pr, k) && ps[k] != x)
    && (forall i :: 0 <= i < |pr| && pr[i] >= 0 && i != x ==> 0 <= ix[i] < |ps| - 1 && ps[ix[i]] == i)
  }

  lemma ChainBegin(ps: seq<int>, b0: seq<int>, ix: seq<int>, pr: seq<int>, x: int, pos: int)
    requires 0 <= x < |pr| && Ok(ps, b0, ix, pr[x := -1]) && 0 <= pr[x] < |b0|
    requires Start(b0, pr[x]) <= pos <= b0[pr[x]]
    ensures Chain(ps + [-1], b0, pr[x], ix, pr, x, pos)
  {
    NoMorePositionsThanPieces(ps, b0, ix, pr[x := -1]);
    var p, ps' := pr[x], ps + [-1];
    var b1 := Raised(b0, p, |b0|);
    assert b0[p] <= b0[|b0| - 1];
    forall k | 0 <= k < |ps|
      ensures Fits(ps', b0, ix, pr, k) && ps'[k] != x
      ensures k < pos ==> Fits(ps', b1, ix, pr, k)
    {
      assert Fits(ps, b0, ix, pr[x := -1], k);
    }
    assert InBucket(b1, p, pos);
    forall i | 0 <= i < |pr| && pr[i] >= 0 && i != x
      ensures 0 <= ix[i] < |ps'| - 1 && ps'[ix[i]] == i
    {
      assert pr[x := -1][i] == pr[i];
    }
  }

  /** The displaced entry belongs to the next bucket whose boundary is not `pos`. */
  lemma ChainSkips(ps: seq<int>, b0: seq<int>, p: int, ix: seq<int>, pr: seq<int>, x: int, pos: int)
    requires Chain(ps, b0, p, ix, pr, x, pos) && pos <= b0[pr[x]]
    ensures 0 <= pos < |ps| <= |pr| + 1 && |ix| == |pr| && 0 <= x < |pr| && p <= pr[x] < |b0|
    ensures pos == |ps| - 1 ==> forall q :: pr[x] <= q < |b0| ==> b0[q] == pos
    ensures pos < |ps| - 1 ==>
              && 0 <= ps[pos] < |pr|
              && pr[x] <= pr[ps[pos]] < |b0| && b0[pr[ps[pos]]] > pos
              && (forall q :: pr[x] <= q < pr[ps[pos]] ==> b0[q] == pos)
              && (pr[ps[pos]] == |b0| - 1 ==> b0[pr[ps[pos]]] == |ps| - 1)
  {
    var h := pr[x];
    assert forall q :: h <= q < |b0| ==> b0[h] <= b0[q] <= b0[|b0| - 1];
    if pos < |ps| - 1 {
      assert Fits(ps, b0, ix, pr, pos);
      var y := ps[pos];
      assert forall q :: h <= q < pr[y] ==> b0[q] <= Start(b0, pr[y]);
    }
  }

  /** One displacement: `x` takes `pos`, the entry found there goes to the end of its own bucket. */
  lemma ChainStep(ps: seq<int>, b0: seq<int>, p: int, ix: seq<int>, pr: seq<int>, x: int, pos: int)
    requires Chain(ps, b0, p, ix, pr, x, pos) && pos < |ps| - 1
    requires pos <= b0[pr[x]]
    ensures var y := ps[pos];
            0 <= y < |pr| && ix[y] == pos && y != x && 0 <= pr[y] < |b0|
            && Chain(ps[pos := x], b0, p, ix[x := pos], pr, y, b0[pr[y]])
  {
    ChainSkips(ps, b0, p, ix, pr, x, pos);
    var y := ps[pos];
    assert Fits(ps, b0, ix, pr, pos);
    var b1, next := Raised(b0, p, |b0|), b0[pr[y]];
    assert pos < next <= b0[|b0| - 1];
    var ps', ix' := ps[pos := x], ix[x := pos];
    forall k | 0 <= k < next
      ensures Fits(ps', b1, ix', pr, k) && ps'[k] != y
    {
      if k < pos {
        assert Fits(ps, b1, ix, pr, k);
      } else if pos < k {
        assert Fits(ps, b0, ix, pr, k);
        assert InBucket(b0, pr[y], k);
        SameBucket(b0, pr[y], pr[ps[k]], k);
        assert ps'[k] != y by { assert ix[ps[k]] == k; }
      }
    }
    forall k | next <= k < |ps'| - 1
      ensures Fits(ps', b0, ix', pr, k) && ps'[k] != y
    {
      assert Fits(ps, b0, ix, pr, k);
    }
  }

  /** The last displacement fills the free slot at the end. */
  lemma ChainEnd(ps: seq<int>, b0: seq<int>, p: int, ix: seq<int>, pr: seq<int>, x: int, pos: int)
    requires Chain(ps, b0, p, ix, pr, x, pos) && pos == |ps| - 1
    ensures Ok(ps[pos := x], Raised(b0, p, |b0|), ix[x := pos], pr)
  {
    var b1, ps', ix' := Raised(b0, p, |b0|), ps[pos := x], ix[x := pos];
    forall k | 0 <= k < |ps'|
      ensures Fits(ps', b1, ix', pr, k)
    {
      assert k < pos ==> Fits(ps, b1, ix, pr, k);
    }
  }
}
