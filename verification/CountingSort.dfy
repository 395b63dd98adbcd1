/** The counting sort behind a rebuild of the piece index. */
module CountingSort {
  import opened Buckets
  import opened Finite

  /** How many of the first `n` pieces have priority `p`. */
  ghost function Count(pr: seq<int>, p: int, n: nat): nat
    requires n <= |pr|
  {
    if n == 0 then 0 else Count(pr, p, n - 1) + (if pr[n - 1] == p then 1 else 0)
  }

  /** How many of the first `n` pieces are listed with a priority below `p`. */
  ghost function Below(pr: seq<int>, p: int, n: nat): nat
    requires n <= |pr|
  {
    if n == 0 then 0 else Below(pr, p, n - 1) + (if 0 <= pr[n - 1] < p then 1 else 0)
  }

  /** Where piece `i` goes: behind all lower buckets and all earlier pieces of its own. */
  ghost function Slot(pr: seq<int>, i: int): nat
    requires 0 <= i < |pr|
  {
    Below(pr, pr[i], |pr|) + Count(pr, pr[i], i)
  }

  /** The entries of `ps` are the listed pieces, each once, each inside its bucket. */
  ghost predicate Listing(ps: seq<int>, bs: seq<int>, pr: seq<int>) {
    && |bs| > 0
    && Ascending(bs)
    && bs[|bs| - 1] == |ps|
    && (forall k :: 0 <= k < |ps| ==> 0 <= ps[k] < |pr| && InBucket(bs, pr[ps[k]], k))
    && (forall j, k :: 0 <= j < k < |ps| ==> ps[j] != ps[k])
    && (forall i :: 0 <= i < |pr| && pr[i] >= 0 ==> i in ps)
  }

  lemma {:induction false} BelowStep(pr: seq<int>, p: int, n: nat)
    requires n <= |pr| && p >= 0
    ensures Below(pr, p + 1, n) == Below(pr, p, n) + Count(pr, p, n)
  {
    if n > 0 { BelowStep(pr, p, n - 1); }
  }

  lemma {:induction false} BelowZero(pr: seq<int>, n: nat)
    requires n <= |pr|
    ensures Below(pr, 0, n) == 0
  {
    if n > 0 { BelowZero(pr, n - 1); }
  }

  lemma {:induction false} BelowMonotone(pr: seq<int>, p: int, q: int)
    requires 0 <= p <= q
    ensures Below(pr, p, |pr|) <= Below(pr, q, |pr|)
    decreases q - p
  {
    if p < q {
      BelowMonotone(pr, p, q - 1);
      BelowStep(pr, q - 1, |pr|);
    }
  }

  lemma {:induction false} CountMonotone(pr: seq<int>, p: int, m: nat, n: nat)
    requires m <= n <= |pr|
    ensures Count(pr, p, m) <= Count(pr, p, n) <= n
    decreases n
  {
    if m < n {
      CountMonotone(pr, p, m, n - 1);
    } else if n > 0 {
      CountMonotone(pr, p, m - 1, n - 1);
    }
  }

  /** A slot lies in its bucket. */
  lemma SlotInBucket(pr: seq<int>, i: int)
    requires 0 <= i < |pr| && pr[i] >= 0
    ensures Below(pr, pr[i], |pr|) <= Slot(pr, i) < Below(pr, pr[i] + 1, |pr|)
  {
    CountMonotone(pr, pr[i], i + 1, |pr|);
    BelowStep(pr, pr[i], |pr|);
  }

  /** No two pieces share a slot. */
  lemma SlotInjective(pr: seq<int>, i: int, j: int)
    requires 0 <= i < j < |pr| && pr[i] >= 0 && pr[j] >= 0
    ensures Slot(pr, i) != Slot(pr, j)
  {
    SlotInBucket(pr, i);
    SlotInBucket(pr, j);
    if pr[i] == pr[j] {
      CountMonotone(pr, pr[i], i + 1, j);
    } else if pr[i] < pr[j] {
      BelowMonotone(pr, pr[i] + 1, pr[j]);
    } else {
      BelowMonotone(pr, pr[j] + 1, pr[i]);
    }
  }

  /** Every position below the total is somebody's slot. */
  lemma SlotSurjective(pr: seq<int>, p: int, k: int) returns (i: int)
    requires p >= 0 && 0 <= k < Below(pr, p, |pr|)
    ensures 0 <= i < |pr| && 0 <= pr[i] < p && Slot(pr, i) == k
    decreases p
  {
    if p == 0 {
      BelowZero(pr, |pr|);
      assert false;
    } else if k < Below(pr, p - 1, |pr|) {
      i := SlotSurjective(pr, p - 1, k);
    } else {
      BelowStep(pr, p - 1, |pr|);
      i := NthOf(pr, p - 1, k - Below(pr, p - 1, |pr|), |pr|);
    }
  }

  lemma NthOf(pr: seq<int>, p: int, r: nat, n: nat) returns (i: int)
    requires n <= |pr| && r < Count(pr, p, n)
    ensures 0 <= i < n && pr[i] == p && Count(pr, p, i) == r
    decreases n
  {
    if r < Count(pr, p, n - 1) {
      i := NthOf(pr, p, r, n - 1);
    } else {
      i := n - 1;
    }
  }

  lemma PrefixSumsAscend(bs: seq<int>, pr: seq<int>)
    requires forall q :: 0 <= q < |bs| ==> bs[q] == Below(pr, q + 1, |pr|)
    ensures Ascending(bs)
  {
    hide Below;
    forall q, r | 0 <= q <= r < |bs|
      ensures bs[q] <= bs[r]
    {
      BelowMonotone(pr, q + 1, r + 1);
    }
    forall q, r | 0 <= q < r <= |bs|
      ensures bs[q] <= Start(bs, r)
    {
      assert Start(bs, r) == bs[r - 1];
    }
  }

  /** Once every listed piece sits in its slot, position `k` holds the piece whose slot is `k`. */
  lemma PlacedAt(ps: seq<int>, bs: seq<int>, pr: seq<int>, k: int)
    requires |bs| > 0 && forall q :: 0 <= q < |bs| ==> bs[q] == Below(pr, q + 1, |pr|)
    requires bs[|bs| - 1] == |ps| && 0 <= k < |ps|
    requires forall i :: 0 <= i < |pr| && pr[i] >= 0 ==> Slot(pr, i) < |ps| && ps[Slot(pr, i)] == i
    ensures 0 <= ps[k] < |pr| && pr[ps[k]] >= 0 && Slot(pr, ps[k]) == k && InBucket(bs, pr[ps[k]], k)
  {
    hide Below, Slot;
    var i := SlotSurjective(pr, |bs|, k);
    SlotInBucket(pr, i);
    BelowZero(pr, |pr|);
  }

  /** The placed pieces form a listing over the prefix-sum boundaries. */
  lemma PlacedIsListing(ps: seq<int>, bs: seq<int>, pr: seq<int>)
    requires |bs| > 0 && forall q :: 0 <= q < |bs| ==> bs[q] == Below(pr, q + 1, |pr|)
    requires bs[|bs| - 1] == |ps|
    requires forall i :: 0 <= i < |pr| && pr[i] >= 0 ==> Slot(pr, i) < |ps| && ps[Slot(pr, i)] == i
    ensures Listing(ps, bs, pr)
  {
    hide Below, Slot, Ascending, InBucket;
    PrefixSumsAscend(bs, pr);
    forall k | 0 <= k < |ps|
      ensures 0 <= ps[k] < |pr| && pr[ps[k]] >= 0 && Slot(pr, ps[k]) == k && InBucket(bs, pr[ps[k]], k)
    {
      PlacedAt(ps, bs, pr, k);
    }
    forall i | 0 <= i < |pr| && pr[i] >= 0
      ensures i in ps
    {
      assert ps[Slot(pr, i)] == i;
    }
    forall j, k | 0 <= j < k < |ps|
      ensures ps[j] != ps[k]
    {
      assert Slot(pr, ps[j]) == j && Slot(pr, ps[k]) == k;
    }
  }

  lemma SwapKeepsListing(ps: seq<int>, bs: seq<int>, pr: seq<int>, q: int, j: int, k: int)
    requires Listing(ps, bs, pr) && InBucket(bs, q, j) && InBucket(bs, q, k)
    ensures 0 <= j < |ps| && 0 <= k < |ps|
    ensures Listing(ps[j := ps[k]][k := ps[j]], bs, pr)
  {
    assert bs[q] <= bs[|bs| - 1];
    SameBucket(bs, q, pr[ps[j]], j);
    SameBucket(bs, q, pr[ps[k]], k);
    var ps' := ps[j := ps[k]][k := ps[j]];
    forall i | 0 <= i < |pr| && pr[i] >= 0
      ensures i in ps'
    {
      var m :| 0 <= m < |ps| && ps[m] == i;
      assert ps'[if m == j then k else if m == k then j else m] == i;
    }
  }

  lemma ListingFitsPieces(ps: seq<int>, bs: seq<int>, pr: seq<int>)
    requires Listing(ps, bs, pr)
    ensures |ps| <= |pr|
    ensures forall k :: 0 <= k < |ps| ==> pr[ps[k]] >= 0
  {
    RangeSize(ps, 0, |ps|);
    SubrangeSize(set k | 0 <= k < |ps| :: ps[k], |pr|);
  }

  /** Recording positions in a listing gives a clean index. */
  lemma ListingIsOk(ps: seq<int>, bs: seq<int>, ix: seq<int>, pr: seq<int>)
    requires Listing(ps, bs, pr) && |ix| == |pr|
    requires forall k :: 0 <= k < |ps| ==> ix[ps[k]] == k
    ensures Ok(ps, bs, ix, pr)
  {
    forall i | 0 <= i < |pr| && pr[i] >= 0
      ensures 0 <= ix[i] < |ps| && ps[ix[i]] == i
    {
      var k :| 0 <= k < |ps| && ps[k] == i;
    }
    forall k | 0 <= k < |ps|
      ensures Fits(ps, bs, ix, pr, k)
    {
    }
  }
}
