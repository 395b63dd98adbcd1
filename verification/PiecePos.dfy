/** The per-piece record of the picker and the priority derived from it. */
module PieceRecords {

  /** `index` doubles as the "we have this piece" flag, as in the 18-bit field of the source. */
  const WE_HAVE_INDEX := 0x3ffff
  const FILTER_PRIORITY := 0
  const PRIORITY_LEVELS := 8
  const PRIO_FACTOR := 4
  /** `peer_count` is a 10-bit field. */
  const PEER_COUNT_RANGE := 1024

  datatype PiecePos = PiecePos(peerCount: nat, downloading: bool, piecePriority: nat, index: int) {
    predicate Have() {
      index == WE_HAVE_INDEX
    }

    predicate Filtered() {
      piecePriority == FILTER_PRIORITY
    }

    /** Neither wanted nor missing: what the scan cursors skip. */
    predicate Settled() {
      Have() || Filtered()
    }

    /** The bucket of the piece, or -1 when it must not be listed. */
    function Priority(seeds: nat): (r: int)
      ensures Settled() || peerCount + seeds == 0 ==> r == -1
    {
      if Filtered() || Have() || peerCount + seeds == 0 then -1
      else if piecePriority == PRIORITY_LEVELS - 1 then (if downloading then 0 else 1)
      else
        var halved := piecePriority >= PRIORITY_LEVELS / 2;
        var availability := if halved then peerCount / 2 else peerCount;
        var priority := if halved then piecePriority - (PRIORITY_LEVELS - 2) / 2 else piecePriority;
        if downloading then availability * PRIO_FACTOR
        else availability * PRIO_FACTOR + PRIORITY_LEVELS / 2 - priority
    }
  }

  /** One peer less in the 10-bit field, which wraps below zero. */
  function OneLess(peerCount: nat): (r: nat)
    ensures peerCount < PEER_COUNT_RANGE ==> (r + 1) % PEER_COUNT_RANGE == peerCount
  {
    if peerCount == 0 then PEER_COUNT_RANGE - 1 else peerCount - 1
  }

  /** Field widths that `set_piece_priority` asserts. */
  ghost predicate LegalPriorities(pm: seq<PiecePos>) {
    forall i :: 0 <= i < |pm| ==> pm[i].piecePriority < PRIORITY_LEVELS
  }

  /** The download flag moves a piece between buckets but never in or out of the list. */
  lemma DownloadFlagKeepsListing(p: PiecePos, flag: bool, seeds: nat, seeds': nat)
    requires p.piecePriority < PRIORITY_LEVELS
    requires seeds == 0 <==> seeds' == 0
    ensures p.Priority(seeds) >= -1
    ensures p.(downloading := flag).Priority(seeds) == -1 <==> p.Priority(seeds) == -1
    ensures p.Priority(seeds) == p.Priority(seeds')
    ensures p.Priority(seeds) != -1 ==> (p.downloading <==> p.Priority(seeds) % PRIO_FACTOR == 0)
  {
  }

  /** The same record with other availability and user priority. */
  ghost function Varied(p: PiecePos, peerCount: nat, piecePriority: nat): PiecePos {
    p.(peerCount := peerCount, piecePriority := piecePriority)
  }

  /**
    The buckets as the header describes them: downloading or not, a piece goes to no earlier bucket with more
    peers, to a later one with two more, and user priority n + 3 at twice the availability, or one above that, is
    priority n.
   */
  lemma BucketsByAvailability(p: PiecePos, n: nat, m: nat, seeds: nat)
    requires !p.Have() && 1 <= p.piecePriority < PRIORITY_LEVELS && n <= m && (n > 0 || seeds > 0)
    ensures Varied(p, n, p.piecePriority).Priority(seeds) <= Varied(p, m, p.piecePriority).Priority(seeds)
    ensures p.piecePriority < PRIORITY_LEVELS - 1 && n + 2 <= m ==>
              Varied(p, n, p.piecePriority).Priority(seeds) < Varied(p, m, p.piecePriority).Priority(seeds)
    ensures p.piecePriority <= 3 && n < m ==>
              Varied(p, n, p.piecePriority).Priority(seeds) < Varied(p, m, p.piecePriority).Priority(seeds)
    ensures p.piecePriority <= 3 ==>
              var bucket := Varied(p, n, p.piecePriority).Priority(seeds);
              && Varied(p, 2 * n, p.piecePriority + 3).Priority(seeds) == bucket
              && Varied(p, 2 * n + 1, p.piecePriority + 3).Priority(seeds) == bucket
  {
  }

  /**
    At the same availability the higher of two user priorities goes to a later bucket exactly if none but seeds
    have the piece and the priorities are on either side of the halving, less than three apart. On one side of it the
    higher one goes to an earlier bucket, and priority 7 to the first bucket of all pieces not being downloaded.
   */
  lemma BucketsByUserPriority(p: PiecePos, q: PiecePos, a: nat, b: nat, seeds: nat)
    requires !p.Have() && !p.downloading && 1 <= a < b < PRIORITY_LEVELS && p.peerCount + seeds > 0
    requires !q.Have() && !q.downloading && 1 <= q.piecePriority < PRIORITY_LEVELS && q.peerCount + seeds > 0
    ensures var lower, higher := Varied(p, p.peerCount, a).Priority(seeds), Varied(p, p.peerCount, b).Priority(seeds);
            && (higher > lower <==> p.peerCount == 0 && a <= 3 < b <= 6 && b < a + 3)
            && (b <= 3 || (4 <= a && b <= 6) ==> higher < lower)
            && (b == 7 ==> higher <= q.Priority(seeds))
  {
  }

  function Indices(pm: seq<PiecePos>): (ix: seq<int>)
    ensures |ix| == |pm| && forall i :: 0 <= i < |pm| ==> ix[i] == pm[i].index
  {
    seq(|pm|, i requires 0 <= i < |pm| => pm[i].index)
  }

  function Priorities(pm: seq<PiecePos>, seeds: nat): (pr: seq<int>)
    ensures |pr| == |pm| && forall i :: 0 <= i < |pm| ==> pr[i] == pm[i].Priority(seeds)
  {
    seq(|pm|, i requires 0 <= i < |pm| => pm[i].Priority(seeds))
  }

  function SetIndex(pm: seq<PiecePos>, i: int, k: int): seq<PiecePos>
    requires 0 <= i < |pm|
  {
    pm[i := pm[i].(index := k)]
  }

  /** `pm'` differs from `pm` only in the positions of pieces we do not have. */
  ghost predicate Repositioned(pm: seq<PiecePos>, pm': seq<PiecePos>) {
    && |pm'| == |pm|
    && forall i :: 0 <= i < |pm| ==> pm'[i] == pm[i].(index := pm'[i].index) && (pm'[i].Have() <==> pm[i].Have())
  }

  lemma SetIndexKeepsPriorities(pm: seq<PiecePos>, i: int, k: int, seeds: nat)
    requires 0 <= i < |pm| && !pm[i].Have() && k != WE_HAVE_INDEX
    ensures Indices(SetIndex(pm, i, k)) == Indices(pm)[i := k]
    ensures Priorities(SetIndex(pm, i, k), seeds) == Priorities(pm, seeds)
    ensures Repositioned(pm, SetIndex(pm, i, k))
  {
  }

  lemma RepositionedReflexive(pm: seq<PiecePos>)
    ensures Repositioned(pm, pm)
  {
  }

  lemma RepositionedTransitive(a: seq<PiecePos>, b: seq<PiecePos>, c: seq<PiecePos>)
    requires Repositioned(a, b) && Repositioned(b, c)
    ensures Repositioned(a, c)
  {
    forall i | 0 <= i < |a|
      ensures c[i] == a[i].(index := c[i].index) && (c[i].Have() <==> a[i].Have())
    {
      assert b[i] == a[i].(index := b[i].index);
    }
  }

  lemma SameStanding(pm: seq<PiecePos>, x: int, p: PiecePos, seeds: nat)
    requires 0 <= x < |pm| && p.index == pm[x].index && p.Priority(seeds) == pm[x].Priority(seeds)
    ensures Indices(pm[x := p]) == Indices(pm) && Priorities(pm[x := p], seeds) == Priorities(pm, seeds)
  {
  }

  /** `pm'` differs from `pm` only in availability. */
  ghost predicate OnlyPeerCounts(pm: seq<PiecePos>, pm': seq<PiecePos>) {
    |pm'| == |pm| && forall i :: 0 <= i < |pm| ==> pm'[i] == pm[i].(peerCount := pm'[i].peerCount)
  }

  lemma SeedsMatterOnlyWhenZero(pm: seq<PiecePos>, seeds: nat, seeds': nat)
    requires seeds == 0 <==> seeds' == 0
    ensures Priorities(pm, seeds) == Priorities(pm, seeds')
  {
  }
}
