/** The walk over the pieces from a random start: what it passes, and when it takes a piece twice. */
module RandomWalk {
  import opened PickedBlocks
  import opened WholeRuns

  /** A piece the walk stops at. */
  ghost predicate Candidate(t: Tables, r: Request, suggested: seq<int>, p: int) {
    0 <= p < |t.pm| == |r.bits| && CanPick(t, r.bits, p) && p !in suggested
  }

  /** The walk from `start` passes no candidate on its way from `p` to `q`. */
  ghost predicate NoneBetween(t: Tables, r: Request, suggested: seq<int>, start: int, p: int, q: int) {
    var n := |t.pm|;
    forall x :: 0 <= x < n && Ahead(start, p, n) <= Ahead(start, x, n) < Ahead(start, q, n) ==>
                  !Candidate(t, r, suggested, x)
  }

  /** Nor from `p` to the end of the circle. */
  ghost predicate NoneFrom(t: Tables, r: Request, suggested: seq<int>, start: int, p: int) {
    var n := |t.pm|;
    forall x :: 0 <= x < n && Ahead(start, p, n) <= Ahead(start, x, n) ==> !Candidate(t, r, suggested, x)
  }

  /** `q` is the first candidate from `p` on. */
  ghost predicate FoundFrom(t: Tables, r: Request, suggested: seq<int>, start: int, p: int, q: int) {
    && Candidate(t, r, suggested, q) && Ahead(start, p, |t.pm|) <= Ahead(start, q, |t.pm|)
    && NoneBetween(t, r, suggested, start, p, q) && (Candidate(t, r, suggested, p) ==> q == p)
  }

  lemma NotYetWalked(t: Tables, r: Request, suggested: seq<int>, start: int, p: int)
    ensures NoneBetween(t, r, suggested, start, p, p)
  {
  }

  /** One step on, past something that is no candidate. */
  lemma StepPast(t: Tables, r: Request, suggested: seq<int>, start: int, p: int, q: int)
    requires 0 <= start < |t.pm| && 0 <= q < |t.pm| && !Candidate(t, r, suggested, q)
    requires NoneBetween(t, r, suggested, start, p, q) && Ahead(start, p, |t.pm|) <= Ahead(start, q, |t.pm|)
    ensures var n, next := |t.pm|, Next(t, q + 1);
            if next == start then NoneFrom(t, r, suggested, start, p)
            else NoneBetween(t, r, suggested, start, p, next) && Ahead(start, next, n) == Ahead(start, q, n) + 1 < n
  {
    hide Candidate;
  }

  // ----- what has been passed -----

  /** The pickable pieces less than `a` ahead of the start have been dealt with. */
  ghost predicate PassedSeen(t: Tables, r: Request, seen: set<int>, start: int, a: int) {
    forall p :: 0 <= p < |t.pm| == |r.bits| && Ahead(start, p, |t.pm|) < a && CanPick(t, r.bits, p) ==> p in seen
  }

  lemma PassedMore(t: Tables, r: Request, suggested: seq<int>, seen: set<int>, start: int, p: int, a: int)
    requires PassedSeen(t, r, seen, start, Ahead(start, p, |t.pm|)) && HandledSeen(t, r, suggested, seen)
    requires forall x :: 0 <= x < |t.pm| && Ahead(start, p, |t.pm|) <= Ahead(start, x, |t.pm|) < a ==>
                           !Candidate(t, r, suggested, x)
    ensures PassedSeen(t, r, seen, start, a)
  {
    forall x | 0 <= x < |t.pm| == |r.bits| && Ahead(start, x, |t.pm|) < a && CanPick(t, r.bits, x)
      ensures x in seen
    {
      if Ahead(start, p, |t.pm|) <= Ahead(start, x, |t.pm|) {
        assert !Candidate(t, r, suggested, x);
        assert Wanted(t, r.bits, x) && Handled(t, r, suggested, x);
      }
    }
  }

  /** A run carries the walk on, perhaps past its start. */
  lemma PassedRun(t: Tables, r: Request, seen: set<int>, seen': set<int>, start: int, p: int, end: int, lapped: bool)
    requires PassedSeen(t, r, seen, start, if lapped then |t.pm| else Ahead(start, p, |t.pm|)) && seen <= seen'
    requires 0 <= start < |t.pm| && 0 <= p < end <= |t.pm| && forall k :: p <= k < end ==> k in seen'
    ensures PassedSeen(t, r, seen', start, Bound(t, start, Next(t, end), lapped || Overruns(t, start, p, end)))
  {
    hide CanPick;
  }

  /** A run from `p` to `end` reaches the start again or goes past it. */
  ghost predicate Overruns(t: Tables, start: int, p: int, end: int) {
    Ahead(start, Next(t, end), |t.pm|) <= Ahead(start, p, |t.pm|)
  }

  ghost function Bound(t: Tables, start: int, piece: int, lapped: bool): int {
    if lapped then |t.pm| else Ahead(start, piece, |t.pm|)
  }

  lemma AllPassed(t: Tables, r: Request, seen: set<int>, start: int)
    requires PassedSeen(t, r, seen, start, |t.pm|) && 0 <= start < |t.pm| == |r.bits|
    ensures AllSeen(t, r, seen)
  {
  }

  ghost predicate AllSeen(t: Tables, r: Request, seen: set<int>) {
    forall p :: 0 <= p < |t.pm| == |r.bits| && CanPick(t, r.bits, p) ==> p in seen
  }

  // ----- when a piece is taken twice -----

  /** The walk starts inside a range of pieces, not at its beginning. */
  ghost predicate Interior(t: Tables, r: Request, suggested: seq<int>, start: int) {
    r.preferWhole >= 2 && Candidate(t, r, suggested, start) && Candidate(t, r, suggested, start - 1)
  }

  /** Every range fits into one run, the walk starts inside none, and nothing was taken before it. */
  ghost predicate Neat(t: Tables, r: Request, suggested: seq<int>, start: int) {
    && |t.pm| == |r.bits| && r.preferWhole >= 2 && suggested == [] && !Interior(t, r, suggested, start)
    && forall a :: !Stretch(t, r, suggested, a)
  }

  /** Only pieces the walk has passed, or that were dealt with before it, have been seen. */
  ghost predicate Behind(t: Tables, r: Request, suggested: seq<int>, seen: set<int>, start: int, piece: int) {
    var n := |t.pm|;
    forall p :: p in seen ==> Handled(t, r, suggested, p) || (0 <= p < n && Ahead(start, p, n) < Ahead(start, piece, n))
  }

  /** Where the walk stands; `lapped` says that it has gone past its start. */
  datatype Place = Place(start: int, piece: int, began: bool, lapped: bool)

  /** The piece before an interior start is listed; once the walk is back there, it is listed twice. */
  ghost predicate Awaited(t: Tables, r: Request, suggested: seq<int>, w: Place, blocks: seq<PieceBlock>) {
    Interior(t, r, suggested, w.start) && w.began ==>
      !NoRepeats(blocks) || (!w.lapped && PieceBlock(w.start - 1, 0) in blocks)
  }

  /** What the walk keeps, for any stretch `a`. */
  ghost predicate WalkOk(t: Tables, r: Request, suggested: seq<int>, seen: set<int>, w: Place, a: int,
                         blocks: seq<PieceBlock>)
  {
    && |r.bits| == |t.pm| && 0 <= w.start < |t.pm| && 0 <= w.piece < |t.pm|
    && (!w.began ==> w.piece == w.start && !w.lapped)
    && PassedSeen(t, r, seen, w.start, Bound(t, w.start, w.piece, w.lapped))
    && (Stretch(t, r, suggested, a) ==> Pending(a, a + r.preferWhole, seen, w.piece, w.start, w.began, blocks))
    && Awaited(t, r, suggested, w, blocks)
    && (r.strict ==> Behind(t, r, suggested, seen, w.start, w.piece))
    && (Neat(t, r, suggested, w.start) && w.began ==> w.piece == 0 || !CanPick(t, r.bits, w.piece))
  }

  /** What it has achieved when it ends. */
  ghost predicate WalkDone(t: Tables, r: Request, suggested: seq<int>, seen: set<int>, start: int, a: int,
                           blocks: seq<PieceBlock>)
  {
    AllSeen(t, r, seen) && (Stretch(t, r, suggested, a) || Interior(t, r, suggested, start) ==> !NoRepeats(blocks))
  }

  lemma WalkStarts(t: Tables, r: Request, suggested: seq<int>, seen: set<int>, start: int, a: int,
                   blocks: seq<PieceBlock>)
    requires |r.bits| == |t.pm| && 0 <= start < |t.pm| && forall p :: p in seen ==> Handled(t, r, suggested, p)
    ensures WalkOk(t, r, suggested, seen, Place(start, start, false, false), a, blocks)
  {
    if Stretch(t, r, suggested, a) {
      forall k | a <= k <= a + r.preferWhole
        ensures k !in seen
      {
        assert CanPick(t, r.bits, k) && k !in suggested;
      }
    }
  }

  lemma StretchIsPickable(t: Tables, r: Request, suggested: seq<int>, a: int, p: int)
    requires Stretch(t, r, suggested, a) && a <= p <= a + r.preferWhole
    ensures Candidate(t, r, suggested, p)
  {
    hide CanPick;
  }

  lemma StretchSeen(t: Tables, r: Request, suggested: seq<int>, a: int, seen: set<int>)
    requires Stretch(t, r, suggested, a) && AllSeen(t, r, seen)
    ensures r.preferWhole >= 2 && forall k :: a <= k <= a + r.preferWhole ==> k in seen
  {
    hide CanPick;
    forall k | a <= k <= a + r.preferWhole
      ensures k in seen
    {
      StretchIsPickable(t, r, suggested, a, k);
    }
  }

  // ----- without taking a piece twice -----

  /** In a neat walk, a candidate is the first piece of its range. */
  lemma FirstOfRange(t: Tables, r: Request, suggested: seq<int>, seen: set<int>, w: Place, a: int, q: int,
                     blocks: seq<PieceBlock>)
    requires WalkOk(t, r, suggested, seen, w, a, blocks) && FoundFrom(t, r, suggested, w.start, w.piece, q)
    requires Neat(t, r, suggested, w.start) && q > 0
    ensures !CanPick(t, r.bits, q - 1)
  {
    hide CanPick, PassedSeen, Pending, NoRepeats, Stretch, Behind;
    assert suggested == [];
    if q == w.start {
      assert !Interior(t, r, suggested, w.start);
    } else {
      assert q != w.piece;
      assert !Candidate(t, r, suggested, q - 1);
    }
  }

  /** Its run ends where the range ends. */
  lemma EndOfRange(t: Tables, r: Request, suggested: seq<int>, start0: int, q: int, start: int, end: int)
    requires Neat(t, r, suggested, start0) && Candidate(t, r, suggested, q)
    requires Expands(t, r.bits, q, r.preferWhole, start, end)
    ensures end == |t.pm| || !CanPick(t, r.bits, end)
  {
    hide CanPick;
    assert end < |t.pm| && CanPick(t, r.bits, end) ==> Stretch(t, r, suggested, start);
  }

  /** A run that must not repeat a block starts at its candidate, does not cross the start and takes nothing seen. */
  lemma RunIsNew(t: Tables, r: Request, suggested: seq<int>, seen: set<int>, w: Place, a: int, q: int, start: int,
                 end: int, blocks: seq<PieceBlock>)
    requires WalkOk(t, r, suggested, seen, w, a, blocks) && FoundFrom(t, r, suggested, w.start, w.piece, q)
    requires Expands(t, r.bits, q, r.preferWhole, start, end) && r.strict
    requires SingleRuns(t, r.bits, r.preferWhole) || Neat(t, r, suggested, w.start)
    ensures start == q && !(q < w.start < end) && forall k :: start <= k < end ==> k !in seen
  {
    hide CanPick, PassedSeen, Pending, NoRepeats, Stretch, SingleRuns, Neat, Awaited;
    if SingleRuns(t, r.bits, r.preferWhole) {
      SingleRun(t, r.bits, q, r.preferWhole, start, end);
    } else {
      if q > 0 { FirstOfRange(t, r, suggested, seen, w, a, q, blocks); }
      NotAcross(t, r, suggested, w.start, q, start, end);
    }
    forall k | start <= k < end
      ensures k !in seen
    {
      NotHandled(t, r, suggested, w.start, q, k);
    }
  }

  lemma NotAcross(t: Tables, r: Request, suggested: seq<int>, start0: int, q: int, start: int, end: int)
    requires Neat(t, r, suggested, start0) && Candidate(t, r, suggested, q)
    requires Expands(t, r.bits, q, r.preferWhole, start, end)
    ensures !(q < start0 < end)
  {
    hide CanPick, Stretch;
    assert q < start0 < end ==> Candidate(t, r, suggested, start0) && Candidate(t, r, suggested, start0 - 1);
  }

  lemma NotHandled(t: Tables, r: Request, suggested: seq<int>, start0: int, q: int, k: int)
    requires Candidate(t, r, suggested, q) && 0 <= k < |t.pm| && CanPick(t, r.bits, k)
    requires k == q || Neat(t, r, suggested, start0)
    ensures !Handled(t, r, suggested, k)
  {
  }

  /** Behind the end of such a run everything seen has been passed. */
  lemma StaysBehind(t: Tables, r: Request, suggested: seq<int>, seen: set<int>, start: int, piece: int, q: int,
                    end: int)
    requires Behind(t, r, suggested, seen, start, piece) && Ahead(start, piece, |t.pm|) <= Ahead(start, q, |t.pm|)
    requires 0 <= start < |t.pm| && 0 <= q < end <= |t.pm| && !(q < start < end) && Next(t, end) != start
    ensures Behind(t, r, suggested, seen + Run(q, end), start, Next(t, end))
  {
  }

  // ----- taking a piece twice -----

  lemma InteriorStep(t: Tables, r: Request, suggested: seq<int>, seen: set<int>, w: Place, q: int, start: int, end: int,
                     s0: Picked, s: Picked)
    requires Awaited(t, r, suggested, w, s0.interesting) && FoundFrom(t, r, suggested, w.start, w.piece, q)
    requires (!w.began ==> w.piece == w.start && !w.lapped) && 0 <= w.start < |t.pm|
    requires Expands(t, r.bits, q, r.preferWhole, start, end) && Took(s0, s, start, end)
    ensures Awaited(t, r, suggested, Place(w.start, Next(t, end), true, w.lapped || Overruns(t, w.start, q, end)),
                    s.interesting)
  {
    hide CanPick, NoRepeats, NoneBetween;
    if Interior(t, r, suggested, w.start) {
      if !NoRepeats(s0.interesting) {
        PrefixRepeats(s0.interesting, s.interesting);
      } else if !w.began {
        Listed(s0, s, start, end, w.start - 1);
      } else if start <= w.start - 1 < end {
        TakenTwice(s0, s, start, end, w.start - 1);
      } else {
        StillListed(s0, s, PieceBlock(w.start - 1, 0));
      }
    }
  }

  lemma Listed(s0: Picked, s: Picked, start: int, end: int, k: int)
    requires Took(s0, s, start, end) && start <= k < end
    ensures PieceBlock(k, 0) in s.interesting
  {
    var x, rest := PieceBlock(k, 0), s.interesting[|s0.interesting|..];
    assert x in rest;
    var j :| 0 <= j < |rest| && rest[j] == x;
    assert s.interesting[|s0.interesting| + j] == x;
  }

  lemma StillListed(s0: Picked, s: Picked, x: PieceBlock)
    requires s0.interesting <= s.interesting && x in s0.interesting
    ensures x in s.interesting
  {
    var i :| 0 <= i < |s0.interesting| && s0.interesting[i] == x;
    assert s.interesting[i] == x;
  }

  lemma TakenTwice(s0: Picked, s: Picked, start: int, end: int, k: int)
    requires Took(s0, s, start, end) && start <= k < end && PieceBlock(k, 0) in s0.interesting
    ensures !NoRepeats(s.interesting)
  {
    TakenAgain(k, k, {k}, k, start, end, s0, s);
  }

  // ----- one step, and the end -----

  /** One run of the walk, around the candidate `q`. */
  lemma WalkStep(t: Tables, r: Request, suggested: seq<int>, seen: set<int>, w: Place, a: int, q: int, start: int,
                 end: int, s0: Picked, s: Picked)
    requires WalkOk(t, r, suggested, seen, w, a, s0.interesting) && FoundFrom(t, r, suggested, w.start, w.piece, q)
    requires HandledSeen(t, r, suggested, seen)
    requires Expands(t, r.bits, q, r.preferWhole, start, end) && Took(s0, s, start, end)
    requires r.strict ==> start == q && !(q < w.start < end)
    ensures var w' := Place(w.start, Next(t, end), true, w.lapped || Overruns(t, w.start, q, end));
            if Next(t, end) == w.start then WalkDone(t, r, suggested, seen + Run(start, end), w.start, a, s.interesting)
            else WalkOk(t, r, suggested, seen + Run(start, end), w', a, s.interesting)
  {
    hide CanPick, NoRepeats, Stretch, Pending, Interior, Neat, NoneBetween, Took, HandledSeen, Awaited, Behind,
         PassedSeen, Expands;
    var seen' := seen + Run(start, end);
    RunAround(t, r.bits, q, r.preferWhole, start, end);
    if !w.lapped { PassedToCandidate(t, r, suggested, seen, w.start, w.piece, q); }
    PassedRun(t, r, seen, seen', w.start, q, end, w.lapped);
    InteriorStep(t, r, suggested, seen, w, q, start, end, s0, s);
    if Stretch(t, r, suggested, a) {
      StretchAhead(t, r, suggested, a, w, q);
      RunStep(t, r, suggested, a, seen, w.piece, q, start, end, w.start, w.began, s0, s);
    }
    if Neat(t, r, suggested, w.start) { EndOfRange(t, r, suggested, w.start, q, start, end); }
    if Next(t, end) == w.start {
      AllPassed(t, r, seen', w.start);
      if Stretch(t, r, suggested, a) { StretchSeen(t, r, suggested, a, seen'); }
      AwaitedIs(t, r, suggested, Place(w.start, Next(t, end), true, true), s.interesting);
    } else if r.strict {
      StaysBehind(t, r, suggested, seen, w.start, w.piece, q, end);
    }
  }

  lemma AwaitedIs(t: Tables, r: Request, suggested: seq<int>, w: Place, blocks: seq<PieceBlock>)
    requires Awaited(t, r, suggested, w, blocks) && w.began && w.lapped
    ensures Interior(t, r, suggested, w.start) ==> !NoRepeats(blocks)
  {
    hide Interior, NoRepeats;
  }

  lemma RunAround(t: Tables, bits: seq<bool>, q: int, whole: nat, start: int, end: int)
    requires 0 <= q < |t.pm| == |bits| && Expands(t, bits, q, whole, start, end)
    ensures 0 <= start <= q < end <= |t.pm| && forall k :: q <= k < end ==> k in Run(start, end)
  {
  }

  lemma PassedToCandidate(t: Tables, r: Request, suggested: seq<int>, seen: set<int>, start: int, p: int, q: int)
    requires PassedSeen(t, r, seen, start, Ahead(start, p, |t.pm|)) && HandledSeen(t, r, suggested, seen)
    requires NoneBetween(t, r, suggested, start, p, q)
    ensures PassedSeen(t, r, seen, start, Ahead(start, q, |t.pm|))
  {
    hide CanPick, HandledSeen, PassedSeen, Candidate;
    PassedMore(t, r, suggested, seen, start, p, Ahead(start, q, |t.pm|));
  }

  lemma StretchAhead(t: Tables, r: Request, suggested: seq<int>, a: int, w: Place, q: int)
    requires Stretch(t, r, suggested, a) && FoundFrom(t, r, suggested, w.start, w.piece, q)
    requires !w.began ==> w.piece == w.start
    ensures (a < w.piece <= a + r.preferWhole ==> q == w.piece)
    ensures !w.began && a <= w.start <= a + r.preferWhole ==> q == w.start
  {
    hide Stretch, NoneBetween, CanPick;
    if a <= w.piece <= a + r.preferWhole { StretchIsPickable(t, r, suggested, a, w.piece); }
  }

  /** The walk finds nothing more. */
  lemma WalkEnds(t: Tables, r: Request, suggested: seq<int>, seen: set<int>, w: Place, a: int, blocks: seq<PieceBlock>)
    requires WalkOk(t, r, suggested, seen, w, a, blocks) && HandledSeen(t, r, suggested, seen)
    requires NoneFrom(t, r, suggested, w.start, w.piece)
    ensures WalkDone(t, r, suggested, seen, w.start, a, blocks)
  {
    hide CanPick, NoRepeats, Stretch, HandledSeen, PassedSeen, Behind, Pending;
    if !w.lapped { PassedMore(t, r, suggested, seen, w.start, w.piece, |t.pm|); }
    AllPassed(t, r, seen, w.start);
    assert !Candidate(t, r, suggested, w.piece);
    if Stretch(t, r, suggested, a) {
      StretchSeen(t, r, suggested, a, seen);
      StretchTaken(t, r, suggested, seen, w, a, blocks);
    }
    if Interior(t, r, suggested, w.start) {
      assert w.began;
      assert Ahead(w.start, w.start - 1, |t.pm|) == |t.pm| - 1;
    }
  }

  lemma StretchTaken(t: Tables, r: Request, suggested: seq<int>, seen: set<int>, w: Place, a: int,
                     blocks: seq<PieceBlock>)
    requires Stretch(t, r, suggested, a) && r.preferWhole >= 2 && !Candidate(t, r, suggested, w.piece)
    requires Pending(a, a + r.preferWhole, seen, w.piece, w.start, w.began, blocks)
    requires forall k :: a <= k <= a + r.preferWhole ==> k in seen
    ensures !NoRepeats(blocks)
  {
    hide NoRepeats, Stretch;
    if a < w.piece <= a + r.preferWhole { StretchIsPickable(t, r, suggested, a, w.piece); }
    assert a in seen;
  }
}
