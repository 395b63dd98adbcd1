/** Taking whole runs of neighbouring pieces: how many blocks that yields, and when a piece is taken twice. */
module WholeRuns {
  import opened PickedBlocks

  /** The largest unbroken range of at most `whole` pickable pieces around `p`, grown downwards first. */
  ghost predicate Expands(t: Tables, bits: seq<bool>, p: int, whole: nat, start: int, end: int)
    requires 0 <= p < |t.pm| == |bits|
  {
    && 0 <= start <= p < end <= |t.pm|
    && end - start <= (if whole == 0 then 1 else whole)
    && (forall k :: start <= k < end && k != p ==> CanPick(t, bits, k))
    && (whole > 0 && start > 0 && p - start + 1 < whole ==> !CanPick(t, bits, start - 1))
    && (whole > 0 && end < |t.pm| && end - start < whole ==> !CanPick(t, bits, end))
  }

  ghost function Run(start: int, end: int): (r: set<int>)
    ensures forall k :: k in r <==> start <= k < end
    decreases end - start
  {
    if start >= end then {} else {start} + Run(start + 1, end)
  }

  lemma SingleRun(t: Tables, bits: seq<bool>, p: int, whole: nat, start: int, end: int)
    requires 0 <= p < |t.pm| == |bits| && CanPick(t, bits, p) && Expands(t, bits, p, whole, start, end) &&
             SingleRuns(t, bits, whole)
    ensures start == p && end == p + 1 && Run(start, end) == {p}
  {
    hide CanPick;
    if whole > 1 {
      assert !Neighbours(t, bits, p - 1) && !Neighbours(t, bits, p);
    }
  }

  /** A block of every piece of the run has been added. */
  ghost predicate Took(s0: Picked, s: Picked, start: int, end: int) {
    s0.interesting <= s.interesting && forall k :: start <= k < end ==>
        PieceBlock(k, 0) in s.interesting[|s0.interesting|..]
  }

  // ----- the number of blocks -----

  /** Not more than asked for, but for one run of whole pieces. */
  ghost predicate Within(t: Tables, r: Request, s: Picked) {
    |s.interesting| <= r.numBlocks + r.preferWhole * t.width
  }

  /** Blocks were still wanted when this many more were added. */
  lemma StaysWithin(t: Tables, r: Request, s0: Picked, s: Picked, pieces: int)
    requires |s0.interesting| <= r.numBlocks && |s.interesting| <= |s0.interesting| + pieces * t.width
    requires 0 <= pieces <= r.preferWhole
    ensures Within(t, r, s)
  {
    assert pieces * t.width <= r.preferWhole * t.width;
  }

  // ----- pieces taken twice, visiting every piece -----

  /** The first two pieces of an unbroken range. */
  ghost predicate Leftmost(t: Tables, bits: seq<bool>, a: int) {
    Neighbours(t, bits, a) && (a == 0 || !CanPick(t, bits, a - 1))
  }

  ghost function One(b: bool): nat {
    if b then 1 else 0
  }

  /** Visiting the first piece of a range and visiting the second both take the second. */
  ghost predicate Twice(t: Tables, r: Request, seen: set<int>, s: Picked) {
    r.preferWhole >= 2 ==>
      forall a :: Leftmost(t, r.bits, a) ==>
          multiset(s.interesting)[PieceBlock(a + 1, 0)] >= One(a in seen) + One(a + 1 in seen)
  }

  lemma CountsAdd(a: seq<PieceBlock>, b: seq<PieceBlock>, x: PieceBlock)
    requires a <= b
    ensures multiset(b)[x] == multiset(a)[x] + multiset(b[|a|..])[x]
  {
    assert b == a + b[|a|..];
  }

  lemma TwiceGrows(t: Tables, r: Request, seen: set<int>, s0: Picked, s: Picked)
    requires Twice(t, r, seen, s0) && s0.interesting <= s.interesting
    ensures Twice(t, r, seen, s)
  {
    hide Leftmost;
    forall a | Leftmost(t, r.bits, a)
      ensures multiset(s.interesting)[PieceBlock(a + 1, 0)] >= multiset(s0.interesting)[PieceBlock(a + 1, 0)]
    {
      CountsAdd(s0.interesting, s.interesting, PieceBlock(a + 1, 0));
    }
  }

  /** Visiting a piece that cannot be picked. */
  lemma TwiceWithout(t: Tables, r: Request, seen: set<int>, p: int, s: Picked)
    requires Twice(t, r, seen, s) && 0 <= p < |t.pm| == |r.bits| && !CanPick(t, r.bits, p)
    ensures Twice(t, r, seen + {p}, s)
  {
    hide CanPick;
  }

  lemma RunTakesSecond(t: Tables, bits: seq<bool>, a: int, p: int, whole: nat, start: int, end: int)
    requires Leftmost(t, bits, a) && (p == a || p == a + 1) && whole >= 2 && Expands(t, bits, p, whole, start, end)
    ensures start <= a + 1 < end
  {
    hide CanPick;
  }

  lemma TwiceAfterRun(t: Tables, r: Request, seen: set<int>, p: int, start: int, end: int, s0: Picked, s: Picked)
    requires Twice(t, r, seen, s0) && 0 <= p < |t.pm| == |r.bits| && Expands(t, r.bits, p, r.preferWhole, start, end)
    requires Took(s0, s, start, end)
    ensures Twice(t, r, seen + {p}, s)
  {
    hide Leftmost, Expands;
    if r.preferWhole >= 2 {
      forall a | Leftmost(t, r.bits, a)
        ensures multiset(s.interesting)[PieceBlock(a + 1, 0)] >= One(a in seen + {p}) + One(a + 1 in seen + {p})
      {
        CountsAdd(s0.interesting, s.interesting, PieceBlock(a + 1, 0));
        if p == a || p == a + 1 { RunTakesSecond(t, r.bits, a, p, r.preferWhole, start, end); }
      }
    }
  }

  /** Once both have been visited, the pick repeats a block. */
  lemma TwiceRepeats(t: Tables, r: Request, seen: set<int>, s: Picked, a: int)
    requires Twice(t, r, seen, s) && r.preferWhole >= 2 && Leftmost(t, r.bits, a) && a in seen && a + 1 in seen
    ensures !NoRepeats(s.interesting)
  {
    hide Leftmost;
    CountedTwice(s.interesting, PieceBlock(a + 1, 0));
  }

  lemma {:induction false} CountedTwice(s: seq<PieceBlock>, x: PieceBlock)
    requires multiset(s)[x] >= 2
    ensures !NoRepeats(s)
  {
    var front, last := s[..|s| - 1], s[|s| - 1];
    assert s == front + [last];
    if last == x {
      assert x in front;
      var i :| 0 <= i < |front| && front[i] == x;
      assert s[i] == s[|s| - 1];
    } else {
      CountedTwice(front, x);
      PrefixRepeats(front, s);
    }
  }

  lemma PrefixRepeats<T>(a: seq<T>, b: seq<T>)
    requires a <= b && !NoRepeats(a)
    ensures !NoRepeats(b)
  {
    var i, j :| 0 <= i < j < |a| && a[i] == a[j];
    assert b[i] == b[j];
  }

  // ----- pieces taken twice, walking from run to run -----

  /** More neighbouring pieces than one run takes, none of them suggested. */
  ghost predicate Stretch(t: Tables, r: Request, suggested: seq<int>, a: int) {
    && r.preferWhole >= 2 && 0 <= a && a + r.preferWhole < |t.pm| == |r.bits|
    && forall k :: a <= k <= a + r.preferWhole ==> CanPick(t, r.bits, k) && k !in suggested
  }

  ghost predicate Untaken(a: int, b: int, seen: set<int>) {
    forall k :: a <= k <= b ==> k !in seen
  }

  /** Every piece from `a` to `b` that has been seen is listed. */
  ghost predicate SeenListed(a: int, b: int, seen: set<int>, blocks: seq<PieceBlock>) {
    forall k :: a <= k <= b && k in seen ==> PieceBlock(k, 0) in blocks
  }

  /**
    Along the walk, for a stretch from `a` to `b`: a piece is listed twice already, or none of the stretch has been
    taken, or the walk stands inside it behind a piece it took, or it took the end of the stretch but not its beginning.
   */
  ghost predicate Pending(a: int, b: int, seen: set<int>, piece: int, startPiece: int, began: bool,
                          blocks: seq<PieceBlock>) {
    || !NoRepeats(blocks)
    || (&& SeenListed(a, b, seen, blocks)
        && (began && a < startPiece <= b ==> startPiece - 1 in seen)
        && (!began ==> Untaken(a, b, seen))
        && (Untaken(a, b, seen) || (a < piece <= b && piece - 1 in seen) || (a !in seen && b in seen)))
  }

  lemma TakenAgain(a: int, b: int, seen: set<int>, k: int, start: int, end: int, s0: Picked, s: Picked)
    requires SeenListed(a, b, seen, s0.interesting) && a <= k <= b && k in seen && start <= k < end &&
             Took(s0, s, start, end)
    ensures !NoRepeats(s.interesting)
  {
    var x, rest := PieceBlock(k, 0), s.interesting[|s0.interesting|..];
    var i :| 0 <= i < |s0.interesting| && s0.interesting[i] == x;
    var j :| 0 <= j < |rest| && rest[j] == x;
    assert s.interesting[i] == s.interesting[|s0.interesting| + j];
  }

  lemma MoreListed(a: int, b: int, seen: set<int>, start: int, end: int, s0: Picked, s: Picked)
    requires SeenListed(a, b, seen, s0.interesting) && Took(s0, s, start, end)
    ensures SeenListed(a, b, seen + Run(start, end), s.interesting)
  {
    forall k | a <= k <= b && k in seen + Run(start, end)
      ensures PieceBlock(k, 0) in s.interesting
    {
      var x, rest := PieceBlock(k, 0), s.interesting[|s0.interesting|..];
      if k in seen {
        var i :| 0 <= i < |s0.interesting| && s0.interesting[i] == x;
        assert s.interesting[i] == x;
      } else {
        var j :| 0 <= j < |rest| && rest[j] == x;
        assert s.interesting[|s0.interesting| + j] == x;
      }
    }
  }

  /** A run from inside the stretch reaches back. */
  lemma ReachesBack(t: Tables, r: Request, suggested: seq<int>, a: int, q: int, start: int, end: int)
    requires Stretch(t, r, suggested, a) && a < q <= a + r.preferWhole &&
             Expands(t, r.bits, q, r.preferWhole, start, end)
    ensures start <= q - 1 < end
  {
    hide CanPick;
    assert CanPick(t, r.bits, q - 1);
  }

  ghost function Next(t: Tables, end: int): int {
    if end == |t.pm| then 0 else end
  }

  /** One run of the walk, taken by candidate `q`, which the walk found from `piece`. */
  lemma RunStep(t: Tables, r: Request, suggested: seq<int>, a: int, seen: set<int>, piece: int, q: int, start: int,
                end: int, startPiece: int, began: bool, s0: Picked, s: Picked)
    requires Stretch(t, r, suggested, a) && 0 <= q < |t.pm| && Expands(t, r.bits, q, r.preferWhole, start, end)
    requires Took(s0, s, start, end) && Pending(a, a + r.preferWhole, seen, piece, startPiece, began, s0.interesting)
    requires a < piece <= a + r.preferWhole ==> q == piece
    requires !began && a <= startPiece <= a + r.preferWhole ==> q == startPiece
    ensures Pending(a, a + r.preferWhole, seen + Run(start, end), Next(t, end), startPiece, true, s.interesting)
    ensures Next(t, end) == startPiece && (forall k :: a <= k <= a + r.preferWhole ==> k in seen + Run(start, end)) ==>
              !NoRepeats(s.interesting)
  {
    hide NoRepeats, CanPick;
    var b, seen' := a + r.preferWhole, seen + Run(start, end);
    if !NoRepeats(s0.interesting) {
      PrefixRepeats(s0.interesting, s.interesting);
      return;
    }
    MoreListed(a, b, seen, start, end, s0, s);
    if k :| a <= k <= b && k in seen && start <= k < end {
      TakenAgain(a, b, seen, k, start, end, s0, s);
      return;
    }
    if a < q <= b { ReachesBack(t, r, suggested, a, q, start, end); }
    AfterRun(t, r, suggested, a, seen, piece, q, start, end, startPiece, began, s.interesting);
  }

  lemma AfterRun(t: Tables, r: Request, suggested: seq<int>, a: int, seen: set<int>, piece: int, q: int, start: int,
                 end: int, startPiece: int, began: bool, blocks: seq<PieceBlock>)
    requires Stretch(t, r, suggested, a) && 0 <= start <= q < end <= |t.pm| && end - start <= r.preferWhole
    requires var b := a + r.preferWhole;
             && (forall k :: a <= k <= b && start <= k < end ==> k !in seen)
             && (began && a < startPiece <= b ==> startPiece - 1 in seen) && (!began ==> Untaken(a, b, seen))
             && (Untaken(a, b, seen) || (a < piece <= b && piece - 1 in seen) || (a !in seen && b in seen))
             && (a < piece <= b ==> q == piece) && (!began && a <= startPiece <= b ==> q == startPiece)
             && (a < q <= b ==> start <= q - 1) && SeenListed(a, b, seen + Run(start, end), blocks)
    ensures Pending(a, a + r.preferWhole, seen + Run(start, end), Next(t, end), startPiece, true, blocks)
    ensures Next(t, end) == startPiece ==> exists k :: a <= k <= a + r.preferWhole && k !in seen + Run(start, end)
  {
    hide NoRepeats, SeenListed;
    var b, seen' := a + r.preferWhole, seen + Run(start, end);
    assert end - 1 in seen';
    if end <= a || start > b {
      assert forall k :: a <= k <= b ==> (k in seen' <==> k in seen);
    } else if end > b {
      assert b in seen' && a !in seen';
    }
    assert a !in seen' || b !in seen' || a < end <= b;
  }
}
