/** What the picker keeps count of: scan cursors, tallies of pieces and runs of missing pieces. */
module PieceSurvey {
  import opened PieceRecords

  ghost function Tally(flags: seq<bool>): nat {
    if flags == [] then 0 else Tally(flags[..|flags| - 1]) + (if flags[|flags| - 1] then 1 else 0)
  }

  lemma {:induction false} TallyUpdate(flags: seq<bool>, i: int, b: bool)
    requires 0 <= i < |flags|
    ensures Tally(flags[i := b]) == Tally(flags) + (if b then 1 else 0) - (if flags[i] then 1 else 0)
  {
    var n := |flags| - 1;
    if i == n {
      assert flags[i := b][..n] == flags[..n];
    } else {
      TallyUpdate(flags[..n], i, b);
      assert flags[i := b][..n] == flags[..n][i := b];
    }
  }

  ghost function HaveFlags(pm: seq<PiecePos>): (f: seq<bool>)
    ensures |f| == |pm| && forall i :: 0 <= i < |pm| ==> f[i] == pm[i].Have()
  {
    seq(|pm|, i requires 0 <= i < |pm| => pm[i].Have())
  }

  /** Filtered pieces, split by whether we have them. */
  ghost function FilteredFlags(pm: seq<PiecePos>, have: bool): (f: seq<bool>)
    ensures |f| == |pm| && forall i :: 0 <= i < |pm| ==> f[i] == (pm[i].Filtered() && pm[i].Have() == have)
  {
    seq(|pm|, i requires 0 <= i < |pm| => pm[i].Filtered() && pm[i].Have() == have)
  }

  /** The first pieces of the maximal runs of missing pieces. */
  ghost function RunStarts(have: seq<bool>): (f: seq<bool>)
    ensures |f| == |have| && forall i :: 0 <= i < |have| ==> f[i] == (!have[i] && (i == 0 || have[i - 1]))
  {
    seq(|have|, i requires 0 <= i < |have| => !have[i] && (i == 0 || have[i - 1]))
  }

  /** The number of maximal runs of missing pieces. */
  ghost function MissingRuns(pm: seq<PiecePos>): nat {
    Tally(RunStarts(HaveFlags(pm)))
  }

  /** The change of the number of runs when missing piece `i` arrives, as decided by its neighbours. */
  function RunChange(before: bool, after: bool): int {
    if before && after then -1 else if !before && !after then 1 else 0
  }

  /** Beyond either end counts as had: a run never extends there. */
  lemma ArrivalChangesRuns(have: seq<bool>, i: int)
    requires 0 <= i < |have| && !have[i]
    ensures Tally(RunStarts(have[i := true])) ==
            Tally(RunStarts(have)) + RunChange(i == 0 || have[i - 1], i == |have| - 1 || have[i + 1])
  {
    var f := RunStarts(have);
    TallyUpdate(f, i, false);
    if i < |have| - 1 {
      TallyUpdate(f[i := false], i + 1, !have[i + 1]);
      assert RunStarts(have[i := true]) == f[i := false][i + 1 := !have[i + 1]];
    } else {
      assert RunStarts(have[i := true]) == f[i := false];
    }
  }

  /** A fresh picker misses everything: one run, unless there are no pieces at all. */
  lemma {:induction false} NothingHadIsOneRun(have: seq<bool>)
    requires forall i :: 0 <= i < |have| ==> !have[i]
    ensures Tally(RunStarts(have)) == if |have| == 0 then 0 else 1
  {
    var n := |have|;
    if n > 0 {
      NothingHadIsOneRun(have[..n - 1]);
      assert RunStarts(have)[..n - 1] == RunStarts(have[..n - 1]);
    }
  }

  lemma {:induction false} TallyNone(flags: seq<bool>)
    requires forall i :: 0 <= i < |flags| ==> !flags[i]
    ensures Tally(flags) == 0
  {
    if flags != [] { TallyNone(flags[..|flags| - 1]); }
  }

  /** `c` is the first and `r - 1` the last piece that is neither had nor filtered; n and 0 when there is none. */
  ghost predicate CursorsOk(pm: seq<PiecePos>, c: int, r: int) {
    && 0 <= c <= |pm| && 0 <= r <= |pm|
    && (forall k :: 0 <= k < c ==> pm[k].Settled())
    && (forall k :: r <= k < |pm| ==> pm[k].Settled())
    && (c < |pm| ==> !pm[c].Settled())
    && (r > 0 ==> !pm[r - 1].Settled())
  }

  /** The pieces in [a, b) that a peer with `bits` could give us, in ascending order. */
  ghost function FreeIn(pm: seq<PiecePos>, bits: seq<bool>, a: int, b: int): seq<int>
    requires 0 <= a <= |pm| && 0 <= b <= |pm| == |bits|
    decreases b - a
  {
    if a >= b then []
    else FreeIn(pm, bits, a, b - 1) + (if bits[b - 1] && !pm[b - 1].Settled() then [b - 1] else [])
  }

  /** The scan between the cursors finds exactly what a scan over all pieces finds. */
  lemma CursorScanIsFullScan(pm: seq<PiecePos>, bits: seq<bool>, c: int, r: int)
    requires CursorsOk(pm, c, r) && |bits| == |pm|
    ensures FreeIn(pm, bits, c, r) == FreeIn(pm, bits, 0, |pm|)
    ensures r > c || (c == |pm| && r == 0)
  {
    if c < |pm| {
      assert c < r;
      SkipTail(pm, bits, 0, r, |pm|);
      SkipHead(pm, bits, c, r);
    } else {
      SkipTail(pm, bits, 0, 0, |pm|);
    }
  }

  lemma {:induction false} SkipTail(pm: seq<PiecePos>, bits: seq<bool>, a: int, r: int, b: int)
    requires 0 <= a <= r <= b <= |pm| == |bits| && forall k :: r <= k < b ==> pm[k].Settled()
    ensures FreeIn(pm, bits, a, b) == FreeIn(pm, bits, a, r)
    decreases b
  {
    if r < b { SkipTail(pm, bits, a, r, b - 1); }
  }

  lemma {:induction false} SkipHead(pm: seq<PiecePos>, bits: seq<bool>, c: int, b: int)
    requires 0 <= c <= b <= |pm| == |bits| && forall k :: 0 <= k < c ==> pm[k].Settled()
    ensures FreeIn(pm, bits, 0, b) == FreeIn(pm, bits, c, b)
    decreases b
  {
    if c < b {
      SkipHead(pm, bits, c, b - 1);
    } else {
      SkipTail(pm, bits, 0, 0, b);
    }
  }

  /** Moving pieces about in the buckets changes none of this. */
  lemma RepositionedKeepsSurvey(pm: seq<PiecePos>, pm': seq<PiecePos>, c: int, r: int)
    requires Repositioned(pm, pm')
    ensures HaveFlags(pm') == HaveFlags(pm)
    ensures FilteredFlags(pm', true) == FilteredFlags(pm, true) && FilteredFlags(pm', false) == FilteredFlags(pm, false)
    ensures CursorsOk(pm', c, r) <==> CursorsOk(pm, c, r)
    ensures LegalPriorities(pm') <==> LegalPriorities(pm)
  {
    assert forall i :: 0 <= i < |pm| ==> pm'[i].piecePriority == pm[i].piecePriority && pm'[i].Have() == pm[i].Have();
  }

  function Bit(b: bool): int {
    if b then 1 else 0
  }

  /** How the tallies change when the record of piece `x` becomes `p`. */
  lemma TalliesAfter(pm: seq<PiecePos>, x: int, p: PiecePos)
    requires 0 <= x < |pm|
    ensures var pm' := pm[x := p];
            && HaveFlags(pm') == HaveFlags(pm)[x := p.Have()]
            && Tally(HaveFlags(pm')) == Tally(HaveFlags(pm)) + Bit(p.Have()) - Bit(pm[x].Have())
            && Tally(FilteredFlags(pm', true)) ==
               Tally(FilteredFlags(pm, true)) + Bit(p.Filtered() && p.Have()) - Bit(pm[x].Filtered() && pm[x].Have())
            && Tally(FilteredFlags(pm', false)) ==
               Tally(FilteredFlags(pm, false)) + Bit(p.Filtered() && !p.Have()) - Bit(pm[x].Filtered() && !pm[x].Have())
  {
    var pm' := pm[x := p];
    assert HaveFlags(pm') == HaveFlags(pm)[x := p.Have()];
    assert FilteredFlags(pm', true) == FilteredFlags(pm, true)[x := p.Filtered() && p.Have()];
    assert FilteredFlags(pm', false) == FilteredFlags(pm, false)[x := p.Filtered() && !p.Have()];
    TallyUpdate(HaveFlags(pm), x, p.Have());
    TallyUpdate(FilteredFlags(pm, true), x, p.Filtered() && p.Have());
    TallyUpdate(FilteredFlags(pm, false), x, p.Filtered() && !p.Have());
  }
}
