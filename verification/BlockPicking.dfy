/** Choosing blocks to request from one peer, piece by piece. */
module BlockPicking {
  import opened PieceRecords
  import opened DownloadTable
  import opened PickedBlocks
  import opened WholeRuns
  import opened RandomWalk
  import opened Finite
  import B = Buckets

  method RequestedFrom(row: seq<BlockInfo>, n: nat, peer: nat) returns (exclusive: bool, exclusiveActive: bool)
    requires n <= |row|
    ensures exclusive <==> Exclusive(row, n, peer)
    ensures exclusiveActive <==> ExclusiveActive(row, n, peer)
  {
    exclusive, exclusiveActive := true, true;
    for j := 0 to n
      invariant exclusive <==> Exclusive(row, j, peer)
      invariant exclusiveActive && ExclusiveActive(row, j, peer)
    {
      var info := row[j];
      if info.state != NoState && info.peer != peer {
        exclusive := false;
        if info.state == Requested && info.peer != 0 {
          exclusiveActive := false;
          return;
        }
      }
    }
  }

  /** Moves up to the wanted number of backup blocks to the result and forgets the rest. */
  method AppendBlocks(dst: seq<PieceBlock>, src: seq<PieceBlock>, numBlocks: int)
    returns (dst': seq<PieceBlock>, numBlocks': int)
    requires numBlocks > 0
    ensures var n := if |src| < numBlocks then |src| else numBlocks;
            dst' == dst + src[..n] && numBlocks' == numBlocks - n
  {
    if src == [] { return dst, numBlocks; }
    var toCopy := if |src| < numBlocks then |src| else numBlocks;
    dst', numBlocks' := dst + src[..toCopy], numBlocks - toCopy;
  }

  lemma JoinPrefix(a: seq<PieceBlock>, b: seq<PieceBlock>, n: nat)
    requires n <= |b|
    ensures forall x :: x in a + b[..n] ==> x in a || x in b
    ensures NoRepeats(a) && NoRepeats(b) && (forall x :: x in a ==> x !in b) ==> NoRepeats(a + b[..n])
  {
    var c := a + b[..n];
    assert forall i :: |a| <= i < |c| ==> c[i] == b[i - |a|];
    forall i, j | 0 <= i < j < |c| && NoRepeats(a) && NoRepeats(b) && (forall x :: x in a ==> x !in b)
      ensures c[i] != c[j]
    {
      if i < |a| <= j {
        assert c[i] in a && c[j] in b;
      }
    }
  }

  lemma NoneRepeat()
    ensures NoRepeats<PieceBlock>([])
  {
  }

  /** Whatever comes in the groups of the backups has been looked at. */
  ghost predicate LookedAt(t: Tables, r: Request, seen: set<int>, s: Picked) {
    forall p, c ::
      (&& Reached(t, r, r.course.suggested, r.course.seeds, p) && (c in s.backup || c in s.backup2)
       && Group(t, r, p) <= Group(t, r, c.piece)) ==> p in seen
  }

  /** Backups of one kind put behind the first list when all better blocks are on it. */
  lemma BackupsArranged(t: Tables, r: Request, first: seq<PieceBlock>, list: seq<PieceBlock>, x: Target, n: nat)
    requires Arranged(t, r, first) && Queued(t, r, first, list, x) && n <= |list|
    requires forall b, c :: c in list && Precedes(t, r, b, c) && Better(t, r, b, c) ==> b in first
    ensures Arranged(t, r, first + list[..n])
  {
    hide Pickable, Reached, Sooner, Group, TargetOf;
    var all := first + list[..n];
    forall i, b | 0 <= i < |all| && Precedes(t, r, b, all[i])
      ensures b in all[..i]
    {
      if i < |first| {
        assert all[..i] == first[..i];
      } else {
        assert all[..i] == first + list[..i - |first|] && all[i] == list[i - |first|];
        if Better(t, r, b, all[i]) { assert b in first; } else { assert Leads(t, r, b, list[i - |first|]); }
      }
    }
  }

  lemma StillQueued(t: Tables, r: Request, first: seq<PieceBlock>, more: seq<PieceBlock>, list: seq<PieceBlock>,
                    x: Target)
    requires Queued(t, r, first, list, x) && forall b :: b in first ==> b in more
    ensures Queued(t, r, more, list, x)
  {
    hide Leads, TargetOf;
  }

  lemma NoneQueued(t: Tables, r: Request, first: seq<PieceBlock>, x: Target)
    ensures Queued(t, r, first, [], x)
  {
  }

  /** A better block that has been looked at is on the first list. */
  lemma BetterIsThere(t: Tables, r: Request, seen: set<int>, s: Picked, b: PieceBlock, c: PieceBlock)
    requires Thorough(t, r, seen, s) && LookedAt(t, r, seen, s) && s.numBlocks > 0
    requires (c in s.backup || c in s.backup2) && Precedes(t, r, b, c) && Better(t, r, b, c)
    requires TargetOf(t, r, c.piece) == Backup || (TargetOf(t, r, c.piece) == Backup2 && s.backup == [])
    ensures b in s.interesting
  {
    hide Pickable, Reached, Sooner, Group, TargetOf;
    assert Found(t, r, s, b);
  }

  /** The backups of the first kind, as many as there are and are wanted, put behind the first list. */
  lemma TakeBackups(t: Tables, r: Request, seen: set<int>, s: Picked, n: nat)
    requires Progress(t, r, seen, s) && Thorough(t, r, seen, s) && LookedAt(t, r, seen, s) && s.numBlocks > 0
    requires n == if |s.backup| < s.numBlocks then |s.backup| else s.numBlocks
    ensures var s' := Picked(s.interesting + s.backup[..n], [], s.backup2, s.numBlocks - n);
            && Progress(t, r, seen, s') && Thorough(t, r, seen, s') && LookedAt(t, r, seen, s')
            && |s'.interesting| <= r.numBlocks
  {
    hide Pickable, NoRepeats, Arranged, Queued, LookedAt, Found, Precedes, Better, TargetOf;
    var s' := Picked(s.interesting + s.backup[..n], [], s.backup2, s.numBlocks - n);
    JoinPrefix(s.interesting, s.backup, n);
    NoneRepeat();
    QueuedKind(t, r, s.interesting, s.backup, Backup);
    forall b, c | c in s.backup && Precedes(t, r, b, c) && Better(t, r, b, c)
      ensures b in s.interesting
    {
      BetterIsThere(t, r, seen, s, b, c);
    }
    BackupsArranged(t, r, s.interesting, s.backup, Backup, n);
    StillQueued(t, r, s.interesting, s'.interesting, s.backup2, Backup2);
    NoneQueued(t, r, s'.interesting, Backup);
    if n < s.numBlocks {
      assert s.backup[..n] == s.backup;
      forall b | Found(t, r, s, b)
        ensures Found(t, r, s', b)
      {
        FoundMoved(t, r, s, s', b);
      }
    }
    FewerLookedAt(t, r, seen, s, s');
  }

  lemma QueuedKind(t: Tables, r: Request, first: seq<PieceBlock>, list: seq<PieceBlock>, x: Target)
    requires Queued(t, r, first, list, x)
    ensures forall c :: c in list ==> TargetOf(t, r, c.piece) == x
  {
  }

  lemma FoundMoved(t: Tables, r: Request, s: Picked, s': Picked, b: PieceBlock)
    requires Found(t, r, s, b) && s'.numBlocks <= s.numBlocks
    requires (s'.interesting == s.interesting + s.backup && s'.backup == [] && s'.backup2 == s.backup2
              && |s.backup| < s.numBlocks)
          || (s'.interesting == s.interesting + s.backup2 && s'.backup == s.backup && s'.backup2 == []
              && |s.backup2| < s.numBlocks)
    ensures Found(t, r, s', b)
  {
    hide TargetOf;
  }

  lemma FewerLookedAt(t: Tables, r: Request, seen: set<int>, s: Picked, s': Picked)
    requires LookedAt(t, r, seen, s) && (s'.backup == [] || s'.backup == s.backup)
    requires s'.backup2 == [] || s'.backup2 == s.backup2
    ensures LookedAt(t, r, seen, s')
  {
    hide Reached, Group;
  }

  /** The same with those of the second kind, when there are no others left. */
  lemma TakeBackups2(t: Tables, r: Request, seen: set<int>, s: Picked, n: nat)
    requires Progress(t, r, seen, s) && Thorough(t, r, seen, s) && LookedAt(t, r, seen, s) && s.numBlocks > 0
    requires s.backup == [] && n == if |s.backup2| < s.numBlocks then |s.backup2| else s.numBlocks
    ensures var s' := Picked(s.interesting + s.backup2[..n], [], [], s.numBlocks - n);
            && Progress(t, r, seen, s') && Thorough(t, r, seen, s') && |s'.interesting| <= r.numBlocks
  {
    hide Pickable, NoRepeats, Arranged, Queued, LookedAt, Found, Precedes, Better, TargetOf;
    var s' := Picked(s.interesting + s.backup2[..n], [], [], s.numBlocks - n);
    JoinPrefix(s.interesting, s.backup2, n);
    NoneRepeat();
    QueuedKind(t, r, s.interesting, s.backup2, Backup2);
    forall b, c | c in s.backup2 && Precedes(t, r, b, c) && Better(t, r, b, c)
      ensures b in s.interesting
    {
      BetterIsThere(t, r, seen, s, b, c);
    }
    BackupsArranged(t, r, s.interesting, s.backup2, Backup2, n);
    NoneQueued(t, r, s'.interesting, Backup);
    NoneQueued(t, r, s'.interesting, Backup2);
    if n < s.numBlocks {
      assert s.backup2[..n] == s.backup2;
      forall b | Found(t, r, s, b)
        ensures Found(t, r, s', b)
      {
        FoundMoved(t, r, s, s', b);
      }
    }
  }

  /** Uses the backup blocks, first the better ones. */
  method UseBackups(t: Tables, r: Request, ghost seen: set<int>, s0: Picked) returns (s: Picked)
    requires Progress(t, r, seen, s0) && Thorough(t, r, seen, s0) && s0.numBlocks > 0 && LookedAt(t, r, seen, s0)
    ensures Progress(t, r, seen, s) && Thorough(t, r, seen, s)
    ensures s.numBlocks > 0 ==> s.backup == [] && s.backup2 == []
    ensures s0.interesting <= s.interesting && |s.interesting| <= r.numBlocks
  {
    hide Progress, Thorough, LookedAt;
    s := s0;
    var dst, left := AppendBlocks(s.interesting, s.backup, s.numBlocks);
    TakeBackups(t, r, seen, s, s.numBlocks - left);
    s := Picked(dst, [], s.backup2, left);
    if left <= 0 { return; }
    dst, left := AppendBlocks(s.interesting, s.backup2, s.numBlocks);
    TakeBackups2(t, r, seen, s, s.numBlocks - left);
    s := Picked(dst, [], [], left);
  }

  // ----- picking from one piece -----

  /** Where a free block of a downloading piece goes. */
  function TargetFor(d: Download, r: Request, exclusiveActive: bool): Target {
    if d.state != NoSpeed && d.state != r.speed && !exclusiveActive && r.options.speedAffinity then
      (if Rank(d.state) - Rank(r.speed) == 1 || Rank(r.speed) - Rank(d.state) == 1 then Backup else Backup2)
    else Interesting
  }

  function Rank(s: Speed): int {
    match s case NoSpeed => 0 case Slow => 1 case Medium => 2 case Fast => 3
  }

  /** Piece `p` has contributed nothing at or beyond block `j`. */
  ghost predicate UntouchedFrom(s: Picked, p: int, j: int) {
    forall b :: s.Lists(b) && b.piece == p ==> b.block < j
  }

  /** All free blocks of a partially downloaded piece, as backups of the second kind. */
  method AddAsBackups(t: Tables, r: Request, ghost seen: set<int>, i: int, s0: Picked) returns (s: Picked)
    requires t.Ok() && r.Ok(t) && 0 <= i < |t.ds| && 0 <= t.ds[i].index < |t.pm| && r.bits[t.ds[i].index]
    requires t.pm[t.ds[i].index].Filtered() ==> r.options.prioritizePartials
    requires r.options.onParole ==> Exclusive(t.Row(t.ds[i].index), t.Size(t.ds[i].index), r.peer)
    requires Progress(t, r, seen + {t.ds[i].index}, s0) && Thorough(t, r, seen, s0) && r.preferWhole > 0
    requires (r.strict ==> UntouchedFrom(s0, t.ds[i].index, 0)) && Timely(t, r, seen, s0, t.ds[i].index)
    requires TargetOf(t, r, t.ds[i].index) == Backup2
    ensures Progress(t, r, seen + {t.ds[i].index}, s) && Thorough(t, r, seen + {t.ds[i].index}, s)
    ensures s.interesting == s0.interesting
  {
    hide Find, Pickable, NoRepeats, Thorough, Exclusive, InTurn, Timely, Due, TargetOf, OnList, Found;
    EntryFacts(t, i);
    var p := t.ds[i].index;
    var row := t.rows[t.ds[i].slot];
    s := s0;
    for j := 0 to t.Size(p)
      invariant Progress(t, r, seen + {p}, s) && Thorough(t, r, seen, s) && FreeListed(t, r, s, p, j)
      invariant s.interesting == s0.interesting && (r.strict ==> UntouchedFrom(s, p, j))
    {
      if row[j].state == NoState {
        FreeBlock(t, r, i, j);
        TimelyGrows(t, r, seen, s0, s, p);
        FreeIsDue(t, r, seen, s, p, j);
        PushKeepsProgress(t, r, seen + {p}, s, PieceBlock(p, j), Backup2);
        PushKeepsThorough(t, r, seen, s, PieceBlock(p, j), Backup2);
        s := Push(s, PieceBlock(p, j), Backup2);
      }
    }
    PieceDone(t, r, seen, p, s);
  }

  /** Picks free blocks of a partially downloaded piece. */
  method AddBlocksDownloading(t: Tables, r: Request, ghost seen: set<int>, i: int, s0: Picked) returns (s: Picked)
    requires t.Ok() && r.Ok(t) && 0 <= i < |t.ds| && Progress(t, r, seen, s0) && Thorough(t, r, seen, s0) &&
             s0.numBlocks > 0
    requires 0 <= t.ds[i].index < |t.pm| && (t.pm[t.ds[i].index].Filtered() ==> r.options.prioritizePartials)
    requires (r.strict ==> t.ds[i].index !in seen) && Timely(t, r, seen, s0, t.ds[i].index)
    ensures Progress(t, r, seen + {t.ds[i].index}, s) && Thorough(t, r, seen + {t.ds[i].index}, s)
    ensures s0.interesting <= s.interesting && |s.interesting| <= |s0.interesting| + t.width
  {
    hide Find, Pickable, NoRepeats, Thorough, InTurn, Timely, Due, TargetOf, OnList, Found;
    EntryFacts(t, i);
    var d, p := t.ds[i], t.ds[i].index;
    SeeingMore(t, r, seen, p, s0);
    s := s0;
    NothingToPick(t, r, seen, i, s);
    if !r.bits[p] { return; }
    var row, n := t.rows[d.slot], t.Size(p);
    var exclusive, exclusiveActive := RequestedFrom(row, n, r.peer);
    if r.options.onParole && !exclusive { return; }
    TargetIs(t, r, i, exclusiveActive);
    if r.preferWhole > 0 && !exclusiveActive {
      if |s.backup2| >= s.numBlocks {
        EnoughFound(t, r, seen, p, s);
        return;
      }
      s := AddAsBackups(t, r, seen, i, s);
      return;
    }
    var target := TargetFor(d, r, exclusiveActive);
    for j := 0 to n
      invariant Progress(t, r, seen + {p}, s)
      invariant (r.preferWhole == 0 ==> s.numBlocks > 0) && (r.strict ==> UntouchedFrom(s, p, j))
      invariant Thorough(t, r, seen, s) && FreeListed(t, r, s, p, j)
      invariant s0.interesting <= s.interesting && |s.interesting| <= |s0.interesting| + j
    {
      if row[j].state == NoState {
        EnoughFound(t, r, seen, p, s);
        if target == Backup && |s.backup| >= s.numBlocks { return; }
        if target == Backup2 && |s.backup2| >= s.numBlocks { return; }
        FreeBlock(t, r, i, j);
        TimelyGrows(t, r, seen, s0, s, p);
        FreeIsDue(t, r, seen, s, p, j);
        PushKeepsProgress(t, r, seen + {p}, s, PieceBlock(p, j), target);
        PushKeepsThorough(t, r, seen, s, PieceBlock(p, j), target);
        s := Push(s, PieceBlock(p, j), target);
        EnoughFound(t, r, seen, p, s);
        if target == Interesting && r.preferWhole == 0 && s.numBlocks <= 0 { return; }
      }
    }
    PieceDone(t, r, seen, p, s);
    if s.numBlocks <= 0 {
      ThoroughAtZero(t, r, seen + {p}, s);
      InTurnAtZero(t, r, s);
      s := s.(numBlocks := 0);
    }
  }

  /** The target of a block is that of its piece. */
  lemma TargetIs(t: Tables, r: Request, i: int, exclusiveActive: bool)
    requires t.Ok() && 0 <= i < |t.ds|
    requires var p := t.ds[i].index;
             0 <= t.ds[i].slot < |t.rows| && t.Size(p) <= |t.rows[t.ds[i].slot]| &&
             (exclusiveActive <==> ExclusiveActive(t.rows[t.ds[i].slot], t.Size(p), r.peer))
    ensures TargetOf(t, r, t.ds[i].index) ==
            if r.preferWhole > 0 && !exclusiveActive then Backup2 else TargetFor(t.ds[i], r, exclusiveActive)
  {
    EntryFacts(t, i);
    FindUnique(t.ds, i);
  }

  lemma FreeIsDue(t: Tables, r: Request, seen: set<int>, s: Picked, p: int, j: int)
    requires Thorough(t, r, seen, s) && Timely(t, r, seen, s, p)
    requires r.preferWhole == 0 ==> s.numBlocks > 0 && !Enough(s, TargetOf(t, r, p))
    requires 0 <= p < |t.pm| && t.pm[p].downloading && FreeListed(t, r, s, p, j)
    ensures Due(t, r, s, PieceBlock(p, j))
  {
    hide Thorough, Timely, Due, Exclusive, TargetOf, OnList, Enough;
    NextIsDue(t, r, seen, s, p, j);
  }

  /** The free blocks of a piece that is being downloaded are on its list, up to block `j`. */
  ghost predicate FreeListed(t: Tables, r: Request, s: Picked, p: int, j: int) {
    forall k :: 0 <= k < j && k < |t.Row(p)| && t.Row(p)[k].state == NoState ==>
                  OnList(s, TargetOf(t, r, p), PieceBlock(p, k))
  }

  lemma PieceDone(t: Tables, r: Request, seen: set<int>, p: int, s: Picked)
    requires Thorough(t, r, seen, s) && 0 <= p < |t.pm| && t.pm[p].downloading && FreeListed(t, r, s, p, t.Size(p))
    ensures Thorough(t, r, seen + {p}, s)
  {
    hide Exclusive, TargetOf, OnList, Enough;
    forall b | Pickable(t, r, b) && b.piece == p
      ensures Found(t, r, s, b)
    {
      assert b == PieceBlock(p, b.block);
    }
  }

  /** A piece of which the peer has nothing to offer. */
  lemma NothingToPick(t: Tables, r: Request, seen: set<int>, i: int, s: Picked)
    requires t.Ok() && r.Ok(t) && 0 <= i < |t.ds| && Thorough(t, r, seen, s)
    ensures var p := t.ds[i].index;
            && 0 <= p < |t.pm| && |r.bits| == |t.pm|
            && (!r.bits[p] || (r.options.onParole && !Exclusive(t.rows[t.ds[i].slot], t.Size(p), r.peer)) ==>
                Thorough(t, r, seen + {p}, s))
  {
    hide Find, Exclusive;
    EntryFacts(t, i);
  }

  lemma EnoughFound(t: Tables, r: Request, seen: set<int>, p: int, s: Picked)
    requires Thorough(t, r, seen, s)
    ensures s.numBlocks <= 0 || Enough(s, TargetOf(t, r, p)) ==> Thorough(t, r, seen + {p}, s)
  {
    hide Pickable, TargetOf, OnList, Enough;
  }

  lemma ThoroughAtZero(t: Tables, r: Request, seen: set<int>, s: Picked)
    requires Thorough(t, r, seen, s) && s.numBlocks <= 0
    ensures Thorough(t, r, seen, s.(numBlocks := 0))
  {
  }

  lemma InTurnAtZero(t: Tables, r: Request, s: Picked)
    requires InTurn(t, r, s)
    ensures InTurn(t, r, s.(numBlocks := 0))
  {
  }

  lemma SeeingMore(t: Tables, r: Request, seen: set<int>, p: int, s: Picked)
    requires Progress(t, r, seen, s)
    ensures Progress(t, r, seen + {p}, s)
    ensures r.strict && p !in seen ==> UntouchedFrom(s, p, 0)
  {
    hide Pickable, NoRepeats, InTurn;
  }

  lemma EntryFacts(t: Tables, i: int)
    requires t.Ok() && 0 <= i < |t.ds|
    ensures var p := t.ds[i].index;
            && 0 <= p < |t.pm| && !t.pm[p].Have() && t.pm[p].downloading && 0 <= t.ds[i].slot < |t.rows|
            && t.Row(p) == t.rows[t.ds[i].slot] && t.Size(p) <= |t.Row(p)| && t.Size(p) <= t.width
  {
    FindUnique(t.ds, i);
    hide Find;
    FlaggedEntry(t.pm, t.ds, t.rows, t.width, t.last, t.ds[i].index);
  }

  lemma FreeBlock(t: Tables, r: Request, i: int, j: int)
    requires t.Ok() && r.Ok(t) && 0 <= i < |t.ds|
    requires 0 <= t.ds[i].index < |t.pm| && r.bits[t.ds[i].index] && 0 <= j < t.Size(t.ds[i].index)
    requires t.pm[t.ds[i].index].Filtered() ==> r.options.prioritizePartials
    requires j < |t.Row(t.ds[i].index)| && t.Row(t.ds[i].index)[j].state == NoState
    requires r.options.onParole ==> Exclusive(t.Row(t.ds[i].index), t.Size(t.ds[i].index), r.peer)
    ensures Pickable(t, r, PieceBlock(t.ds[i].index, j))
  {
    hide Find;
    EntryFacts(t, i);
  }

  method ExpandPiece(t: Tables, bits: seq<bool>, p: int, whole: nat) returns (start: int, end: int)
    requires 0 <= p < |t.pm| == |bits|
    ensures Expands(t, bits, p, whole, start, end)
  {
    if whole == 0 { return p, p + 1; }
    start := p - 1;
    var lowerLimit := if p - whole < -1 then -1 else p - whole;
    while start > lowerLimit && CanPick(t, bits, start)
      invariant lowerLimit <= start <= p - 1
      invariant forall k :: start < k < p ==> CanPick(t, bits, k)
    {
      start := start - 1;
    }
    start := start + 1;
    end := p + 1;
    var upperLimit := if start + whole > |t.pm| then |t.pm| else start + whole;
    while end < upperLimit && CanPick(t, bits, end)
      invariant p + 1 <= end <= upperLimit
      invariant forall k :: p < k < end ==> CanPick(t, bits, k)
    {
      end := end + 1;
    }
  }

  lemma FreshBlock(t: Tables, r: Request, p: int, j: int)
    requires r.Ok(t) && 0 <= p < |t.pm| && CanPick(t, r.bits, p) && 0 <= j < t.Size(p)
    ensures Pickable(t, r, PieceBlock(p, j))
  {
  }

  /** Picks the first blocks of a piece nobody has started. */
  method AddBlocksFresh(t: Tables, r: Request, ghost seen: set<int>, p: int, limit: nat, s0: Picked) returns (s: Picked)
    requires r.Ok(t) && 0 <= p < |t.pm| && CanPick(t, r.bits, p)
    requires Progress(t, r, seen, s0) && Thorough(t, r, seen, s0)
    requires limit <= t.Size(p) && (limit == t.Size(p) || limit == s0.numBlocks)
    requires (r.strict ==> p !in seen) && (r.preferWhole == 0 ==> limit <= s0.numBlocks)
    requires Timely(t, r, seen, s0, p)
    ensures Progress(t, r, seen + {p}, s) && Thorough(t, r, seen + {p}, s)
    ensures s.numBlocks == s0.numBlocks - limit && |s.interesting| == |s0.interesting| + limit
    ensures s0.interesting <= s.interesting && (limit > 0 ==> Took(s0, s, p, p + 1))
  {
    hide Pickable, NoRepeats, Thorough, InTurn, Timely, Due, TargetOf;
    s := s0;
    SeeingMore(t, r, seen, p, s);
    FreshTarget(t, r, p);
    for j := 0 to limit
      invariant Progress(t, r, seen + {p}, s) && s.numBlocks == s0.numBlocks - j &&
                |s.interesting| == |s0.interesting| + j
      invariant r.strict ==> UntouchedFrom(s, p, j)
      invariant Thorough(t, r, seen, s) && forall k :: 0 <= k < j ==> PieceBlock(p, k) in s.interesting
      invariant s0.interesting <= s.interesting && (j > 0 ==> s.interesting[|s0.interesting|] == PieceBlock(p, 0))
    {
      FreshBlock(t, r, p, j);
      TimelyGrows(t, r, seen, s0, s, p);
      NextIsDue(t, r, seen, s, p, j);
      PushKeepsProgress(t, r, seen + {p}, s, PieceBlock(p, j), Interesting);
      PushKeepsThorough(t, r, seen, s, PieceBlock(p, j), Interesting);
      s := Push(s, PieceBlock(p, j), Interesting);
    }
    FreshDone(t, r, seen, p, limit, s);
    if limit > 0 { assert s.interesting[|s0.interesting|..][0] == PieceBlock(p, 0); }
  }

  lemma FreshTarget(t: Tables, r: Request, p: int)
    requires 0 <= p < |t.pm| && !t.pm[p].downloading
    ensures TargetOf(t, r, p) == Interesting && Group(t, r, p) == 1
  {
  }

  lemma FreshDone(t: Tables, r: Request, seen: set<int>, p: int, limit: nat, s: Picked)
    requires Thorough(t, r, seen, s) && (forall k :: 0 <= k < limit ==> PieceBlock(p, k) in s.interesting)
    requires limit >= t.Size(p) || s.numBlocks <= 0
    ensures Thorough(t, r, seen + {p}, s)
  {
    hide TargetOf;
    forall b | Pickable(t, r, b) && b.piece == p && limit >= t.Size(p)
      ensures b in s.interesting
    {
      assert b == PieceBlock(p, b.block);
    }
  }

  lemma TookMore(s0: Picked, s1: Picked, s: Picked, start: int, k: int)
    requires Took(s0, s1, start, k) && Took(s1, s, k, k + 1)
    ensures Took(s0, s, start, k + 1)
  {
    var a, b := s1.interesting[|s0.interesting|..], s.interesting[|s1.interesting|..];
    assert s.interesting[|s0.interesting|..] == a + b;
  }

  /** With `preferWhole`: picks all blocks of a range of unstarted pieces. */
  method AddWholePieces(t: Tables, r: Request, ghost seen: set<int>, start: int, end: int, s0: Picked)
    returns (s: Picked)
    requires t.Ok() && r.Ok(t) && 0 <= start <= end <= |t.pm| && r.preferWhole > 0
    requires forall k :: start <= k < end ==> CanPick(t, r.bits, k) && (r.strict ==> k !in seen)
    requires Progress(t, r, seen, s0) && Thorough(t, r, seen, s0) && Begun(t, r, s0)
    ensures Progress(t, r, seen + Run(start, end), s) && Thorough(t, r, seen + Run(start, end), s)
    ensures s.numBlocks <= s0.numBlocks - (end - start) && |s.interesting| <= |s0.interesting| + (end - start) * t.width
    ensures Took(s0, s, start, end)
  {
    hide Progress, Thorough, Find, Allocated, Counted, Took, CanPick, Timely, Begun;
    s := s0;
    assert Took(s0, s, start, start) by { NothingTaken(s0, start); }
    assert seen + Run(start, start) == seen;
    for k := start to end
      invariant Progress(t, r, seen + Run(start, k), s) && Thorough(t, r, seen + Run(start, k), s)
      invariant s.numBlocks <= s0.numBlocks - (k - start) && |s.interesting| <= |s0.interesting| + (k - start) * t.width
      invariant Took(s0, s, start, k)
    {
      ghost var s1 := s;
      WholeTimely(t, r, seen + Run(start, k), s0, s, start, k);
      s := AddBlocksFresh(t, r, seen + Run(start, k), k, t.Size(k), s);
      TookMore(s0, s1, s, start, k);
      assert seen + Run(start, k) + {k} == seen + Run(start, k + 1);
      OneMorePiece(k - start, t.width);
    }
  }

  /** When whole pieces are preferred, only partial pieces that come first have to be there. */
  lemma WholeTimely(t: Tables, r: Request, seen: set<int>, s0: Picked, s: Picked, start: int, p: int)
    requires r.preferWhole > 0 && Begun(t, r, s0) && Took(s0, s, start, p)
    ensures Timely(t, r, seen, s, p)
  {
    hide Begun;
    BegunGrows(t, r, s0, s);
  }

  lemma NothingTaken(s: Picked, start: int)
    ensures Took(s, s, start, start)
  {
  }

  lemma OneMorePiece(n: int, width: nat)
    ensures (n + 1) * width == n * width + width
  {
  }

  /** The number of blocks, and the pieces taken twice, as far as the pieces in `seen` were visited. */
  ghost predicate Tallied(t: Tables, r: Request, seen: set<int>, s: Picked) {
    Within(t, r, s) && Twice(t, r, seen, s)
  }

  /** What every step of the walk keeps. */
  ghost predicate Sound(t: Tables, r: Request, seen: set<int>, s: Picked) {
    Progress(t, r, seen, s) && Thorough(t, r, seen, s) && Tallied(t, r, seen, s)
  }

  /** Picks blocks of one piece; a piece seen before must be one that is passed over. */
  method AddBlocks(t: Tables, r: Request, ghost seen: set<int>, p: int, ignore: seq<int>, s0: Picked)
    returns (s: Picked)
    requires t.Ok() && r.Ok(t) && Orderly(t, r) && 0 <= p < |t.pm| && IsPieceFree(t, r.bits, p)
    requires Sound(t, r, seen, s0) && s0.numBlocks > 0
    requires r.strict && p in seen ==> Handled(t, r, ignore, p)
    requires Handled(t, r, ignore, p) ==> p in seen
    requires (!Handled(t, r, ignore, p) ==> SoonerSeen(t, r, seen, p)) && Begun(t, r, s0)
    ensures Sound(t, r, seen + {p}, s) && Begun(t, r, s)
  {
    hide Find, Progress, Thorough, Within, Twice, Took, Expands, SingleRuns, SoonerSeen, Begun;
    s := s0;
    assert p in seen ==> seen + {p} == seen;
    if p in ignore { return; }
    NotFull(t, r, seen, s);
    if t.pm[p].downloading {
      if r.options.prioritizePartials { return; }
      FlaggedEntry(t.pm, t.ds, t.rows, t.width, t.last, p);
      s := AddBlocksDownloading(t, r, seen, t.Entry(p), s);
      PartialTallied(t, r, seen, p, s0, s);
      BegunGrows(t, r, s0, s);
    } else if r.preferWhole == 0 {
      var n := if t.Size(p) > s.numBlocks then s.numBlocks else t.Size(p);
      s := AddBlocksFresh(t, r, seen, p, n, s);
      FreshTallied(t, r, seen + {p}, s);
      BegunGrows(t, r, s0, s);
    } else {
      s := AddRun(t, r, seen, p, s);
    }
  }

  /** With `preferWhole`: the run around an unstarted piece. */
  method AddRun(t: Tables, r: Request, ghost seen: set<int>, p: int, s0: Picked) returns (s: Picked)
    requires t.Ok() && r.Ok(t) && Orderly(t, r) && 0 <= p < |t.pm| && CanPick(t, r.bits, p) && r.preferWhole > 0
    requires r.strict ==> p !in seen
    requires Progress(t, r, seen, s0) && Thorough(t, r, seen, s0) && Twice(t, r, seen, s0) &&
             |s0.interesting| <= r.numBlocks && Begun(t, r, s0)
    ensures Progress(t, r, seen + {p}, s) && Thorough(t, r, seen + {p}, s) && Tallied(t, r, seen + {p}, s)
    ensures Begun(t, r, s)
  {
    hide Find, Progress, Thorough, Within, Twice, Took, SingleRuns, CanPick, Begun;
    var start, end := ExpandPiece(t, r.bits, p, r.preferWhole);
    if r.strict { SingleRun(t, r.bits, p, r.preferWhole, start, end); }
    s := AddWholePieces(t, r, seen, start, end, s0);
    TwiceAfterRun(t, r, seen, p, start, end, s0, s);
    StaysWithin(t, r, s0, s, end - start);
    RunBegun(t, r, s0, s, start, end);
    VisitedOne(t, r, seen, p, start, end, s);
    if s.numBlocks <= 0 {
      ghost var s1 := s;
      ForgetCount(t, r, seen + {p}, s);
      ThoroughAtZero(t, r, seen + {p}, s);
      s := s.(numBlocks := 0);
      SameTally(t, r, seen + {p}, s1, s);
      BegunGrows(t, r, s1, s);
    }
  }

  lemma RunBegun(t: Tables, r: Request, s0: Picked, s: Picked, start: int, end: int)
    requires Begun(t, r, s0) && Took(s0, s, start, end)
    ensures Begun(t, r, s)
  {
    hide Begun;
    BegunGrows(t, r, s0, s);
  }

  lemma SameTally(t: Tables, r: Request, seen: set<int>, s0: Picked, s: Picked)
    requires Tallied(t, r, seen, s0) && s.interesting == s0.interesting
    ensures Tallied(t, r, seen, s)
  {
  }

  /** Of a run, only the piece that was visited need be remembered. */
  lemma VisitedOne(t: Tables, r: Request, seen: set<int>, p: int, start: int, end: int, s: Picked)
    requires Progress(t, r, seen + Run(start, end), s) && Thorough(t, r, seen + Run(start, end), s) && start <= p < end
    requires r.strict ==> Run(start, end) == {p}
    ensures Progress(t, r, seen + {p}, s) && Thorough(t, r, seen + {p}, s)
  {
    hide Pickable, NoRepeats, InTurn, Found;
  }

  lemma NotFull(t: Tables, r: Request, seen: set<int>, s: Picked)
    requires Thorough(t, r, seen, s) && s.numBlocks > 0
    ensures |s.interesting| < r.numBlocks
  {
    hide Pickable;
  }

  lemma PartialTallied(t: Tables, r: Request, seen: set<int>, p: int, s0: Picked, s: Picked)
    requires Tallied(t, r, seen, s0) && s0.interesting <= s.interesting && |s0.interesting| < r.numBlocks
    requires |s.interesting| <= |s0.interesting| + t.width && Progress(t, r, seen + {p}, s)
    requires 0 <= p < |t.pm| == |r.bits| && t.pm[p].downloading
    ensures Tallied(t, r, seen + {p}, s)
  {
    hide Twice, Pickable, NoRepeats, InTurn;
    TwiceGrows(t, r, seen, s0, s);
    TwiceWithout(t, r, seen, p, s);
    if r.preferWhole > 0 {
      assert 1 * t.width == t.width;
      StaysWithin(t, r, s0, s, 1);
    }
  }

  lemma FreshTallied(t: Tables, r: Request, seen: set<int>, s: Picked)
    requires Progress(t, r, seen, s) && r.preferWhole == 0
    ensures Tallied(t, r, seen, s)
  {
    hide Pickable, NoRepeats, InTurn;
  }

  lemma ForgetCount(t: Tables, r: Request, seen: set<int>, s: Picked)
    requires Progress(t, r, seen, s) && r.preferWhole > 0
    ensures forall n :: Progress(t, r, seen, s.(numBlocks := n))
  {
    hide Pickable, Arranged, Queued;
    forall n
      ensures Progress(t, r, seen, s.(numBlocks := n))
    {
      assert forall b :: s.(numBlocks := n).Lists(b) <==> s.Lists(b);
    }
  }

  // ----- picking from many pieces -----

  /** All partial pieces the peer can help with, in table order. */
  method PickPartials(t: Tables, r: Request, s0: Picked) returns (s: Picked, ghost seen: set<int>)
    requires t.Ok() && r.Ok(t) && r.options.prioritizePartials && s0.numBlocks > 0 && Sound(t, r, {}, s0)
    ensures Sound(t, r, seen, s)
    ensures forall p :: p in seen ==> Handled(t, r, [], p)
    ensures s.numBlocks > 0 ==> s.backup == [] && s.backup2 == [] && Begun(t, r, s)
    ensures s.numBlocks > 0 ==> forall p :: 0 <= p < |t.pm| && t.pm[p].downloading && r.bits[p] ==> p in seen
  {
    hide Find, Progress, Thorough, Within, Twice, Allocated, Counted;
    s, seen := s0, {};
    for i := 0 to |t.ds|
      invariant Sound(t, r, seen, s) && s.numBlocks > 0
      invariant forall j :: 0 <= j < i && 0 <= t.ds[j].index < |r.bits| && r.bits[t.ds[j].index] ==>
                t.ds[j].index in seen
      invariant forall p :: p in seen ==> Handled(t, r, [], p) && exists j :: 0 <= j < i && t.ds[j].index == p
    {
      EntryFacts(t, i);
      DistinctEntries(t, i);
      if !r.bits[t.ds[i].index] { continue; }
      ghost var s1 := s;
      NotFull(t, r, seen, s);
      FirstStage(t, r, seen, s, i);
      s := AddBlocksDownloading(t, r, seen, i, s);
      PartialTallied(t, r, seen, t.ds[i].index, s1, s);
      seen := seen + {t.ds[i].index};
      if s.numBlocks <= 0 { return; }
    }
    EveryPartial(t);
    ghost var s1 := s;
    PartialsLookedAt(t, r, seen, s);
    s := UseBackups(t, r, seen, s);
    BackupsTallied(t, r, seen, s1, s);
    if s.numBlocks > 0 { PartialsBegun(t, r, seen, s); }
  }

  /** Only partial pieces have been looked at, and all of them. */
  lemma PartialsLookedAt(t: Tables, r: Request, seen: set<int>, s: Picked)
    requires PartialsSeen(t, r, seen) && r.Ok(t) && r.options.prioritizePartials && Progress(t, r, seen, s)
    ensures LookedAt(t, r, seen, s)
  {
    hide PiecePos.Priority, Queued, Arranged, Pickable;
    QueuedKind(t, r, s.interesting, s.backup, Backup);
    QueuedKind(t, r, s.interesting, s.backup2, Backup2);
  }

  lemma PartialsBegun(t: Tables, r: Request, seen: set<int>, s: Picked)
    requires PartialsSeen(t, r, seen) && Thorough(t, r, seen, s) && s.numBlocks > 0 && s.backup == s.backup2 == []
    ensures Begun(t, r, s)
  {
    hide TargetOf;
    forall b | Pickable(t, r, b) && Group(t, r, b.piece) == 0
      ensures b in s.interesting
    {
      assert b.piece in seen;
      assert Found(t, r, s, b);
    }
  }

  /** Partial pieces that come first are taken in the order of the table. */
  lemma FirstStage(t: Tables, r: Request, seen: set<int>, s: Picked, i: int)
    requires t.Ok() && r.Ok(t) && 0 <= i < |t.ds| && r.options.prioritizePartials
    requires forall j :: 0 <= j < i && 0 <= t.ds[j].index < |r.bits| && r.bits[t.ds[j].index] ==>
                           t.ds[j].index in seen
    ensures Timely(t, r, seen, s, t.ds[i].index)
  {
    hide Earlier, PiecePos.Priority, PiecePos.Have, PiecePos.Filtered;
    EntryFacts(t, i);
    FindUnique(t.ds, i);
  }

  /** What comes before the main walk has been dealt with. */
  ghost predicate Prepared(t: Tables, r: Request, seen: set<int>) {
    HandledSeen(t, r, r.course.suggested, seen) && PartialsSeen(t, r, seen)
  }

  lemma MorePrepared(t: Tables, r: Request, seen: set<int>, more: set<int>)
    requires Prepared(t, r, seen) && seen <= more
    ensures Prepared(t, r, more)
  {
  }

  /** A piece that the main walk is the first to come to. */
  ghost predicate InMainWalk(t: Tables, r: Request, p: int) {
    && 0 <= p < |t.pm| == |r.bits| && Wanted(t, r.bits, p) && Stage(t, r, p) == 2
    && (!r.options.sequential && r.options.rarestFirst ==> t.pm[p].Priority(r.course.seeds) >= 0)
    && (FromRandom(r) ==> CanPick(t, r.bits, p))
  }

  /** A piece of the main walk is timely if those of the walk before it have been dealt with. */
  lemma LastStage(t: Tables, r: Request, seen: set<int>, p: int)
    requires Prepared(t, r, seen) && 0 <= p < |t.pm| && !Handled(t, r, r.course.suggested, p)
    requires forall q :: InMainWalk(t, r, q) && Earlier(t, r, q, p) ==> q in seen
    ensures SoonerSeen(t, r, seen, p)
  {
    hide Earlier, PiecePos.Priority, PiecePos.Have, PiecePos.Filtered;
    forall q | Reached(t, r, r.course.suggested, r.course.seeds, q) && Sooner(t, r, q, p)
      ensures q in seen
    {
      if Stage(t, r, q) == 1 { assert Handled(t, r, r.course.suggested, q); }
    }
  }

  /** Each piece of `ps` that is not passed over comes after all those that are sooner. */
  ghost predicate RunTimely(t: Tables, r: Request, seen: set<int>, ignore: seq<int>, ps: seq<int>) {
    r.preferWhole == 0 ==>
      forall i, q ::
        (&& 0 <= i < |ps| && !Handled(t, r, ignore, ps[i])
         && Reached(t, r, r.course.suggested, r.course.seeds, q) && Sooner(t, r, q, ps[i])) ==>
          q in seen || (q in ps[..i] && Wanted(t, r.bits, q))
  }

  lemma TimelyInRun(t: Tables, r: Request, seen0: set<int>, seen: set<int>, ignore: seq<int>, ps: seq<int>, i: int)
    requires RunTimely(t, r, seen0, ignore, ps) && 0 <= i < |ps| && !Handled(t, r, ignore, ps[i]) && seen0 <= seen
    requires forall k :: 0 <= k < i && Wanted(t, r.bits, ps[k]) ==> ps[k] in seen
    ensures SoonerSeen(t, r, seen, ps[i])
  {
    hide Reached, Sooner, Handled, Wanted;
  }

  lemma BackupsTallied(t: Tables, r: Request, seen: set<int>, s0: Picked, s: Picked)
    requires Tallied(t, r, seen, s0) && s0.interesting <= s.interesting && |s.interesting| <= r.numBlocks
    ensures Tallied(t, r, seen, s)
  {
    hide Twice;
    TwiceGrows(t, r, seen, s0, s);
    assert 0 <= r.preferWhole * t.width;
  }

  lemma EveryPartial(t: Tables)
    requires t.Ok()
    ensures forall p :: 0 <= p < |t.pm| && t.pm[p].downloading ==> exists j :: 0 <= j < |t.ds| && t.ds[j].index == p
  {
    hide Find;
    forall p | 0 <= p < |t.pm| && t.pm[p].downloading
      ensures exists j :: 0 <= j < |t.ds| && t.ds[j].index == p
    {
      FlaggedEntry(t.pm, t.ds, t.rows, t.width, t.last, p);
    }
  }

  lemma DistinctEntries(t: Tables, i: int)
    requires t.Ok() && 0 <= i < |t.ds|
    ensures forall j :: 0 <= j < i ==> t.ds[j].index != t.ds[i].index
  {
  }

  /** The free pieces among `ps`, in order. */
  method PickRun(t: Tables, r: Request, ghost seen0: set<int>, ps: seq<int>, ignore: seq<int>, s0: Picked)
    returns (s: Picked, ghost seen: set<int>)
    requires t.Ok() && r.Ok(t) && Orderly(t, r) && Sound(t, r, seen0, s0) && s0.numBlocks > 0
    requires forall p :: p in ps ==> 0 <= p < |t.pm|
    requires r.strict ==> NoRepeats(ps) && forall p :: p in ps && p in seen0 ==> Handled(t, r, ignore, p)
    requires HandledSeen(t, r, ignore, seen0) && RunTimely(t, r, seen0, ignore, ps) && Begun(t, r, s0)
    ensures Sound(t, r, seen, s) && seen0 <= seen && Begun(t, r, s)
    ensures forall p :: p in seen ==> p in seen0 || p in ps
    ensures s.numBlocks > 0 ==> forall p :: p in ps && Wanted(t, r.bits, p) ==> p in seen
  {
    hide Find, Sound, Handled, RunTimely, SoonerSeen, Begun;
    s, seen := s0, seen0;
    for i := 0 to |ps|
      invariant Sound(t, r, seen, s) && s.numBlocks > 0 && seen0 <= seen && Begun(t, r, s)
      invariant forall p :: p in seen ==> p in seen0 || p in ps[..i]
      invariant forall k :: 0 <= k < i && Wanted(t, r.bits, ps[k]) ==> ps[k] in seen
    {
      assert ps[i] in ps;
      if !IsPieceFree(t, r.bits, ps[i]) { continue; }
      if r.strict && ps[i] in seen {
        assert ps[i] !in ps[..i];
      }
      if !Handled(t, r, ignore, ps[i]) { TimelyInRun(t, r, seen0, seen, ignore, ps, i); }
      s := AddBlocks(t, r, seen, ps[i], ignore, s);
      seen := seen + {ps[i]};
      if s.numBlocks <= 0 { return; }
    }
  }

  /** The wanted pieces between the cursors, forwards or backwards. */
  method PickSequential(t: Tables, r: Request, ghost seen0: set<int>, suggested: seq<int>, cursor: int,
                        reverseCursor: int, s0: Picked)
    returns (s: Picked, ghost seen: set<int>)
    requires t.Ok() && r.Ok(t) && Orderly(t, r) && Sound(t, r, seen0, s0) && s0.numBlocks > 0
    requires 0 <= cursor <= |t.pm| && 0 <= reverseCursor <= |t.pm|
    requires forall p :: p in seen0 ==> Handled(t, r, suggested, p)
    requires Prepared(t, r, seen0) && r.course.suggested == suggested && r.options.sequential && Begun(t, r, s0)
    requires forall p :: Wanted(t, r.bits, p) ==> cursor <= p < reverseCursor
    ensures Sound(t, r, seen, s) && seen0 <= seen
    ensures s.numBlocks > 0 ==> forall p :: cursor <= p < reverseCursor && IsPieceFree(t, r.bits, p) ==> p in seen
  {
    hide Find, Sound, Handled, SoonerSeen, PartialsSeen, PiecePos.Priority, Begun;
    s, seen := s0, seen0;
    if r.options.reverse {
      var i := reverseCursor - 1;
      while i >= cursor
        invariant -1 <= i < |t.pm| && Sound(t, r, seen, s) && s.numBlocks > 0 && seen0 <= seen && Begun(t, r, s)
        invariant forall p :: p in seen ==> Handled(t, r, suggested, p) || p > i
        invariant forall p :: cursor <= p < reverseCursor && p > i && IsPieceFree(t, r.bits, p) ==> p in seen
      {
        if IsPieceFree(t, r.bits, i) {
          MorePrepared(t, r, seen0, seen);
          if !Handled(t, r, suggested, i) { LastStage(t, r, seen, i); }
          s := AddBlocks(t, r, seen, i, suggested, s);
          seen := seen + {i};
          if s.numBlocks <= 0 { return; }
        }
        i := i - 1;
      }
    } else {
      var i := cursor;
      while i < reverseCursor
        invariant 0 <= i <= |t.pm| && Sound(t, r, seen, s) && s.numBlocks > 0 && seen0 <= seen && Begun(t, r, s)
        invariant forall p :: p in seen ==> Handled(t, r, suggested, p) || p < i
        invariant forall p :: cursor <= p < i && p < reverseCursor && IsPieceFree(t, r.bits, p) ==> p in seen
      {
        if IsPieceFree(t, r.bits, i) {
          MorePrepared(t, r, seen0, seen);
          if !Handled(t, r, suggested, i) { LastStage(t, r, seen, i); }
          s := AddBlocks(t, r, seen, i, suggested, s);
          seen := seen + {i};
          if s.numBlocks <= 0 { return; }
        }
        i := i + 1;
      }
    }
  }

  /**
    Unstarted pieces in circular order from a random start. With whole-piece preference the walk can overrun its start;
    it then goes round again. It takes a piece twice if there is a stretch of more pieces than one run takes, or if it
    starts inside a range of pieces.
   */
  method PickRandom(t: Tables, r: Request, ghost seen0: set<int>, suggested: seq<int>, startPiece: int, s0: Picked,
                    ghost a: int)
    returns (s: Picked, ghost seen: set<int>)
    requires t.Ok() && r.Ok(t) && Sound(t, r, seen0, s0) && s0.numBlocks > 0 && 0 <= startPiece < |t.pm|
    requires forall p :: p in seen0 ==> Handled(t, r, suggested, p)
    requires Prepared(t, r, seen0) && r.course.suggested == suggested && r.course.start == startPiece && FromRandom(r)
    requires Begun(t, r, s0)
    requires r.strict ==> SingleRuns(t, r.bits, r.preferWhole) || Neat(t, r, suggested, startPiece)
    ensures Progress(t, r, seen, s) && Thorough(t, r, seen, s) && Within(t, r, s) && seen0 <= seen
    ensures s.numBlocks > 0 ==> WalkDone(t, r, suggested, seen, startPiece, a, s.interesting)
  {
    hide Find, Progress, Thorough, Within, Twice, Allocated, Counted, WalkOk, WalkDone, Stretch, CanPick, Expands, Took,
         Neat, SingleRuns, HandledSeen, PartialsSeen, SoonerSeen, FromRandom, Begun;
    s, seen := s0, seen0;
    var piece := startPiece;
    ghost var w := Place(startPiece, startPiece, false, false);
    WalkStarts(t, r, suggested, seen, startPiece, a, s.interesting);
    while s.numBlocks > 0
      invariant 0 <= piece < |t.pm| && w.start == startPiece && w.piece == piece && seen0 <= seen
      invariant Progress(t, r, seen, s) && Thorough(t, r, seen, s) && Within(t, r, s)
      invariant WalkOk(t, r, suggested, seen, w, a, s.interesting) && Prepared(t, r, seen) && Begun(t, r, s)
      decreases s.numBlocks
    {
      var q, found := NextCandidate(t, r, suggested, startPiece, piece);
      if !found {
        WalkEnds(t, r, suggested, seen, w, a, s.interesting);
        return;
      }
      NotFull(t, r, seen, s);
      ghost var s1 := s;
      var start, end := ExpandPiece(t, r.bits, q, r.preferWhole);
      if r.strict { RunIsNew(t, r, suggested, seen, w, a, q, start, end, s.interesting); }
      TimelyInWalk(t, r, seen, w, a, q, s.interesting);
      s := AddCandidate(t, r, seen, q, start, end, s);
      WalkStep(t, r, suggested, seen, w, a, q, start, end, s1, s);
      RunBegun(t, r, s1, s, start, end);
      MorePrepared(t, r, seen, seen + Run(start, end));
      seen := seen + Run(start, end);
      w := Place(startPiece, Next(t, end), true, w.lapped || Overruns(t, startPiece, q, end));
      piece := if end == |t.pm| then 0 else end;
      if piece == startPiece { return; }
    }
  }

  /** The candidates before `q` on the circle have been passed. */
  lemma TimelyInWalk(t: Tables, r: Request, seen: set<int>, w: Place, a: int, q: int, blocks: seq<PieceBlock>)
    requires WalkOk(t, r, r.course.suggested, seen, w, a, blocks) && Prepared(t, r, seen) && w.start == r.course.start
    requires FoundFrom(t, r, r.course.suggested, w.start, w.piece, q) && FromRandom(r)
    ensures SoonerSeen(t, r, seen, q)
  {
    hide CanPick, NoRepeats, Stretch, Pending, Interior, Neat, NoneBetween, HandledSeen, Awaited, Behind, PassedSeen,
         PartialsSeen, Ahead;
    if !w.lapped { PassedToCandidate(t, r, r.course.suggested, seen, w.start, w.piece, q); }
    PassedIsTimely(t, r, seen, q, w.lapped);
  }

  lemma PassedIsTimely(t: Tables, r: Request, seen: set<int>, q: int, lapped: bool)
    requires Prepared(t, r, seen) && FromRandom(r) && Candidate(t, r, r.course.suggested, q)
    requires PassedSeen(t, r, seen, r.course.start, if lapped then |t.pm| else Ahead(r.course.start, q, |t.pm|))
    requires 0 <= r.course.start < |t.pm|
    ensures SoonerSeen(t, r, seen, q)
  {
    hide HandledSeen, PartialsSeen, SoonerSeen, PiecePos.Priority;
    if !Handled(t, r, r.course.suggested, q) { LastStage(t, r, seen, q); }
  }

  /** The piece a walk has found, or the run around it. */
  method AddCandidate(t: Tables, r: Request, ghost seen: set<int>, q: int, start: int, end: int, s0: Picked)
    returns (s: Picked)
    requires t.Ok() && r.Ok(t) && 0 <= q < |t.pm| && CanPick(t, r.bits, q) && s0.numBlocks > 0
    requires Expands(t, r.bits, q, r.preferWhole, start, end)
    requires (r.strict ==> forall k :: start <= k < end ==> k !in seen) && SoonerSeen(t, r, seen, q) && Begun(t, r, s0)
    requires Progress(t, r, seen, s0) && Thorough(t, r, seen, s0) && |s0.interesting| < r.numBlocks
    ensures Progress(t, r, seen + Run(start, end), s) && Thorough(t, r, seen + Run(start, end), s) && Within(t, r, s)
    ensures s.numBlocks < s0.numBlocks && Took(s0, s, start, end)
  {
    hide Find, Progress, Thorough, Within, Took, CanPick, SoonerSeen, Begun;
    if r.preferWhole == 0 {
      var m := if t.Size(q) > s0.numBlocks then s0.numBlocks else t.Size(q);
      s := AddBlocksFresh(t, r, seen, q, m, s0);
      assert Run(start, end) == {q};
      FreshTallied(t, r, seen + {q}, s);
    } else {
      s := AddWholePieces(t, r, seen, start, end, s0);
      StaysWithin(t, r, s0, s, end - start);
    }
  }

  /** Skips pieces that cannot be picked or were suggested; `found` is false after a full circle. */
  method NextCandidate(t: Tables, r: Request, suggested: seq<int>, startPiece: int, piece0: int)
    returns (piece: int, found: bool)
    requires r.Ok(t) && 0 <= startPiece < |t.pm| && 0 <= piece0 < |t.pm|
    ensures 0 <= piece < |t.pm|
    ensures found ==> FoundFrom(t, r, suggested, startPiece, piece0, piece)
    ensures !found ==> NoneFrom(t, r, suggested, startPiece, piece0)
  {
    hide CanPick, Ahead, NoneBetween, NoneFrom;
    piece := piece0;
    NotYetWalked(t, r, suggested, startPiece, piece0);
    while !CanPick(t, r.bits, piece) || piece in suggested
      invariant 0 <= piece < |t.pm| && (Candidate(t, r, suggested, piece0) ==> piece == piece0)
      invariant Ahead(startPiece, piece0, |t.pm|) <= Ahead(startPiece, piece, |t.pm|)
      invariant NoneBetween(t, r, suggested, startPiece, piece0, piece)
      decreases |t.pm| - Ahead(startPiece, piece, |t.pm|)
    {
      StepPast(t, r, suggested, startPiece, piece0, piece);
      piece := piece + 1;
      if piece == |t.pm| { piece := 0; }
      if piece == startPiece { return piece, false; }
    }
    found := true;
  }

  /** The bucket visited in round `i` of the reverse walk: chunks of four backwards, each chunk forwards. */
  function Walk(i: int): int {
    (i / PRIO_FACTOR) * PRIO_FACTOR + PRIO_FACTOR - 1 - (i % PRIO_FACTOR)
  }

  /** The reverse walk visits every bucket exactly once: it is its own inverse. */
  lemma WalkVisitsEachBucketOnce(n: int, i: int)
    requires n % PRIO_FACTOR == 0 && 0 <= i < n
    ensures 0 <= Walk(i) < n && Walk(Walk(i)) == i
  {
  }

  /** All listed pieces, bucket by bucket in the order of the reverse walk. */
  method PickReverse(t: Tables, r: Request, ghost seen0: set<int>, suggested: seq<int>, ps: seq<int>, bs: seq<int>,
                     ghost ix: seq<int>, ghost pr: seq<int>, s0: Picked)
    returns (s: Picked, ghost seen: set<int>)
    requires t.Ok() && r.Ok(t) && Orderly(t, r) && Sound(t, r, seen0, s0) && s0.numBlocks > 0
    requires B.Ok(ps, bs, ix, pr) && |pr| == |t.pm| && |bs| % PRIO_FACTOR == 0
    requires forall p :: p in seen0 ==> Handled(t, r, suggested, p)
    requires Prepared(t, r, seen0) && r.course.suggested == suggested && RarestReversed(r) && Begun(t, r, s0)
    requires pr == Priorities(t.pm, r.course.seeds)
    ensures Sound(t, r, seen, s) && seen0 <= seen
    ensures s.numBlocks > 0 ==> forall p :: 0 <= p < |pr| && 0 <= pr[p] < |bs| && Wanted(t, r.bits, p) ==> p in seen
  {
    hide Find, Sound, Handled, Walk, B.Ok, Wanted, Prepared, RunTimely, RarestReversed, Priorities,
         Begun;
    s, seen := s0, seen0;
    BucketsSuffice(ps, bs, ix, pr);
    forall q | 0 <= q < |bs|
      ensures 0 <= Walk(q) < |bs| && Walk(Walk(q)) == q
    {
      WalkVisitsEachBucketOnce(|bs|, q);
    }
    for i := |bs| downto 0
      invariant Sound(t, r, seen, s) && s.numBlocks > 0 && seen0 <= seen && Prepared(t, r, seen) && Begun(t, r, s)
      invariant forall p :: 0 <= p < |pr| && 0 <= pr[p] < |bs| && Walk(pr[p]) >= i && Wanted(t, r.bits, p) ==> p in seen
      invariant forall p :: p in seen ==>
                Handled(t, r, suggested, p) || (0 <= p < |pr| && 0 <= pr[p] < |bs| && Walk(pr[p]) >= i)
    {
      var prio := Walk(i);
      BucketRun(ps, bs, ix, pr, prio);
      assert forall p :: 0 <= p < |pr| && 0 <= pr[p] < |bs| && Walk(pr[p]) == i ==> Walk(Walk(pr[p])) == pr[p] == prio;
      var start := if prio == 0 then 0 else bs[prio - 1];
      ghost var before := seen;
      PreparedHandled(t, r, seen);
      BucketTimely(t, r, seen, ps[start..bs[prio]], |bs|, i, prio);
      s, seen := PickRun(t, r, seen, ps[start..bs[prio]], suggested, s);
      MorePrepared(t, r, before, seen);
      if s.numBlocks <= 0 { return; }
    }
  }

  lemma BucketsSuffice(ps: seq<int>, bs: seq<int>, ix: seq<int>, pr: seq<int>)
    requires B.Ok(ps, bs, ix, pr)
    ensures forall p :: 0 <= p < |pr| ==> pr[p] < |bs|
  {
    forall p | 0 <= p < |pr| && pr[p] >= 0
      ensures pr[p] < |bs|
    {
      assert B.Fits(ps, bs, ix, pr, ix[p]);
    }
  }

  predicate RarestReversed(r: Request) {
    !r.options.sequential && r.options.rarestFirst && r.options.reverse
  }

  lemma PreparedHandled(t: Tables, r: Request, seen: set<int>)
    requires Prepared(t, r, seen)
    ensures HandledSeen(t, r, r.course.suggested, seen)
  {
  }

  /** The reverse walk comes to the more common priorities first. */
  lemma WalkIsMoreCommon(a: int, b: int)
    requires a >= 0 && b >= 0
    ensures MoreCommon(a, b) <==> Walk(a) > Walk(b)
  {
  }

  /** When the reverse walk comes to the bucket of priority `prio`, the more common ones have been dealt with. */
  lemma BucketTimely(t: Tables, r: Request, seen: set<int>, ps: seq<int>, n: int, i: int, prio: int)
    requires Prepared(t, r, seen) && RarestReversed(r) && 0 <= prio < n && Walk(prio) == i
    requires forall p :: p in ps ==> 0 <= p < |t.pm| && t.pm[p].Priority(r.course.seeds) == prio
    requires forall p :: 0 <= p < |t.pm| ==> t.pm[p].Priority(r.course.seeds) < n
    requires forall p ::
               (&& 0 <= p < |t.pm| && 0 <= t.pm[p].Priority(r.course.seeds)
                && Walk(t.pm[p].Priority(r.course.seeds)) >= i + 1 && Wanted(t, r.bits, p)) ==> p in seen
    ensures RunTimely(t, r, seen, r.course.suggested, ps)
  {
    hide Prepared, PiecePos.Priority, MoreCommon, Walk, Wanted, Handled;
    forall p | p in ps && !Handled(t, r, r.course.suggested, p)
      ensures SoonerSeen(t, r, seen, p)
    {
      forall q | InMainWalk(t, r, q) && Earlier(t, r, q, p)
        ensures q in seen
      {
        WalkIsMoreCommon(t.pm[q].Priority(r.course.seeds), prio);
      }
      LastStage(t, r, seen, p);
    }
  }

  lemma BucketRun(ps: seq<int>, bs: seq<int>, ix: seq<int>, pr: seq<int>, q: int)
    requires B.Ok(ps, bs, ix, pr) && 0 <= q < |bs|
    ensures 0 <= B.Start(bs, q) <= bs[q] <= |ps| && NoRepeats(ps[B.Start(bs, q)..bs[q]])
    ensures forall p :: p in ps[B.Start(bs, q)..bs[q]] <==> 0 <= p < |pr| && pr[p] == q
  {
    B.BucketIsPriorityClass(ps, bs, ix, pr, q);
    var run := ps[B.Start(bs, q)..bs[q]];
    forall p | p in run
      ensures 0 <= p < |pr| && pr[p] == q
    {
      assert p in B.Members(ps, bs, q);
    }
    forall p | 0 <= p < |pr| && pr[p] == q
      ensures p in run
    {
      assert p in B.Members(ps, bs, q);
      var k :| B.Start(bs, q) <= k < bs[q] && ps[k] == p;
      assert run[k - B.Start(bs, q)] == p;
    }
  }

  // ----- the whole pick -----

  /**
    The first `m` blocks are newly pickable and within the wanted number, but for one run of whole pieces; the rest,
    present only when too few were found, are blocks another peer is already asked for.
   */
  ghost predicate Split(t: Tables, r: Request, blocks: seq<PieceBlock>, m: nat) {
    && m <= |blocks|
    && (forall i :: 0 <= i < m ==> Pickable(t, r, blocks[i]))
    && (forall i :: m <= i < |blocks| ==> AskedElsewhere(t, r, blocks[i]))
    && m <= r.numBlocks + r.preferWhole * t.width
    && (m < |blocks| ==> m < r.numBlocks && !r.options.onParole)
    && Arranged(t, r, blocks[..m])
  }

  /** Fewer than wanted newly pickable blocks are returned only if they are all there are in the pieces `seen`. */
  ghost predicate Exhaustive(t: Tables, r: Request, seen: set<int>, blocks: seq<PieceBlock>, m: nat) {
    m < r.numBlocks ==> forall b :: Pickable(t, r, b) && b.piece in seen ==> b in blocks
  }

  /** If too few were found and the peer is not on parole, every block that others are asked for is added. */
  ghost predicate BusyToo(t: Tables, r: Request, blocks: seq<PieceBlock>, m: nat) {
    m < r.numBlocks && !r.options.onParole ==> forall b :: AskedElsewhere(t, r, b) ==> b in blocks
  }

  /** What a finished pick promises. */
  ghost predicate GoodPick(t: Tables, r: Request, seen: set<int>, blocks: seq<PieceBlock>) {
    && (exists m: nat :: Split(t, r, blocks, m) && Exhaustive(t, r, seen, blocks, m) && BusyToo(t, r, blocks, m))
    && (r.strict ==> NoRepeats(blocks))
  }

  lemma StoppedEarly(t: Tables, r: Request, seen: set<int>, s: Picked)
    requires Progress(t, r, seen, s) && Thorough(t, r, seen, s) && Within(t, r, s)
    ensures s.numBlocks <= 0 || (s.backup == s.backup2 == [] && r.options.onParole) ==>
              GoodPick(t, r, seen, s.interesting)
  {
    hide Pickable, AskedElsewhere, Arranged;
    var m := |s.interesting|;
    AllSplit(t, r, seen, s);
    assert s.numBlocks <= 0 || s.backup == s.backup2 == [] ==> Exhaustive(t, r, seen, s.interesting, m);
    assert s.numBlocks <= 0 || r.options.onParole ==> BusyToo(t, r, s.interesting, m);
  }

  lemma AllSplit(t: Tables, r: Request, seen: set<int>, s: Picked)
    requires Progress(t, r, seen, s) && Within(t, r, s)
    ensures Split(t, r, s.interesting, |s.interesting|)
  {
    hide Pickable, AskedElsewhere, Arranged;
    assert forall i :: 0 <= i < |s.interesting| ==> s.Lists(s.interesting[i]);
    assert s.interesting[..|s.interesting|] == s.interesting;
  }

  /** Fills up with blocks that are already requested from other peers. */
  method PickBusy(t: Tables, r: Request, ghost seen: set<int>, s: Picked) returns (blocks: seq<PieceBlock>)
    requires t.Ok() && r.Ok(t) && Progress(t, r, seen, s) && |s.interesting| < r.numBlocks && !r.options.onParole
    requires Exhaustive(t, r, seen, s.interesting, |s.interesting|)
    ensures GoodPick(t, r, seen, blocks) && s.interesting <= blocks
  {
    hide Find, Allocated, Counted, Pickable, AskedElsewhere, Exhaustive, InTurn, Arranged, BusyToo;
    blocks := s.interesting;
    assert forall i :: 0 <= i < |blocks| ==> s.Lists(blocks[i]);
    assert 0 <= r.preferWhole * t.width;
    AllSplit(t, r, seen, s);
    for i := 0 to |t.ds|
      invariant Split(t, r, blocks, |s.interesting|)
      invariant r.strict ==> NoRepeats(blocks)
      invariant blocks[..|s.interesting|] == s.interesting
      invariant forall m :: |s.interesting| <= m < |blocks| ==>
                exists k :: 0 <= k < i && t.ds[k].index == blocks[m].piece
      invariant forall k, b :: 0 <= k < i && BusyIn(t, r, k, b) ==> b in blocks
    {
      EntryFacts(t, i);
      BusyFacts(t, r, i);
      var p := t.ds[i].index;
      if !r.bits[p] { continue; }
      if t.pm[p].piecePriority == 0 { continue; }
      DistinctEntries(t, i);
      ghost var before := blocks;
      var row := t.rows[t.ds[i].slot];
      for j := 0 to t.Size(p)
        invariant Split(t, r, blocks, |s.interesting|)
        invariant r.strict ==> NoRepeats(blocks)
        invariant blocks[..|s.interesting|] == s.interesting
        invariant |before| <= |blocks| && blocks[..|before|] == before
        invariant forall m :: |before| <= m < |blocks| ==> blocks[m].piece == p && blocks[m].block < j
        invariant forall b :: b in before ==> b in blocks
        invariant forall b :: BusyIn(t, r, i, b) && b.block < j ==> b in blocks
      {
        if row[j].state == Requested && row[j].peer != r.peer {
          BusyBlock(t, r, i, j, s.interesting);
          SplitMore(t, r, blocks, |s.interesting|, PieceBlock(p, j));
          blocks := blocks + [PieceBlock(p, j)];
        }
      }
    }
    AllBusy(t, r, blocks, |s.interesting|);
    MoreIsExhaustive(t, r, seen, s.interesting, blocks);
  }

  /** A block of the partial piece in entry `i` that another peer is asked for. */
  ghost predicate BusyIn(t: Tables, r: Request, i: int, b: PieceBlock) {
    0 <= i < |t.ds| && t.ds[i].index == b.piece && AskedElsewhere(t, r, b)
  }

  lemma BusyFacts(t: Tables, r: Request, i: int)
    requires t.Ok() && r.Ok(t) && 0 <= i < |t.ds|
    ensures var p, row := t.ds[i].index, t.Row(t.ds[i].index);
            forall b :: BusyIn(t, r, i, b) ==>
              && 0 <= p < |t.pm| && r.bits[p] && t.pm[p].piecePriority != 0 && 0 <= b.block < t.Size(p)
              && b == PieceBlock(p, b.block) && b.block < |row| && row[b.block].state == Requested
              && row[b.block].peer != r.peer
  {
    hide Find;
  }

  lemma AllBusy(t: Tables, r: Request, blocks: seq<PieceBlock>, m: nat)
    requires t.Ok() && forall k, b :: 0 <= k < |t.ds| && BusyIn(t, r, k, b) ==> b in blocks
    ensures BusyToo(t, r, blocks, m)
  {
    hide Find, Allocated, Counted;
    forall b | AskedElsewhere(t, r, b)
      ensures b in blocks
    {
      var i := Find(t.ds, b.piece);
      assert i < |t.ds|;
      assert BusyIn(t, r, i, b);
    }
  }

  lemma SplitMore(t: Tables, r: Request, blocks: seq<PieceBlock>, m: nat, b: PieceBlock)
    requires Split(t, r, blocks, m) && AskedElsewhere(t, r, b) && m < r.numBlocks && !r.options.onParole
    ensures Split(t, r, blocks + [b], m)
  {
    hide Pickable, AskedElsewhere, Arranged;
    assert (blocks + [b])[..m] == blocks[..m];
  }

  lemma MoreIsExhaustive(t: Tables, r: Request, seen: set<int>, picked: seq<PieceBlock>, blocks: seq<PieceBlock>)
    requires Exhaustive(t, r, seen, picked, |picked|) && |picked| <= |blocks| && blocks[..|picked|] == picked
    ensures Exhaustive(t, r, seen, blocks, |picked|)
  {
    hide Pickable;
    forall b | b in picked
      ensures b in blocks
    {
      var i :| 0 <= i < |picked| && picked[i] == b;
      assert blocks[i] == b;
    }
  }

  /** A busy block is not among the newly pickable ones. */
  lemma BusyBlock(t: Tables, r: Request, i: int, j: int, picked: seq<PieceBlock>)
    requires t.Ok() && r.Ok(t) && 0 <= i < |t.ds| && forall b :: b in picked ==> Pickable(t, r, b)
    requires 0 <= t.ds[i].index < |t.pm| && r.bits[t.ds[i].index] && 0 <= j < t.Size(t.ds[i].index)
    requires !t.pm[t.ds[i].index].Filtered()
    requires j < |t.Row(t.ds[i].index)| && t.Row(t.ds[i].index)[j].state == Requested &&
             t.Row(t.ds[i].index)[j].peer != r.peer
    ensures AskedElsewhere(t, r, PieceBlock(t.ds[i].index, j)) && PieceBlock(t.ds[i].index, j) !in picked
  {
    hide Find;
    EntryFacts(t, i);
    assert !Pickable(t, r, PieceBlock(t.ds[i].index, j));
  }

  /** Moving pieces about in the buckets changes nothing here. */
  lemma RepositionedTables(t: Tables, pm: seq<PiecePos>, r: Request, seen: set<int>, s: Picked)
    requires Repositioned(t.pm, pm) && Sound(t, r, seen, s) && r.Ok(t)
    ensures Sound(t.(pm := pm), r, seen, s) && r.Ok(t.(pm := pm))
    ensures Orderly(t, r) ==> Orderly(t.(pm := pm), r)
    ensures forall ignore, p :: Handled(t, r, ignore, p) <==> Handled(t.(pm := pm), r, ignore, p)
    ensures forall p :: Wanted(t, r.bits, p) <==> Wanted(t.(pm := pm), r.bits, p)
    ensures PartialsSeen(t, r, seen) ==> PartialsSeen(t.(pm := pm), r, seen)
    ensures forall ignore :: HandledSeen(t, r, ignore, seen) ==> HandledSeen(t.(pm := pm), r, ignore, seen)
    ensures Begun(t, r, s) ==> Begun(t.(pm := pm), r, s)
  {
    hide Pickable, NoRepeats, PiecePos.Have, PiecePos.Filtered, InTurn, TargetOf, Group;
    var t' := t.(pm := pm);
    forall b
      ensures Pickable(t', r, b) <==> Pickable(t, r, b)
    {
      SamePickable(t, pm, r, b);
    }
    SameOrder(t, pm, r, s);
    SameTargets(t, pm, r);
    assert |pm| == |t.pm| && forall i :: 0 <= i < |pm| ==> pm[i].downloading == t.pm[i].downloading;
    assert forall i :: 0 <= i < |pm| ==>
           pm[i].Have() == t.pm[i].Have() && pm[i].Filtered() == t.pm[i].Filtered() by { SameFlags(t.pm, pm); }
    SameNeighbours(t, pm, r.bits);
  }

  lemma SameOrder(t: Tables, pm: seq<PiecePos>, r: Request, s: Picked)
    requires Repositioned(t.pm, pm) && InTurn(t, r, s)
    ensures InTurn(t.(pm := pm), r, s)
  {
    hide Precedes, TargetOf, Group;
    var t' := t.(pm := pm);
    SameTargets(t, pm, r);
    forall b, c
      ensures Precedes(t', r, b, c) <==> Precedes(t, r, b, c)
      ensures Leads(t', r, b, c) <==> Leads(t, r, b, c)
    {
      SamePrecedes(t, pm, r, b, c);
    }
  }

  lemma SameTargets(t: Tables, pm: seq<PiecePos>, r: Request)
    requires Repositioned(t.pm, pm)
    ensures forall p :: TargetOf(t.(pm := pm), r, p) == TargetOf(t, r, p) && Group(t.(pm := pm), r, p) == Group(t, r, p)
  {
    hide PiecePos.Have, PiecePos.Filtered, PiecePos.Priority, ExclusiveActive, Find;
    SamePriorities(t.pm, pm, r.course.seeds);
  }

  lemma SamePrecedes(t: Tables, pm: seq<PiecePos>, r: Request, b: PieceBlock, c: PieceBlock)
    requires Repositioned(t.pm, pm)
    ensures Precedes(t.(pm := pm), r, b, c) <==> Precedes(t, r, b, c)
  {
    hide Pickable, PiecePos.Have, PiecePos.Filtered, PiecePos.Priority, TargetOf, Group, Find, FirstIn;
    SamePickable(t, pm, r, b);
    SameFlags(t.pm, pm);
    SamePriorities(t.pm, pm, r.course.seeds);
    SameTargets(t, pm, r);
  }

  lemma SamePriorities(pm: seq<PiecePos>, pm': seq<PiecePos>, seeds: nat)
    requires Repositioned(pm, pm')
    ensures |pm'| == |pm|
    ensures forall i :: 0 <= i < |pm| ==>
              pm'[i].Priority(seeds) == pm[i].Priority(seeds) && pm'[i].downloading == pm[i].downloading
  {
  }

  lemma SameNeighbours(t: Tables, pm: seq<PiecePos>, bits: seq<bool>)
    requires Repositioned(t.pm, pm)
    ensures forall p :: Neighbours(t, bits, p) <==> Neighbours(t.(pm := pm), bits, p)
    ensures forall p :: Leftmost(t, bits, p) <==> Leftmost(t.(pm := pm), bits, p)
  {
    hide PiecePos.Have, PiecePos.Filtered;
    SameFlags(t.pm, pm);
    assert |pm| == |t.pm| && forall i :: 0 <= i < |pm| ==> pm[i].downloading == t.pm[i].downloading;
  }

  lemma SameFlags(pm: seq<PiecePos>, pm': seq<PiecePos>)
    requires Repositioned(pm, pm')
    ensures |pm'| == |pm| && forall i :: 0 <= i < |pm| ==>
            pm'[i].Have() == pm[i].Have() && pm'[i].Filtered() == pm[i].Filtered()
  {
  }

  lemma SamePickable(t: Tables, pm: seq<PiecePos>, r: Request, b: PieceBlock)
    requires Repositioned(t.pm, pm)
    ensures Pickable(t.(pm := pm), r, b) <==> Pickable(t, r, b)
  {
    hide PiecePos.Have, PiecePos.Filtered;
    var t' := t.(pm := pm);
    SameFlags(t.pm, pm);
    assert |pm| == |t.pm| && forall i :: 0 <= i < |pm| ==> pm[i].downloading == t.pm[i].downloading;
    assert t'.Row(b.piece) == t.Row(b.piece);
  }

  lemma NothingPicked(t: Tables, r: Request)
    requires r.numBlocks >= 0
    ensures Sound(t, r, {}, Picked([], [], [], r.numBlocks))
  {
    assert 0 <= r.preferWhole * t.width;
  }

  /** Partial pieces first, if asked for, then the suggested pieces. */
  method PickFirst(t: Tables, r: Request, suggested: seq<int>) returns (s: Picked, ghost seen: set<int>)
    requires t.Ok() && r.Ok(t) && r.numBlocks > 0
    requires forall p :: p in suggested ==> 0 <= p < |t.pm|
    requires (r.strict ==> NoRepeats(suggested)) && (suggested != [] ==> Orderly(t, r))
    requires r.course.suggested == suggested
    ensures Sound(t, r, seen, s)
    ensures forall p :: p in seen ==> Handled(t, r, suggested, p)
    ensures s.numBlocks > 0 ==> HandledSeen(t, r, suggested, seen) && PartialsSeen(t, r, seen) && Begun(t, r, s)
  {
    hide Find, TableOk, Sound, NoRepeats, Begun, RunTimely;
    s, seen := Picked([], [], [], r.numBlocks), {};
    NothingPicked(t, r);
    if r.options.prioritizePartials {
      s, seen := PickPartials(t, r, s);
      if s.numBlocks <= 0 { return; }
    } else {
      NonePartial(t, r, s);
    }
    if suggested != [] {
      SuggestedTimely(t, r, seen);
      s, seen := PickRun(t, r, seen, suggested, [], s);
    }
  }

  lemma NonePartial(t: Tables, r: Request, s: Picked)
    requires !r.options.prioritizePartials
    ensures Begun(t, r, s)
  {
  }

  /** Only partial pieces come before suggested ones, and those are taken as suggested. */
  lemma SuggestedTimely(t: Tables, r: Request, seen: set<int>)
    requires PartialsSeen(t, r, seen)
    ensures RunTimely(t, r, seen, [], r.course.suggested)
  {
    hide Earlier, PiecePos.Priority, PiecePos.Have, PiecePos.Filtered, FirstIn;
    var ps := r.course.suggested;
    forall i, q | (&& 0 <= i < |ps| && !Handled(t, r, [], ps[i])
                   && Reached(t, r, ps, r.course.seeds, q) && Sooner(t, r, q, ps[i]))
      ensures q in seen || (q in ps[..i] && Wanted(t, r.bits, q))
    {
      if Stage(t, r, q) == 1 {
        var k := FirstIn(ps, q);
        assert FirstIn(ps, ps[i]) <= i;
        assert ps[..i][k] == q;
      }
    }
  }

  /** Partial pieces that come first have been dealt with, filtered or not. */
  ghost predicate PartialsSeen(t: Tables, r: Request, seen: set<int>) {
    r.options.prioritizePartials ==>
      forall p :: 0 <= p < |t.pm| == |r.bits| && t.pm[p].downloading && r.bits[p] ==> p in seen
  }

  /** Backups, and as a last resort blocks that others are already asked for. */
  method PickLast(t: Tables, r: Request, ghost seen: set<int>, s0: Picked) returns (blocks: seq<PieceBlock>)
    requires t.Ok() && r.Ok(t) && Progress(t, r, seen, s0) && Thorough(t, r, seen, s0) && Within(t, r, s0)
    requires s0.numBlocks > 0 ==> LookedAt(t, r, seen, s0)
    ensures GoodPick(t, r, seen, blocks) && s0.interesting <= blocks
  {
    hide Find, TableOk, Progress, Thorough, GoodPick, LookedAt;
    var s := s0;
    StoppedEarly(t, r, seen, s);
    if s.numBlocks <= 0 { return s.interesting; }
    s := UseBackups(t, r, seen, s);
    assert Within(t, r, s) by { assert 0 <= r.preferWhole * t.width; }
    StoppedEarly(t, r, seen, s);
    if s.numBlocks <= 0 { return s.interesting; }
    if r.options.onParole { return s.interesting; }
    NothingLeft(t, r, seen, s);
    NotFull(t, r, seen, s);
    blocks := PickBusy(t, r, seen, s);
  }

  lemma AllLookedAt(t: Tables, r: Request, seen: set<int>, s: Picked)
    requires forall p :: Reached(t, r, r.course.suggested, r.course.seeds, p) ==> p in seen
    ensures LookedAt(t, r, seen, s)
  {
    hide Reached, Group;
  }

  lemma NothingLeft(t: Tables, r: Request, seen: set<int>, s: Picked)
    requires Thorough(t, r, seen, s) && s.numBlocks > 0 && s.backup == s.backup2 == []
    ensures Exhaustive(t, r, seen, s.interesting, |s.interesting|)
  {
  }

  lemma EveryReached(t: Tables, r: Request, suggested: seq<int>, seeds: nat, seen0: set<int>, seen: set<int>)
    requires seen0 <= seen && |r.bits| == |t.pm| && HandledSeen(t, r, suggested, seen0) && PartialsSeen(t, r, seen0)
    requires r.options.sequential ==> forall p :: Wanted(t, r.bits, p) ==> p in seen
    requires r.options.rarestFirst ==> forall p :: Wanted(t, r.bits, p) && t.pm[p].Priority(seeds) >= 0 ==> p in seen
    requires FromRandom(r) ==> AllSeen(t, r, seen)
    ensures forall p :: Reached(t, r, suggested, seeds, p) ==> p in seen
  {
    hide PiecePos.Priority, PiecePos.Have, PiecePos.Filtered;
    forall p | Reached(t, r, suggested, seeds, p)
      ensures p in seen
    {
      if Wanted(t, r.bits, p) && p in suggested { assert Handled(t, r, suggested, p); }
    }
  }

  /** Pieces stand so close that a preference for whole pieces takes one of them twice; `start` is the random start. */
  ghost predicate Crowded(t: Tables, r: Request, suggested: seq<int>, seeds: nat, start: int) {
    if FromRandom(r) then Interior(t, r, suggested, start) || exists a :: Stretch(t, r, suggested, a)
    else r.preferWhole >= 2 && exists a :: Leftmost(t, r.bits, a) && BothReached(t, r, suggested, seeds, a)
  }

  ghost predicate BothReached(t: Tables, r: Request, suggested: seq<int>, seeds: nat, a: int) {
    Reached(t, r, suggested, seeds, a) && Reached(t, r, suggested, seeds, a + 1)
  }

  /**
    The promise of the whole pick: free blocks first and never too many, then only blocks asked of others. If there are
    fewer free blocks than wanted, every free block of every piece the pick looks at is among them, and with crowded
    pieces some block is there twice. Where no two pieces can be taken together and no suggestion repeats, no block
    does either.
   */
  ghost predicate FullPick(t: Tables, r: Request, suggested: seq<int>, seeds: nat, start: int,
                           blocks: seq<PieceBlock>)
  {
    && (exists m: nat :: Split(t, r, blocks, m) && Leaves(t, r, suggested, seeds, start, blocks, m))
    && (r.strict ==> NoRepeats(blocks))
  }

  ghost predicate Leaves(t: Tables, r: Request, suggested: seq<int>, seeds: nat, start: int, blocks: seq<PieceBlock>,
                         m: nat)
  {
    m < r.numBlocks ==>
      && (forall b :: Pickable(t, r, b) && Reached(t, r, suggested, seeds, b.piece) ==> b in blocks)
      && BusyToo(t, r, blocks, m)
      && (Crowded(t, r, suggested, seeds, start) ==> !NoRepeats(blocks))
  }

  lemma PickIsFull(t: Tables, r: Request, suggested: seq<int>, seeds: nat, start: int, seen: set<int>,
                   blocks: seq<PieceBlock>)
    requires GoodPick(t, r, seen, blocks) && forall p :: Reached(t, r, suggested, seeds, p) ==> p in seen
    requires Crowded(t, r, suggested, seeds, start) ==> !NoRepeats(blocks)
    ensures FullPick(t, r, suggested, seeds, start, blocks)
  {
    hide Pickable, Reached, Split, NoRepeats, Crowded, BusyToo;
    var m: nat :| Split(t, r, blocks, m) && Exhaustive(t, r, seen, blocks, m) && BusyToo(t, r, blocks, m);
    assert Leaves(t, r, suggested, seeds, start, blocks, m);
  }

  lemma EnoughPicked(t: Tables, r: Request, suggested: seq<int>, seeds: nat, start: int, seen: set<int>, s: Picked)
    requires Progress(t, r, seen, s) && Thorough(t, r, seen, s) && Within(t, r, s) && s.numBlocks <= 0
    ensures FullPick(t, r, suggested, seeds, start, s.interesting)
  {
    hide Pickable, Reached, Crowded, Arranged;
    AllSplit(t, r, seen, s);
    assert Split(t, r, s.interesting, |s.interesting|) &&
           Leaves(t, r, suggested, seeds, start, s.interesting, |s.interesting|);
  }

  /** Every piece has been visited, so crowded pieces were taken twice. */
  lemma CrowdRepeats(t: Tables, r: Request, suggested: seq<int>, seeds: nat, start: int, seen: set<int>, s: Picked)
    requires Twice(t, r, seen, s) && !FromRandom(r)
    requires forall p :: Reached(t, r, suggested, seeds, p) ==> p in seen
    ensures Crowded(t, r, suggested, seeds, start) ==> !NoRepeats(s.interesting)
  {
    hide Twice, Leftmost, Reached, NoRepeats;
    if Crowded(t, r, suggested, seeds, start) {
      var a :| Leftmost(t, r.bits, a) && BothReached(t, r, suggested, seeds, a);
      TwiceRepeats(t, r, seen, s, a);
    }
  }

  /** No piece is taken twice. */
  ghost predicate TakesOnce(t: Tables, r: Request, suggested: seq<int>, start: int) {
    && NoRepeats(suggested)
    && (SingleRuns(t, r.bits, r.preferWhole) || (FromRandom(r) && Neat(t, r, suggested, start)))
  }

  /** The request as `pick_pieces` reads it: many partial pieces force their use, and whole pieces can be waived. */
  ghost function Effective(t: Tables, bits: seq<bool>, numBlocks: int, preferWhole: nat, peer: nat, speed: Speed,
                           options: Options, course: Course): Request
  {
    var prefer := if options.ignoreWholePieces then 0 else preferWhole;
    var forced := options.(prioritizePartials := options.prioritizePartials || |t.ds| > 20);
    var r := Request(bits, numBlocks, prefer, peer, speed, forced, false, course);
    r.(strict := TakesOnce(t, r, course.suggested, course.start))
  }

  method ReadRequest(t: Tables, bits: seq<bool>, numBlocks: int, preferWhole0: nat, peer: nat, speed: Speed,
                     options0: Options, ghost course: Course)
    returns (r: Request)
    requires |bits| == |t.pm|
    ensures r == Effective(t, bits, numBlocks, preferWhole0, peer, speed, options0, course) && r.Ok(t)
    ensures r.strict <==> TakesOnce(t, r, course.suggested, course.start)
    ensures r.bits == bits && r.numBlocks == numBlocks && r.course == course
    ensures r.options.sequential == options0.sequential && r.options.rarestFirst == options0.rarestFirst
  {
    hide SingleRuns, NoRepeats, TakesOnce;
    var options := if |t.ds| > 20 then options0.(prioritizePartials := true) else options0;
    var preferWhole := if options.ignoreWholePieces then 0 else preferWhole0;
    r := Request(bits, numBlocks, preferWhole, peer, speed, options, false, course);
    ghost var once := TakesOnce(t, r, course.suggested, course.start);
    StrictIsNoMatter(t, r, course.suggested, course.start, once);
    r := r.(strict := once);
  }

  lemma StrictIsNoMatter(t: Tables, r: Request, suggested: seq<int>, start: int, strict: bool)
    ensures TakesOnce(t, r.(strict := strict), suggested, start) <==> TakesOnce(t, r, suggested, start)
  {
    hide NoRepeats, SingleRuns, CanPick;
    var r' := r.(strict := strict);
    assert forall a :: Stretch(t, r', suggested, a) <==> Stretch(t, r, suggested, a);
  }

  lemma OnceMeansOrderly(t: Tables, r: Request, suggested: seq<int>, start: int)
    requires r.strict ==> TakesOnce(t, r, suggested, start)
    ensures (r.strict ==> NoRepeats(suggested)) && (suggested != [] || !FromRandom(r) ==> Orderly(t, r))
    ensures r.strict ==> SingleRuns(t, r.bits, r.preferWhole) || Neat(t, r, suggested, start)
  {
    hide NoRepeats, SingleRuns, Stretch, Interior;
  }

  // ----- when a pick repeats a block -----

  /** An unbroken range has a first pair. */
  lemma {:induction false} FirstPair(t: Tables, bits: seq<bool>, p: int) returns (a: int)
    requires Neighbours(t, bits, p)
    ensures Leftmost(t, bits, a)
    decreases p
  {
    hide CanPick;
    if p == 0 || !CanPick(t, bits, p - 1) {
      a := p;
    } else {
      assert Neighbours(t, bits, p - 1);
      a := FirstPair(t, bits, p - 1);
    }
  }

  /** The main walk visits every piece that can be picked, and nothing comes before a random one. */
  ghost predicate VisitsAll(t: Tables, r: Request, suggested: seq<int>, seeds: nat) {
    || r.options.sequential
    || (r.options.rarestFirst
        && forall p :: 0 <= p < |t.pm| == |r.bits| && CanPick(t, r.bits, p) ==> t.pm[p].Priority(seeds) >= 0)
    || (FromRandom(r) && suggested == [])
  }

  /** If a piece is not taken once only, the pieces are crowded. */
  lemma CrowdedOtherwise(t: Tables, r: Request, suggested: seq<int>, seeds: nat, start: int)
    requires |r.bits| == |t.pm| && VisitsAll(t, r, suggested, seeds) && NoRepeats(suggested)
    ensures TakesOnce(t, r, suggested, start) || Crowded(t, r, suggested, seeds, start)
  {
    hide NoRepeats, PiecePos.Priority, Interior, Stretch;
    if !SingleRuns(t, r.bits, r.preferWhole) && !FromRandom(r) {
      var p :| Neighbours(t, r.bits, p);
      var a := FirstPair(t, r.bits, p);
      assert BothReached(t, r, suggested, seeds, a);
    }
  }

  /** The place of a block among all blocks. */
  function Serial(t: Tables, b: PieceBlock): int {
    b.piece * t.width + b.block
  }

  lemma Wider(p: int, q: int, width: nat)
    requires p < q
    ensures p * width + width <= q * width
  {
    var d := q - p - 1;
    assert q * width == p * width + width + d * width;
    assert 0 <= d * width;
  }

  lemma SerialInside(t: Tables, b: PieceBlock)
    requires 0 <= b.piece < |t.pm| && 0 <= b.block < t.width
    ensures 0 <= Serial(t, b) < |t.pm| * t.width
  {
    Wider(b.piece, |t.pm|, t.width);
    assert 0 <= b.piece * t.width;
  }

  lemma SerialsDiffer(t: Tables, b: PieceBlock, c: PieceBlock)
    requires 0 <= b.block < t.width && 0 <= c.block < t.width && b != c
    ensures Serial(t, b) != Serial(t, c)
  {
    if b.piece < c.piece {
      Wider(b.piece, c.piece, t.width);
    } else if c.piece < b.piece {
      Wider(c.piece, b.piece, t.width);
    }
  }

  /** More pickable blocks than there are blocks cannot all differ. */
  lemma TooMany(t: Tables, r: Request, blocks: seq<PieceBlock>, m: nat)
    requires t.Ok() && m <= |blocks| && m > |t.pm| * t.width && forall i :: 0 <= i < m ==> Pickable(t, r, blocks[i])
    ensures !NoRepeats(blocks)
  {
    hide TableOk, Pickable, Serial;
    if NoRepeats(blocks) {
      var serials := seq(m, i requires 0 <= i < m => Serial(t, blocks[i]));
      forall i | 0 <= i < m
        ensures 0 <= serials[i] < |t.pm| * t.width
      {
        InsideWidth(t, r, blocks[i]);
        SerialInside(t, blocks[i]);
      }
      forall i, j | 0 <= i < j < m
        ensures serials[i] != serials[j]
      {
        InsideWidth(t, r, blocks[i]);
        InsideWidth(t, r, blocks[j]);
        SerialsDiffer(t, blocks[i], blocks[j]);
      }
      RangeSize(serials, 0, m);
      SubrangeSize(set k | 0 <= k < m :: serials[k], |t.pm| * t.width);
      assert false;
    }
  }

  lemma InsideWidth(t: Tables, r: Request, b: PieceBlock)
    requires t.Ok() && Pickable(t, r, b)
    ensures 0 <= b.piece < |t.pm| && 0 <= b.block < t.width
  {
    hide Find, Allocated, Counted;
  }

  /**
    Exactly, with distinct suggestions, if more blocks are asked for than there are: the pick repeats a block unless
    pieces are taken once only. That is so if at most one piece at a time is preferred or no two neighbouring pieces can
    be picked; or, in the random mode, if every range of pieces fits into one run and the start lies inside none.
   */
  lemma RepeatsExactly(t: Tables, r: Request, suggested: seq<int>, seeds: nat, start: int, blocks: seq<PieceBlock>)
    requires t.Ok() && r.Ok(t) && FullPick(t, r, suggested, seeds, start, blocks)
    requires VisitsAll(t, r, suggested, seeds) && NoRepeats(suggested) && r.numBlocks > |t.pm| * t.width
    requires r.strict <==> TakesOnce(t, r, suggested, start)
    ensures NoRepeats(blocks) <==> TakesOnce(t, r, suggested, start)
  {
    hide Pickable, NoRepeats, TableOk, TakesOnce, Crowded, VisitsAll;
    if !TakesOnce(t, r, suggested, start) {
      CrowdedOtherwise(t, r, suggested, seeds, start);
      var m: nat :| Split(t, r, blocks, m) && Leaves(t, r, suggested, seeds, start, blocks, m);
      if m >= r.numBlocks { TooMany(t, r, blocks, m); }
    }
  }

  /** The same, whatever is asked for, if the pick comes up short. */
  lemma ShortPickRepeats(t: Tables, r: Request, suggested: seq<int>, seeds: nat, start: int, blocks: seq<PieceBlock>)
    requires r.Ok(t) && FullPick(t, r, suggested, seeds, start, blocks) && |blocks| < r.numBlocks
    requires VisitsAll(t, r, suggested, seeds) && NoRepeats(suggested)
    requires r.strict <==> TakesOnce(t, r, suggested, start)
    ensures NoRepeats(blocks) <==> TakesOnce(t, r, suggested, start)
  {
    hide Pickable, NoRepeats, TakesOnce, Crowded, VisitsAll;
    if !TakesOnce(t, r, suggested, start) { CrowdedOtherwise(t, r, suggested, seeds, start); }
  }
}
