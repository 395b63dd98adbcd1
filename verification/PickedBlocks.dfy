/** The lists of blocks that a pick fills, and what it may put on them. */
module PickedBlocks {
  import opened PieceRecords
  import opened DownloadTable

  datatype PieceBlock = PieceBlock(piece: int, block: int)

  datatype Options = Options(rarestFirst: bool, reverse: bool, onParole: bool, prioritizePartials: bool,
                             sequential: bool, speedAffinity: bool, ignoreWholePieces: bool)

  /** What else steers a pick: the suggested pieces, the number of seeds and the start of a random walk. */
  datatype Course = Course(suggested: seq<int>, seeds: nat, start: int)

  /** What is asked for: `bits` are the pieces the peer has. `strict` marks the picks that must not repeat a block. */
  datatype Request = Request(bits: seq<bool>, numBlocks: int, preferWhole: nat, peer: nat, speed: Speed,
                             options: Options, ghost strict: bool, ghost course: Course) {
    ghost predicate Ok(t: Tables) {
      |bits| == |t.pm|
    }
  }

  /** Neither in sequential nor in rarest-first mode. */
  predicate FromRandom(r: Request) {
    !r.options.sequential && !r.options.rarestFirst
  }

  /** The picker's tables, as far as block picking reads them. */
  datatype Tables = Tables(pm: seq<PiecePos>, ds: seq<Download>, rows: seq<seq<BlockInfo>>, width: nat, last: nat) {
    ghost predicate Ok() {
      TableOk(pm, ds, rows, width, last)
    }

    function Size(p: int): nat {
      if p + 1 == |pm| then last else width
    }

    function Entry(p: int): (i: nat)
      ensures i <= |ds|
    {
      Find(ds, p)
    }

    ghost function Row(p: int): seq<BlockInfo> {
      Blocks(ds, rows, p)
    }
  }

  /** The lists being filled and the number of blocks still wanted. */
  datatype Picked = Picked(interesting: seq<PieceBlock>, backup: seq<PieceBlock>, backup2: seq<PieceBlock>,
                           numBlocks: int) {
    ghost predicate Lists(b: PieceBlock) {
      b in interesting || b in backup || b in backup2
    }

    /** No block is listed twice, in whichever list. */
    ghost predicate Distinct() {
      && NoRepeats(interesting) && NoRepeats(backup) && NoRepeats(backup2)
      && (forall b :: b in interesting ==> b !in backup && b !in backup2)
      && (forall b :: b in backup ==> b !in backup2)
    }
  }

  ghost predicate NoRepeats<T>(s: seq<T>) {
    forall i, j :: 0 <= i < j < |s| ==> s[i] != s[j]
  }

  /** Only `peer` has been asked for, or has delivered, blocks of this row. */
  ghost predicate Exclusive(row: seq<BlockInfo>, n: nat, peer: nat) {
    forall j :: 0 <= j < n <= |row| && row[j].state != NoState ==> row[j].peer == peer
  }

  /** No other connected peer is being asked for a block of this row. */
  ghost predicate ExclusiveActive(row: seq<BlockInfo>, n: nat, peer: nat) {
    forall j :: 0 <= j < n <= |row| && row[j].state == Requested ==> row[j].peer == peer || row[j].peer == 0
  }

  /** A piece the peer has, we lack, want and have not started. */
  predicate CanPick(t: Tables, bits: seq<bool>, p: int)
    requires 0 <= p < |t.pm| == |bits|
  {
    bits[p] && !t.pm[p].Have() && !t.pm[p].downloading && !t.pm[p].Filtered()
  }

  /** A piece the peer has, we lack and want. */
  predicate IsPieceFree(t: Tables, bits: seq<bool>, p: int)
    requires 0 <= p < |t.pm| == |bits|
  {
    bits[p] && !t.pm[p].Have() && !t.pm[p].Filtered()
  }

  ghost predicate Wanted(t: Tables, bits: seq<bool>, p: int) {
    0 <= p < |t.pm| == |bits| && IsPieceFree(t, bits, p)
  }

  /** The pieces that are passed over because they were dealt with before. */
  ghost predicate Handled(t: Tables, r: Request, ignore: seq<int>, p: int) {
    p in ignore || (0 <= p < |t.pm| && t.pm[p].downloading && r.options.prioritizePartials)
  }

  /** Wanted pieces that are passed over have been dealt with. */
  ghost predicate HandledSeen(t: Tables, r: Request, ignore: seq<int>, seen: set<int>) {
    forall p :: Wanted(t, r.bits, p) && Handled(t, r, ignore, p) ==> p in seen
  }

  /** Two neighbouring pieces that can both be picked. */
  ghost predicate Neighbours(t: Tables, bits: seq<bool>, p: int) {
    0 <= p && p + 1 < |t.pm| == |bits| && CanPick(t, bits, p) && CanPick(t, bits, p + 1)
  }

  /** A preference for `whole` pieces never takes more than one piece at a time. */
  ghost predicate SingleRuns(t: Tables, bits: seq<bool>, whole: nat) {
    whole <= 1 || forall p :: !Neighbours(t, bits, p)
  }

  /** If no block may repeat, then because pieces are taken one at a time. */
  ghost predicate Orderly(t: Tables, r: Request) {
    r.strict ==> SingleRuns(t, r.bits, r.preferWhole)
  }

  /** A block we may newly ask this peer for; filtered pieces are passed over, unless partial pieces come first. */
  ghost predicate Pickable(t: Tables, r: Request, b: PieceBlock) {
    && 0 <= b.piece < |t.pm| == |r.bits|
    && r.bits[b.piece] && !t.pm[b.piece].Have()
    && 0 <= b.block < t.Size(b.piece)
    && (t.pm[b.piece].downloading ==>
          && b.block < |t.Row(b.piece)|
          && t.Row(b.piece)[b.block].state == NoState
          && (r.options.onParole ==> Exclusive(t.Row(b.piece), t.Size(b.piece), r.peer)))
    && (t.pm[b.piece].Filtered() ==> t.pm[b.piece].downloading && r.options.prioritizePartials)
  }

  /** A block of an unfiltered piece that some other peer is already asked for. */
  ghost predicate AskedElsewhere(t: Tables, r: Request, b: PieceBlock) {
    && 0 <= b.piece < |t.pm| == |r.bits|
    && r.bits[b.piece] && !t.pm[b.piece].Have() && !t.pm[b.piece].Filtered()
    && 0 <= b.block < t.Size(b.piece)
    && b.block < |t.Row(b.piece)|
    && t.Row(b.piece)[b.block].state == Requested
    && t.Row(b.piece)[b.block].peer != r.peer
  }

  // ----- the order of a pick -----

  /**
    The pieces that a pick looks at: partial ones if they come first, the suggested ones, and those of its main walk.
   */
  ghost predicate Reached(t: Tables, r: Request, suggested: seq<int>, seeds: nat, p: int) {
    && 0 <= p < |t.pm| == |r.bits| && r.bits[p]
    && (|| (r.options.prioritizePartials && t.pm[p].downloading)
        || (Wanted(t, r.bits, p) &&
            (|| p in suggested || r.options.sequential || (r.options.rarestFirst && t.pm[p].Priority(seeds) >= 0)
             || (FromRandom(r) && !t.pm[p].downloading))))
  }

  /** How far `p` lies behind `start` on the circle of `n` pieces. */
  function Ahead(start: int, p: int, n: int): int {
    if p >= start then p - start else p - start + n
  }

  /** Partial pieces, if they come first; then the suggested ones; then the others. */
  ghost function Stage(t: Tables, r: Request, p: int): int {
    if 0 <= p < |t.pm| && t.pm[p].downloading && r.options.prioritizePartials then 0
    else if p in r.course.suggested then 1 else 2
  }

  /**
    The main walk comes to `p` before `q`: by number; by priority, the rarest first; the most common first, but within
    four neighbouring priorities the lowest; or on the circle from the random start.
   */
  ghost predicate Earlier(t: Tables, r: Request, p: int, q: int)
    requires 0 <= p < |t.pm| && 0 <= q < |t.pm|
  {
    var a, b := t.pm[p].Priority(r.course.seeds), t.pm[q].Priority(r.course.seeds);
    if r.options.sequential then if r.options.reverse then p > q else p < q
    else if r.options.rarestFirst then if r.options.reverse then MoreCommon(a, b) else a < b
    else Ahead(r.course.start, p, |t.pm|) < Ahead(r.course.start, q, |t.pm|)
  }

  ghost predicate MoreCommon(a: int, b: int) {
    a / PRIO_FACTOR > b / PRIO_FACTOR || (a / PRIO_FACTOR == b / PRIO_FACTOR && a % PRIO_FACTOR < b % PRIO_FACTOR)
  }

  /** Where `p` first occurs in `s`, or the length of `s`. */
  ghost function FirstIn(s: seq<int>, p: int): (i: nat)
    ensures i <= |s| && (i < |s| ==> s[i] == p) && forall k :: 0 <= k < i ==> s[k] != p
  {
    if s == [] || s[0] == p then 0 else 1 + FirstIn(s[1..], p)
  }

  /** Partial pieces are taken in the order of the table, suggested ones as suggested. */
  ghost predicate Sooner(t: Tables, r: Request, p: int, q: int) {
    && 0 <= p < |t.pm| && 0 <= q < |t.pm|
    && (|| Stage(t, r, p) < Stage(t, r, q)
        || (Stage(t, r, p) == Stage(t, r, q) == 0 && t.Entry(p) < t.Entry(q))
        || (Stage(t, r, p) == Stage(t, r, q) == 1 && FirstIn(r.course.suggested, p) < FirstIn(r.course.suggested, q))
        || (Stage(t, r, p) == Stage(t, r, q) == 2 && Earlier(t, r, p, q)))
  }

  datatype Target = Interesting | Backup | Backup2

  ghost predicate OneApart(a: Speed, b: Speed) {
    || (a == NoSpeed && b == Slow) || (a == Slow && b == NoSpeed) || (a == Slow && b == Medium)
    || (a == Medium && b == Slow) || (a == Medium && b == Fast) || (a == Fast && b == Medium)
  }

  /**
    How much the blocks of a piece are wanted. A piece that no other peer is being asked for is as good as an unstarted
    one. Otherwise, if whole pieces are preferred, it is the last resort; and with speed affinity a piece that peers
    of another speed work on is a backup, and a last resort if their speed is not next to that of this peer.
   */
  ghost function TargetOf(t: Tables, r: Request, p: int): Target {
    if !(0 <= p < |t.pm|) || !t.pm[p].downloading || t.Entry(p) == |t.ds| then Interesting
    else if ExclusiveActive(t.Row(p), t.Size(p), r.peer) then Interesting
    else if r.preferWhole > 0 then Backup2
    else
      var speed := t.ds[t.Entry(p)].state;
      if !r.options.speedAffinity || speed == NoSpeed || speed == r.speed then Interesting
      else if OneApart(speed, r.speed) then Backup else Backup2
  }

  ghost function Choice(x: Target): int {
    match x case Interesting => 0 case Backup => 1 case Backup2 => 2
  }

  /** Backups are used after the partial pieces that come first, and again at the end. */
  ghost function Group(t: Tables, r: Request, p: int): int {
    if Stage(t, r, p) == 0 then 0 else 1
  }

  /**
    A block that has to be asked for before `c`: of a partial piece that comes first, of a better choice, or, unless
    whole pieces are preferred, of a piece that comes sooner, or standing before `c` in its piece.
   */
  ghost predicate Precedes(t: Tables, r: Request, b: PieceBlock, c: PieceBlock) {
    && Pickable(t, r, b) && Reached(t, r, r.course.suggested, r.course.seeds, b.piece)
    && (|| Group(t, r, b.piece) < Group(t, r, c.piece)
        || (Group(t, r, b.piece) == Group(t, r, c.piece) && (Better(t, r, b, c) || EquallyGood(t, r, b, c))))
  }

  ghost predicate Better(t: Tables, r: Request, b: PieceBlock, c: PieceBlock) {
    Choice(TargetOf(t, r, b.piece)) < Choice(TargetOf(t, r, c.piece))
  }

  ghost predicate EquallyGood(t: Tables, r: Request, b: PieceBlock, c: PieceBlock) {
    && TargetOf(t, r, b.piece) == TargetOf(t, r, c.piece) && r.preferWhole == 0
    && (Sooner(t, r, b.piece, c.piece) || (b.piece == c.piece && b.block < c.block))
  }

  /** Every block stands behind all those that precede it. */
  ghost predicate Arranged(t: Tables, r: Request, blocks: seq<PieceBlock>) {
    forall i, b :: 0 <= i < |blocks| && Precedes(t, r, b, blocks[i]) ==> b in blocks[..i]
  }

  /** `b` has to stand before `c` even on the list of `c`. */
  ghost predicate Leads(t: Tables, r: Request, b: PieceBlock, c: PieceBlock) {
    && Precedes(t, r, b, c)
    && (Group(t, r, b.piece) < Group(t, r, c.piece) || TargetOf(t, r, b.piece) == TargetOf(t, r, c.piece))
  }

  /** A list of backups of one kind, to be used behind `first`. */
  ghost predicate Queued(t: Tables, r: Request, first: seq<PieceBlock>, list: seq<PieceBlock>, x: Target) {
    && (forall i :: 0 <= i < |list| ==> TargetOf(t, r, list[i].piece) == x)
    && (forall i, b :: 0 <= i < |list| && Leads(t, r, b, list[i]) ==> b in first || b in list[..i])
  }

  ghost predicate InTurn(t: Tables, r: Request, s: Picked) {
    && Arranged(t, r, s.interesting)
    && Queued(t, r, s.interesting, s.backup, Backup) && Queued(t, r, s.interesting, s.backup2, Backup2)
  }

  /** `b` is on the list for `x`, or was moved from there to the first. */
  ghost predicate OnList(s: Picked, x: Target, b: PieceBlock) {
    b in s.interesting || (x.Backup? && b in s.backup) || (x.Backup2? && b in s.backup2)
  }

  /** The list for `x` would do without the others. */
  ghost predicate Enough(s: Picked, x: Target) {
    (x.Backup? && |s.backup| >= s.numBlocks) || (x.Backup2? && |s.backup2| >= s.numBlocks)
  }

  /** Block `b` is the next one for its list. */
  ghost predicate Due(t: Tables, r: Request, s: Picked, b: PieceBlock) {
    forall c :: Leads(t, r, c, b) ==> OnList(s, TargetOf(t, r, b.piece), c)
  }

  /** The blocks of the partial pieces that come first are all there. */
  ghost predicate Begun(t: Tables, r: Request, s: Picked) {
    forall b :: Pickable(t, r, b) && Group(t, r, b.piece) == 0 ==> b in s.interesting
  }

  lemma BegunGrows(t: Tables, r: Request, s: Picked, s': Picked)
    requires s.interesting <= s'.interesting
    ensures Begun(t, r, s) ==> Begun(t, r, s')
  {
    hide Pickable, Group;
    forall b | b in s.interesting
      ensures b in s'.interesting
    {
      var i :| 0 <= i < |s.interesting| && s.interesting[i] == b;
      assert s'.interesting[i] == b;
    }
  }

  /** All pieces that come sooner than `p` have been dealt with, unless whole pieces are preferred. */
  ghost predicate SoonerSeen(t: Tables, r: Request, seen: set<int>, p: int) {
    r.preferWhole == 0 ==>
      forall q :: Reached(t, r, r.course.suggested, r.course.seeds, q) && Sooner(t, r, q, p) ==> q in seen
  }

  /** It is the turn of `p`. */
  ghost predicate Timely(t: Tables, r: Request, seen: set<int>, s: Picked, p: int) {
    (Group(t, r, p) == 1 ==> Begun(t, r, s)) && SoonerSeen(t, r, seen, p)
  }

  lemma TimelyGrows(t: Tables, r: Request, seen: set<int>, s: Picked, s': Picked, p: int)
    requires Timely(t, r, seen, s, p) && s.interesting <= s'.interesting
    ensures Timely(t, r, seen, s', p)
  {
    hide Begun, SoonerSeen, Group;
    BegunGrows(t, r, s, s');
  }

  lemma BetterIsFirst(t: Tables, r: Request, b: PieceBlock, c: PieceBlock)
    requires Precedes(t, r, b, c) && TargetOf(t, r, c.piece) == Interesting
    ensures Leads(t, r, b, c)
  {
    hide Pickable, Reached, Sooner, Group, TargetOf;
  }

  lemma PushInTurn(t: Tables, r: Request, s: Picked, b: PieceBlock, target: Target)
    requires InTurn(t, r, s) && target == TargetOf(t, r, b.piece) && Due(t, r, s, b)
    ensures InTurn(t, r, Push(s, b, target))
  {
    hide Arranged, Queued, Leads, TargetOf;
    match target {
      case Interesting => PushFirst(t, r, s, b);
      case Backup => PushQueued(t, r, s, s.backup, b, target);
      case Backup2 => PushQueued(t, r, s, s.backup2, b, target);
    }
  }

  lemma PushFirst(t: Tables, r: Request, s: Picked, b: PieceBlock)
    requires InTurn(t, r, s) && TargetOf(t, r, b.piece) == Interesting && Due(t, r, s, b)
    ensures var first := s.interesting + [b];
            && Arranged(t, r, first)
            && Queued(t, r, first, s.backup, Backup) && Queued(t, r, first, s.backup2, Backup2)
  {
    hide Precedes, Leads, TargetOf;
    var first := s.interesting + [b];
    forall i, c | 0 <= i < |first| && Precedes(t, r, c, first[i])
      ensures c in first[..i]
    {
      if i < |s.interesting| {
        assert first[..i] == s.interesting[..i];
      } else {
        assert first[..i] == s.interesting;
        BetterIsFirst(t, r, c, b);
      }
    }
  }

  lemma PushQueued(t: Tables, r: Request, s: Picked, list: seq<PieceBlock>, b: PieceBlock, x: Target)
    requires Queued(t, r, s.interesting, list, x) && TargetOf(t, r, b.piece) == x
    requires forall c :: Leads(t, r, c, b) ==> c in s.interesting || c in list
    ensures Queued(t, r, s.interesting, list + [b], x)
  {
    hide Leads, TargetOf;
    var more := list + [b];
    forall i, c | 0 <= i < |more| && Leads(t, r, c, more[i])
      ensures c in s.interesting || c in more[..i]
    {
      if i < |list| {
        assert more[..i] == list[..i];
      } else {
        assert more[..i] == list;
      }
    }
  }

  /** Block `j` of a piece whose turn it is, after those before it. */
  lemma NextIsDue(t: Tables, r: Request, seen: set<int>, s: Picked, p: int, j: int)
    requires Thorough(t, r, seen, s) && Timely(t, r, seen, s, p)
    requires r.preferWhole == 0 ==> s.numBlocks > 0 && !Enough(s, TargetOf(t, r, p))
    requires forall k :: 0 <= k < j && Pickable(t, r, PieceBlock(p, k)) ==>
                           OnList(s, TargetOf(t, r, p), PieceBlock(p, k))
    ensures Due(t, r, s, PieceBlock(p, j))
  {
    hide Reached, Sooner, Stage, TargetOf, OnList, Enough;
    var b := PieceBlock(p, j);
    forall c | Leads(t, r, c, b)
      ensures OnList(s, TargetOf(t, r, p), c)
    {
      PickableBlock(t, r, c);
      if Group(t, r, c.piece) < Group(t, r, p) {
        assert Begun(t, r, s);
        OnFirst(s, TargetOf(t, r, p), c);
      } else if c.piece == p {
        assert c == PieceBlock(p, c.block);
      } else {
        assert Sooner(t, r, c.piece, p);
        assert Found(t, r, s, c);
      }
    }
  }

  lemma PickableBlock(t: Tables, r: Request, b: PieceBlock)
    requires Pickable(t, r, b)
    ensures b.block >= 0
  {
  }

  lemma OnFirst(s: Picked, x: Target, b: PieceBlock)
    requires b in s.interesting
    ensures OnList(s, x, b)
  {
  }

  /** Half-way: everything listed is pickable and, if nothing may repeat, comes from the pieces in `seen`. */
  ghost predicate Progress(t: Tables, r: Request, seen: set<int>, s: Picked) {
    && InTurn(t, r, s)
    && (forall b :: s.Lists(b) ==> Pickable(t, r, b) && (r.strict ==> b.piece in seen))
    && (r.strict ==> s.Distinct())
    && (r.preferWhole == 0 ==> s.numBlocks >= 0 && |s.interesting| + s.numBlocks == r.numBlocks)
  }

  /** A block on its list, unless that would do without it. */
  ghost predicate Found(t: Tables, r: Request, s: Picked, b: PieceBlock) {
    OnList(s, TargetOf(t, r, b.piece), b) || Enough(s, TargetOf(t, r, b.piece))
  }

  /** Nothing is passed over: while blocks are wanted, every pickable block of the pieces in `seen` has been found. */
  ghost predicate Thorough(t: Tables, r: Request, seen: set<int>, s: Picked) {
    && (s.numBlocks > 0 ==> |s.interesting| + s.numBlocks == r.numBlocks)
    && (s.numBlocks <= 0 ==> |s.interesting| >= r.numBlocks)
    && (s.numBlocks > 0 ==> forall b :: Pickable(t, r, b) && b.piece in seen ==> Found(t, r, s, b))
  }

  /** Appends `b` to one of the lists; only the first counts towards the wanted number. */
  function Push(s: Picked, b: PieceBlock, target: Target): Picked {
    match target
    case Interesting => s.(interesting := s.interesting + [b], numBlocks := s.numBlocks - 1)
    case Backup => s.(backup := s.backup + [b])
    case Backup2 => s.(backup2 := s.backup2 + [b])
  }

  lemma PushKeepsProgress(t: Tables, r: Request, seen: set<int>, s: Picked, b: PieceBlock, target: Target)
    requires Progress(t, r, seen, s) && Pickable(t, r, b) && (r.strict ==> b.piece in seen)
    requires r.strict ==> !s.Lists(b)
    requires r.preferWhole == 0 && target.Interesting? ==> s.numBlocks > 0
    requires Due(t, r, s, b) && target == TargetOf(t, r, b.piece)
    ensures Progress(t, r, seen, Push(s, b, target)) && s.interesting <= Push(s, b, target).interesting
    ensures forall c :: Push(s, b, target).Lists(c) <==> s.Lists(c) || c == b
  {
    hide Pickable, InTurn, Due, TargetOf;
    PushInTurn(t, r, s, b, target);
  }

  lemma PushKeepsThorough(t: Tables, r: Request, seen: set<int>, s: Picked, b: PieceBlock, target: Target)
    requires Thorough(t, r, seen, s)
    ensures Thorough(t, r, seen, Push(s, b, target))
    ensures forall x, c :: OnList(s, x, c) ==> OnList(Push(s, b, target), x, c)
    ensures OnList(Push(s, b, target), target, b)
  {
    hide Pickable, TargetOf;
  }
}
