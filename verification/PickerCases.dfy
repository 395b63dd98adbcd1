/** Inputs at which a property one would expect of the picker fails. */
module PickerCases {
  import opened PieceRecords
  import opened PieceSurvey
  import opened DownloadTable
  import opened PickedBlocks
  import opened WholeRuns
  import opened RandomWalk
  import opened BlockPicking
  import opened PiecePicking
  import B = Buckets

  // ----- the count of missing runs -----

  /** Of three pieces, all had, the middle one is lost: there is one run more. */
  lemma MiddleLost(pm: seq<PiecePos>)
    requires |pm| == 3 && forall i :: 0 <= i < 3 ==> pm[i].Have()
    ensures MissingRuns(pm) == 0 && MissingRuns(SetIndex(pm, 1, 0)) == 1
  {
    hide Tally;
    TallyNone(RunStarts(HaveFlags(pm)));
    DepartureChangesRuns(pm, 1);
  }

  /** The same, done to a picker: it goes on counting no runs although there is one. */
  method LosesMiddle() returns (p: PiecePicker)
    ensures fresh(p) && p.Valid() && p.sparseRegions == 0 && MissingRuns(p.pieceMap) == 1
  {
    hide SurveyOk, TableOk, B.Ok, MissingRuns, Blocks, Sorted, HaveFlags;
    p := new PiecePicker(1, 3);
    ghost var pm := p.pieceMap;
    p.WeHave(0);
    ghost var pm0 := p.pieceMap;
    Arrived(pm, 0, pm0);
    p.WeHave(1);
    ghost var pm1 := p.pieceMap;
    Arrived(pm0, 1, pm1);
    p.WeHave(2);
    ghost var pm2 := p.pieceMap;
    Arrived(pm1, 2, pm2);
    MiddleLost(pm2);
    p.WeDontHave(1);
    Moved(SetIndex(pm2, 1, 0), p.pieceMap);
  }

  lemma Arrived(pm: seq<PiecePos>, i: int, pm': seq<PiecePos>)
    requires 0 <= i < |pm| && Repositioned(pm[i := pm[i].(downloading := false, index := WE_HAVE_INDEX)], pm')
    ensures |pm'| == |pm| && pm'[i].Have() && !pm'[i].downloading && forall j :: 0 <= j < |pm| && j != i ==>
            pm'[j].Have() == pm[j].Have()
    ensures forall j :: 0 <= j < |pm| && j != i ==> pm'[j].downloading == pm[j].downloading
  {
  }

  lemma Moved(pm: seq<PiecePos>, pm': seq<PiecePos>)
    requires Repositioned(pm, pm')
    ensures MissingRuns(pm') == MissingRuns(pm)
  {
    assert HaveFlags(pm') == HaveFlags(pm);
  }

  // ----- the order of the download table -----

  const WRITING := BlockInfo(0, 0, Writing)

  const PARTIAL := PiecePos(1, true, 1, 0)
  const FIRST := Download(0, NoSpeed, 0, 0, 2, 0)
  const SECOND := Download(1, NoSpeed, 1, 0, 2, 0)

  /** Two entries with two blocks being written each; the first loses one of them, is not idle and stays in front. */
  lemma FirstOfEqualsFails()
    ensures var row := [WRITING, WRITING];
            && TableOk([PARTIAL, PARTIAL], [FIRST, SECOND], [row, row], 2, 2) && Sorted([FIRST, SECOND])
            && ActiveBlocks([FRESH_BLOCK, WRITING], 2) == 1
            && !Sorted([Recount(FIRST, Writing, NoState, NoSpeed), SECOND])
  {
    hide TableOk, CountState, ActiveBlocks, Sorted;
    EqualsAreOk();
    TwoWritten();
    OrderOfTwo(FIRST, SECOND);
    OrderOfTwo(Recount(FIRST, Writing, NoState, NoSpeed), SECOND);
  }

  lemma OrderOfTwo(a: Download, b: Download)
    ensures Sorted([a, b]) <==> a.Complete() >= b.Complete()
  {
    var ds := [a, b];
    assert ds[0] == a && ds[1] == b;
  }

  lemma EqualsAreOk()
    ensures var row := [WRITING, WRITING]; TableOk([PARTIAL, PARTIAL], [FIRST, SECOND], [row, row], 2, 2)
  {
    hide Describes, CountState, Find;
    var ds, row := [FIRST, SECOND], [WRITING, WRITING];
    TwoWritten();
    assert Find(ds, 0) < 2 && Find(ds, 1) < 2 by {
      FindUnique(ds, 0);
      FindUnique(ds, 1);
    }
  }

  lemma TwoWritten()
    ensures var row := [WRITING, WRITING];
            Describes(FIRST, row, 2) && Describes(SECOND, row, 2)
    ensures ActiveBlocks([FRESH_BLOCK, WRITING], 2) == 1
  {
    var row, less := [WRITING, WRITING], [FRESH_BLOCK, WRITING];
    assert forall s :: CountState(row, 1, s) == if s == Writing then 1 else 0;
    assert forall s :: CountState(row, 2, s) == if s == Writing then 2 else 0;
    assert forall s :: CountState(less, 1, s) == if s == NoState then 1 else 0;
    assert forall s :: CountState(less, 2, s) == if s == NoState || s == Writing then 1 else 0;
  }

  // ----- an entry for a piece that is had -----

  /** The only piece is had; marking its block as finished gives it an entry again. */
  method FinishesHad() returns (p: PiecePicker)
    ensures fresh(p) && !p.Valid()
  {
    hide SurveyOk, TableOk, B.Ok, MissingRuns, Sorted, HaveFlags, Find;
    p := new PiecePicker(1, 1);
    ghost var pm := p.pieceMap;
    p.WeHave(0);
    Arrived(pm, 0, p.pieceMap);
    UnflaggedHasNoBlocks(p.pieceMap, p.downloads, p.blockInfo, p.blocksPerPiece, p.blocksInLastPiece, 0);
    BlocksThere(p);
    p.MarkAsFinished(0, 0, 0);
  }

  lemma BlocksThere(p: PiecePicker)
    requires p.Valid() && |p.pieceMap| == 1
    ensures p.BlocksInPiece(0) > 0
  {
    hide SurveyOk, B.Ok, Allocated, Counted, Flagged;
  }

  // ----- picking blocks -----

  const RANDOM := Options(false, false, false, false, false, false, false)
  const PARTIALS_FIRST := RANDOM.(prioritizePartials := true)
  const MISSING := PiecePos(1, false, 1, 0)

  /** Pieces of one block each that nobody has started. */
  ghost function Pieces(n: nat): Tables {
    Tables(seq(n, _ => MISSING), [], [], 1, 1)
  }

  /** The peer has all of them; ten blocks are asked for, two pieces at a time. */
  ghost function TwoAtATime(n: nat, start: int): Request {
    Effective(Pieces(n), seq(n, _ => true), 10, 2, 7, Slow, RANDOM, Course([], 0, start))
  }

  lemma PiecesAreOk(n: nat, start: int)
    ensures Pieces(n).Ok() && TwoAtATime(n, start).Ok(Pieces(n)) && TwoAtATime(n, start).numBlocks == 10
    ensures FromRandom(TwoAtATime(n, start)) && TwoAtATime(n, start).preferWhole == 2
    ensures TwoAtATime(n, start).strict <==> TakesOnce(Pieces(n), TwoAtATime(n, start), [], start)
    ensures forall p :: 0 <= p < n ==> CanPick(Pieces(n), TwoAtATime(n, start).bits, p)
  {
    hide TakesOnce;
    var r := TwoAtATime(n, start);
    StrictIsNoMatter(Pieces(n), r.(strict := false), [], start, r.strict);
    assert r.(strict := false).(strict := r.strict) == r;
  }

  lemma NoneSuggested()
    ensures NoRepeats<int>([])
  {
  }

  /** Three neighbouring pieces of one block each, two at a time: from every start the pick repeats a block. */
  lemma ThreeInARow(start: int, blocks: seq<PieceBlock>)
    requires 0 <= start < 3 && FullPick(Pieces(3), TwoAtATime(3, start), [], 0, start, blocks)
    ensures !NoRepeats(blocks)
  {
    hide FullPick, NoRepeats, Effective, CanPick;
    var t, r := Pieces(3), TwoAtATime(3, start);
    PiecesAreOk(3, start);
    NoneSuggested();
    RepeatsExactly(t, r, [], 0, start, blocks);
    assert Neighbours(t, r.bits, 0);
    assert Stretch(t, r, [], 0);
  }

  /** Two of them: from the first piece the pick takes each once, from the second it repeats a block. */
  lemma TwoInARow(start: int, blocks: seq<PieceBlock>)
    requires 0 <= start < 2 && FullPick(Pieces(2), TwoAtATime(2, start), [], 0, start, blocks)
    ensures NoRepeats(blocks) <==> start == 0
  {
    hide FullPick, NoRepeats, Effective, CanPick;
    var t, r := Pieces(2), TwoAtATime(2, start);
    PiecesAreOk(2, start);
    NoneSuggested();
    RepeatsExactly(t, r, [], 0, start, blocks);
    assert Neighbours(t, r.bits, 0);
    assert forall a :: !Stretch(t, r, [], a);
    assert Interior(t, r, [], start) <==> start == 1;
  }

  /** Two pieces of one block each that one peer and five peers have. */
  const RARE_AND_COMMON := Tables([PiecePos(1, false, 1, 0), PiecePos(5, false, 1, 1)], [], [], 1, 1)

  ghost function OneBlock(reverse: bool): Request {
    Effective(RARE_AND_COMMON, [true, true], 1, 0, 7, Slow, RANDOM.(rarestFirst := true, reverse := reverse),
              Course([], 0, 0))
  }

  /** Asked for one block, the pick returns that of the rarer piece, or in reverse that of the more common one. */
  lemma RarerOfTwo(reverse: bool, blocks: seq<PieceBlock>)
    requires FullPick(RARE_AND_COMMON, OneBlock(reverse), [], 0, 0, blocks)
    ensures blocks == [PieceBlock(if reverse then 1 else 0, 0)]
  {
    hide TakesOnce, Crowded, Arranged;
    var t, r := RARE_AND_COMMON, OneBlock(reverse);
    var m: nat :| Split(t, r, blocks, m) && Leaves(t, r, [], 0, 0, blocks, m);
    var first, other := PieceBlock(if reverse then 1 else 0, 0), PieceBlock(if reverse then 0 else 1, 0);
    assert t.pm[0].Priority(0) == 7 && t.pm[1].Priority(0) == 23;
    assert Pickable(t, r, first) && Reached(t, r, [], 0, first.piece) && Precedes(t, r, first, other);
    NobodyAsked(t, r);
    assert m > 0;
    assert Pickable(t, r, blocks[0]);
    assert blocks[0] == other ==> Precedes(t, r, first, blocks[..m][0]);
    NoneBeforeFirst(t, r, blocks[..m], first);
  }

  lemma NobodyAsked(t: Tables, r: Request)
    requires t.ds == []
    ensures forall b :: !AskedElsewhere(t, r, b)
  {
  }

  lemma NoneBeforeFirst(t: Tables, r: Request, blocks: seq<PieceBlock>, b: PieceBlock)
    requires Arranged(t, r, blocks) && blocks != []
    ensures !Precedes(t, r, b, blocks[0])
  {
  }

  const HALF_ASKED := Tables([PiecePos(1, true, 0, 0)], [Download(0, Slow, 0, 0, 0, 1)],
                             [[BlockInfo(5, 1, Requested), FRESH_BLOCK]], 2, 2)

  /** A filtered piece of two blocks, one of them asked for: with partial pieces first, the other is returned. */
  lemma FilteredPartial(blocks: seq<PieceBlock>)
    requires var r := Effective(HALF_ASKED, [true], 10, 0, 7, Slow, PARTIALS_FIRST, Course([], 0, 0));
             FullPick(HALF_ASKED, r, [], 0, 0, blocks)
    ensures HALF_ASKED.Ok() && HALF_ASKED.pm[0].Filtered() && PieceBlock(0, 1) in blocks
  {
    hide TakesOnce, Crowded;
    var t := HALF_ASKED;
    var r := Effective(t, [true], 10, 0, 7, Slow, PARTIALS_FIRST, Course([], 0, 0));
    var m: nat :| Split(t, r, blocks, m) && Leaves(t, r, [], 0, 0, blocks, m);
    assert Find(t.ds, 0) == 0 && t.Row(0) == [BlockInfo(5, 1, Requested), FRESH_BLOCK];
    OneAsked();
    assert BlockSizes(1, 2, 2) == [2];
    if m < 10 {
      assert Pickable(t, r, PieceBlock(0, 1)) && Reached(t, r, [], 0, 0);
    } else {
      assert Pickable(t, r, blocks[0]);
      assert blocks[0] == PieceBlock(0, 1);
    }
  }

  lemma OneAsked()
    ensures Describes(Download(0, Slow, 0, 0, 0, 1), [BlockInfo(5, 1, Requested), FRESH_BLOCK], 2)
  {
    var row := [BlockInfo(5, 1, Requested), FRESH_BLOCK];
    assert forall s :: CountState(row, 1, s) == if s == Requested then 1 else 0;
    assert forall s :: CountState(row, 2, s) == if s == Requested || s == NoState then 1 else 0;
  }
}
