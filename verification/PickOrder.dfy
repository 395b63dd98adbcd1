/** What the order of a pick means, mode by mode, for requests that nothing disturbs. */
module PickOrder {
  import opened PieceRecords
  import opened DownloadTable
  import opened PickedBlocks
  import opened BlockPicking

  /** Blocks rather than whole pieces are asked for, no piece is partially downloaded, and none is suggested. */
  ghost predicate Undisturbed(t: Tables, r: Request, seeds: nat, start: int) {
    t.Ok() && r.Ok(t) && r.preferWhole == 0 && t.ds == [] && r.course == Course([], seeds, start)
  }

  /** A pickable block of a piece that the walk comes to before that of block `i` has been returned before it. */
  lemma EarlierIsBefore(t: Tables, r: Request, seeds: nat, start: int, blocks: seq<PieceBlock>, m: nat, i: int,
                        b: PieceBlock)
    requires Undisturbed(t, r, seeds, start) && Split(t, r, blocks, m) && 0 <= i < m && Pickable(t, r, b)
    requires Reached(t, r, [], seeds, b.piece) && Earlier(t, r, b.piece, blocks[i].piece)
    ensures b in blocks[..i]
  {
    hide PiecePos.Priority, Earlier, Reached;
    assert Precedes(t, r, b, blocks[..m][i]);
    assert blocks[..m][..i] == blocks[..i];
  }

  /** An unfiltered piece, as there are no partial ones. */
  lemma PickableIsWanted(t: Tables, r: Request, seeds: nat, start: int, b: PieceBlock)
    requires Undisturbed(t, r, seeds, start) && Pickable(t, r, b)
    ensures Wanted(t, r.bits, b.piece) && !t.pm[b.piece].downloading
  {
  }

  lemma SplitIsPickable(t: Tables, r: Request, blocks: seq<PieceBlock>, m: nat)
    requires Split(t, r, blocks, m)
    ensures m <= |blocks| && forall i :: 0 <= i < m ==> 0 <= blocks[i].piece < |t.pm| && Pickable(t, r, blocks[i])
    ensures forall b :: Pickable(t, r, b) ==> 0 <= b.piece < |t.pm|
  {
  }

  /** Of the first `m` blocks, none stands before a pickable one of a piece of lower priority number. */
  ghost predicate RarerBefore(t: Tables, r: Request, seeds: nat, blocks: seq<PieceBlock>, m: nat)
    requires Split(t, r, blocks, m)
  {
    forall i, b ::
      (&& 0 <= i < m && Pickable(t, r, b)
       && 0 <= t.pm[b.piece].Priority(seeds) < t.pm[blocks[i].piece].Priority(seeds)) ==>
        b in blocks[..i]
  }

  /** None stands before one whose priority comes first in a walk by fours from the top, upwards in each four. */
  ghost predicate MoreCommonBefore(t: Tables, r: Request, seeds: nat, blocks: seq<PieceBlock>, m: nat)
    requires Split(t, r, blocks, m)
  {
    forall i, b ::
      (&& 0 <= i < m && Pickable(t, r, b) && 0 <= t.pm[b.piece].Priority(seeds)
       && MoreCommon(t.pm[b.piece].Priority(seeds), t.pm[blocks[i].piece].Priority(seeds))) ==>
        b in blocks[..i]
  }

  ghost predicate LowerBefore(t: Tables, r: Request, blocks: seq<PieceBlock>, m: nat)
    requires Split(t, r, blocks, m)
  {
    forall i, b :: 0 <= i < m && Pickable(t, r, b) && b.piece < blocks[i].piece ==> b in blocks[..i]
  }

  ghost predicate HigherBefore(t: Tables, r: Request, blocks: seq<PieceBlock>, m: nat)
    requires Split(t, r, blocks, m)
  {
    forall i, b :: 0 <= i < m && Pickable(t, r, b) && b.piece > blocks[i].piece ==> b in blocks[..i]
  }

  /** Rarest first. */
  lemma RarestFirst(t: Tables, r: Request, seeds: nat, start: int, blocks: seq<PieceBlock>)
    requires Undisturbed(t, r, seeds, start) && FullPick(t, r, [], seeds, start, blocks)
    requires r.options.rarestFirst && !r.options.sequential && !r.options.reverse
    ensures exists m: nat :: Split(t, r, blocks, m) && Leaves(t, r, [], seeds, start, blocks, m) &&
              RarerBefore(t, r, seeds, blocks, m)
  {
    hide TableOk, Leaves, Split, Pickable, PiecePos.Priority;
    var m: nat :| Split(t, r, blocks, m) && Leaves(t, r, [], seeds, start, blocks, m);
    SplitIsPickable(t, r, blocks, m);
    forall i, b | (&& 0 <= i < m && Pickable(t, r, b)
                   && 0 <= t.pm[b.piece].Priority(seeds) < t.pm[blocks[i].piece].Priority(seeds))
      ensures b in blocks[..i]
    {
      PickableIsWanted(t, r, seeds, start, b);
      EarlierIsBefore(t, r, seeds, start, blocks, m, i, b);
    }
    assert RarerBefore(t, r, seeds, blocks, m);
  }

  /** Rarest first with the reverse option. */
  lemma MostCommonFirst(t: Tables, r: Request, seeds: nat, start: int, blocks: seq<PieceBlock>)
    requires Undisturbed(t, r, seeds, start) && FullPick(t, r, [], seeds, start, blocks)
    requires r.options.rarestFirst && !r.options.sequential && r.options.reverse
    ensures exists m: nat :: Split(t, r, blocks, m) && Leaves(t, r, [], seeds, start, blocks, m) &&
              MoreCommonBefore(t, r, seeds, blocks, m)
  {
    hide TableOk, Leaves, Split, Pickable, PiecePos.Priority, MoreCommon;
    var m: nat :| Split(t, r, blocks, m) && Leaves(t, r, [], seeds, start, blocks, m);
    SplitIsPickable(t, r, blocks, m);
    forall i, b | (&& 0 <= i < m && Pickable(t, r, b) && 0 <= t.pm[b.piece].Priority(seeds)
                   && MoreCommon(t.pm[b.piece].Priority(seeds), t.pm[blocks[i].piece].Priority(seeds)))
      ensures b in blocks[..i]
    {
      PickableIsWanted(t, r, seeds, start, b);
      EarlierIsBefore(t, r, seeds, start, blocks, m, i, b);
    }
    assert MoreCommonBefore(t, r, seeds, blocks, m);
  }

  /** Sequentially, from either end. */
  lemma InSequence(t: Tables, r: Request, seeds: nat, start: int, blocks: seq<PieceBlock>)
    requires Undisturbed(t, r, seeds, start) && FullPick(t, r, [], seeds, start, blocks) && r.options.sequential
    ensures exists m: nat :: Split(t, r, blocks, m) && Leaves(t, r, [], seeds, start, blocks, m) &&
              if r.options.reverse then HigherBefore(t, r, blocks, m) else LowerBefore(t, r, blocks, m)
  {
    hide TableOk, Leaves, Split, Pickable, PiecePos.Priority;
    var m: nat :| Split(t, r, blocks, m) && Leaves(t, r, [], seeds, start, blocks, m);
    SplitIsPickable(t, r, blocks, m);
    forall i, b | (&& 0 <= i < m && Pickable(t, r, b)
                   && if r.options.reverse then b.piece > blocks[i].piece else b.piece < blocks[i].piece)
      ensures b in blocks[..i]
    {
      PickableIsWanted(t, r, seeds, start, b);
      EarlierIsBefore(t, r, seeds, start, blocks, m, i, b);
    }
    assert if r.options.reverse then HigherBefore(t, r, blocks, m) else LowerBefore(t, r, blocks, m);
  }
}
