# Verified core of a BitTorrent set-top downloader

A Dafny model of the algorithms that the downloader relies on: the bundled libtorrent (piece picker, disk cache and
job queue, SHA-1, lazy bdecoding, UTF conversion, HTTP parsing, file layout, connection queue, payload accounting)
and the request path rewriting of the small web server in `im0`. Code that works by changing things step by step is
modelled as classes and methods with loops; what it promises is stated over values and proved by lemmas beside it.
`dafny verify dfyconfig.toml` checks everything.

## What is proved

**Piece picker** (`Finite`, `Buckets`, `CountingSort`, `PiecePos`, `PieceSurvey`, `DownloadTable`, `PickedBlocks`,
`WholeRuns`, `RandomWalk`, `BlockPicking`, `PiecePicker`, `PickOrder`, `PickerCases`). `m_pieces` is a list of pieces
cut into buckets by `m_priority_boundries`; `m_piece_map` holds each piece's position. `Buckets.Ok` says that every
bucket lists exactly the pieces of its priority and that positions and list are inverse; every displacement loop (`add`,
`remove`, `update`, `shuffle`) keeps it for any random choice, and the counting sort of `update_pieces` establishes it
from any dirty state. `CleanIndexIsCanonical` says that two clean indexes over the same priorities have the same bucket
boundaries and the same bucket sets, so incremental update and rebuild agree. The public operations of the class keep
`Valid`, with the two exceptions below: the index (unless dirty), the cursors, the counts of had and filtered pieces,
and the download table with its block counters. `pick_pieces` returns free blocks of pieces the peer has and we lack, no
more than asked for but for one run of whole pieces, and only if those are too few blocks asked of others; if they are
too few, no free block of a piece it looks at is overlooked, and every block asked of others is there unless the peer is
on parole. The free blocks come in order (`Arranged`): those of partial pieces first if they come first; then, of the
others, first choices before blocks of pieces that peers of a neighbouring speed work on, and those before blocks of
pieces that are a last resort; and, unless whole pieces are preferred, among equals by table entry, by suggestion, and
by the order of the mode: number, priority, its reverse in fours, or the circle from the random start. When it repeats a
block or returns one of a filtered piece is stated below.

**Disk cache** (`DiskBlocks`, `CacheLists`, `CacheUse`, `DiskCache`, `JobQueue`). The disk is a byte map; a piece's
content is the disk overlaid with its write-cached blocks. No flush changes any content, a write job changes exactly its
block, a hash job finds the whole content on disk, and the block counts always agree with the blocks. A write makes its
piece the most recently used one and no other; under the LRU policy no piece is flushed before one that was used
earlier. Over every run of the job queue a read never overtakes a queued write it overlaps, and in a sorted queue every
job goes to its place.

**SHA-1** (`Sha1Spec`, `Sha1`). The unrolled transform with renamed registers and a circular 16-word schedule, and the
streaming interface with its two-word bit counter, compute the digest of RFC 3174 for every way of cutting a message.

**Lazy bdecode** (`Decimals`, `Bencode`, `LazyEntries`, `LazyBdecode`). Entries live in an explicit memory of arrays
that move when they grow; a pointer into a freed array is not live, so every access is proved to use a valid pointer.

**UTF conversion** (`Unicode`, `UtfNumbers`, `ConvertUtf`, `UtfRoundTrips`), **HTTP parser** (`FirstLine`, `HttpParser`,
`HeaderLines`), **file storage** (`FileLayout`, `FileStorage`), **connection queue** (`ConnectionQueue`), **payload
markers** (`PayloadMarkers`) and **path rewriting** (`DotSegments`) are described by their rows below.

Where a natural property does not hold of the code, the exact condition is proved instead, with an input that fails:

- `WeDontHave` does not maintain the count of runs of missing pieces. The true number stays the same if and only if
  exactly one side of the piece touches a missing piece. `LosesMiddle` drives a picker of three pieces to a wrong count.
- `WriteFailed` lowers a piece's count of complete blocks but only ever moves an entry up. A sorted table stays sorted
  if and only if the entry was dropped, was the last one, or is still not below its successor. `FirstOfEqualsFails` is a
  table that gets out of order.
- Marking a block as writing keeps the picker consistent if and only if the block was not written already
  (`MarkAsWriting`, `MarkWritingExact`; `FinishedMarkedAsWriting` is a block counted twice). Marking a block as
  finished keeps the counters right if and only if the block was not requested (`MarkFinishedExact`;
  `RequestedMarkedAsFinished` is a block that stays counted as requested), and the picker consistent if and only if the
  piece was not already had (`MarkAsFinished`; `FinishesHad` is a picker that gets inconsistent).
- `pick_pieces` can repeat a block when whole pieces are preferred. If more blocks are asked for than there are, with
  distinct suggestions and a walk that visits every pickable piece, it repeats one if and only if a piece is taken
  twice (`RepeatsExactly`; `ShortPickRepeats` for any pick that comes up short). In the ordered modes no piece is
  taken twice if and only if at most one piece at a time is preferred or no two neighbouring pieces can be picked. In
  the random mode, without suggestions, also if every range of pickable pieces fits into one run and the start lies at
  the beginning of a range or in none. Where no piece is taken twice no pick repeats a block, short or not.
  `ThreeInARow` and `TwoInARow` are inputs.
- `pick_pieces` returns blocks of unfiltered pieces only, except that with partial pieces first a filtered piece that is
  being downloaded is not passed over (`PickPieces`, with `FilteredPartial` as an input).
- At equal availability a higher user priority does not always come first: it comes later if and only if only seeds
  have the piece and the two priorities lie less than three apart on either side of the halving
  (`BucketsByUserPriority`).
- The legality test of UTF-8 does not ask for a continuation byte after 0xED and 0xF4. Bytes that pass are the encoding
  of the scalar value they decode to if and only if the second one, if any, is a continuation byte (`DecodesEncodings`;
  `LetterAccepted` is a letter accepted in its place).
- The conversion from UTF-32 to UTF-8 reports a code point beyond the last legal one only at the end of the call that
  converted it. Converting in pieces gives the bytes of one call, and its outcome if and only if it is not so that all
  such code points were converted before the last call, which is the first that leaves nothing to read (`InPieces32`).
  `ErrorLost` converts two code points in two calls and in one, with different outcomes.
- A write that finds its cache block occupied, which the source asserts against, leaves the count of cached blocks one
  too high and everything else right (`Write`).
- The cache stays within its limit between jobs, so during a write it exceeds it by one block at most (`Write`,
  `TakeBlock`, `CacheReadBlock`); reading a whole piece for hashing exceeds it only when nothing is left to write out
  (`CacheReadPiece`), and does so for a piece larger than the limit (`PieceBeyondLimit`).
- An HTTP parser that is reset keeps the parts of the old first line. After any number of messages, a message counts
  as finished with its header, its announced body missing, if and only if it is a request or an earlier request is
  still remembered (`FinishedWithHeader`). Without blank first lines every earlier request is
  (`RequestsAreRemembered`); blank ones can erase it, in the exact way that `Remembered` says. `ResponseAfterRequest`
  is a request, a reset and a response.
- A rewritten request path that contains `..` is accepted if and only if it is a proper name followed by `/..`, and that
  result arises if and only if exactly two segments are left before the last phase, a name and `..` (`DeDotDot`,
  `AcceptedExactly`; `PairLetThrough` shows it for `a/..`).

Where documentation and code disagree the code is followed: a UTF-8 second byte after ED or F4 has no lower bound, so
decoding is stated for encoded texts.

## Model

| member | source | states |
|---|---|---|
| Buckets.BucketIsPriorityClass | libtorrent/src/piece_picker.cpp:260-470 | In a consistent index a bucket's members are exactly the pieces of that priority, as many as the bucket is long, and no piece is listed twice. |
| Buckets.CleanIndexIsCanonical | libtorrent/src/piece_picker.cpp:939-1007 | Any two consistent indexes over the same priorities have the same boundaries and the same set in every bucket. |
| Buckets.HoleUp | libtorrent/src/piece_picker.cpp:604-621 | Moving the last piece of a bucket into the hole and lowering the boundary carries the hole to the next bucket with everything else in place. |
| Buckets.HoleDown | libtorrent/src/piece_picker.cpp:664-681 | The same towards lower priorities. |
| Buckets.ChainStep | libtorrent/src/piece_picker.cpp:548-570 | Putting the carried piece at the end of its bucket and picking up the piece that was there keeps the displacement chain consistent. |
| Buckets.Swap | libtorrent/src/piece_picker.cpp:736-763 | Swapping two pieces of a bucket and their positions keeps the index consistent. |
| CountingSort.PlacedIsListing | libtorrent/src/piece_picker.cpp:962-984 | Placing each piece at the number of lower pieces plus the number of equal pieces before it lists every piece of priority zero or more once, in its bucket. |
| CountingSort.ListingIsOk | libtorrent/src/piece_picker.cpp:995-1001 | Such a listing with recorded positions is a consistent index. |
| PieceRecords.DownloadFlagKeepsListing | libtorrent/include/libtorrent/piece_picker.hpp:411-434 | Whether a piece is listed does not depend on the downloading flag, the priority depends on the seeds only through zero or not, and the listed pieces being downloaded are the multiples of the factor. |
| PieceRecords.BucketsByAvailability | libtorrent/include/libtorrent/piece_picker.hpp:398-434 | More peers never lead to an earlier bucket, one more leads to a later one at the low priorities and two more at the high ones; priority n + 3 at twice the availability shares the bucket of priority n. |
| PieceRecords.BucketsByUserPriority | libtorrent/include/libtorrent/piece_picker.hpp:398-434 | The higher of two user priorities goes to a later bucket exactly if only seeds have the piece and the two are less than three apart across the halving; on one side of it, it goes to an earlier bucket; priority 7 goes to the first bucket of pieces not being downloaded. |
| PieceRecords.SeedsMatterOnlyWhenZero | libtorrent/src/piece_picker.cpp:821-860 | All priorities are unchanged when the seed count changes without becoming or leaving zero. |
| PiecePicking.PiecePicker.constructor | libtorrent/src/piece_picker.cpp:79-125 | A fresh picker is valid, dirty, has no downloads, and counts one run of missing pieces. |
| PiecePicking.PiecesHoldAll | libtorrent/src/piece_picker.cpp:88-122 | Full pieces and the last piece hold all blocks of the torrent. |
| PiecePicking.PiecePicker.Add | libtorrent/src/piece_picker.cpp:520-585 | From an index consistent except for one unlisted piece, the result lists that piece too; only positions change, for any random place. |
| PiecePicking.PiecePicker.Remove | libtorrent/src/piece_picker.cpp:587-627 | A piece whose priority has become -1 leaves its old bucket and the index is consistent again; only positions change. |
| PiecePicking.PiecePicker.Update | libtorrent/src/piece_picker.cpp:631-734 | A piece whose priority changed, up, down or to -1, ends in its new bucket with a consistent index; only positions change. |
| PiecePicking.PiecePicker.SinkHole | libtorrent/src/piece_picker.cpp:660-681 | The downward displacement loop carries the hole to the target bucket. |
| PiecePicking.PiecePicker.RaiseHole | libtorrent/src/piece_picker.cpp:697-718 | The upward displacement loop carries the hole to the target bucket. |
| PiecePicking.PiecePicker.Shuffle | libtorrent/src/piece_picker.cpp:736-763 | Keeps the index consistent for any random partner in the bucket. |
| PiecePicking.PiecePicker.CountPriorities | libtorrent/src/piece_picker.cpp:946-956 | The boundaries hold the size of every priority class and each listed piece its rank among equals. |
| PiecePicking.PiecePicker.Accumulate | libtorrent/src/piece_picker.cpp:962-969 | Running sums turn class sizes into bucket ends and give the total. |
| PiecePicking.PiecePicker.PlaceAll | libtorrent/src/piece_picker.cpp:975-984 | Every listed piece is placed once, in its bucket. |
| PiecePicking.PiecePicker.ShuffleAll | libtorrent/src/piece_picker.cpp:986-993 | Shuffling the buckets keeps the listing. |
| PiecePicking.PiecePicker.UpdatePieces | libtorrent/src/piece_picker.cpp:939-1007 | From any valid dirty state the rebuilt picker is valid and clean, with nothing but positions changed. |
| PiecePicking.PiecePicker.IncRefcount | libtorrent/src/piece_picker.cpp:862-879 | One peer count goes up, modulo the width of the field, and the picker stays valid. |
| PiecePicking.PiecePicker.DecRefcount | libtorrent/src/piece_picker.cpp:881-893 | One peer count goes down and the picker stays valid. |
| PiecePicking.PiecePicker.IncRefcountAll | libtorrent/src/piece_picker.cpp:821-832 | One more seed; the picker stays valid. |
| PiecePicking.PiecePicker.DecRefcountAll | libtorrent/src/piece_picker.cpp:834-860 | One seed less, or every peer count one less if there was none; the picker stays valid. |
| PiecePicking.PiecePicker.IncRefcountMask | libtorrent/src/piece_picker.cpp:895-915 | Exactly the peer counts of the mask go up; the picker stays valid. |
| PiecePicking.PiecePicker.DecRefcountMask | libtorrent/src/piece_picker.cpp:917-937 | Exactly the peer counts of the mask go down, wrapping in their ten bits; the picker stays valid. |
| PiecePicking.PiecePicker.AdvanceCursors | libtorrent/src/piece_picker.cpp:1112-1138 | When a piece becomes had or filtered the cursors again bracket exactly the first and last open piece. |
| PiecePicking.PiecePicker.RetractCursors | libtorrent/src/piece_picker.cpp:1028-1040 | When a piece becomes open the cursors again bracket exactly; the branch for meeting cursors is never needed. |
| PiecePicking.PiecePicker.CountRuns | libtorrent/src/piece_picker.cpp:1084-1103 | The change of the counter is the change of the number of runs of missing pieces. |
| PiecePicking.PiecePicker.WeHave | libtorrent/src/piece_picker.cpp:1053-1143 | The piece is had and not downloading, everything else is kept, other pieces' blocks and the order of downloads survive, and the run counter follows the number of runs. |
| PiecePicking.PiecePicker.WeDontHave | libtorrent/src/piece_picker.cpp:1009-1047 | The piece is missing again and the picker valid; the number of runs is unchanged exactly when one side only touches a missing piece. |
| PickerCases.MiddleLost | libtorrent/src/piece_picker.cpp:1009-1047 | Losing the middle one of three pieces adds a run. |
| PickerCases.LosesMiddle | libtorrent/src/piece_picker.cpp:1009-1047 | A picker that has all of three pieces and loses the middle one counts no run although there is one. |
| PiecePicking.PiecePicker.SetPiecePriority | libtorrent/src/piece_picker.cpp:1145-1243 | Only the one priority changes, the picker stays valid, and the result says whether the piece became filtered or unfiltered. |
| PieceSurvey.ArrivalChangesRuns | libtorrent/src/piece_picker.cpp:1084-1103 | Getting a piece changes the number of maximal runs of missing pieces by +1, 0 or -1, decided by its two neighbours. |
| PieceSurvey.NothingHadIsOneRun | libtorrent/src/piece_picker.cpp:91-114 | With nothing had there is one run. |
| PieceSurvey.CursorScanIsFullScan | libtorrent/src/piece_picker.cpp:1410-1437 | Scanning between the cursors finds exactly the open pieces of a full scan, in order. |
| DownloadTable.ErasedKeepsOthers | libtorrent/src/piece_picker.cpp:186-201 | Erasing an entry and moving the last row into its slot leaves every other piece's block states alone. |
| DownloadTable.EraseStep | libtorrent/src/piece_picker.cpp:186-201 | After the erasure the slots of the entries are again exactly the first ones, counters match, and order is kept. |
| DownloadTable.EveryRowOwned | libtorrent/src/piece_picker.cpp:158-184 | Every slot below the number of entries belongs to some entry. |
| DownloadTable.RecountDescribes | libtorrent/src/piece_picker.cpp:1972-2029 | Adjusting the counters for one block's state change makes them the block-state counts again. |
| DownloadTable.MarkWritingExact | libtorrent/src/piece_picker.cpp:2100-2118 | The adjustment made when a block is written is right if and only if the block was free or requested. |
| DownloadTable.FinishedMarkedAsWriting | libtorrent/src/piece_picker.cpp:2100-2118 | A written block that is marked as being written is counted twice. |
| DownloadTable.MarkFinishedExact | libtorrent/src/piece_picker.cpp:2209-2229 | The adjustment made when a block is finished is right if and only if the block was not requested. |
| DownloadTable.RequestedMarkedAsFinished | libtorrent/src/piece_picker.cpp:2209-2229 | A requested block that is marked as finished stays counted as requested. |
| PiecePicking.PiecePicker.AddDownloadPiece | libtorrent/src/piece_picker.cpp:158-184 | A new entry with the next slot and fresh blocks; existing rows are kept even when the row storage grows. |
| PiecePicking.PiecePicker.EraseDownloadPiece | libtorrent/src/piece_picker.cpp:186-201 | The entry is gone, other pieces' blocks are intact, the table is consistent. |
| PiecePicking.PiecePicker.SortPiece | libtorrent/src/piece_picker.cpp:765-779 | Bubbling one entry up sorts a table that was sorted but for it and changes no record. |
| PiecePicking.PiecePicker.MarkAsDownloading | libtorrent/src/piece_picker.cpp:1972-2029 | Succeeds exactly for blocks neither written nor finished, which then have one more peer; the speed is set only if there was none; all else, validity and order are kept. |
| PiecePicking.PiecePicker.MarkAsWriting | libtorrent/src/piece_picker.cpp:2061-2121 | The block is being written and asked of nobody; the speed stays or is forgotten; all else and the order are kept; the picker stays valid if and only if the block was not written already. |
| PiecePicking.PiecePicker.MarkAsFinished | libtorrent/src/piece_picker.cpp:2164-2231 | The block is finished; the speed, all else and the order are kept; the picker stays valid if and only if the piece was not already had. |
| PickerCases.FinishesHad | libtorrent/src/piece_picker.cpp:2173-2197 | A picker whose only piece is had is inconsistent after its block is marked as finished. |
| PiecePicking.PiecePicker.AbortDownload | libtorrent/src/piece_picker.cpp:2266-2340 | The block loses one peer or becomes free; the speed stays or is forgotten; a piece without active blocks leaves the table; order is kept. |
| PiecePicking.PiecePicker.RestorePiece | libtorrent/src/piece_picker.cpp:781-819 | The piece is no longer downloading; others and the order are kept. |
| PiecePicking.PiecePicker.WriteFailed | libtorrent/src/piece_picker.cpp:2123-2162 | The block is free again, the speed stays or is forgotten and the picker is valid; a sorted table stays sorted exactly under the stated condition. |
| PickerCases.FirstOfEqualsFails | libtorrent/src/piece_picker.cpp:2123-2162 | A sorted table of two equally full entries whose first loses a block, is not idle and stays in front out of order. |
| BlockPicking.RequestedFrom | libtorrent/src/piece_picker.cpp:1682-1704 | Says exactly whether a peer has all, and all active, requests of a piece. |
| BlockPicking.UseBackups | libtorrent/src/piece_picker.cpp:1281-1295 | Backups follow what was picked, the better ones first and each kind in order, within the number wanted; if still too few, none is left out and both lists are empty. |
| BlockPicking.TargetIs | libtorrent/src/piece_picker.cpp:1800-1847 | The list a free block goes to is the one that exclusiveness, whole-piece preference and speed of its piece call for. |
| BlockPicking.TakeBackups | libtorrent/src/piece_picker.cpp:1281-1295 | Putting backups behind the first list keeps the order, since every better block is on it already. |
| BlockPicking.AddBlocksDownloading | libtorrent/src/piece_picker.cpp:1776-1872 | Adds only free blocks of the piece, none twice, to the list that its exclusiveness and speed call for, in their turn and within the number wanted, and overlooks no free block unless that list is long enough. |
| BlockPicking.ExpandPiece | libtorrent/src/piece_picker.cpp:1874-1894 | The run around a piece is at most as long as asked, pickable throughout, and stops only at its bound or an unpickable piece. |
| BlockPicking.AddBlocks | libtorrent/src/piece_picker.cpp:1706-1774 | Adds blocks of a piece no earlier step has handled, in their turn and within the number wanted but for one run, keeping the lists distinct where runs are single pieces, and overlooks no free block unless enough were found. |
| BlockPicking.PickPartials | libtorrent/src/piece_picker.cpp:1374-1393 | Handles every partial piece once, in table order, and exhausts the backups before going on; if blocks are still wanted, every free block of a partial piece is picked. |
| BlockPicking.PickSequential | libtorrent/src/piece_picker.cpp:1410-1437 | Takes the pieces between the cursors in order from either end; if blocks are still wanted afterwards, every free piece was considered. |
| BlockPicking.PickRandom | libtorrent/src/piece_picker.cpp:1491-1540 | Unless enough blocks were found, the wrapping walk passes every pickable piece and lists a block twice if there is a stretch of more pieces than one run takes or the start lies inside a range; where every range fits into one run and the start lies inside none it lists none twice. |
| WholeRuns.RunStep | libtorrent/src/piece_picker.cpp:1518-1535 | Along the walk a stretch is untaken, or the walk stands inside it behind a piece it took, or only its end is taken, or a block is listed twice already. |
| RandomWalk.WalkStep | libtorrent/src/piece_picker.cpp:1494-1540 | One run of the walk from any start keeps what is known of passed pieces, of stretches, of a start inside a range and of pieces not yet taken. |
| RandomWalk.RunIsNew | libtorrent/src/piece_picker.cpp:1518-1535 | In a walk over ranges that fit into one run, started inside none, every run takes pieces not taken before. |
| WholeRuns.TwiceAfterRun | libtorrent/src/piece_picker.cpp:1753-1767 | Visiting the first and the second piece of an unbroken range each take the second. |
| BlockPicking.NextCandidate | libtorrent/src/piece_picker.cpp:1501-1514 | Finds the next pickable piece in walking order and skips none; if it finds none, none is left. |
| BlockPicking.WalkVisitsEachBucketOnce | libtorrent/src/piece_picker.cpp:1455-1461 | The order of buckets in the reverse rarest-first walk is a permutation, its own inverse. |
| BlockPicking.WalkIsMoreCommon | libtorrent/src/piece_picker.cpp:1446-1461 | The reverse walk comes to a bucket before another exactly if its four lies higher, or it lies lower in the same four. |
| BlockPicking.PickReverse | libtorrent/src/piece_picker.cpp:1444-1475 | Takes the pieces by priority in fours from the top, upwards in each four; if blocks are still wanted afterwards, every wanted piece of every bucket was considered. |
| BlockPicking.PickBusy | libtorrent/src/piece_picker.cpp:1558-1579 | Adds every block of an unfiltered piece that is requested from another peer, none of them picked already, and nothing else. |
| PiecePicking.PiecePicker.PickPieces | libtorrent/src/piece_picker.cpp:1337-1579 | For any random number, returns free blocks of pieces the peer has and we lack, of unfiltered ones unless partial pieces come first and the piece is one, at most as many as asked but for one run of whole pieces, each behind all that precede it: by group, choice and, unless whole pieces are preferred, stage, mode order and block number; then, only if too few and the peer is not on parole, all blocks requested elsewhere; if too few, every free block of every piece it looks at is returned and pieces that are taken twice repeat a block; where no piece is taken twice no block is returned twice. |
| PickOrder.RarestFirst | libtorrent/src/piece_picker.cpp:1476-1489 | The same for rarest first: none before a free block of a piece with a lower priority number. |
| PickOrder.MostCommonFirst | libtorrent/src/piece_picker.cpp:1444-1475 | The same for the reverse of rarest first: none before a free block of a higher four of priorities, or of a lower priority in its four. |
| PickOrder.InSequence | libtorrent/src/piece_picker.cpp:1410-1438 | Without preference, suggestions and partial pieces, a sequential pick returns no block before a free block of a lower piece, or of a higher one in reverse. |
| BlockPicking.RepeatsExactly | libtorrent/src/piece_picker.cpp:1410-1540 | If more blocks are asked for than there are, a pick with distinct suggestions that visits every pickable piece repeats a block if and only if a piece is taken twice, as table, request and random start say. |
| BlockPicking.ShortPickRepeats | libtorrent/src/piece_picker.cpp:1410-1540 | The same for every pick that returns fewer blocks than asked for. |
| PickerCases.ThreeInARow | libtorrent/src/piece_picker.cpp:1491-1540 | From every start, the random pick of three neighbouring pieces, two at a time, repeats a block. |
| PickerCases.TwoInARow | libtorrent/src/piece_picker.cpp:1491-1540 | The random pick of two neighbouring pieces, two at a time, repeats a block from the second piece and none from the first. |
| PickerCases.RarerOfTwo | libtorrent/src/piece_picker.cpp:1439-1490 | Asked for one block of a rare and a common piece, the pick returns the rare one, or in reverse the common one. |
| PickerCases.FilteredPartial | libtorrent/src/piece_picker.cpp:1374-1384 | With partial pieces first, the free block of a filtered partial piece is returned. |
| Sha1.Blk0IsWordAt | libtorrent/src/sha1.cpp:51-67 | On either byte order the loaded word is the big-endian word. |
| Sha1.MixIsF | libtorrent/src/sha1.cpp:73-77 | The bit formulas of the rounds are the functions of section 5 of RFC 3174. |
| Sha1Spec.ConstantsAreRoots | libtorrent/src/sha1.cpp:73-77 | The round constants are 2 to the 30 times the square roots of 2, 3, 5 and 10, rounded down. |
| Sha1Spec.InitialIsPattern | libtorrent/src/sha1.cpp:182-187 | The initial words are the digit patterns of section 6.1 of RFC 3174. |
| Sha1.BlkIsNextWord | libtorrent/src/sha1.cpp:69-70 | The circular schedule of 16 words yields the 80-word schedule. |
| Sha1.StepRotates | libtorrent/src/sha1.cpp:97-117 | Renaming the registers step by step is the same as moving the values. |
| Sha1.Transform | libtorrent/src/sha1.cpp:81-126 | Equals the compression of section 6.1 of RFC 3174. |
| Sha1.CounterAdvances | libtorrent/src/sha1.cpp:147-149 | The two-word counter with its carry holds the number of bits modulo 2 to the 64. |
| Sha1.Context.constructor | libtorrent/src/sha1.cpp:179-189 | A fresh context has absorbed nothing. |
| Sha1.Context.Update | libtorrent/src/sha1.cpp:139-168 | Absorbs the data behind what was absorbed before, whatever its length modulo 64. |
| Sha1.Context.HashBlocks | libtorrent/src/sha1.cpp:150-163 | Compresses every full block of buffered and new bytes, each once. |
| Sha1.Context.Final | libtorrent/src/sha1.cpp:212-234 | The bytes appended are the padding of section 4 of RFC 3174, and the digest is that of the absorbed message. |
| Sha1.DigestOf | libtorrent/src/sha1.cpp:193-234 | For any cutting of a message into updates the digest is the RFC 3174 digest of the whole. |
| DiskBlocks.FlushKeepsLogical | libtorrent/src/disk_io_thread.cpp:651-753 | Writing blocks of a piece and dropping them from the cache leaves its content unchanged. |
| DiskBlocks.RunLands | libtorrent/src/disk_io_thread.cpp:679-700 | A gathered run written at the computed offset changes exactly the bytes of its blocks, also with a short last block. |
| DiskBlocks.WriteRuns | libtorrent/src/disk_io_thread.cpp:667-724 | Both the coalescing and the vectored form put exactly the cached blocks of the range on disk. |
| DiskBlocks.LongestRun | libtorrent/src/disk_io_thread.cpp:560-592 | Finds the first of the longest runs of cached blocks. |
| DiskBlocks.EvictEnds | libtorrent/src/disk_io_thread.cpp:508-536 | With more blocks cached than asked for, frees exactly as many as asked from the two ends and never leaves the array. |
| DiskBlocks.InsertedLogical | libtorrent/src/disk_io_thread.cpp:1585-1600 | Caching a block makes the piece read as if the block had been written. |
| CacheLists.MostContiguous | libtorrent/src/disk_io_thread.cpp:542-558 | Finds the first piece with a longest run of cached blocks. |
| DiskCaching.DiskCache.constructor | libtorrent/src/disk_io_thread.cpp:274-288 | A new cache is empty, counts nothing and is valid. |
| DiskCaching.DiskCache.FlushRange | libtorrent/src/disk_io_thread.cpp:651-753 | Content of every piece is unchanged, exactly the cached blocks of the range reach the disk and leave the cache, and all counts follow. |
| DiskCaching.DiskCache.FlushContiguousBlocks | libtorrent/src/disk_io_thread.cpp:560-594 | Flushes exactly the first longest run, and nothing if it is too short; content is unchanged and no entry is left empty. |
| DiskCaching.DiskCache.FlushAndRemove | libtorrent/src/disk_io_thread.cpp:643-649 | The piece leaves the cache and the disk holds its whole content. |
| DiskCaching.FreeBlocks | libtorrent/src/disk_io_thread.cpp:464-536 | Frees the smaller of the blocks asked for and the blocks there. |
| DiskCaching.DiskCache.ClearOldestReadPiece | libtorrent/src/disk_io_thread.cpp:484-540 | Frees exactly the number asked for, or all, of the first least recently used read piece unless that piece is spared; pieces used within a second, the one in use and all else stay; the count is exact and no empty entry stays. |
| DiskCaching.DiskCache.FlushOne | libtorrent/src/disk_io_thread.cpp:613-638 | One turn of either policy flushes exactly the least recently used piece or the first longest run, at least one block, so the loops end. |
| DiskCaching.DiskCache.FlushCacheBlocks | libtorrent/src/disk_io_thread.cpp:597-641 | Under both policies ends, changes no content, counts what it freed, takes turns of the policy only while less than asked is freed, and frees what was asked unless the write cache is empty or must not be touched; in that last case it stops only when the oldest read piece is spared; read pieces used within a second stay. |
| CacheUse.OneMoreRound | libtorrent/src/disk_io_thread.cpp:612-639 | Each round of a flush starts while less than asked has been freed. |
| CacheUse.OldestLeftAround | libtorrent/src/disk_io_thread.cpp:1578-1626 | Flushing the least recently used pieces before and after one piece changes takes out no other piece that was used after one that stays. |
| DiskCaching.DiskCache.CacheBlock | libtorrent/src/disk_io_thread.cpp:756-788 | Adds the piece with its first block, used now, unless the piece has only one block. |
| DiskCaching.DiskCache.TakeBlock | libtorrent/src/disk_io_thread.cpp:1581-1619 | The write cache is the old one with the block put into its piece, used now, and the first longest run flushed if it makes a line; or with the piece added; or unchanged and the block on disk if the piece has only one. No other piece changes. |
| DiskCaching.DiskCache.Write | libtorrent/src/disk_io_thread.cpp:1569-1629 | The piece's content becomes the old one with the block written, other contents are unchanged whatever was flushed, and the buffer is accounted for; the piece, if still cached, was last used now and every other one when it was before; under LRU no other piece leaves that was used after one that stays; a block found occupied leaves the count one too high, and such a block alone; the cache is back within its limit unless no write piece is left, and never grows beyond it otherwise. |
| DiskCaching.DiskCache.FlushForHash | libtorrent/src/disk_io_thread.cpp:1630-1650 | Afterwards the disk holds the content the piece had. |
| DiskCaching.DiskCache.AllocateBlocks | libtorrent/src/disk_io_thread.cpp:792-822 | Allocates consecutive uncached blocks within the cache limit and counts each once. |
| DiskCaching.DiskCache.ReadIntoPiece | libtorrent/src/disk_io_thread.cpp:792-893 | Whether reads are coalesced or scattered, every newly cached block holds the disk's bytes and the result is the number of bytes read. |
| DiskCaching.Distribute | libtorrent/src/disk_io_thread.cpp:852-873 | Copying one read buffer out to the blocks gives each its bytes of the piece. |
| DiskCaching.Scatter | libtorrent/src/disk_io_thread.cpp:852-889 | A vectored read gives each block its bytes of the piece. |
| DiskCaching.DiskCache.CacheReadBlock | libtorrent/src/disk_io_thread.cpp:930-964 | Never touches the write cache or the disk, keeps read pieces used within a second and never takes the cache beyond its limit; on success the new entry, used now and no longer than a read line, holds the requested block. |
| DiskCaching.DiskCache.CacheReadPiece | libtorrent/src/disk_io_thread.cpp:901-926 | Changes no content; on full success the new entry holds every block of the piece, and the cache exceeds its limit only when nothing is left to write out. |
| DiskCaching.PieceBeyondLimit | libtorrent/src/disk_io_thread.cpp:1028-1030 | A piece of three blocks read whole takes a cache for one block beyond the asserted bound. |
| JobQueues.RangeOverlapIsSharing | libtorrent/src/disk_io_thread.cpp:388-392 | For ranges that are not empty the test is true exactly if they share a byte. |
| JobQueues.JobQueue.AddJob | libtorrent/src/disk_io_thread.cpp:1203-1263 | Inserts the job at the place the search from the back determines, never in front of a write a read depends on; in a sorted queue that is the place WellPlaced says, and a job put where the queue divides leaves it sorted. |
| JobQueues.InsertedWellPlaced | libtorrent/src/disk_io_thread.cpp:398-413 | In a queue by descending priority, then storage, piece and offset, a job that belongs behind another goes to its place, a read at least behind the writes that feed it; one that belongs first goes there only with a priority above the last job's, else to the back, as does a write that would end a run of another storage. |
| JobQueues.DividedStaysSorted | libtorrent/src/disk_io_thread.cpp:398-413 | A job put where the queue divides leaves it sorted. |
| JobQueues.RunKeepsOrder | libtorrent/src/disk_io_thread.cpp:1203-1263 | Over any run the relative order of two queued jobs never changes. |
| JobQueues.ReadNeverOvertakesWrite | libtorrent/src/disk_io_thread.cpp:1212-1263 | Over any run, a read added while an overlapping write is queued is taken only after that write. |
| JobQueues.Serve | libtorrent/src/disk_io_thread.cpp:1297-1345 | Posting jobs to a new queue and fetching from it in any order is a run of the kind above, and no job is lost. |
| Bencode.FirstChar | libtorrent/src/lazy_bdecode.cpp:137-170 | The first character of an encoding tells the kind of value. |
| LazyBdecoding.ParseInt | libtorrent/src/lazy_bdecode.cpp:60-70 | Reads the number written before the delimiter, or stops at the first other character. |
| LazyBdecoding.NumDigits | libtorrent/src/lazy_bdecode.cpp:220-229 | Equals the length of the decimal numeral. |
| LazyBdecoding.Reserve | libtorrent/src/lazy_bdecode.cpp:187-208 | After growing, the array has room, holds the same items and no other array has changed. |
| LazyBdecoding.Append | libtorrent/src/lazy_bdecode.cpp:187-214 | The new item is blank and behind the others; every other entry keeps its place and value. |
| LazyEntries.AroundKept | libtorrent/src/lazy_bdecode.cpp:307-332 | Whatever happens inside the innermost container, the stacked pointers of those around it stay valid and lead to the same entries. |
| LazyEntries.BeginItem | libtorrent/src/lazy_bdecode.cpp:98-134 | Appending an item, even if the array moves, keeps the parser's invariant. |
| LazyEntries.CloseTop | libtorrent/src/lazy_bdecode.cpp:98-107 | A closed container stands for its value and its section is the value's encoding. |
| LazyEntries.FinishItem | libtorrent/src/lazy_bdecode.cpp:145-169 | A finished item is popped and belongs to the container around it. |
| LazyBdecoding.Construct | libtorrent/src/lazy_bdecode.cpp:138-170 | Fills in the entry on top of the stack according to its first character. |
| LazyBdecoding.Begin | libtorrent/src/lazy_bdecode.cpp:98-134 | Reads a key if there is one; the key's end is where the value starts. |
| LazyBdecoding.LazyBdecode | libtorrent/src/lazy_bdecode.cpp:79-174 | For every value and whatever follows its encoding, succeeds exactly if the depth limit covers the nesting, and then the root entry stands for that value. |
| LazyBdecoding.IntValue | libtorrent/src/lazy_bdecode.cpp:176-185 | The number, negative or not. |
| LazyBdecoding.StringEqual | libtorrent/src/lazy_bdecode.cpp:246-257 | Equality of a zero-terminated name with a stretch of the buffer, also if that contains zeros. |
| LazyBdecoding.DictFind | libtorrent/src/lazy_bdecode.cpp:295-305 | Finds the first item whose key is the name, if and only if there is one. |
| LazyBdecoding.StringValue | libtorrent/include/libtorrent/lazy_entry.hpp:103-107 | The text of a string entry is the string. |
| LazyBdecoding.DataSection | libtorrent/src/lazy_bdecode.cpp:362-366 | The section of an entry, and of every item in it, is exactly its encoding. |
| Unicode.Decode8Inverts | libtorrent/src/ConvertUTF.cpp:295-318 | Every scalar value's encoding is legal, tells its length by its first byte, and decodes to the value. |
| Unicode.LegalIsInRange | libtorrent/src/ConvertUTF.cpp:478-516 | Nothing the legality test accepts decodes beyond the last code point, so that branch is never taken. |
| Unicode.Decode16Inverts | libtorrent/src/ConvertUTF.cpp:121-129 | The surrogate pair of a code point combines to it. |
| UtfNumbers.EncodesByRfc3629 | libtorrent/src/ConvertUTF.cpp:432-452 | The bytes of a code point are those of section 3 of RFC 3629 in integer arithmetic. |
| UtfNumbers.EncodesByRfc2781 | libtorrent/src/ConvertUTF.cpp:391-401 | The units of a code point are those of section 2.1 of RFC 2781 in integer arithmetic. |
| UtfNumbers.DecodesEncodings | libtorrent/src/ConvertUTF.cpp:295-318 | Bytes that pass the test are the encoding of the scalar value they decode to exactly if the second is a continuation byte. |
| UtfNumbers.LetterAccepted | libtorrent/src/ConvertUTF.cpp:303-312 | The bytes ED 41 80 pass the test and decode to a character with another encoding. |
| ConvertUtf.ConvertUTF32toUTF8 | libtorrent/src/ConvertUTF.cpp:409-458 | Writes exactly the UTF-8 of the characters read, nothing beyond the room, and stops where it says and for the reason it says. |
| ConvertUtf.ConvertUTF16toUTF8 | libtorrent/src/ConvertUTF.cpp:214-280 | The same from UTF-16. |
| ConvertUtf.ConvertUTF16toUTF32 | libtorrent/src/ConvertUTF.cpp:110-163 | The same to UTF-32. |
| ConvertUtf.ConvertUTF8toUTF32 | libtorrent/src/ConvertUTF.cpp:462-520 | The same from UTF-8. |
| ConvertUtf.ConvertUTF8toUTF16 | libtorrent/src/ConvertUTF.cpp:336-405 | The same to UTF-16. |
| ConvertUtf.Utf8Reads | libtorrent/src/ConvertUTF.cpp:462-520 | A text of scalar values in UTF-8 reads back as the text, to the end. |
| ConvertUtf.Utf16Reads | libtorrent/src/ConvertUTF.cpp:110-163 | A text of scalar values in UTF-16 reads back as the text, to the end. |
| ConvertUtf.ReadsAllIsUnique | libtorrent/src/ConvertUTF.cpp:214-280 | What can be read from a source, and where reading stops, is determined. |
| UtfRoundTrips.RoundTrip32 | libtorrent/src/ConvertUTF.cpp:409-520 | UTF-32 to UTF-8 and back is the identity on scalar values (section 3 of RFC 3629). |
| UtfRoundTrips.WellFormedReads | libtorrent/src/ConvertUTF.cpp:110-163 | UTF-16 with paired surrogates reads strictly to its end and is the encoding of what was read (section 2 of RFC 2781). |
| UtfRoundTrips.RoundTrip16 | libtorrent/src/ConvertUTF.cpp:214-405 | UTF-16 to UTF-8 and back is the identity on well-formed UTF-16. |
| UtfRoundTrips.DirectIsViaUtf32 | libtorrent/src/ConvertUTF.cpp:110-280 | For any UTF-16, strict or lenient, the direct way to UTF-8 and the way through UTF-32 give the same bytes. |
| UtfRoundTrips.ResumedIsOneShot | libtorrent/src/ConvertUTF.cpp:264-279 | Calls resumed after running out of room read and write together what one call does, for every converter. |
| UtfRoundTrips.InPieces | libtorrent/src/ConvertUTF.cpp:214-280 | Converting UTF-16 into buffers of any sizes ends exactly if they suffice, and then gives the bytes and the outcome of one call with enough room. |
| UtfRoundTrips.InPieces32 | libtorrent/src/ConvertUTF.cpp:409-459 | Converting UTF-32 into buffers of any sizes ends with the first call that leaves nothing to read, gives the bytes of one call, and its outcome if and only if the illegal code points were not all converted before that call. |
| UtfRoundTrips.StopsWhereFull | libtorrent/src/ConvertUTF.cpp:414-457 | A call gets exactly as far as its room allows. |
| UtfRoundTrips.ErrorForgotten | libtorrent/src/ConvertUTF.cpp:430-450 | Two code points, a first buffer of three bytes and a second of one for which that condition holds. |
| UtfRoundTrips.ErrorLost | libtorrent/src/ConvertUTF.cpp:409-459 | Converted in two calls they are reported as fine, in one call as illegal, with the same bytes. |
| HttpParsing.ReadsByteRange | libtorrent/src/http_parser.cpp:169-198 | A byte range written as in section 14.16 of RFC 2616 is read as written and refused if it ends before it starts. |
| Decimals.StrtollOfSigned | libtorrent/src/http_parser.cpp:165-188 | A number behind spaces and a sign is read as written, or as the nearest end of the 64-bit range. |
| HeaderLines.TakesLine | libtorrent/src/http_parser.cpp:127-139 | In the header the next line is taken without its line feed and a carriage return before it. |
| HeaderLines.LowerIsSameButCase | libtorrent/src/http_parser.cpp:155-156 | Lower case identifies exactly the names that differ in case alone. |
| HeaderLines.RecordsField | libtorrent/src/http_parser.cpp:155-163 | A field is recorded under its name in lower case with the blanks before its value dropped, unless one of that name is there; no other changes. |
| HeaderLines.OtherFields | libtorrent/src/http_parser.cpp:155-198 | Any other field changes nothing but the recorded fields. |
| HeaderLines.ReadsContentLength | libtorrent/src/http_parser.cpp:165-168 | A Content-Length field sets the content length as written. |
| HeaderLines.ReadsContentRange | libtorrent/src/http_parser.cpp:169-198 | A Content-Range field, however its name is cased, sets the range as written and a content length equal to the number of its bytes, and is an error if it ends before it starts. |
| HeaderLines.RangedMessage | libtorrent/src/http_parser.cpp:96-222 | A message with one Content-Range field: its body begins behind the empty line and is what has arrived of as many bytes as the range has. |
| HttpParsing.AdvanceInSteps | libtorrent/src/http_parser.cpp:60-224 | Parsing a prefix first and then the whole gives the same state as parsing the whole. |
| HttpParsing.FinishedExactly | libtorrent/src/http_parser.cpp:141-222 | The body is what was received clipped at the content length, and the message is finished exactly when its header is complete and there is a verb, or its announced body is complete. |
| HttpParsing.FinishedWithHeader | libtorrent/src/http_parser.cpp:106-149 | On a parser reset any number of times, a message with its announced body missing counts as finished with its header if and only if it is a request or an earlier one is remembered. |
| HttpParsing.ResponseAfterRequest | libtorrent/src/http_parser.cpp:106-149 | After a request and a reset, a response is finished with five announced bytes to come; on a new parser it is not. |
| FirstLines.ReadsRequest | libtorrent/src/http_parser.cpp:106-118 | A request line of section 5.1 of RFC 2616 sets verb, path and protocol as written and status 0. |
| FirstLines.ReadsResponse | libtorrent/src/http_parser.cpp:106-111 | A status line of section 6.1 of RFC 2616 sets protocol, status and message as written and keeps the verb. |
| FirstLines.VerbRemembered | libtorrent/src/http_parser.cpp:106-118 | After any first lines the verb is set if and only if the last request among them is not erased by the blank lines right behind it. |
| FirstLines.RequestsAreRemembered | libtorrent/src/http_parser.cpp:106-118 | Without blank first lines the verb is set if and only if one of them was a request. |
| HttpParsing.HttpParser.Incoming | libtorrent/src/http_parser.cpp:60-224 | The state is that of one call on all bytes received; the returned counts are the new header and body bytes; the error flag says whether the message is bad; finished is as FinishedWithHeader says for the history of this parser. |
| HttpParsing.ConsumeHeader | libtorrent/src/http_parser.cpp:124-204 | The header loop handles every complete line once and reports where it stopped. |
| HttpParsing.HttpParser.GetBody | libtorrent/src/http_parser.cpp:226-236 | The body is the stretch from its start to the receive position. |
| HttpParsing.HttpParser.Reset | libtorrent/src/http_parser.cpp:238-251 | Starts over but keeps the parts of the first line, which joins the history of first lines. |
| HttpParsing.Run | libtorrent/src/http_parser.cpp:60-224 | For any way of growing the buffer the final state is that of one call, and the reported bytes sum to the header length and to the clipped body length. |
| FileStorages.FileStorage.AddFile | libtorrent/src/file_storage.cpp:208-232 | The file is laid at the end; offsets stay exact prefix sums. |
| FileStorages.PlaceOne | libtorrent/src/file_storage.cpp:254-308 | One turn of the optimiser places a file, a largest later file that fits the gap, or, if none fits, a pad file that fills it; it keeps the bag of files and brings the end nearer. |
| FileStorages.BestFit | libtorrent/src/file_storage.cpp:269-276 | Finds a largest later file that fits. |
| FileStorages.FileStorage.Optimize | libtorrent/src/file_storage.cpp:234-311 | Ends; the result is the input files in some order plus pad files shorter than the alignment, made only if some file is larger than limit and alignment, with exact offsets, every file larger than both aligned, and a largest file first. |
| FileStorages.FileStorage.FileAtOffset | libtorrent/src/file_storage.cpp:102-115 | The last file that starts at or before an offset. |
| FileStorages.FileStorage.MapBlock | libtorrent/src/file_storage.cpp:117-155 | The slices tile the requested bytes in order, each inside its file and not empty. |
| FileStorages.MapFile | libtorrent/src/file_storage.cpp:157-169 | Piece and start make up the position and the start lies inside the piece. |
| FileStorages.MapBlockInvertsMapFile | libtorrent/src/file_storage.cpp:117-169 | Mapping a position in a file to a piece and the block back starts at that position of that file. |
| FileStorages.PiecesTile | libtorrent/src/file_storage.cpp:48-61 | Every piece has a size between one and the piece length, and the sizes sum to the total. |
| ConnectionQueues.ConnectionQueue.Enqueue | libtorrent/src/connection_queue.cpp:62-98 | The new attempt has a fresh ticket and goes to the back, or to the front with high priority. |
| ConnectionQueues.ConnectionQueue.Done | libtorrent/src/connection_queue.cpp:100-120 | Takes exactly the attempt with the ticket out, if it is there. |
| ConnectionQueues.ConnectionQueue.CloseOne | libtorrent/src/connection_queue.cpp:122-146 | The first attempt leaves and times out; the queue is aborted. |
| ConnectionQueues.ConnectionQueue.TryConnect | libtorrent/src/connection_queue.cpp:172-242 | Starts waiting attempts from the front, each to expire its own timeout from now, never lifts the count above a positive limit, and leaves none waiting below it. |
| ConnectionQueues.ConnectionQueue.OnTimeout | libtorrent/src/connection_queue.cpp:254-287 | Exactly the expired attempts leave, and the next time to wait for is the earliest of those kept. |
| ConnectionQueues.KeptAreAlive | libtorrent/src/connection_queue.cpp:266-283 | A timeout splits the queue into expired attempts and the others. |
| ConnectionQueues.Run | libtorrent/src/connection_queue.cpp:62-316 | For any interleaving of the locked stretches every ticket given out is queued, finished or timed out exactly once, has had at most one on_connect, and the counter of half-open attempts agrees with the queue and is at most the larger of what it was and of the limits in force, if those are positive. |
| PayloadMarkers.SentIsCount | libtorrent/src/bt_peer_connection.cpp:2943-2964 | What the markers say was sent is the number of payload bytes among those that left. |
| PayloadMarkers.ShiftKeepsMarks | libtorrent/src/bt_peer_connection.cpp:2947-2971 | After a send the remaining markers are in order, disjoint, inside the buffer, and mark the same bytes. |
| PayloadMarkers.Sender.WritePiece | libtorrent/src/bt_peer_connection.cpp:1954-1966 | The marker covers exactly the payload just appended. |
| PayloadMarkers.Sender.OnSent | libtorrent/src/bt_peer_connection.cpp:2932-2991 | The reported payload is exactly the payload among the bytes sent, the rest is protocol. |
| PayloadMarkers.Run | libtorrent/src/bt_peer_connection.cpp:2932-2991 | Over any run the payload put in is the payload reported plus that still in the buffer. |
| DotSegments.CollapseSlashes | im0/mini_httpd.c:1394-1400 | The segments are the given ones without the empty ones inside. |
| DotSegments.RemoveDots | im0/mini_httpd.c:1402-1406 | The segments are the given ones without the single dots before the last. |
| DotSegments.RemoveUps | im0/mini_httpd.c:1408-1419 | The segments are the given ones with every double dot before the last having taken away the segment before it. |
| DotSegments.RemoveTrailingUp | im0/mini_httpd.c:1421-1430 | The segments are the given ones with pairs of a segment and a double dot taken off the end while something is left before them. |
| DotSegments.DeDotDot | im0/mini_httpd.c:1387-1431 | Ends; the result denotes the location the input denotes when climbing above the root is ignored (compare section 5.2.4 of RFC 3986), and is accepted with a double dot in it if and only if two segments, a name and a double dot, are left before the last phase. |
| DotSegments.KeepsLocation | im0/mini_httpd.c:1387-1431 | For every list of segments the rewritten one leads to the same place. |
| DotSegments.AcceptedPair | im0/mini_httpd.c:1278-1285 | A rewritten name that contains a double dot is accepted if and only if it is one proper segment followed by a double dot. |
| DotSegments.AcceptedExactly | im0/mini_httpd.c:1278-1285 | That happens if and only if the guard of the last phase stops at a single segment before the double dot. |
| DotSegments.PairLetThrough | im0/mini_httpd.c:1421-1430 | The path of one name and a double dot is left alone and accepted although it denotes the root. |

## Left out

- LazyBdecode: stated for encodings of values followed by anything; malformed or truncated input is not modelled, nor
  integers beyond 64 bits and buffers beyond 2 GiB. The tests the decoder makes on its input are proved never to reject
  such an encoding.
- LazyEntries.AroundKept: allocation never fails.
- PickPieces: what repeated suggestions do, and the exact effect of suggestions before a random walk with whole-piece
  preference, is not stated; an empty picker needs one of the ordered modes because the random mode divides by its size.
- Update: lengths so close to 2 to the 32 that the 32-bit sums of the source wrap are excluded.
- AddJob: removal of a stopped torrent's jobs and the byte counters of the queue are not modelled.
- Write: disk errors are not modelled.
- CacheReadBlock: reads do not consult the write cache and nothing is stated about it; read errors are not modelled.
- WeHave: peers attached to blocks are plain numbers, and the per-block peer count is unbounded.
- ConvertUTF32toUTF8: a pointer pair into the source is an index; the target is an array with a start index.
- Incoming: the receive buffer is a string and positions are unbounded numbers; a content length beyond 64 bits does not
  wrap; a status that is not a number reads as 0 and one beyond 32 bits as the nearest, as in current C++.
- Optimize: at least one file, as the source needs; file attributes and times are not modelled.
- TryConnect: timers are left to the environment and the clock is read once per call; ticket numbers do not wrap.
- OnSent: the error path, after which the connection is closed, and encryption.
- DeDotDot: the path is a string without its terminator rather than a buffer rewritten in place.
- DiskCache: the thread is the only one to change the caches; the clock stands still during one call; `delete_files`,
  expiry of old pieces and hashing through the read cache.
- Block rows of the download table are rows of a sequence and a row pointer is a row number; `clear_peer`, the query
  functions and calling `init` again are not modelled.
- Conversion from UTF-32 to UTF-16.
- Sockets, timers, threads, file handles, sessions, trackers, DHT, the rest of the peer protocol, the daemon, the HTML
  front end and the log scripts; codecs such as base32 and Merkle hashing, which would only add easy members.
