# Index structures of lucene-go, modelled in Dafny

The modules model eleven parts of lucene-go, a full-text index written in Go: the
point tree of the simple-text codec, the multi-level skip list, the delete queue, the
index file deleter, the simple-text formats, the numbering of nested readers, the
in-memory postings encoder, the accounting of soft and hard deletes, paged bytes with
the point view over them, the competitive impacts, and the quickselect beside the tree
writer. `dafny verify dfyconfig.toml` verifies all of it.

Objects whose methods change fields are classes, loops over buffers are loops, and each
is proved against functions on values; the lemmas about those functions state what the
formats and protocols are for. A file is a sequence of bytes with a position. The text
formats write bytes as `char`s, the binary ones as numbers below 256. A reader
method takes as ghost arguments what was written and promises to recover it; without
that promise it only promises to fail cleanly.

## The parts

* **Points** (`BkdLayout` to `BkdRoundTrip`, `BkdCells`, `BkdReach`). A heap-numbered tree
  of split values over leaf blocks. `BkdTree.Built` says what a built tree is: at every
  inner node the values on the left are at most, those on the right at least, the recorded
  value in the recorded dimension, and every leaf entry is the position of a block that
  holds its points. `BkdCells.SplitsWidest` says that every inner node splits on the widest
  dimension of its cell. `BuildV2` and `BuildV1` establish both for a permutation of the
  input, the index text carries them over, and pruning by cells on such a tree agrees with
  a plain scan; `BkdReach` says which leaves the estimate counts and which calls a visitor
  gets. Selection and sorting appear by their contracts; by which dimension a leaf is
  sorted is free. `BkdFlush` begins at the buffer of the point values writer.
* **Skip list** (`SkipLayout` to `SkipRoundTrip`). `List` describes levels and bytes as
  functions of the documents. The reader keeps its tables equal to the rows of that
  description; `SkipTo` agrees with a scan of the lowest level after any calls.
* **Delete queue** (`DeleteProtocol`, `DeleteQueue`, `DeleteRuns`). A state machine whose
  steps any number of writers take in any order, with an invariant that makes the buffered
  deletes of a writer exact; the linked list with its slices, whose methods take those
  steps; and runs of any number of writer objects, which end where their operations lead.
* **File deleter** (`FileDeleter`, `FileRuns`). The reference counts equal a multiset of
  references: live commits, the last checkpoint, outside holds. Runs are compared with a
  state machine that has no counts.
* **Simple text** (`Text`, `Numerals`, `Postings...`, `StoredFields...`, `Compound...`).
  An escaping line layer, and on it three formats whose readers recover what was written.
  The readers pass over positions and the names of stored fields; `PostingsMeaning` and
  `StoredFieldsMeaning` read the whole files line by line and recover those as well.
* **Composite readers** (`CompositeReader`). Dispatch by prefix sums against the flat list.
* **Postings encoder** (`PostingsEncoding`, `FreqProx`). The streams of a term and the
  document held back always decode to the history of the term.
* **Pending deletes**, **paged bytes and points**, **impacts**, **quickselect**
  (`PendingDeletes`, `PagedBytes`, `PointValues`, `Impacts`, `SortK`).

## Where the code does not keep its promises

Each of these has its exact condition in a lemma or contract, except one case of `sortN`,
where two inputs show that it depends on the order of the items.

* With a maximum of one point per leaf a tree can only be built over a power of two of
  points (`BkdFinish.EnoughPoints`).
* The document count in the point index is the length of a bit set, not the number of
  documents (`BkdFinish.DocCountExactIff`, `BkdFinish.DocCountNotExact`); `writeFieldNDims`
  sets the wrong bit, and is right by accident when every announced number has a point
  (`BkdFields.SeenCountExactIff`, `BkdFields.SeenCountNotExact`).
* `SortByDim` sorts nothing, since its sorter tells a negative length
  (`BkdFields.WriteLeafV1`).
* `SkipTo` never ends for a target above the largest 32-bit number, and ends for all others
  (`SkipReader.MultiLevelSkipListReader.SkipToWithin`, `SkipTo`); before any positive target
  its result is minus the interval, minus one.
* `advanceTarget` reads one document, whatever the target
  (`PostingsReader.AdvanceExactIff`).
* The compound reader renames files with a suffix behind an underscore. Such a file is
  found exactly when its segment ends with a character that sorts behind the underscore
  and it is the first file with a suffix. The other ones are not found, or the bytes of
  that first file are handed out for theirs (`CompoundReader.FoundIff`, `WriteAndOpen`,
  `SuffixesAreLost`).
* An empty byte list does not parse back (`Numerals.HexRoundTrip`).
* A field with offsets never accepts a first token, and a token refused in a later
  document leaves the document before it in the postings twice
  (`FreqProx.FreqProxTermsWriterPerField.NewTerm`, `PostingsEncoding.RefusalRepeatsDoc`).
* The delete count that soft deletes inherit does not see pending hard deletes
  (`DelCountRight`); dropping changes forgets them (`DropChanges`); live docs handed out
  are no snapshot once the bits are private (`DeleteAfterSnapshot`). The loop over soft
  deletes ends only when there are none (`PendingDeletes.ApplyWithoutAdvancing`).
* The document count of a point view misses document 0
  (`PointValues.PointValuesWriter.Flush`), and `Restore` puts back too little
  (`PointValues.MutablePointValues.Restore`).
* `sortN` repeats for ever when two items behind rank k are equal to the k-th smallest
  (`SortK.NeverEnds`), and always ends when none is, or one with nothing above
  (`SortK.EndsIff`). With one, and something above, the order of the items decides
  (`SortK.OneOrderEnds`, `SortK.OtherOrderNeverEnds`).
* A negative byte norm has no place in the impacts array
  (`Impacts.CompetitiveImpactAccumulator.Add`).

## Model

| member | source | states |
|---|---|---|
| `BkdRoundTrip.BuildAndIntersect` | codecs/simpletext/bkdwriter.go:93-229 | End to end, for any points and any visitor whose Compare is sound: add, build, write the index, read it back and intersect; the documents kept are, with the same multiplicities, those of a plain scan of the added points; a tree comes about exactly when `CanFinish` holds; the document count read back is right exactly when every announced number and every number below the document of some point has a point |
| `BkdFields.WriteFieldAndIntersect` | codecs/simpletext/bkdwriter.go:153-305 | The same for a field written from points in memory (`writeFieldNDims` over `buildV1`), with the exact condition for its own document count |
| `BkdFlush.FlushAndIntersect` | core/index/pointvalueswriter.go:39-76 | From the first buffered value to the last hit: any points added in the order of their documents, flushed, written, read and intersected give the plain scan, and an exact condition tells when the document count that is read back from the index is right |
| `BkdQuery.PruningIsExact` | codecs/simpletext/bkdreader.go:98-169 | From any node down, what a sound visitor keeps is the plain scan of the points below that node, in leaf order: no point is lost or seen twice by pruning cells |
| `BkdQuery.SoundIsJudged` | codecs/simpletext/bkdreader.go:134-168 | Every point lies in the cell bounds that the reader cuts on its way down, so a sound visitor misjudges no cell |
| `BkdQuery.JudgedIsExact` | codecs/simpletext/bkdreader.go:98-169 | Where no cell is misjudged, the calls a visitor gets amount to the scan |
| `BkdCells.HalvesInCells` | codecs/simpletext/bkdreader.go:134-168 | Cutting a cell at the recorded split value leaves the left points in the left cell and the right points in the right one |
| `BkdQuery.MatchingPermuted` | codecs/simpletext/bkdwriter.go:733-790 | What a scan keeps does not depend on the order in which the tree arranged the points |
| `BkdQuery.EstimateIsEnough` | codecs/simpletext/bkdreader.go:279-315 | The estimate is never below the number of points that Intersect reports for the same sound visitor |
| `BkdReach.EstimateCountsReached` | codecs/simpletext/bkdreader.go:279-315 | From any node the estimate is exactly the maximum of a leaf times the number of leaves that are reached, which are those on whose path from the node no cell is outside; so it is 0 for a cell outside |
| `BkdReach.VisitsByLeaf` | codecs/simpletext/bkdreader.go:98-169 | The calls that a visitor gets are, point by point and in order, what the first cell on the path to its leaf that does not cross decides: none if it is outside, the document alone if it is inside, document and value if all cells cross |
| `BkdQuery.BuiltSmallLeaves` | codecs/simpletext/bkdwriter.go:186-195 | In a built tree no leaf holds more than the configured maximum |
| `BkdRoundTrip.OneDimensionInOrder` | codecs/simpletext/bkdwriter.go:704-730 | In one dimension the values offered to a visitor ascend, ties by document number |
| `BkdRoundTrip.WrittenIsRead` | codecs/simpletext/pointsreader.go:103-208 | A reader of a written index reads the tree that was built: every inner node, every leaf block, and bounds that contain all points |
| `BkdRoundTrip.SplitsAreWidest` | codecs/simpletext/bkdwriter.go:604-790 | In a written index the recorded dimension of every inner node is the first of the widest dimensions of its cell, which is the bounds of all points cut at the recorded splits from the root down |
| `BkdRoundTrip.WrittenIsReadable` | codecs/simpletext/pointsreader.go:103-208 | Every written index with numbers of 64 bits passes the reader |
| `BkdReader.Intersect` | codecs/simpletext/bkdreader.go:75-169 | On a well written tree the visitor gets exactly the calls of the recursive description and keeps the scan of the points |
| `BkdReader.IntersectNode` | codecs/simpletext/bkdreader.go:98-169 | The same from one node: outside nothing, inside all documents unseen, otherwise both halves with cut cells, leaves value by value |
| `BkdReader.AddAll` | codecs/simpletext/bkdreader.go:80-91 | Delivers every document under a node, in leaf order, without its value |
| `BkdReader.VisitDocIDs` | codecs/simpletext/bkdreader.go:171-201 | Delivers the documents of a leaf block, in order |
| `BkdReader.ReadDocIDs` | codecs/simpletext/bkdreader.go:203-229 | Recovers the documents of a leaf block into the scratch array |
| `BkdReader.VisitDocValues` | codecs/simpletext/bkdreader.go:231-268 | Offers every document of a leaf block with the value that was written for it |
| `BkdWriter.BuildV2` | codecs/simpletext/bkdwriter.go:644-792 | Appends blocks, touches only entries under its node, and leaves a tree over a permutation of the points: at every inner node the left values are at most, the right ones at least the recorded split value, which is that of a point on the right; where the points lie in the given cell, every inner node splits on the first of the widest dimensions of its cell; it fails exactly when a half would stay empty |
| `BkdFields.BuildV1` | codecs/simpletext/bkdwriter.go:459-583 | The same for points rearranged in place within a range; nothing outside the range moves |
| `BkdFields.WriteLeafV1` | codecs/simpletext/bkdwriter.go:504-530 | A leaf holds the points of its range in the order in which they stand: the sorter before it sorts nothing |
| `BkdWriter.BothHalves` | codecs/simpletext/bkdwriter.go:763-790 | A split and the trees built under its two halves make a tree |
| `BkdWriter.BothWidest` | codecs/simpletext/bkdwriter.go:770-790 | Halves that split on the widest dimensions of the two cut cells, under a split on the widest dimension of the whole cell, make a tree that does so at every node |
| `BkdCells.WidestAt` | codecs/simpletext/bkdwriter.go:733-790 | At any inner node under another one the cell is that of the upper node cut at the recorded splits on the way down, and the recorded dimension is the first of its widest |
| `BkdTree.SelectionSeparates` | codecs/simpletext/bkdwriter.go:754-758 | Partitioning by the contract of the selector puts everything left before everything right, however each half is rearranged later |
| `BkdWriter.SplitSlice` | codecs/simpletext/bkdwriter.go:733-778 | Makes two slices of the rounded-up and rounded-down half, on the first of the widest dimensions of the cell, and records dimension and value in the entry of the node and nowhere else |
| `BkdFields.SplitRange` | codecs/simpletext/bkdwriter.go:541-560 | The same in place: the range is partitioned at its middle on the first of the widest dimensions of the cell |
| `BkdFields.MutablePoints.Partition` | core/index/mutablepointsreaderutils.go:82-112 | The stated contract: within the range a permutation, nothing left of the position above it, nothing right of it below; a position outside the range is rejected |
| `BkdWriter.ChooseSplitDim` | codecs/simpletext/bkdwriter.go:604-616 | Finds the first of the dimensions with the widest span |
| `BkdWriter.Subtract` | core/util/numeric/numeric_utils.go:9-28 | The byte-wise difference with borrows is the numeric difference |
| `BkdLayout.LexIsNumeric` | codecs/simpletext/bkdwriter.go:608-611 | Byte-wise comparison of values of one length is numeric comparison |
| `BkdWriter.WriteSplit` | codecs/simpletext/bkdwriter.go:763-768 | Writing the entry of a node changes the split of that node and of no other |
| `BkdWriter.WriteLeafBlock` | codecs/simpletext/bkdwriter.go:585-642 | Writes count, documents and values of a leaf as one block |
| `BkdFinish.BKDWriter.Add` | codecs/simpletext/bkdwriter.go:93-143 | Appends the point or rejects a wrong length or one point too many; the bounds stay the tightest bounds of all points |
| `BkdFinish.WidenDims` | codecs/simpletext/bkdwriter.go:122-135 | Raises and lowers the bounds dimension by dimension in place |
| `BkdFields.ComputeBounds` | codecs/simpletext/bkdwriter.go:263-291 | From all ones and all zeros the bounds become the tightest bounds of the points |
| `BkdFinish.BKDWriter.Finish` | codecs/simpletext/bkdwriter.go:162-229 | Succeeds exactly when `CanFinish` holds, and then leaves the index text at the returned position and a tree over a permutation of the points |
| `BkdFields.WriteFieldNDims` | codecs/simpletext/bkdwriter.go:233-305 | The same from points in memory, only on a writer without points; and when the document count written is the number of documents |
| `BkdFinish.CountLeaves` | codecs/simpletext/bkdwriter.go:186-195 | The doubling loop computes the leaf count |
| `BkdFinish.LevelsFit` | codecs/simpletext/bkdwriter.go:186-195 | The count is the least power of two with which no leaf holds more than the maximum |
| `BkdFinish.LeavesAreEven` | codecs/simpletext/bkdwriter.go:186-195 | With that leaf count the splitting gives every leaf the floor or the ceiling of the average, never more than the maximum; no half stays empty exactly when the maximum is at least 2 or the point count is the leaf count |
| `BkdFinish.EnoughPoints` | codecs/simpletext/bkdwriter.go:186-195 | There are at least as many points as leaves exactly under that condition |
| `BkdLayout.SplittableIff` | codecs/simpletext/bkdwriter.go:742-744 | No half on the way down is empty exactly when there are as many points as leaves |
| `BkdFinish.DocCountExactIff` | codecs/simpletext/bkdwriter.go:141-141 | The document count of the index is never too low, and it is the number of documents exactly when every announced number and every number below the document of some point has a point |
| `BkdFinish.SeenIsGreatest` | codecs/simpletext/bkdwriter.go:141-141 | It is the greater of the announced number and the number behind the greatest document |
| `BkdFinish.DocCountNotExact` | codecs/simpletext/bkdwriter.go:141-141 | A concrete input on which the count is too high |
| `BkdFields.SeenCountExactIff` | codecs/simpletext/bkdwriter.go:293-293 | `writeFieldNDims` sets the bit of the document count instead of the document: with the count of the point view, what is written is the number of documents exactly when every announced number has a point (for at least one point, all in documents below that number) |
| `BkdFields.SeenCountNotExact` | codecs/simpletext/bkdwriter.go:293-293 | A concrete input on which it is not |
| `BkdIndex.WriteIndex` | codecs/simpletext/bkdwriter.go:307-449 | Prints header, bounds, counts, block positions and splits |
| `BkdIndex.InitReader` | codecs/simpletext/pointsreader.go:103-208 | Reading the printed index recovers configuration, bounds, counts, every block position, and for every inner node the split dimension and value |
| `BkdIndex.ReaderSplitOfEntry` | codecs/simpletext/pointsreader.go:103-208 | In both strides, without the dimension byte for one dimension and with it otherwise, the reader finds in the entry of a node what the writer stored |
| `Text.LineRoundTrip` | codecs/utils/util.go:217-258 | Reading a printed line gives the line back, whatever bytes it holds, newline and escape included, and leaves the position behind it |
| `Text.IndexOutput.WriteBytes` | codecs/utils/util.go:217-229 | The loop writes the escaped bytes |
| `Text.IndexInput.ReadLine` | codecs/utils/util.go:235-258 | The loop reads the line that stands at the position, or fails at the end of the file |
| `Text.ReadingLine` | codecs/utils/util.go:235-258 | In a printed file, reading at the position of the k-th line gives the k-th line and the position of the next |
| `Text.PrintInjective` | codecs/utils/util.go:217-229 | Only the same lines print the same file |
| `Numerals.ItoaRoundTrip` | codecs/utils/util.go:302-308 | A printed number parses back, for every number of the given width |
| `Numerals.OnlyNumeral` | codecs/utils/util.go:302-308 | A number is printed as the only numeral of its value without a leading zero |
| `Numerals.PaddedRoundTrip` | codecs/simpletext/compoundformat.go:132-141 | A number padded with zeros parses back |
| `Numerals.HexRoundTrip` | core/util/bytesref/bytesref.go:24-61 | A printed byte list parses back exactly when it is not empty |
| `Varint.UvarintRoundTrip` | core/index/termshashperfield.go:284-291 | Every number of 64 bits written in seven-bit groups is read back, with the position after it |
| `SkipReader.MultiLevelSkipListReader.SkipTo` | core/index/multilevelskiplistreader.go:108-133 | Whatever the calls before, once a target was positive, the result plus one is the interval times the number of lowest-level entries before the greatest target so far, and `lastDoc` is the document of the last of them; it ends for every target up to the largest 32-bit number |
| `SkipReader.SkipAll` | core/index/multilevelskiplistreader.go:108-133 | Over any run of calls, from the first positive target on, each result is that of a scan of the lowest level up to the greatest target so far |
| `SkipRoundTrip.WriteAndSkip` | core/index/multilevelskiplistwriter.go:147-203 | Writing the skip list of any ascending documents and skipping through it gives the results of the scan |
| `SkipRoundTrip.WrittenIsStored` | core/index/multilevelskiplistwriter.go:147-203 | What the writer writes is the layout the reader expects |
| `SkipReader.MultiLevelSkipListReader.Init` | core/index/multilevelskiplistreader.go:196-274 | Finds every level of a stored list and starts before its first entry |
| `SkipReader.MultiLevelSkipListReader.LoadNextSkip` | core/index/multilevelskiplistreader.go:135-169 | Moves one level by one entry: stream, document, count and child pointer are those of that entry; behind the last entry the level closes |
| `SkipReader.MultiLevelSkipListReader.SeekChild` | core/index/multilevelskiplistreader.go:171-185 | A lower level continues at the entry that the child pointer leads to |
| `SkipReader.MultiLevelSkipListReader.FindTop` | core/index/multilevelskiplistreader.go:109-114 | Finds the highest level that still lies before the target |
| `SkipReader.MultiLevelSkipListReader.Descend` | core/index/multilevelskiplistreader.go:116-130 | The descent ends on the lowest level at the first entry not before the target |
| `SkipReader.DescendStep` | core/index/multilevelskiplistreader.go:116-130 | Going down a level, with or without a seek, loses no entry before the target |
| `SkipReader.MultiLevelSkipListReader.SkipToWithin` | core/index/multilevelskiplistreader.go:108-133 | For a target above the largest 32-bit number no number of rounds is enough, from any state of the reader |
| `SkipReader.ShowsLess` | core/index/multilevelskiplistreader.go:135-169 | No level ever shows a document above the largest 32-bit number, before, at or behind its entries |
| `SkipReader.BeyondNeverEnds` | core/index/multilevelskiplistreader.go:116-120 | Behind the last entry one more load leaves the level there |
| `SkipLayout.BelowIsPrefix` | core/index/multilevelskiplistwriter.go:172-203 | On every level the entries before a target are a prefix of the level |
| `SkipLayout.IntervalFits` | core/index/multilevelskiplistreader.go:140-144 | The counter passes the document count exactly behind the last entry of the level |
| `SkipLayout.LevelsAreInhabited` | core/index/multilevelskiplistreader.go:221-229 | Every level that the reader counts has an entry |
| `SkipLayout.LogLoop` | core/util/math.go:7-14 | The loop computes the integer logarithm |
| `SkipWriter.SkipListWriter.constructor` | core/index/multilevelskiplistwriter.go:98-118 | The level count, from an upper bound of the postings, is at least the number of levels of the list, and above the lowest the levels are exactly those of which one entry fits into the bound |
| `SkipWriter.SkipListWriter.BufferSkip` | core/index/multilevelskiplistwriter.go:172-203 | Appends the next entry to exactly the levels it reaches, each with the child pointer into the level below |
| `SkipWriter.SkipListWriter.CountLevels` | core/index/multilevelskiplistwriter.go:174-181 | An entry goes to as many levels as its number is divisible by the multiplier |
| `SkipWriter.SkipListWriter.WriteSkip` | core/index/multilevelskiplistwriter.go:148-170 | Writes the levels from the highest, each but the lowest after its length, empty ones left out |
| `DeleteProtocol.Serializable` | core/index/documentswriterperthread.go:95-146 | In every run of any number of writers, once a slice is applied, a buffered document counts as deleted by a term exactly when the applied part of the queue holds a delete of that term with a greater sequence number than the document; that part is all up to the last operation of the writer |
| `DeleteProtocol.OwnDocumentSurvives` | core/index/documentswriterdeletequeue.go:94-103 | An update never deletes its own document |
| `DeleteProtocol.FlushSeesAll` | core/index/documentswriterperthread.go:380-393 | A flush whose slice reaches the end of the queue has taken every delete into account |
| `DeleteProtocol.GlobalSeesAll` | core/index/documentswriterdeletequeue.go:127-134 | The global buffer holds exactly the terms of all deletes, for every document |
| `DeleteProtocol.StepKeeps` | core/index/documentswriterdeletequeue.go:91-144 | Every step of every writer keeps the invariant of the queue and of all writers |
| `DeleteProtocol.RunKeeps` | core/index/documentswriterdeletequeue.go:62-66 | The invariant holds after every run from the initial number |
| `DeleteProtocol.ZeroHidesNothing` | core/index/documentswriterdeletequeue.go:114-121 | A sequence number that is not negated means that the slice has not grown |
| `DeleteProtocol.LowStartLosesDeletes` | core/index/documentswriterdeletequeue.go:62-80 | With any lower initial number there is a run that loses a delete |
| `DeleteProtocol.ApplyIsExact` | core/index/documentswriterdeletequeue.go:183-206 | Applying a slice with the limit of the batch keeps the buffered deletes exact |
| `DeleteProtocol.DeletedAfter` | core/interface/index/bufferedupdates.go:60-80 | What deletes a document after a part of the queue was applied: what did before, or one of its terms with a limit above the document |
| `DeleteQueue.DocumentsWriterDeleteQueue.Add` | core/index/documentswriterdeletequeue.go:91-112 | Appends the node, numbers it, lets the slice of the writer end at it, and applies the global slice |
| `DeleteQueue.DocumentsWriterDeleteQueue.UpdateSlice` | core/index/documentswriterdeletequeue.go:114-121 | Moves the slice to the end of the queue; the number is negated exactly when it moved |
| `DeleteQueue.DocumentsWriterDeleteQueue.TryApplyGlobalSlice` | core/index/documentswriterdeletequeue.go:127-144 | Is the global step of the protocol |
| `DeleteQueue.DeleteSlice.Apply` | core/index/documentswriterdeletequeue.go:183-211 | Walking the linked nodes from head to tail adds exactly the deletes of the slice, in order |
| `DeleteQueue.BufferedUpdates.AddTerm` | core/interface/index/bufferedupdates.go:60-80 | A limit is never lowered |
| `DeleteQueue.DocumentsWriterPerThread.UpdateDocuments` | core/index/documentswriterperthread.go:95-146 | Is, on the linked list, the run of protocol steps of one batch: begin, process, then update or finish, then apply; a document that fails ends the batch and leaves the ones before it; the list only grows at its end |
| `DeleteRuns.RunAll` | core/index/documentswriterperthread.go:95-146 | Any number of writer objects on one queue, opened, fed with batches and flushed in any order, end exactly where the operations lead, which is a state that the protocol reaches; an operation of a writer that is not there or has flushed does nothing |
| `DeleteRuns.LeadsTells` | core/index/documentswriterperthread.go:95-146 | Where operations lead, the queue holds exactly the deletes of the batches without a refused document, in order, and every writer as many documents as its batches had before the first refused one |
| `DeleteRuns.LeadsReaches` | core/index/documentswriterperthread.go:95-146 | Where operations lead, some run of protocol steps leads as well |
| `DeleteRuns.RunOp` | core/index/documentswriterperthread.go:95-146 | Each operation on the objects takes the state of queue and all writers to the one that the operation determines |
| `DeleteRuns.ObjectsSerializable` | core/index/documentswriterperthread.go:95-146 | So in all of them a buffered document counts as deleted by a term exactly when the part of the queue that its writer has applied holds a later delete of it |
| `DeleteRuns.Batch` | core/index/documentswriterperthread.go:95-146 | A batch of one writer object changes queue and writers as the batch determines: the documents before the first refused one, and without a refused one the delete and the number; all others stay |
| `DeleteRuns.ReachUpdated` | core/index/documentswriterdeletequeue.go:91-144 | What a batch with a delete does is a run of protocol steps |
| `DeleteRuns.ReachPlain` | core/index/documentswriterdeletequeue.go:114-121 | What a batch without one does is a run of protocol steps |
| `DeleteRuns.ReachFailed` | core/index/documentswriterperthread.go:95-115 | What a failed batch leaves is a run of protocol steps |
| `DeleteQueue.DocumentsWriterPerThread.PrepareFlush` | core/index/documentswriterperthread.go:380-393 | Is the flush step of the protocol, whether or not the slice is moved to the end of the queue before |
| `DeleteQueue.BatchKeepsExact` | core/index/documentswriterperthread.go:95-146 | Whatever a batch does, the buffered deletes stay exact up to its own operation |
| `FileDeleter.CountsAreRight` | core/index/indexfiledeleter.go:341-377 | The count of a file is the number of commits that contain it, plus one if the last checkpoint does, plus the outside holds; counted files exist |
| `FileRuns.RunAll` | core/index/indexfiledeleter.go:341-500 | Any run of writes, commits, checkpoints and outside holds on an empty directory leaves the deleter exactly where the run leads without reference counts; every count is right; a file is there exactly when it was written and no later step dropped its last reference, which is when it has a count or was not referred to since it was written; with the default policy the last commit lives alone |
| `FileRuns.RunOp` | core/index/indexfiledeleter.go:341-500 | Each operation takes exactly one step: it determines commits, last checkpoint, holds and the whole directory; one whose files are not there, or not held, does nothing |
| `FileRuns.LeavesIff` | core/index/indexfiledeleter.go:451-500 | A step removes a file exactly when it drops the last reference to it |
| `FileRuns.ThereIff` | core/index/indexfiledeleter.go:341-500 | After any number of steps a file is there exactly when it was written and no later step dropped its last reference |
| `FileRuns.ThereOrUnused` | core/index/indexfiledeleter.go:341-500 | The same as: it is referred to, or was written and not referred to since |
| `FileRuns.OneLives` | core/index/keeponlylastcommitdeletionpolicy.go:20-31 | Under the default policy the commits of a run are the last one that took effect |
| `FileRuns.SameKept` | core/index/indexfiledeleter.go:420-449 | The commits that the marks leave are those that the policy leaves |
| `FileDeleter.IndexFileDeleter.CheckpointCommit` | core/index/indexfiledeleter.go:379-418 | Over any policy: keeps all counts right, adds the commit with the generation of the segments after the surviving ones, which keep their order, and deletes exactly the files whose last reference went |
| `FileDeleter.IndexFileDeleter.Checkpoint` | core/index/indexfiledeleter.go:379-418 | Exchanges the references of the last checkpoint; exactly the files whose last reference went are deleted, segments files first |
| `FileDeleter.IndexFileDeleter.IncRefFiles` | core/index/indexfiledeleter.go:357-377 | Takes one outside reference to every file |
| `FileDeleter.IndexFileDeleter.DecRef` | core/index/indexfiledeleter.go:451-472 | Returns outside references; a file is deleted exactly when its last reference went |
| `FileDeleter.IndexFileDeleter.DeleteCommits` | core/index/indexfiledeleter.go:420-449 | Drops the references of the commits marked deleted, and those commits; the others stay |
| `FileDeleter.IndexFileDeleter.DropRefs` | core/index/indexfiledeleter.go:451-472 | Counts every file down once and deletes those that reach zero |
| `FileDeleter.IndexFileDeleter.DeleteFiles` | core/index/indexfiledeleter.go:474-500 | Removes the segments files before the others, each once |
| `FileDeleter.IndexFileDeleter.Compact` | core/index/indexfiledeleter.go:420-449 | The in-place compaction leaves the commits not deleted, in order |
| `FileDeleter.IndexFileDeleter.KeepOnlyLast` | core/index/keeponlylastcommitdeletionpolicy.go:20-31 | Marks every commit but the last |
| `FileDeleter.OneCommitLives` | core/index/keeponlylastcommitdeletionpolicy.go:20-31 | So one commit lives, the last |
| `FileDeleter.CommitPoint.Delete` | core/index/indexfiledeleter.go:606-612 | Marks a commit once, however often it is called |
| `PostingsRoundTrip.WriteAndRead` | codecs/simpletext/fieldswriter.go:79-271 | Writing any fields and reading a term back gives its position, document and total frequency, the sums and document count of its field, and exactly its documents with their frequencies |
| `PostingsMeaning.FileSaid` | codecs/simpletext/fieldswriter.go:79-271 | The lines of the file determine what the fields keep: a line-by-line reading gives back every field and term with documents, and of each document its number, its frequency, and its positions, offsets and payloads where the field has them, in order and in number |
| `PostingsMeaning.PositionsSaid` | codecs/simpletext/fieldswriter.go:196-265 | The same for the lines of one document: its positions, each with start and end offset and payload |
| `PostingsMeaning.SameFile` | codecs/simpletext/fieldswriter.go:79-271 | Two lists of fields print the same file only if the file keeps the same of them |
| `PostingsFile.FieldsRecovered` | codecs/simpletext/fieldsreader.go:87-106 | The table names exactly the fields with documents, each with the position where its terms start |
| `PostingsScan.ScanRecovers` | codecs/simpletext/fieldsreader.go:155-234 | Scanning a field recovers of every term with documents where they start, both frequencies and the end of its skip label, and of the field all sums |
| `PostingsScan.FeedTerm` | codecs/simpletext/fieldsreader.go:155-234 | Scanning the lines of one term counts its documents and occurrences and nothing else |
| `PostingsWriter.TextFieldsWriter.WriteField` | codecs/simpletext/fieldswriter.go:79-271 | The nested loops print the lines of a field, of which `FileSaid` speaks: its label once, before its first term with documents, and terms without documents not at all |
| `PostingsWriter.TextFieldsWriter.WriteTerm` | codecs/simpletext/fieldswriter.go:132-268 | Prints a term label once, before its first document, and the skip label from eight documents on |
| `PostingsWriter.TextFieldsWriter.WriteFields` | codecs/simpletext/fieldswriter.go:79-271 | Prints the fields in order |
| `PostingsWriter.TextFieldsWriter.Close` | codecs/simpletext/fieldswriter.go:62-73 | Prints the end |
| `PostingsReader.ReadFields` | codecs/simpletext/fieldsreader.go:87-106 | The line loop computes that table |
| `PostingsReader.SimpleTextTerms.LoadTerms` | codecs/simpletext/fieldsreader.go:155-234 | The line loop computes that scan, up to the line that ends the field |
| `PostingsReader.SimpleTextDocsEnum.ReadDoc` | codecs/simpletext/fieldsreader.go:661-735 | Reads one document with its frequency and stops before the line that ends it; at the end of the term there are no more |
| `PostingsReader.ReadPostings` | codecs/simpletext/fieldsreader.go:577-579 | Repeated reading from the start of a term yields exactly its documents and frequencies, and then ends |
| `PostingsReader.AdvanceExactIff` | codecs/simpletext/fieldsreader.go:737-754 | Advancing reads a single document; that is the one asked for exactly when the next document is not before the target |
| `PostingsFile.FieldInFile` | codecs/simpletext/fieldsreader.go:155-234 | The lines of a field are followed by a line that ends it |
| `PostingsFile.TermInField` | codecs/simpletext/fieldsreader.go:661-735 | The lines of a term are followed by a line that ends it |
| `StoredFieldsRoundTrip.WriteAndVisit` | codecs/simpletext/storedfieldsreader.go:101-178 | Of any stored documents, visiting the i-th delivers exactly its accepted fields, in order, with their values |
| `StoredFieldsMeaning.FileSaid` | codecs/simpletext/storedfieldswriter.go:58-132 | The lines of the file determine the documents: a line-by-line reading gives back every document and of each field its number, name, type and value, in order |
| `StoredFieldsMeaning.FieldSaid` | codecs/simpletext/storedfieldswriter.go:76-119 | The same for the four lines of one field |
| `StoredFieldsMeaning.SameFile` | codecs/simpletext/storedfieldswriter.go:58-132 | Only the same documents print the same file |
| `StoredFields.OffsetsRecovered` | codecs/simpletext/storedfieldsreader.go:71-90 | The index scan finds one offset per document, at its first field |
| `StoredFieldsReader.Reader.ReadIndex` | codecs/simpletext/storedfieldsreader.go:71-90 | The line loop computes that index |
| `StoredFieldsReader.Reader.VisitDocument` | codecs/simpletext/storedfieldsreader.go:101-178 | On any document the visitor gets what it accepts, up to the field at which it stops |
| `StoredFieldsReader.DeliveredUntil` | codecs/simpletext/storedfieldsreader.go:101-178 | That is what the visitor accepts, asked field by field with what it was given before, in front of the first field at which it stops; all fields if it accepts all |
| `StoredFieldsReader.Reader.VisitField` | codecs/simpletext/storedfieldsreader.go:115-175 | Handles one field: accepted, passed over, or stopped at |
| `StoredFieldsReader.ValueRoundTrip` | codecs/simpletext/storedfieldsreader.go:180-223 | Every printed value parses back to itself |
| `StoredFields.StoredFieldsWriter.WriteField` | codecs/simpletext/storedfieldswriter.go:76-119 | Prints the four lines of a field, number, name, type and value, of which `FieldSaid` speaks |
| `StoredFields.StoredFieldsWriter.StartDocument` | codecs/simpletext/storedfieldswriter.go:58-70 | Prints the line of a document with its number |
| `StoredFields.StoredFieldsWriter.Finish` | codecs/simpletext/storedfieldswriter.go:121-132 | Prints the end, or fails when the documents do not add up |
| `CompoundReader.WriteAndOpen` | codecs/simpletext/compoundformat.go:45-286 | Written files come back under their names byte by byte and with their lengths, when the renaming leaves the names alone; for any files of a segment: a plain name gives its own bytes, a name with a suffix those of the first such file if the segment ends behind the underscore, and an error otherwise |
| `CompoundReader.RenamedIff` | core/index/segmentinfo.go:237-259 | Exactly which names the renaming leaves alone |
| `CompoundReader.LookedFor` | codecs/simpletext/compoundformat.go:280-286 | Where the lookup ends in a renamed table: at a plain name itself; for a name with a suffix at the first such name, or behind the table |
| `CompoundReader.FoundIff` | codecs/simpletext/compoundformat.go:252-286 | A file of a segment is found exactly when its name is plain, or when the segment ends behind the underscore and no other name with a suffix sorts before it |
| `CompoundReader.SuffixesAreLost` | codecs/simpletext/compoundformat.go:252-286 | Two concrete tables: one name is lost, one is taken for another |
| `CompoundReader.RenamedSorted` | core/index/segmentinfo.go:237-259 | The renamed names of a segment are still sorted, and distinct |
| `CompoundReader.GetCompoundReader` | codecs/simpletext/compoundformat.go:145-229 | Finds the table through the fixed-width footer and reads all entries |
| `CompoundReader.SearchFinds` | codecs/simpletext/compoundformat.go:280-286 | In the sorted table the search finds a name at its place |
| `CompoundReader.SearchIsFirst` | codecs/simpletext/compoundformat.go:280-286 | In a sorted table the binary search finds the first name that is not before the one asked for |
| `CompoundReader.CompoundDirectory.GetIndex` | codecs/simpletext/compoundformat.go:280-286 | The loop of the binary search, on any table |
| `CompoundReader.CompoundDirectory.OpenInput` | codecs/simpletext/compoundformat.go:260-266 | Opens the slice of that entry |
| `CompoundReader.CompoundDirectory.FileLength` | codecs/simpletext/compoundformat.go:252-258 | Tells the length of that entry |
| `Compound.Write` | codecs/simpletext/compoundformat.go:45-143 | Writes the files in the order of their names, the table, and where it starts |
| `Compound.SliceIsFile` | codecs/simpletext/compoundformat.go:63-86 | The bytes between start and end of an entry are those of its file |
| `Compound.NameIsBefore` | codecs/simpletext/compoundformat.go:63-86 | Before the bytes of each file stands a line with its name, right behind the file before it, and the table behind the last file |
| `Compound.SlicesAreDisjoint` | codecs/simpletext/compoundformat.go:63-86 | No two slices overlap |
| `Compound.SortNames` | codecs/simpletext/compoundformat.go:52-56 | Sorts the names, each once |
| `CompositeReader.Dispatch` | core/index/compositereader.go:149-156 | Dispatch by the starts, level by level, ends for exactly the existing documents, at the leaf and place that the flat list of leaves gives |
| `CompositeReader.DispatchBack` | core/index/compositereader.go:149-156 | Every place of every leaf is reached by its number |
| `CompositeReader.HeldOnce` | core/index/compositereader.go:97-110 | A number belongs to one place only |
| `CompositeReader.PlacesHaveNumbers` | core/index/compositereader.go:97-110 | Every place has a number below the total |
| `CompositeReader.SubIndex` | core/index/readerutil.go:5-25 | Finds the last start that is not beyond n, of several equal ones the last, or nothing |
| `CompositeReader.NewCompositeReader` | core/index/compositereader.go:86-112 | The starts are prefix sums; too many documents are an error |
| `CompositeReader.CompositeReaderBuilder.Build` | core/index/compositereader.go:382-415 | Appends the leaves in order, each with its number and base in the whole and in its parent |
| `CompositeReader.BuildAndDispatch` | core/index/compositereader.go:374-415 | List and dispatch agree on leaf, base and local number of every document |
| `CompositeReader.LeavesSum` | core/index/compositereader.go:97-110 | A reader has as many documents as its leaves together |
| `CompositeReader.HeldBySub` | core/index/compositereader.go:149-156 | What a sub-reader holds at a place the whole holds behind its start |
| `PostingsEncoding.NothingIsLost` | core/index/freqproxtermswriterperfield.go:124-219 | At every moment the streams and the document held back decode to exactly the history of the term |
| `FreqProx.FeedAndRead` | core/index/freqproxtermswriterperfield.go:124-219 | After any run of tokens, decoding a term gives exactly its documents with their frequencies and, with positions, exactly its occurrences among the tokens, in order |
| `FreqProx.FreqProxTermsWriterPerField.Add` | core/index/termshashperfield.go:244-267 | A token extends the history of its term and no other; which tokens are refused; the counters |
| `FreqProx.FreqProxTermsWriterPerField.NewTerm` | core/index/freqproxtermswriterperfield.go:124-151 | The first token of a term; it never succeeds in a field with offsets, since the last offset is read before there is one |
| `FreqProx.FreqProxTermsWriterPerField.AddTerm` | core/index/freqproxtermswriterperfield.go:153-219 | A further token; a refused one changes the state of its term exactly when it belongs to a later document, by writing out the document held back |
| `FreqProx.FreqProxTermsWriterPerField.AddInNextDoc` | core/index/freqproxtermswriterperfield.go:170-202 | Writes the document held back and begins the next |
| `FreqProx.FreqProxTermsWriterPerField.AddInSameDoc` | core/index/freqproxtermswriterperfield.go:203-217 | Counts up and writes a position delta |
| `FreqProx.FreqProxTermsWriterPerField.AddDoc` | core/index/freqproxtermswriterperfield.go:156-169 | The same without frequencies |
| `FreqProx.FreqProxTermsWriterPerField.WriteProx` | core/index/freqproxtermswriterperfield.go:96-113 | Writes the code of a position with the payload flag, and the payload |
| `FreqProx.FreqProxTermsWriterPerField.WriteOffsets` | core/index/freqproxtermswriterperfield.go:115-122 | Fails exactly when the array of last offsets does not reach the term |
| `PostingsEncoding.RefusalRepeatsDoc` | core/index/freqproxtermswriterperfield.go:175-188 | A token refused in a later document leaves the document held back in the postings twice |
| `PostingsEncoding.EntryRoundTrip` | core/index/freqproxtermswriterperfield.go:177-182 | Delta and frequency of a document are read back, with and without the flag for frequency one |
| `PostingsEncoding.OccRoundTrip` | core/index/freqproxtermswriterperfield.go:96-109 | Delta and payload of an occurrence are read back |
| `PostingsEncoding.EntriesRecovered` | core/index/freqproxtermswriterperfield.go:174-192 | Stream 0 reads back to the documents and frequencies written |
| `PostingsEncoding.ProxRecovered` | core/index/freqproxtermswriterperfield.go:193-216 | Stream 1 reads back, by the frequencies, to the occurrences of every document |
| `PostingsEncoding.NextDocEncodes` | core/index/freqproxtermswriterperfield.go:170-202 | An occurrence in a later document keeps the encoding |
| `PostingsEncoding.SameDocEncodes` | core/index/freqproxtermswriterperfield.go:203-217 | An occurrence in the same document keeps the encoding |
| `FreqProx.HistoryLists` | core/index/freqproxtermswriterperfield.go:124-219 | The history of a term lists exactly its tokens |
| `FreqProx.HistoryCounts` | core/index/freqproxtermswriterperfield.go:124-219 | With or without positions, a history has exactly one entry for each document of its term, in order, whose frequency is the sum over the tokens of the term there |
| `FreqProx.FreqProxPostingsArray.SetTermFreqs` | core/index/freqproxpostingsarray.go:37-43 | Grows the array as needed and sets one element |
| `SortK.Select` | codecs/simpletext/bkdwriter.go:856-859 | When it ends the items are the same and the k-th is selected; whether it ends is told by the number c of items that are not above the k-th smallest: always for k + 1, never from k + 3 on, and for k + 2 when c is all items |
| `SortK.SortN` | codecs/simpletext/bkdwriter.go:861-874 | The loop on the array is the recursive description of partition and rounds, of which `SortNKeeps` and `EndsIff` speak |
| `SortK.Partition` | codecs/simpletext/bkdwriter.go:876-895 | The in-place scan is the recursive description, of which `PartitionParts` speaks |
| `SortK.RankSide` | codecs/simpletext/bkdwriter.go:863-872 | The item of rank k is on the side of the pivot on which the loop goes on |
| `SortK.EndsIff` | codecs/simpletext/bkdwriter.go:861-895 | With at most one item behind rank k equal to the k-th smallest it ends, with more it never does, however many rounds; where there is exactly one, this needs that nothing is above it |
| `SortK.EndsLast` | codecs/simpletext/bkdwriter.go:861-895 | No item from k on equal to the k-th smallest but itself: it always ends, within two rounds per item, on any range |
| `SortK.EndsTop` | codecs/simpletext/bkdwriter.go:861-895 | One more, and nothing above: it ends as well |
| `SortK.NeverEnds` | codecs/simpletext/bkdwriter.go:861-895 | Two more or above: it never ends |
| `SortK.OneOrderEnds` | codecs/simpletext/bkdwriter.go:861-895 | One more with an item above: the order 0, 1, 0 ends at once |
| `SortK.OtherOrderNeverEnds` | codecs/simpletext/bkdwriter.go:861-895 | and the order 0, 0, 1 of the same items never does |
| `SortK.SortNKeeps` | codecs/simpletext/bkdwriter.go:861-874 | Only the range is rearranged; ended, nothing left of k is above the item there and nothing right of it below |
| `SortK.PartedRank` | codecs/simpletext/bkdwriter.go:863-872 | Where the k-th smallest is after partition, and how many equal items are behind it there |
| `SortK.RightDone` | codecs/simpletext/bkdwriter.go:868-871 | Selecting right of the pivot selects in the whole range |
| `SortK.DistinctEnds` | codecs/simpletext/bkdwriter.go:861-874 | Among distinct keys it always ends |
| `SortK.PartitionParts` | codecs/simpletext/bkdwriter.go:876-895 | Nothing left of the pivot is above it, nothing right of it below, and of the items equal to it at most the first on the right is not above it |
| `PendingDeletes.RunOps` | core/index/pendingsoftdeletes.go:27-133 | From any state, over any run of hard deletes, soft-delete updates, writes and drops, bits and counts end where the steps lead; where every dead document was counted once before, on disk or pending, this still holds exactly when no pending hard delete was dropped; the hard-live documents are those not deleted since, and live documents stay among them if no update is for a hard-deleted document |
| `PendingDeletes.RunForgets` | core/index/pendingsoftdeletes.go:27-133 | Over any run the counts come to miss exactly the pending hard deletes that were dropped, both among the hard-dead and among all dead documents |
| `PendingDeletes.RunStaysWithin` | core/index/pendingsoftdeletes.go:27-182 | Over any run whose updates are for documents not hard-deleted yet, live documents stay among the hard-live ones |
| `PendingDeletes.PendingSoftDeletes.Delete` | core/index/pendingsoftdeletes.go:27-47 | A hard delete, in any state, determines all bits and counts; the pending count grows by one exactly for a document that was alive in both senses |
| `PendingDeletes.PendingSoftDeletes.WriteLiveDocs` | core/index/pendingsoftdeletes.go:119-133 | Moves all pending counts to disk, the soft ones always, the hard ones with the hard-live documents under the next generation exactly when there are any |
| `PendingDeletes.PendingSoftDeletes.OnDocValuesUpdate` | core/index/pendingsoftdeletes.go:171-182 | For any documents, repeated or hard-deleted, determines bits and counts, and for another field changes none; the live documents stay hard-live exactly when no hard-deleted document is among the updated ones |
| `PendingDeletes.PendingSoftDeletes.DropChanges` | core/index/pendingsoftdeletes.go:113-117 | No hard delete is pending afterwards, the soft ones still are, and bits and counts on disk stay; so the balance is kept exactly when no hard delete was pending |
| `PendingDeletes.PendingSoftDeletes.DropAndWrite` | core/index/pendingsoftdeletes.go:113-133 | After that a write has no live documents to write: their bits, generation and hard count on disk stay, and the pending soft deletes are added to the soft count on disk |
| `PendingDeletes.DropForgets` | core/index/pendingsoftdeletes.go:113-117 | After a drop the counts miss as many more dead documents as hard deletes were pending |
| `PendingDeletes.PendingSoftDeletes.DelCountRight` | core/index/pendingdeletes.go:215-218 | The promoted count, and with it the number of live documents, is right exactly when no hard delete is pending |
| `PendingDeletes.PendingSoftDeletes.FromReader` | core/index/pendingsoftdeletes.go:194-203 | The balance holds from the start exactly when the deletes of the reader are the hard ones on disk less the soft ones |
| `PendingDeletes.ApplySoftDeletes` | core/index/pendingsoftdeletes.go:88-111 | Every delivered document changes sides, and the result counts the difference |
| `PendingDeletes.ApplyWithoutAdvancing` | core/index/pendingsoftdeletes.go:88-111 | The loop as it stands, without a step of its iterator, ends exactly when there is no value; otherwise one document changes sides for ever |
| `PendingDeletes.ToggledWithinIff` | core/index/pendingsoftdeletes.go:100-106 | Toggling leaves the live documents among the hard-live ones exactly when all toggled documents are there |
| `PendingDeletes.ToggledDistinct` | core/index/pendingsoftdeletes.go:100-106 | Distinct documents die or come back |
| `PendingDeletes.DeleteKeepsCounts` | core/index/pendingsoftdeletes.go:37-45 | A hard delete leaves no more and no fewer dead documents uncounted, since it trades a pending soft delete for a hard one where there was one |
| `PendingDeletes.UpdateKeepsCounts` | core/index/pendingsoftdeletes.go:171-182 | Nor does an update of the soft-deletes field, though documents may come back |
| `PendingDeletes.PendingDeletes.GetMutableBits` | core/index/pendingdeletes.go:110-129 | A private copy on the first call, the same bits afterwards |
| `PendingDeletes.PendingDeletes.Delete` | core/index/pendingdeletes.go:131-141 | Clears the bit and counts, exactly for documents that are alive |
| `PendingDeletes.PendingDeletes.WriteLiveDocs` | core/index/pendingdeletes.go:175-200 | Writes all live documents under the next generation, exactly when something is pending |
| `PendingDeletes.DeleteAfterSnapshot` | core/index/pendingdeletes.go:143-145 | Live docs handed out stay what they were through a delete exactly when the bits were not private yet or the document was dead |
| `PagedBytes.PagedBytes.Write` | core/index/pagedbytes.go:295-328 | Appends the bytes to the contents, across any number of pages |
| `PagedBytes.PagedBytes.Freeze` | core/index/pagedbytes.go:103-122 | The reader holds exactly the contents; trimmed, its pages together are the contents, otherwise the last page is the current one as a whole; a second time is an error |
| `PagedBytes.GetByteIsFlat` | core/index/pagedbytes.go:171-175 | A byte read by page and offset is the byte of the flat contents |
| `PagedBytes.FillSliceIsFlat` | core/index/pagedbytes.go:177-195 | A slice is that of the flat contents exactly when it spans at most two pages |
| `PagedBytes.PagedBytes.PointerIsSize` | core/index/pagedbytes.go:39-45 | The pointer is the number of bytes written |
| `PointValues.AddAndSwap` | core/index/pointvalueswriter.go:39-76 | After any additions and swaps the view shows every point as often as it was added |
| `PointValues.AddAndVisit` | core/index/pointvalueswriter.go:39-124 | A visitor of the flushed view sees the points as they were added; its document count is the number of documents other than 0 |
| `PointValues.PointValuesWriter.AddPackedValue` | core/index/pointvalueswriter.go:39-54 | Adds the point or rejects its length |
| `PointValues.PointValuesWriter.Flush` | core/index/pointvalueswriter.go:56-76 | The view shows the points in order; its document count is right exactly when document 0 has no point |
| `PointValues.MutablePointValues.GetValue` | core/index/pointvalueswriter.go:168-171 | The value of the i-th point seen |
| `PointValues.MutablePointValues.GetByteAt` | core/index/pointvalueswriter.go:173-176 | One byte of it |
| `PointValues.MutablePointValues.GetDocID` | core/index/pointvalueswriter.go:178-180 | The document of the i-th point seen, so value and document always belong together |
| `PointValues.MutablePointValues.Swap` | core/index/pointvalueswriter.go:182-184 | Exchanges two points of the view |
| `PointValues.MutablePointValues.Restore` | core/index/pointvalueswriter.go:193-197 | Puts a saved range back exactly when what lies behind the difference of its ends had not changed |
| `PointValues.MutablePointValues.Intersect` | core/index/pointvalueswriter.go:112-124 | Visits every point as it is seen |
| `PointValues.ViewIsPermutation` | core/index/pointvalueswriter.go:182-184 | A permuted view shows the same points |
| `Impacts.CompetitiveImpactAccumulator.GetCompetitiveFreqNormPairs` | core/index/competitiveimpactaccumulator.go:91-121 | Exactly the pairs that no other pair dominates, in increasing frequency and norm, dominating every pair added |
| `Impacts.CompetitiveImpactAccumulator.AddAll` | core/index/competitiveimpactaccumulator.go:77-89 | As if both histories had been added to one |
| `Impacts.CompetitiveImpactAccumulator.Add` | core/index/competitiveimpactaccumulator.go:38-46 | Adds the pair; a negative norm has no place in the array |
| `Impacts.FrontIsCompetitive` | core/index/competitiveimpactaccumulator.go:94-101 | The records of the array are exactly the pairs that no other dominates |
| `Impacts.RecordIffCompetitive` | core/index/competitiveimpactaccumulator.go:94-101 | A record is a pair that no other dominates |
| `Impacts.FrontCovers` | core/index/competitiveimpactaccumulator.go:94-101 | Every pair is dominated by one that is returned |

## Left out

- BkdFields.MutablePoints.Partition: the contract its comment states, by a sorting body; the byte widths of the original's body do not fit the configuration of the tree writer.
- BkdFields.WriteFieldNDims: taken by itself; the one-dimensional path beside it is not implemented in the source. Without any points it is refused here, while the source builds an empty leaf and fails at reading its first value.
- BkdFields.BuildV1: the dimension chosen for the order of a leaf is left out, since nothing is sorted by it and it is not written.
- BkdFinish.BKDWriter.Add: requires an unfinished writer, since the point writer is gone after `Finish`.
- BkdIndex.InitReader: rejects configurations and negative numbers that the original would only trip over later.
- BkdReader.ReadDocIDs: a block with more documents than the scratch array holds is a failure here and a run-time panic in the source.
- BkdWriter.BuildV2: the dimension by which a leaf is sorted is any dimension; the common prefixes and byte counts that choose it are not modelled, nor are they written.
- CompoundReader.WriteAndOpen: for segment names without a dot or an inner underscore that end behind the dot, as generated names do; files of one segment whose names are not the segment's followed by a dot or an underscore are covered only where the renaming leaves all names alone.
- CompositeReader.NewCompositeReader: the sub-readers are in the order given; sorting them is left out.
- DeleteQueue.DocumentsWriterPerThread.PrepareFlush: `freezeGlobalBuffer` is not implemented in the source; whether it moves the slice is a parameter, both cases are proved.
- DeleteQueue.DocumentsWriterPerThread.UpdateDocuments: whether a document can be processed is a parameter; the documents of a failed batch count with the operation before it.
- FileDeleter.IndexFileDeleter.CheckpointCommit: other policies are a list of positions to delete; `Policy` stands for the call back.
- FreqProx.FreqProxTermsWriterPerField.Add: requires what the source's comments assert, that documents and positions do not go back; each term has its two streams, without the shared pools of slices.
- Impacts.CompetitiveImpactAccumulator.Add: norms outside a byte, which go to a tree set, are left out.
- PendingDeletes.PendingSoftDeletes.OnDocValuesUpdate: takes the documents that an advancing iterator would deliver; the loop of the source as it stands is `ApplyWithoutAdvancing`.
- PointValues.PointValuesWriter.Flush: the sorting of the view by the index writer is left out.
- PostingsEncoding.NothingIsLost: for numbers below two to the power of 62; the encoder itself writes any.
- PostingsRoundTrip.WriteAndRead: the skip list inside the file is its label line only, the term dictionary a map, norms and impacts are left out. Reading positions is not implemented in the source; `PostingsMeaning.FileSaid` recovers them from the lines.
- SkipReader.MultiLevelSkipListReader.SkipTo: counts are unbounded integers, and the levels that could be buffered are read from the file.
- SortK.SortN: counts rounds on each level, since the loop of the source need not end; for exactly one further item equal to the k-th smallest, with items above it, no condition is given for which orders end.
- StoredFieldsRoundTrip.WriteAndVisit: floating-point values are left out.
- Offline point writers, directories, locks, checksums, contexts and errors of input and output are left out; so are the selectors, the finite-state transducer and the bit set library.
- The start-up scan of the file deleter, the doc-values nodes of the delete queue, the loading of soft deletes from a new reader, and `CopyV1` and the data input of paged bytes are left out.
