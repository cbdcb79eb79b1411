# Index structures of a search library, verified

The library keeps three kinds of files for a segment of documents: posting lists with a
multi-level skip list, sparse sets of document identifiers, and columns of per-document
payloads. Beside them stand the code that renumbers the documents of a segment by a sort
column, the tokenizer pipeline, and the codec of term metadata. Each of these is a fast form
of something simple: a sorted list, a set, a map from documents to bytes, a stable sort,
function composition. This project models the code that writes and reads them, with the
same branches and constants, and proves that it agrees with the simple thing.

Documents are numbers from 1 to 2^32 - 2; 0 stands for "before the first" and 2^32 - 1 for
"after the last". Files are sequences of written values. Objects that the code updates in
place are classes with the same fields, loops are loops, fixed buffers are arrays; what is
proved about them is stated against values: the list that was written, the set that was
pushed, the payloads that were given.

| files | what they hold |
|---|---|
| `SkipFormat`, `SkipWriter`, `SkipReader` | the skip list: what a level stores, writing, walking |
| `PostingsFormat`, `PostingsWriter` | posting lists as they are written, with positions |
| `Positions`, `DocBlocks`, `DocIterator`, `SingleDoc` | reading documents, frequencies and positions |
| `Wanderator` | reading only documents whose score can still compete |
| `SparseBitmapFormat`, `SparseBitmapSearch`, `SparseBitmapWriter`, `SparseBitmapReader` | the sparse set: ranges, arrays, bitsets, jump table; where a search ends |
| `ColumnFormat`, `ColumnWriter`, `ColumnReader`, `ColumnFixed`, `ColumnCache`, `ColumnIterator` | columns with their bitmap of documents, and moving them to a cache |
| `Sorting`, `BufferedColumn`, `BufferedIterator` | the sort column, the renumbering of documents, and reading a column in memory |
| `Pipeline`, `PipelinePositions` | the tokenizer pipeline, and what it says about positions |
| `TermCodec` | metadata of terms |
| `Arithmetic` | products and quotients |
| `SkipRuns`, `PostingsRuns`, `WandRuns`, `SparseBitmapRuns`, `ColumnRuns`, `BufferedRuns`, `PipelineRuns`, `TermCodecRuns`, `TermRuns` | whole runs: write something, open it, move through it in any way |

The main results are in the `Runs` files: each method there writes arbitrary input with the
modelled writer, opens it with the modelled reader, takes an arbitrary sequence of steps, and
its contract says that what is shown is what the plain list, set, map or composition shows.

Where something does not hold without a condition, the condition is part of a contract:

- `column::reset` puts the writer back before a bitmap block that may have been written
  already. A document prepared in that block afterwards goes to a second block of the same
  number. Every search that reads headers finds its successor exactly if, whenever that
  happens, the second block holds nothing but the last identifier of its range
  (`FoundIffApart`, `SparseBitmapWriter.Finish`, `ColumnRuns.FoundIffIntact`); under this
  condition a whole run from documents through the bitmap to payloads is right
  (`ColumnRuns.WriteAndSearch`). Preparing 1 and 70000, a reset, then 2 and 5 breaks it:
  a search for 5 ends at 2 (`ColumnRuns.GoBack`).
- Bytes written to a column go to its last document exactly if the block being filled holds a
  payload (`ColumnWriter.WriteBytes`). Preparing 1 to 65537 and one reset leave that block empty,
  although 65536 is the last document: bytes written then belong to no document
  (`ColumnRuns.Unaddressed`). They matter in a column of one length that is read as one run: every
  computed address there is the one of the payload exactly if no such bytes lie between two blocks
  (`ColumnRuns.WriteDense`, `FixedColumns.DensePlacesIff`); two more documents put them there
  (`ColumnRuns.Parted`). All other columns are read rightly with such bytes in them.
- Only one earlier document is remembered by `column::reset`. The writer knows its last document
  afterwards exactly if a document has been prepared since the last reset (`ColumnWriter.Reset`).
  After a second reset in a row it does not, and what is written for a document goes to the one before it
  (`ColumnRuns.ResetTwice`). A reset takes a payload away together with its document exactly if
  the last document is the one the writer takes for it and is still in the buffer of the bitmap;
  a third reset in a row leaves a document without a payload (`ColumnRuns.ResetThrice`).
- A jump table kept by `sparse_bitmap_writer` leads to the right block exactly if it has more
  than two entries or the set is empty (`SparseBitmapWriter.Finish`). A set inside the first
  block gets a table with one entry; with it a search for a number from 131072 on comes back
  with the first identifier (`SparseBitmapRuns.Misled`). The column writer keeps larger tables only.
- The predecessors kept in front of blocks are right exactly if the last identifier pushed
  was still there whenever a block was written (`SparseBitmapWriter.Finish`); erasing it
  leaves a wrong one (`SparseBitmapRuns.EraseLast`).
- The comment above `pipeline_token_stream::next` says that all position gaps are accumulated.
  The move of a token of which a member makes nothing is dropped: the stream moves as far as
  the gaps say exactly if all such tokens hold their position (`GapsKeptIff`, `GapLost`).
- `pipeline_token_stream::reset` resets the first member only. An input gives the tokens it
  gives a new pipeline exactly under the condition of `ForgetsIff`. If every member makes
  something of the first term that reaches it, this is so exactly if the first token of the
  first member moves, or no other member stands behind its first position (`KeptForgetsIff`).
  `Remembered` gives pipelines that show another first move when they are given the same input
  again.
- A `range_column_iterator` that has not moved yet answers a target past the last document
  with the first document (`RangeColumnIterator.Seek`).
- A column is recognised as one of fixed, positive length exactly if all payloads have that
  length and the last block does not hold a single document (`ColumnWriter.Finish`): the
  average difference of a single address is 0, which never equals its size.
- The reader of a skip list accepts it exactly if no level is empty (`SkipReader.Prepare`),
  and the writer never leaves one empty (`CompleteLevels`).
- The comment above the bitmap index in `column::finish` speaks of documents that all have a
  value; the code leaves the bitmap out exactly if the documents are consecutive, wherever
  they start, and the writer knows the last one. The model follows the code.

## Model

| member | source | states |
|---|---|---|
| `SkipRuns.WriteAndVisit` | core/formats/skip_list.hpp:208-249 | whole runs: for every list, level cap and sequence of targets, seeking in the written list stops at the boundary that scanning the finest level finds, with the number of documents behind it |
| `SkipRuns.WriteList` | core/formats/skip_list.hpp:91-117 | one call per boundary and a flush leave, behind what the file held, exactly the levels below the cap that have an entry, and each of them complete: as many entries as boundaries of that level, each child pointer at the entry for the same count one level down |
| `SkipWriting.SkipWriter.Prepare` | core/formats/skip_list.cpp:47-60 | the smaller of the cap and the needed number of levels is in use, and all levels are empty |
| `SkipWriting.SkipWriter.Skip` | core/formats/skip_list.hpp:91-117 | the levels hold the first n - 1 boundaries before and the first n after, and the levels that got an entry are exactly those whose unit divides the count; nothing happens at other counts |
| `SkipWriting.SkipWriter.CountLevels` | core/formats/skip_list.cpp:62-74 | the number of levels up to the highest one that holds something |
| `SkipWriting.SkipWriter.FlushLevels` | core/formats/skip_list.cpp:76-92 | appends the number of levels and the levels, coarsest first, each behind its length |
| `SkipWriting.CompleteLevels` | core/formats/skip_list.cpp:62-92 | no flushed level of a complete list is empty |
| `SkipWriting.LevelsSuffice` | core/formats/skip_list.cpp:38-48 | a level that a list of at most `total` documents fills is below the number of levels computed for `total` |
| `SkipWriting.LevelsExact` | core/formats/skip_list.cpp:38-48 | the unit of the coarsest level computed for `count` documents is the largest one that does not exceed `count`; there is no level if they fit in one block |
| `SkipWriting.StoredFromTokens` | core/formats/skip_list.hpp:91-117 | a level's stream, wherever it is placed in a file, has every entry and child pointer where a reader of the level looks for it |
| `SkipReading.SkipReader.Prepare` | core/formats/skip_list.cpp:111-156 | succeeds exactly if no level is empty; then every level is found with its begin, its step and all documents to come; with no levels stored nothing changes |
| `SkipReading.SkipReader.SeekToChild` | core/formats/skip_list.hpp:161-172 | a level never moves back, and ends at or behind the place its parent points to |
| `SkipReading.MovedGood` | core/formats/skip_list.hpp:161-172 | a level that followed the child pointer of a passed entry stands at exactly the same count of documents as its parent, with the step, child pointer and documents left of that count |
| `SkipReading.SkipReader.Descend` | core/formats/skip_list.hpp:239-244 | going down a level moves its stream to exactly the boundary the upper level stands at and copies the state of that boundary |
| `SkipReading.SkipReader.Advance` | core/formats/skip_list.hpp:222-238 | one entry of a level is read, or the level is sealed; the saved state is the boundary before it |
| `SkipReading.SkipReader.AdjustLevel` | core/formats/formats_10.cpp:2629-2638 | climbing back up ends at a level strictly below the next coarser one and keeps what is known of the blocks passed |
| `SkipReading.SkipReader.Turn` | core/formats/skip_list.hpp:221-245 | each turn of the loop reads something for good, although a turn may climb back up: entries still unread decrease |
| `SkipReading.SkipReader.Seek` | core/formats/skip_list.hpp:208-249 | the result is the number of documents behind the block reached; every block passed over ends before the target or is covered by an entry whose bound is not above the threshold; nothing moves if no level shows less, and without scores that is the finest level alone; otherwise the saved state is the boundary of the block, and without scores it is the block a linear scan finds |
| `SkipReading.SeekIsScan` | core/formats/skip_list.hpp:208-249 | passing over only blocks that end before the target is scanning the finest level |
| `SkipReading.SkipReader.LeafShows` | core/formats/formats_10.cpp:2214-2236 | between seeks the finest level shows the end and the bound of the block it stands in, or the end of the list with the largest score |
| `PostingsRuns.WriteAndRun` | core/formats/formats_10.cpp:2089-2119 | whole runs: for every list of one or more documents, every format and every choice of what is asked for, any mix of `next` and `seek` over documents, and of `next`, `seek` and `reset` over positions, shows what a linear walk over the list shows |
| `PostingsRuns.WriteAndRead` | core/formats/formats_10.cpp:942-1025 | round trip for every format: all documents come back, with frequencies and positions if they are asked for |
| `PostingsRuns.RunPostings` | core/formats/formats_10.cpp:2304-2365 | any run of steps over any well-formed term, with or without frequencies and positions, agrees with the linear walk |
| `PostingsRuns.ReadPositions` | core/formats/formats_10.cpp:1605-1643 | wherever the document iterator stands and however many positions were consumed before, a reset and repeated `next` give exactly the positions written for the document |
| `PostingsWriting.PostingsWriter.Write` | core/formats/formats_10.cpp:942-1025 | succeeds exactly if the documents ascend; then the files hold a well-formed term behind what they held before, a single document is kept in the metadata only, and the metadata has the number of documents, the sum of all frequencies, the starts in both files, and an end of the full position blocks exactly if the field has positions and there are more than a block of them |
| `PostingsWriting.PostingsWriter.BeginDocument` | core/formats/formats_10.cpp:865-891 | refuses a document that is not past the last one, otherwise buffers it and writes the block when it is full |
| `PostingsWriting.PostingsWriter.AddPosition` | core/formats/formats_10.cpp:893-933 | the positions written and buffered are the differences of all positions so far |
| `PostingsWriting.PostingsWriter.EndDocument` | core/formats/formats_10.cpp:640-660 | at the end of a block the positions to pass over are noted, at other documents they are kept |
| `PostingsWriting.PostingsWriter.WriteSkip` | core/formats/formats_10.cpp:501-533 | every level that gets an entry gets the difference to the previous entry of the same level |
| `PostingsWriting.EntryIsRight` | core/formats/formats_10.cpp:501-533 | the differences kept per level add up to the boundary of that count |
| `PostingsWriting.PostingsWriter.BeginTerm` | core/formats/formats_10.cpp:621-638 | a term starts with empty levels and with the current ends of the files |
| `PostingsWriting.PostingsWriter.EndTerm` | core/formats/formats_10.cpp:662-798 | metadata, tails and skip list complete the term: full blocks, tail, root score and levels lie where the metadata says, and the metadata says all the rest as `Write` does |
| `PostingsWriting.PostingsWriter.EndPositions` | core/formats/formats_10.cpp:713-764 | the position tail is written, and a pointer to it is kept exactly if there are more than a block of positions |
| `PostingsFormat.IndexValid` | core/formats/formats_10.cpp:501-533 | the block boundaries of any sorted list form a well-formed skip list: documents ascend, pointers do not go back |
| `DocBlocks.BlockReader.Refill` | core/formats/formats_10.cpp:1740-1762 | loads a full block, or the tail, so that the buffer holds the next documents at its end |
| `DocBlocks.BlockReader.ReadTailBlock` | core/formats/formats_10.cpp:1764-1792 | documents and frequencies of the tail are placed at the end of the buffers, a frequency of 1 being told by the low bit |
| `DocIterators.DocIterator.Next` | core/formats/formats_10.cpp:2089-2119 | the next document of the list with its frequency, and positions none of which is taken, or the end |
| `DocIterators.DocIterator.Seek` | core/formats/formats_10.cpp:2304-2365 | the least document not before the target, with its frequency and fresh positions, or the end; a target that is not past the current document changes nothing |
| `DocIterators.DocIterator.SeekToBlock` | core/formats/formats_10.cpp:2367-2419 | places the document file, the documents left and the position iterator at the block in front of the target, opening the skip list on first use; the document looked for, if there is one, is in the block that comes next |
| `DocIterators.DocIterator.ScanBlock` | core/formats/formats_10.cpp:2328-2359 | the loaded block is searched; the positions of all documents passed over are told to the position iterator |
| `DocIterators.DocIterator.OpenSkipList` | core/formats/formats_10.cpp:2392-2412 | the levels are loaded behind the root score and show the start of the list |
| `SingleDocs.SingleDocIterator.Next` | core/formats/formats_10.cpp:1857-1872 | the document kept in the metadata with its frequency and its positions, then the end for good |
| `SingleDocs.SingleDocIterator.Seek` | core/formats/formats_10.cpp:1843-1851 | the document if it is not before the target, else the end; a target that is not past the current place changes nothing |
| `Positions.PositionIterator.Next` | core/formats/formats_10.cpp:1605-1633 | the next position of the current document, or the end once all are taken; the iterator stays in step with the document |
| `Positions.PositionIterator.Seek` | core/formats/formats_10.cpp:1575-1603 | the first untaken position not less than the target, or the end |
| `Positions.PositionIterator.Reset` | core/formats/formats_10.cpp:1635-1643 | back to before the first position of the current document |
| `Positions.PositionIterator.Skip` | core/formats/formats_10.cpp:1664-1682 | passes over exactly `count` positions, across whole blocks and the tail |
| `Positions.PositionIterator.Prepare` | core/formats/formats_10.cpp:1494-1502 | a skip state that stands at a point of the stream puts the iterator there |
| `Positions.PositionIterator.Refill` | core/formats/formats_10.cpp:1655-1662 | the block, or the tail, at the current place is loaded |
| `WandRuns.WriteAndSearch` | core/formats/formats_10.cpp:2741-2824 | whole runs: for every list of more than a block and every stored bound that is at least the scores it covers, any mix of `seek`, `next` and `shallow_seek` under any thresholds is answered as by linear search: the first document at or past the target that is worth more than the threshold, with its frequency and positions; or the end and the stored score of a block such that nothing passed over is worth more and no document up to that end exceeds that score. A document is worth its score if single documents are compared, and else the bound stored for its block |
| `WandRuns.RunWand` | core/formats/formats_10.cpp:2741-2824 | the same for any well-formed term with bounding scores, wherever the iterator stands |
| `Wanderators.Wanderator.Seek` | core/formats/formats_10.cpp:2741-2824 | lands at a document at or past the target; every document passed over lies before it, or has a score not above the threshold if single documents are compared, or else is in a block that an entry of some level with such a bound covers. With scores per document the result is the first one that is none of these, or the end; without, it is in a block whose own bound is above the threshold, and with nested bounds it is the first one that is |
| `Wanderators.Wanderator.Next` | core/formats/formats_10.cpp:2483-2483 | the same from the document after the current one; after the end it stays there |
| `Wanderators.Wanderator.ShallowSeek` | core/formats/formats_10.cpp:2551-2554 | nothing that could compete is passed over; the result is the end of the block the iterator is in or is put in front of, and not before the target; the leaf bound shown is the one stored for that block, is above the threshold, and no score up to the result exceeds it |
| `Wanderators.Wanderator.SeekToBlock` | core/formats/formats_10.cpp:2556-2573 | only documents that cannot be results are passed over; the iterator stands in front of a block to be loaded, or is as it was |
| `Wanderators.Wanderator.Load` | core/formats/formats_10.cpp:2752-2768 | a block jumped to is loaded and the positions follow; a block after the current one is loaded in sequence |
| `Wanderators.Wanderator.ScanBlock` | core/formats/formats_10.cpp:2770-2820 | the first document of the loaded block that may be a result, by target and score or by target alone, or there is none |
| `Wanderators.DeadRangeIsPoor` | core/formats/formats_10.cpp:2521-2524 | blocks passed over hold only documents before the target or in a block that an entry of some level rules out; with bounding scores these cannot be results either |
| `SparseBitmapRuns.WriteAndSearch` | core/formats/sparse_bitmap.cpp:548-571 | whole runs: for every set and any mix of `next` and `seek`, with or without jump table and rank samples, each move shows the successor, its rank and its predecessor |
| `SparseBitmapRuns.WriteSet` | core/formats/sparse_bitmap.hpp:76-90 | pushing ascending identifiers and finishing leaves the whole set stored and readable, with predecessors if they are tracked; a set inside the first block gets a jump table with one entry |
| `SparseBitmapRuns.EraseLast` | core/formats/sparse_bitmap.hpp:92-100 | an input for which the predecessor kept in front of a block is an identifier that is not in the set |
| `SparseBitmapRuns.Misled` | core/formats/sparse_bitmap.cpp:528-540 | with a jump table of one entry, every search for a number from 131072 on comes back with the first identifier |
| `SparseBitmapSearch.LandingIsRank` | core/formats/sparse_bitmap.cpp:524-571 | where a search ends, block by block, is the successor, from any place before the target and with any usable table, if blocks of one number are apart |
| `SparseBitmapSearch.FoundIffApart` | core/formats/sparse_bitmap.cpp:524-571 | reading headers from the start finds every successor exactly if a block with the number of the one before holds only the last identifier of its range |
| `SparseBitmapSearch.JumpIsProper` | core/formats/sparse_bitmap.cpp:528-540 | a usable table leads to the block that reading headers from the start leads to |
| `SparseBitmapWriting.SparseBitmapWriter.PushBack` | core/formats/sparse_bitmap.hpp:76-90 | the contents grow by the identifier, whether or not a block is flushed on the way and also if its block lies before the current one; whether the set is readable and the predecessors are right changes only when a block is flushed |
| `SparseBitmapWriting.SparseBitmapWriter.Erase` | core/formats/sparse_bitmap.hpp:92-100 | refuses exactly if the block is flushed; otherwise the identifier at that place of the buffered block is gone, while the last value is kept |
| `SparseBitmapWriting.SparseBitmapWriter.Flush` | core/formats/sparse_bitmap.hpp:113-122 | what was buffered is stored as a block, if anything |
| `SparseBitmapWriting.SparseBitmapWriter.AddBlock` | core/formats/sparse_bitmap.hpp:138-148 | the table is filled up to the block with the same place and rank |
| `SparseBitmapWriting.SparseBitmapWriter.DoFlush` | core/formats/sparse_bitmap.cpp:106-140 | header and container of a block as a reader expects them, for all three kinds |
| `SparseBitmapWriting.SparseBitmapWriter.WriteBlockIndex` | core/formats/sparse_bitmap.cpp:69-87 | the samples are the ranks at every 512th identifier of the block |
| `SparseBitmapWriting.SparseBitmapWriter.Finish` | core/formats/sparse_bitmap.cpp:93-104 | the set is stored with a sentinel block behind it; its blocks are apart exactly if they were whenever one was flushed, and the tracked predecessors are right exactly if the last identifier pushed was there whenever one was flushed; the jump table never has exactly two entries, and is usable exactly if it has more or the set is empty |
| `SparseBitmapWriting.TableSealed` | core/formats/sparse_bitmap.hpp:138-148 | entry b of the finished table names the first block from b on and the rank before it |
| `SparseBitmapReading.SparseBitmapIterator.Seek` | core/formats/sparse_bitmap.cpp:548-571 | for any stored blocks and any table that names block starts, the search ends where the block-by-block search does; if the blocks are apart and the table is usable this is the least stored identifier not before the target with its rank, or the end; a target not past the current value changes nothing |
| `SparseBitmapReading.SparseBitmapIterator.Next` | core/formats/sparse_bitmap.hpp:216-216 | the next identifier with its rank; after the end it stays there |
| `SparseBitmapReading.SparseBitmapIterator.PrevDoc` | core/formats/sparse_bitmap.cpp:336-400 | the greatest stored identifier before the current one, or invalid |
| `SparseBitmapReading.SparseBitmapIterator.SeekPrev` | core/formats/sparse_bitmap.cpp:353-400 | the backward walk over the words of a dense block finds the identifier before the current one |
| `SparseBitmapReading.SparseBitmapIterator.SeekToBlock` | core/formats/sparse_bitmap.cpp:524-546 | the first block from the target on is opened, by the table or by reading headers |
| `SparseBitmapSearch.PlaceIsNext` | core/formats/sparse_bitmap.cpp:524-546 | from any block before the target, table or headers lead to the first block from the target on |
| `SparseBitmapReading.SparseBitmapIterator.ReadBlockHeader` | core/formats/sparse_bitmap.cpp:462-521 | the container of the block is opened as what it was written |
| `SparseBitmapReading.SparseBitmapIterator.InitialSeek` | core/formats/sparse_bitmap.cpp:421-431 | the first seek reads the first header and gives successor and rank |
| `SparseBitmapReading.SparseBitmapIterator.SeekRange` | core/formats/sparse_bitmap.cpp:145-161 | in a full block the target itself, with its rank and predecessor |
| `SparseBitmapReading.SparseBitmapIterator.SeekSparse` | core/formats/sparse_bitmap.cpp:163-212 | in an array block the successor with its rank and predecessor, or the block is left behind |
| `SparseBitmapReading.SparseBitmapIterator.SeekDense` | core/formats/sparse_bitmap.cpp:214-333 | in a bitset block the successor with its rank, counting words or jumping by samples, or the block is left behind |
| `SparseBitmapReading.SparseBitmapIterator.JumpDense` | core/formats/sparse_bitmap.cpp:224-256 | a jump by samples moves forward, not past the target's word, and keeps the rank exact |
| `SparseBitmapFormat.PopcountIsRank` | core/formats/sparse_bitmap.cpp:258-296 | set bits of a stretch are the difference of the ranks at its ends |
| `ColumnRuns.WriteAndSearch` | core/formats/columnstore2.cpp:1312-1427 | whole runs: after any allowed sequence of preparing, writing and taking back that leaves the documents readable and parts no blocks of one run, with other columns writing to the same file in between unless segments are merged, the column is opened as its header says, cached or not, and every search for a document, through the bitmap or the range, finds the least one at or after it, and its index gives the bytes written to it |
| `ColumnRuns.FoundIffIntact` | core/formats/columnstore2.cpp:1312-1338 | the steps leave the documents readable exactly if the first search of every iterator that reads headers ends at the successor |
| `ColumnRuns.GoBack` | core/formats/columnstore2.cpp:1328-1338 | an input, whose steps leave the documents unreadable, with all of them in the bitmap and a search for 5 that ends at 2 |
| `ColumnRuns.ResetTwice` | core/formats/columnstore2.cpp:1328-1338 | an input where two resets in a row let the bytes of document 2 go to document 1, which is all that can be read back |
| `ColumnRuns.ResetThrice` | core/formats/columnstore2.cpp:1328-1338 | a third reset in a row takes the payload of document 1 and leaves the document |
| `ColumnRuns.Unaddressed` | core/formats/columnstore2.cpp:1312-1338 | after preparing 1 to 65537 and a reset, the column knows its last document, but bytes written belong to none |
| `ColumnRuns.Parted` | core/formats/columnstore2.cpp:1312-1338 | two more documents of the same payload then leave a column of one length with such bytes between its blocks |
| `ColumnRuns.WriteDense` | core/formats/columnstore2.cpp:1488-1508 | in a column of one length written for a merged segment, every payload is where the line of its block says, and the address computed over the whole column is that one for all payloads exactly if no bytes of no document lie between the blocks |
| `ColumnRuns.WriteAndRead` | core/formats/columnstore2.cpp:1312-1427 | whole runs: after any allowed sequence of steps that parts no blocks of one run the column, opened as its header says and cached or not, gives the payload of the i-th surviving document under index i |
| `ColumnRuns.WriteColumn` | core/formats/columnstore2.cpp:1312-1338 | the writer holds exactly the documents and payloads that the steps leave, in its bitmap and in its blocks, also when other columns write to the same file between the steps |
| `ColumnWriting.ColumnWriter.Prepare` | core/formats/columnstore2.cpp:1312-1326 | a document past the last one is pushed to the bitmap and starts an empty payload, across a full block; any other continues the last one |
| `ColumnWriting.ColumnWriter.Reset` | core/formats/columnstore2.cpp:1328-1338 | the last payload is gone, and with it the pending document; nothing happens in an empty block; documents and payloads stay paired exactly if the pending document is the last one and in the buffer of the bitmap; the writer is left knowing its last document exactly if one has been prepared since the last reset |
| `ColumnWriting.ColumnWriter.WriteBytes` | core/formats/columnstore2.hpp:72-76 | bytes go to the last payload if the block being filled holds one, and otherwise in front of its first one, to no payload |
| `ColumnWriting.ColumnWriter.FlushBlock` | core/formats/columnstore2.cpp:1340-1427 | the buffered documents become a stored block, packed with exactly the width its largest difference needs, and what is known about fixed lengths stays exact |
| `ColumnWriting.BlockWritten` | core/formats/columnstore2.cpp:1350-1418 | line, packed differences and payloads make up a stored block |
| `ColumnWriting.WidthIs` | core/formats/columnstore2.cpp:1380-1386 | the bits of a packed block: every difference from the line fits in them with its sign, and some difference does not fit in one less |
| `ColumnWriting.FixedBlockIff` | core/formats/columnstore2.cpp:1372-1378 | a block counts as fixed with length L exactly if all its payloads have length L, and L is 0 or there is more than one |
| `ColumnWriting.AllFixedIff` | core/formats/columnstore2.cpp:1372-1378 | all blocks count as fixed exactly if all payloads have length L, and L is 0 or the last block holds more than one |
| `ColumnWriting.ColumnWriter.Finish` | core/formats/columnstore2.cpp:1445-1544 | the least document is in the header; the kind in the header, in both directions: mask exactly if all payloads are empty, fixed exactly as above, dense only under consolidation, and then the blocks are adjacent exactly if nothing was written between them; the bitmap is copied into the file, unless the documents are consecutive and the writer knows the last one |
| `ColumnWriting.ConsecutiveIff` | core/formats/columnstore2.cpp:1462-1474 | the comparison of first, count and last document holds exactly for consecutive documents |
| `ColumnIterating.RangeColumnIterator.Seek` | core/formats/columnstore2.cpp:207-230 | once it has moved, the least document not before the target, or the end; before that, the first document for every target outside the range |
| `ColumnIterating.RangeColumnIterator.Next` | core/formats/columnstore2.cpp:232-242 | the documents of the range one by one, then the end for good |
| `ColumnReading.SparseColumn.Payload` | core/formats/columnstore2.cpp:1177-1233 | the i-th payload, for blocks on a line and packed blocks, 64-address groups and the last entry of a block |
| `ColumnReading.SparseColumn.constructor` | core/formats/columnstore2.cpp:1235-1257 | every block knows its last entry, also when the document count is a multiple of the block size |
| `ColumnReading.SparseColumn.MakeBuffered` | core/formats/columnstore2.cpp:1077-1171 | every payload is as before in the buffer, and the bitmap lies behind the data; without memory nothing changes |
| `ColumnReading.SparseColumn.Plan` | core/formats/columnstore2.cpp:1077-1171 | the chunks of tables and payloads have their true lengths and do not overlap |
| `ColumnReading.Relocated` | core/formats/columnstore2.cpp:1077-1171 | copying all planned chunks in any order of the plan and rewriting addresses keeps the whole column stored |
| `ColumnCaching.PlanSeparate` | core/formats/columnstore2.cpp:1077-1171 | sorting the chunks keeps them disjoint, and no chunk's address is rewritten before it is read |
| `FixedColumns.FixedColumn.Payload` | core/formats/columnstore2.cpp:870-877 | the i-th payload by block start and arithmetic |
| `FixedColumns.FixedColumn.MakeBuffered` | core/formats/columnstore2.cpp:884-935 | every payload is as before in the buffer, if the lengths computed for the blocks are the true ones |
| `FixedColumns.FixedLength` | core/formats/columnstore2.cpp:902-909 | the length computed for a block is its true length exactly if it is the last block, its payloads are empty, it is full, or the last block starts elsewhere |
| `FixedColumns.DensePlacesIff` | core/formats/columnstore2.cpp:1488-1508 | the address computed from the first block is the one stored, for all payloads, exactly if the blocks are adjacent |
| `FixedColumns.DenseFixedColumn.Payload` | core/formats/columnstore2.cpp:736-740 | the i-th payload by arithmetic alone |
| `FixedColumns.DenseFixedColumn.MakeBuffered` | core/formats/columnstore2.cpp:693-726 | every payload is as before in the buffer |
| `FixedColumns.DenseWritten` | core/formats/columnstore2.cpp:1488-1508 | adjacent blocks of equal payloads are one run of payloads from the first block's start |
| `BufferedColumns.BufferedColumn.Prepare` | core/index/buffered_column.hpp:53-68 | the value being written is stored when another document is named; the documents keep ascending exactly if a value was being written or the document is past all stored ones |
| `BufferedColumns.BufferedColumn.FlushOrdered` | core/index/buffered_column.cpp:94-115 | without a renumbering exactly if the values are in order, and then they are written as they are; otherwise as `FlushPrimary` says |
| `BufferedColumns.BufferedColumn.FlushPrimary` | core/index/buffered_column.cpp:31-92 | declines exactly if the values are in order; otherwise the map is a permutation of all documents, documents without a value stay directly before the next valued one, those after the last value keep their numbers, and values come by value, ties in old order, under ascending new numbers |
| `BufferedColumns.BufferedColumn.AssignGroup` | core/index/buffered_column.cpp:64-76 | a valued document and those before it without a value get consecutive new numbers |
| `BufferedColumns.BufferedColumn.NumberTail` | core/index/buffered_column.cpp:84-89 | documents after the last value keep their numbers |
| `BufferedColumns.Pigeonhole` | core/index/buffered_column.cpp:79-83 | distinct numbers up to n are at most n, so the next new number is the one after the last valued document |
| `BufferedColumns.BufferedColumn.FlushDense` | core/index/buffered_column.cpp:124-156 | scattering and collecting writes all values under their new numbers, ascending, and leaves them as the index |
| `BufferedColumns.BufferedColumn.FlushSparse` | core/index/buffered_column.cpp:158-171 | renumbering and sorting writes all values under their new numbers, ascending, and leaves them as the index |
| `BufferedColumns.RearrangedUnique` | core/index/buffered_column.cpp:124-171 | scatter equals sort: there is only one such result |
| `BufferedColumns.BufferedColumn.Flush` | core/index/buffered_column.cpp:173-194 | stored and pending values come out unchanged without a map, and by ascending new number with one, whichever way is taken; what comes out is what the index of the column describes afterwards |
| `BufferedIterating.BufferedColumnIterator.Seek` | core/index/buffered_column_iterator.hpp:51-69 | from any place the first value at or past the target, or the end, whether its place is computed or searched for |
| `BufferedIterating.BufferedColumnIterator.Next` | core/index/buffered_column_iterator.hpp:71-87 | the values one by one, then the end for good |
| `BufferedRuns.SortAndRead` | core/index/buffered_column.cpp:94-194 | whole runs: after any steps on a sort column and another one, both are flushed under one permutation of the documents, or none exactly if the sort column is in order; its values come out in order, all values keep their documents, and any moves over the other column in memory show what a linear search of what was written shows |
| `BufferedRuns.RunBuffered` | core/index/buffered_column_iterator.hpp:51-87 | any run of `seek` and `next`, forwards and backwards, shows what a linear search shows |
| `PipelineRuns.Analyze` | core/analysis/pipeline_token_stream.cpp:349-406 | whole runs: for members that refuse nothing and any number of inputs given to one pipeline, the terms and offsets of each output are those of plain function composition on its input, and the position increments those of the composition of the members from where the input before has left them; if all members give parts of their inputs, every token is the part of the original input that its offsets name, and in any case starts add up along the tokens it comes of, and a token that ends with its input ends where that ends |
| `PipelineRuns.Drain` | core/analysis/pipeline_token_stream.cpp:349-401 | `next` until it fails gives the rest of the stream, and leaves every member where its last token has moved it |
| `Pipelines.PipelineTokenStream.Next` | core/analysis/pipeline_token_stream.cpp:349-401 | succeeds exactly if something is left, shows the first of it with its increment and leaves the others |
| `Pipelines.PipelineTokenStream.Reset` | core/analysis/pipeline_token_stream.cpp:403-406 | starts over with everything the members make of the data, the lower ones from where they stand |
| `Pipelines.PipelineTokenStream.Climb` | core/analysis/pipeline_token_stream.cpp:353-359 | going up takes a token of the lowest member that has one and loses nothing |
| `Pipelines.PipelineTokenStream.Dive` | core/analysis/pipeline_token_stream.cpp:363-392 | going down hands a token to the members below, adding up what they move beyond their first step and noting whether one goes back; members that produce nothing lead to another round with less work left |
| `Pipelines.RunIsComposition` | core/analysis/pipeline_token_stream.cpp:327-401 | the depth-first walk over nested members is the composition of their outputs, with increments: a member's first token moves with its input, and a member that goes back under a held position makes the next token shown move one step more |
| `Pipelines.RunAllIsComposition` | core/analysis/pipeline_token_stream.cpp:349-401 | the same for a list of inputs |
| `PipelinePositions.TermsAreComposition` | core/analysis/pipeline_token_stream.cpp:349-401 | terms and offsets are the function composition of the members, whatever the pipeline has seen before |
| `PipelinePositions.PlacesAreTrue` | core/analysis/pipeline_token_stream.hpp:96-105 | offsets in the original input, for members that split their inputs and for any others |
| `PipelinePositions.GapsKeptIff` | core/analysis/pipeline_token_stream.cpp:327-347 | if the first member does not step back and all others step forward first, the increments shown add up to the moves of the first member, the gaps of all others and one step for each going back, exactly if every token of which a member makes nothing holds its position; otherwise to less |
| `PipelinePositions.GapLost` | core/analysis/pipeline_token_stream.cpp:353-392 | pipelines that lose a gap: a member that drops the second of three tokens |
| `PipelinePositions.ForgetsIff` | core/analysis/pipeline_token_stream.cpp:403-406 | an input gives the tokens it gives a new pipeline exactly if no member that moved on in an earlier input is reached for the first time without a move, or the plain composition of the members on it is empty, or a member that makes nothing of its first tokens is told of a going back before it makes something |
| `PipelinePositions.KeptForgetsIff` | core/analysis/pipeline_token_stream.cpp:403-406 | if every member makes something of the first term that reaches it, an input gives the tokens it gives a new pipeline exactly if the first token of the first member moves or no other member stands behind its first position |
| `PipelinePositions.Remembered` | core/analysis/pipeline_token_stream.cpp:403-406 | pipelines that show another first increment when the same input is given again |
| `TermCodecRuns.EncodeAndDecode` | core/formats/formats_10.cpp:3421-3456 | any number of blocks of terms, each encoded from a cleared state, come back with everything the field's features store |
| `TermCodec.TermEncoder.Encode` | core/formats/formats_10.cpp:576-604 | appends the differences from the term before, and keeps the term for the next one |
| `TermCodec.TermDecoder.Decode` | core/formats/formats_10.cpp:3421-3456 | reads exactly what was encoded and restores the metadata that the features store |
| `TermRuns.WriteEncodeAndRun` | core/formats/formats_10.cpp:576-604 | whole runs: any terms of a field are written one behind the other, blocks of their metadata are encoded and decoded, and any mix of steps over any term opened by what came back, single documents among them, shows what a linear walk over its list shows |
| `TermRuns.MetaFollows` | core/formats/formats_10.cpp:576-604 | the metadata that the writer gives is what the encoder expects behind any term written before |
| `TermRuns.WriteTerms` | core/formats/formats_10.cpp:942-1025 | all terms lie in the files, each behind the one before, with metadata that does not go back |

## Left out

- File pointers: they count written values instead of bytes, and variable-length integers and bit packing are values that decode to what was encoded.
- Headers, footers, checksums, encryption, compression, memory accounting and format registration.
- Direct, aligned and stream access, byte order and SIMD variants: one access path is modelled.
- Payloads and offsets of positions: the position iterator is modelled without them.
- Scores of a term with one document.
- Term state is one record: the single document and the start of the skip list, which share a field in the code, are separate.
- Errors for an invalid number of levels, and failures of input and output.
- TermRuns.WriteEncodeAndRun: frequencies are 0 without the feature and at least 1 with it, which the encoder asserts of their sum (core/formats/formats_10.cpp:581-583); the start of payloads is not part of the metadata that is written.
- PostingsRuns.WriteAndRun: where positions are stored, frequencies are the numbers of positions and at least 1; the readers count positions by frequencies.
- Positions.PositionIterator.Next: differences of positions are integers, not numbers modulo 2^32.
- Wanderators.Wanderator.Seek: the production of score bounds (`WandWriter`) is not part of this model, so bounds that are at least the scores are a precondition; scores are real numbers, thresholds are below the largest float, since from it on even the entry for the end of the list is passed over (the assertion at core/formats/formats_10.cpp:2633-2634), and the weak minimum through `nextafter` is not modelled.
- WandRuns.WriteAndSearch: if single documents are not compared, the bound of a coarse entry must not be less than those of the blocks it covers, which the code asserts of the entries shown (core/formats/formats_10.cpp:2507-2513).
- Wanderators.Wanderator.ShallowSeek: the target is not 0, for which the comment at core/index/iterators.hpp:40-41 leaves the result undefined.
- The score bound of a whole list shown to clients (`max.tail`).
- SparseBitmapWriting.SparseBitmapWriter.PushBack: identifiers must ascend, as those that `column::prepare` pushes do.
- SparseBitmapReading.SparseBitmapIterator.PrevDoc: nothing is claimed about predecessors if blocks are not apart, or if the last identifier pushed had been erased when a block was written.
- `sparse_bitmap_iterator::reset`, which does not restore the current block.
- Writing the jump table to a file and reading it back, with the limit of 65535 entries there; the jump table is the one in memory.
- ColumnRuns.WriteAndSearch: a reset that takes a payload but not its document is excluded, which is one whose last document has left the buffer of the bitmap or is not the one the writer knows (`ColumnWriting.ColumnWriter.Reset`); so are columns of one run with bytes of no document between the blocks, whose addresses `ColumnRuns.WriteDense` shows to be wrong.
- ColumnRuns.WriteAndRead: the same resets and columns are excluded here.
- Rounding in the average of addresses: it is the exact quotient, rounded, where the code divides in floating point; the payloads do not depend on its value.
- FixedColumns.FixedColumn.MakeBuffered: nothing is claimed if a computed length is not the true one; `FixedColumns.FixedLength` says exactly when, and columns of fixed length that `ColumnWriting.ColumnWriter.Finish` leaves never are so.
- `bitmap_column_iterator`, which hands its moves to the iterator over the bitmap, and the older column store.
- BufferedColumns.BufferedColumn.FlushOrdered: the documents must ascend, as those of a segment do; `BufferedColumns.BufferedColumn.Prepare` says exactly when they do, and the code asserts it only against a pending document.
- BufferedIterating.BufferedColumnIterator.Seek: the column is not empty; the code reads the value behind the last one otherwise, and opens no iterator over a column it has not written.
- BufferedRuns.SortAndRead: documents are prepared in order, as those of a segment are.
- BufferedColumns.BufferedColumn.FlushDense: whether scattering is worth while is decided by a floating-point estimate, which is an input here.
- The library sort is an insertion sort; only its result matters.
- Pipelines.PipelineTokenStream.Next: increments and positions are integers, not numbers modulo 2^32; after a member has refused its input nothing more is claimed.
- Payload attributes of a pipeline, and nested pipelines seen through `visit_members`.
- The tokenizer that splits at several delimiters, and language analyzers.
