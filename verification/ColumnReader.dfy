/** Reading the payloads of a column, from its file or from a cached copy of it. */
module ColumnReading {
  import opened Limits
  import opened ColumnFormat
  import opened ColumnCaching
  import opened Sorting

  lemma SliceSizes(vals: seq<Bytes>, n: nat)
    requires vals != [] && BLOCK * (n - 1) < |vals| <= BLOCK * n
    ensures forall b :: 0 <= b < n ==> BLOCK * b < |vals| && |Slice(vals, b)| == if b + 1 < n then BLOCK else (|vals| - 1) % BLOCK + 1
  {}

  lemma SliceValue(vals: seq<Bytes>, i: nat)
    requires i < |vals|
    ensures BLOCK * (i / BLOCK) <= |vals| && i % BLOCK < |Slice(vals, i / BLOCK)| && Slice(vals, i / BLOCK)[i % BLOCK] == vals[i]
  {}

  lemma LastsLoaded(blocks: seq<ReadBlock>, vals: seq<Bytes>)
    requires vals != [] && BLOCK * (|blocks| - 1) < |vals| <= BLOCK * |blocks|
    requires forall b :: 0 <= b < |blocks| ==> blocks[b].last == if b + 1 < |blocks| then BLOCK - 1 else (|vals| % BLOCK + 0x1_0000 - 1) % 0x1_0000
    ensures LastsOk(blocks, vals)
  {
    hide Slice;
    SliceSizes(vals, |blocks|);
  }

  class SparseColumn {
    var file: seq<Cell>
    var blocks: seq<ReadBlock>
    var docsIndex: nat         // where the bitmap of documents lies in the file, if there is one
    ghost const vals: seq<Bytes>

    ghost predicate Valid()
      reads this`file, this`blocks
    {
      vals != [] && ColumnStored(file, Plain(blocks), vals) && LastsOk(blocks, vals)
    }

    /** Takes the blocks as they were written; only the last one may be short. */
    constructor (file: seq<Cell>, written: seq<Block>, docsCount: nat, docsIndex: nat, ghost vals: seq<Bytes>)
      requires ColumnStored(file, written, vals) && docsCount == |vals| > 0
      ensures Valid() && this.vals == vals && this.file == file && this.docsIndex == docsIndex
    {
      hide ColumnStored, Slice, LastsOk;
      BlockCount(file, written, vals);
      this.file, this.docsIndex, this.vals := file, docsIndex, vals;
      var loaded := seq(|written|, b requires 0 <= b < |written| => ReadBlock(written[b], BLOCK - 1));
      blocks := loaded[|written| - 1 := ReadBlock(written[|written| - 1], (docsCount % BLOCK + 0x1_0000 - 1) % 0x1_0000)];
      new;
      assert Plain(blocks) == written;
      LastsLoaded(blocks, vals);
    }

    /** The i-th payload. */
    method Payload(i: nat) returns (value: Bytes)
      requires Valid() && i < |vals|
      ensures value == vals[i]
    {
      hide BlockStored, Slice, ColumnStored, LastsOk;
      PlaceOf(i);
      var block, last := blocks[i / BLOCK].block, blocks[i / BLOCK].last;
      var index := i % BLOCK;
      ghost var own := Slice(vals, i / BLOCK);
      if block.bits == ALL_EQUAL {
        EqualValue(file, block, own, index);
        var length := if last == index then block.lastSize else block.avg;
        value := ReadBytes(file, block.data + block.avg * index, length);
      } else {
        value := PackedValue(block, last, index, own);
      }
    }

    lemma PlaceOf(i: nat)
      requires Valid() && i < |vals|
      ensures i / BLOCK < |blocks| && BLOCK * (i / BLOCK) <= |vals|
      ensures var b := i / BLOCK;
              var own := Slice(vals, b);
              && BlockStored(file, blocks[b].block, own) && blocks[b].last + 1 == |own| && i % BLOCK < |own| && own[i % BLOCK] == vals[i]
    {
      hide BlockStored, Slice;
      SliceValue(vals, i);
      assert Plain(blocks)[i / BLOCK] == blocks[i / BLOCK].block;
    }

    /** A payload whose address is the line plus a packed difference. */
    method PackedValue(block: Block, last: nat, index: nat, ghost own: seq<Bytes>) returns (value: Bytes)
      requires BlockStored(file, block, own) && block.bits != ALL_EQUAL && last + 1 == |own| && index < |own|
      ensures value == own[index]
    {
      hide BlockStored, Start, DataStored;
      var start, length := Span(block, last, index, own);
      PackedPlace(file, block, own, index);
      value := ReadBytes(file, block.data + start, length);
    }

    /** The next difference gives the end of a payload, unless it is the last one of the block. */
    method Span(block: Block, last: nat, index: nat, ghost own: seq<Bytes>) returns (start: nat, length: nat)
      requires BlockStored(file, block, own) && block.bits != ALL_EQUAL && last + 1 == |own| && index < |own|
      ensures start == Start(own, index) && length == |own[index]|
    {
      hide BlockStored, Start, DataStored, GroupAt, GroupSize;
      GroupValue(file, block, own, index);
      PackedPlace(file, block, own, index);
      var at := GroupAt(block, index / PACK);
      var valueIndex := index % PACK;
      var startDelta := UnZigZag(file[at].values[valueIndex]);
      start := block.avg * index + startDelta;
      length := block.lastSize;
      if last != index {
        GroupValue(file, block, own, index + 1);
        NextPlace(block, index);
        Line(block.avg, index);
        valueIndex := valueIndex + 1;
        if valueIndex == PACK {
          valueIndex := 0;
          at := at + GroupSize(block.bits);
        }
        var endDelta := UnZigZag(file[at].values[valueIndex]);
        length := endDelta - startDelta + block.avg;
      }
    }

    /** Reads everything the column needs into one buffer, followed by its bitmap of documents,
        and reads from there from now on. Without memory for the buffer nothing changes. */
    method MakeBuffered(bitmapSize: nat, granted: bool)
      requires Valid() && docsIndex + bitmapSize <= |file|
      modifies this
      ensures Valid()
      ensures !granted ==> file == old(file) && blocks == old(blocks) && docsIndex == old(docsIndex)
      ensures granted && bitmapSize == 0 ==> docsIndex == old(docsIndex)
      ensures granted && bitmapSize > 0 ==> docsIndex + bitmapSize == |file| && file[docsIndex..] == old(file[docsIndex..docsIndex + bitmapSize])
    {
      hide ColumnStored, LastsOk, Slice, Planned, Separate, SameElements, Distinct, Progress, Valid, Copied;
      var chunks, size;
      ghost var layout;
      ValidFacts();
      chunks, size, layout := Plan();
      if !granted {
        return;
      }
      PlanDistinct(blocks, vals, chunks, size, layout);
      var sorted := SortChunks(chunks);
      PlanSeparate(blocks, vals, chunks, size, layout, sorted);
      SourcesInFile(file, blocks, vals, chunks, size, layout, sorted);
      ghost var was := blocks;
      var buffer := new Cell[size + bitmapSize](_ => Rest);
      CopyChunks(sorted, buffer, size);
      Relocated(file, vals, was, blocks, buffer[..size], chunks, sorted, size, layout);
      ghost var before := buffer[..size];
      var bitmap := Chunk(0, false, size, bitmapSize, docsIndex);
      ReadInto(file, bitmap, buffer);
      assert buffer[..size] == before;
      Extended(vals, blocks, buffer[..size], buffer[..]);
      BitmapCopied(file, buffer[..], bitmap);
      file := buffer[..];
      if bitmapSize > 0 {
        docsIndex := size;
      }
      ValidAgain();
    }

    lemma ValidFacts()
      requires Valid()
      ensures vals != [] && ColumnStored(file, Plain(blocks), vals) && LastsOk(blocks, vals)
    {}

    lemma ValidAgain()
      requires vals != [] && ColumnStored(file, Plain(blocks), vals) && LastsOk(blocks, vals)
      ensures Valid()
    {}

    /** Which parts of the file are needed, and where they go. */
    method Plan() returns (chunks: seq<Chunk>, size: nat, ghost layout: Layout)
      requires Valid()
      ensures Disjoint(chunks, size) && Planned(blocks, vals, |blocks|, chunks, size, layout)
    {
      hide BlockStored, Slice, ColumnStored, LastsOk, Planned, Groups, GroupSize, Valid, Disjoint;
      chunks, size, layout := [], 0, Layout([], []);
      NothingPlanned(blocks, vals);
      var b := 0;
      while b < |blocks|
        invariant b <= |blocks| && Planned(blocks, vals, b, chunks, size, layout)
      {
        PlaceOfBlock(b);
        PlannedNext(blocks, vals, b, chunks, size, layout);
        ghost var next, nextSize := chunks + NewChunks(blocks, vals, b, size), NewSize(blocks, vals, b, size);
        layout := NewLayout(blocks, b, size, layout);
        var block, last := blocks[b].block, blocks[b].last;
        var length;
        if block.bits == ALL_EQUAL {
          EqualLength(file, block, Slice(vals, b));
          length := block.avg * last + block.lastSize;
        } else {
          chunks := chunks + [TableChunk(b, blocks[b], size)];
          size := size + TableLength(blocks[b]);
          length := PackedLength(blocks[b], Slice(vals, b));
        }
        chunks := chunks + [Chunk(b, false, size, length, block.data)];
        size := size + length;
        assert chunks == next && size == nextSize;
        b := b + 1;
      }
      PlannedDisjoint(blocks, vals, |blocks|, chunks, size, layout);
    }

    /** Where the last payload of a packed block ends. */
    method PackedLength(b: ReadBlock, ghost own: seq<Bytes>) returns (length: nat)
      requires BlockStored(file, b.block, own) && b.block.bits != ALL_EQUAL && b.last + 1 == |own|
      ensures length == Total(own)
    {
      hide BlockStored, Start, Total, GroupSize;
      LastGroup(b);
      GroupValue(file, b.block, own, b.last);
      LastEnds(file, b.block, own);
      var at := b.block.addr + TableLength(b) - GroupSize(b.block.bits);
      var startDelta := UnZigZag(file[at].values[b.last % PACK]);
      var start := b.block.avg * b.last + startDelta;
      length := b.block.lastSize + start;
    }

    lemma PlaceOfBlock(b: nat)
      requires Valid() && b < |blocks|
      ensures BLOCK * b <= |vals| && BlockStored(file, blocks[b].block, Slice(vals, b)) && blocks[b].last + 1 == |Slice(vals, b)|
    {
      hide BlockStored, Slice;
      assert Plain(blocks)[b] == blocks[b].block;
    }

    /** Copies every chunk and lets its block point to the copy. */
    method CopyChunks(chunks: seq<Chunk>, buffer: array<Cell>, size: nat)
      requires Separate(chunks, blocks) && size <= buffer.Length
      requires forall k :: 0 <= k < |chunks| ==> Pointer(blocks, chunks[k]) == chunks[k].source && chunks[k].offset + chunks[k].length <= size
      requires forall k :: 0 <= k < |chunks| ==> chunks[k].source + chunks[k].length <= |file|
      modifies this`blocks, buffer
      ensures Progress(file, old(blocks), blocks, buffer[..size], chunks, |chunks|)
    {
      hide Separate, Redirect, Copied, Pointer;
      StartProgress(file, blocks, buffer[..size], chunks);
      var n := 0;
      while n < |chunks|
        invariant n <= |chunks| && Progress(file, old(blocks), blocks, buffer[..size], chunks, n)
      {
        ghost var before := buffer[..size];
        ReadInto(file, chunks[n], buffer);
        CopiedPart(file, before, buffer[..], chunks[n], size);
        ProgressNext(file, old(blocks), blocks, before, buffer[..size], chunks, n);
        ProgressSeparate(file, old(blocks), blocks, before, chunks, n);
        BlocksOfChunks(blocks, chunks);
        blocks := Redirect(blocks, chunks[n]);
        n := n + 1;
      }
    }

  }

  /** Every chunk lies in the file. */
  lemma SourcesInFile(file: seq<Cell>, blocks: seq<ReadBlock>, vals: seq<Bytes>, chunks: seq<Chunk>, size: nat, layout: Layout, sorted: seq<Chunk>)
    requires vals != [] && ColumnStored(file, Plain(blocks), vals) && LastsOk(blocks, vals)
    requires Planned(blocks, vals, |blocks|, chunks, size, layout) && forall c :: c in sorted <==> c in chunks
    ensures forall k :: 0 <= k < |sorted| ==> sorted[k].source + sorted[k].length <= |file|
  {
    hide ColumnStored, LastsOk, Slice, TableLength, Total, BlockStored;
    forall k | 0 <= k < |sorted|
      ensures sorted[k].source + sorted[k].length <= |file|
    {
      var c := sorted[k];
      assert c in sorted && ChunkOk(blocks, vals, |blocks|, c, size, layout);
      BlockPlace(file, blocks, vals, c.block);
      BlockInFile(file, blocks[c.block], Slice(vals, c.block));
    }
  }

  /** By place in the file. */
  method SortChunks(chunks: seq<Chunk>) returns (sorted: seq<Chunk>)
    requires Distinct(chunks)
    ensures SameElements(sorted, chunks) && Distinct(sorted)
    ensures forall i, j :: 0 <= i < j < |sorted| ==> sorted[i].source <= sorted[j].source
  {
    var less := (a: Chunk, b: Chunk) => Earlier(a, b);
    EarlierOrders(chunks);
    sorted := Sort(chunks, less);
    AscendsDistinct(sorted);
    forall i, j | 0 <= i < j < |sorted|
      ensures sorted[i].source <= sorted[j].source
    {
      assert less(sorted[i], sorted[j]);
    }
  }

  lemma ProgressSeparate(file: seq<Cell>, was: seq<ReadBlock>, blocks: seq<ReadBlock>, buffer: seq<Cell>, chunks: seq<Chunk>, n: nat)
    requires Progress(file, was, blocks, buffer, chunks, n)
    ensures Separate(chunks, blocks)
  {}

  lemma BlocksOfChunks(blocks: seq<ReadBlock>, chunks: seq<Chunk>)
    requires Separate(chunks, blocks)
    ensures forall k :: 0 <= k < |chunks| ==> chunks[k].block < |blocks|
  {}

  method ReadInto(file: seq<Cell>, c: Chunk, buffer: array<Cell>)
    requires c.offset + c.length <= buffer.Length && c.source + c.length <= |file|
    modifies buffer
    ensures Copied(buffer[..], file, c)
    ensures forall p :: 0 <= p < buffer.Length && !(c.offset <= p < c.offset + c.length) ==> buffer[p] == old(buffer[p])
  {
    var k := 0;
    while k < c.length
      invariant k <= c.length
      invariant forall p :: 0 <= p < buffer.Length ==>
                  buffer[p] == if c.offset <= p < c.offset + k then file[c.source + (p - c.offset)] else old(buffer[p])
    {
      buffer[c.offset + k] := file[c.source + k];
      k := k + 1;
    }
  }

  lemma CopiedPart(file: seq<Cell>, before: seq<Cell>, after: seq<Cell>, c: Chunk, size: nat)
    requires |before| == size <= |after| && c.offset + c.length <= size && Copied(after, file, c)
    requires forall p :: 0 <= p < size && !(c.offset <= p < c.offset + c.length) ==> after[p] == before[p]
    ensures PartCopied(before, after[..size], file, c)
  {}

  /** A copied plan is the whole column. */
  lemma Relocated(file: seq<Cell>, vals: seq<Bytes>, was: seq<ReadBlock>, blocks: seq<ReadBlock>, buffer: seq<Cell>, chunks: seq<Chunk>, sorted: seq<Chunk>, size: nat, layout: Layout)
    requires vals != [] && ColumnStored(file, Plain(was), vals) && LastsOk(was, vals)
    requires Planned(was, vals, |was|, chunks, size, layout) && (forall c :: c in sorted <==> c in chunks)
    requires Progress(file, was, blocks, buffer, sorted, |sorted|)
    ensures ColumnStored(buffer, Plain(blocks), vals) && LastsOk(blocks, vals)
  {
    hide BlockStored, Slice, Copied, Separate, TableLength, Total, Apart, ChunkOk;
    forall b | 0 <= b < |blocks|
      ensures BLOCK * b < |vals| && BlockStored(buffer, blocks[b].block, Slice(vals, b))
    {
      assert Plain(was)[b] == was[b].block && BlockStored(file, was[b].block, Slice(vals, b));
      BlockRelocated(file, vals, was, blocks, buffer, chunks, sorted, size, layout, b);
    }
  }

  lemma BlockRelocated(file: seq<Cell>, vals: seq<Bytes>, was: seq<ReadBlock>, blocks: seq<ReadBlock>, buffer: seq<Cell>, chunks: seq<Chunk>, sorted: seq<Chunk>, size: nat, layout: Layout, b: nat)
    requires b < |was| && BLOCK * b <= |vals| && BlockStored(file, was[b].block, Slice(vals, b)) && was[b].last + 1 == |Slice(vals, b)|
    requires Planned(was, vals, |was|, chunks, size, layout) && (forall c :: c in sorted <==> c in chunks)
    requires Progress(file, was, blocks, buffer, sorted, |sorted|)
    ensures BlockStored(buffer, blocks[b].block, Slice(vals, b))
  {
    hide BlockStored, Slice, Copied, Separate, TableLength, Total, Apart, ChunkOk;
    var own := Slice(vals, b);
    var data := ChunkOf(was, vals, b, false, layout.payloads[b]);
    assert data in sorted;
    var k :| 0 <= k < |sorted| && sorted[k] == data;
    assert Pointer(blocks, sorted[k]) == layout.payloads[b];
    if was[b].block.bits != ALL_EQUAL {
      var table := ChunkOf(was, vals, b, true, layout.tables[b]);
      assert table in sorted;
      var m :| 0 <= m < |sorted| && sorted[m] == table;
      assert Pointer(blocks, sorted[m]) == layout.tables[b];
    }
    BlockMoved(file, was[b], blocks[b], own, buffer, b);
  }

  lemma Extended(vals: seq<Bytes>, blocks: seq<ReadBlock>, buffer: seq<Cell>, more: seq<Cell>)
    requires vals != [] && ColumnStored(buffer, Plain(blocks), vals) && LastsOk(blocks, vals) && |buffer| <= |more| && more[..|buffer|] == buffer
    ensures ColumnStored(more, Plain(blocks), vals)
  {
    hide BlockStored, Slice, LastsOk;
    forall b | 0 <= b < |blocks|
      ensures BlockStored(more, Plain(blocks)[b], Slice(vals, b))
    {
      BlockStays(buffer, Plain(blocks)[b], Slice(vals, b), more);
    }
  }

  lemma BlockPlace(file: seq<Cell>, blocks: seq<ReadBlock>, vals: seq<Bytes>, b: nat)
    requires ColumnStored(file, Plain(blocks), vals) && LastsOk(blocks, vals) && b < |blocks|
    ensures BLOCK * b <= |vals| && BlockStored(file, blocks[b].block, Slice(vals, b)) && blocks[b].last + 1 == |Slice(vals, b)|
  {
    hide BlockStored, Slice;
    assert Plain(blocks)[b] == blocks[b].block;
  }

  lemma BitmapCopied(file: seq<Cell>, buffer: seq<Cell>, c: Chunk)
    requires Copied(buffer, file, c) && c.offset + c.length == |buffer|
    ensures buffer[c.offset..] == file[c.source..c.source + c.length]
  {
    assert forall k :: 0 <= k < c.length ==> buffer[c.offset..][k] == buffer[c.offset + k];
  }

  lemma StartProgress(file: seq<Cell>, blocks: seq<ReadBlock>, buffer: seq<Cell>, chunks: seq<Chunk>)
    requires Separate(chunks, blocks) && forall k :: 0 <= k < |chunks| ==> Pointer(blocks, chunks[k]) == chunks[k].source
    ensures Progress(file, blocks, blocks, buffer, chunks, 0)
  {}

  predicate Earlier(a: Chunk, b: Chunk) {
    if a.source != b.source then a.source < b.source
    else if a.block != b.block then a.block < b.block
    else if a.table != b.table then a.table
    else if a.offset != b.offset then a.offset < b.offset
    else a.length < b.length
  }

  lemma EarlierOrders(chunks: seq<Chunk>)
    ensures Orders((a: Chunk, b: Chunk) => Earlier(a, b), chunks)
  {}

  lemma AscendsDistinct(chunks: seq<Chunk>)
    requires Ascends((a: Chunk, b: Chunk) => Earlier(a, b), chunks)
    ensures Distinct(chunks)
  {
    var less := (a: Chunk, b: Chunk) => Earlier(a, b);
    forall i, j | 0 <= i < j < |chunks|
      ensures chunks[i] != chunks[j]
    {
      assert less(chunks[i], chunks[j]);
    }
  }

  /** On a line, the payloads together end where the last one does. */
  lemma EqualLength(file: seq<Cell>, block: Block, own: seq<Bytes>)
    requires BlockStored(file, block, own) && block.bits == ALL_EQUAL
    ensures block.avg * (|own| - 1) + block.lastSize == Total(own)
  {
    hide DataStored, Total;
    assert Start(own, |own| - 1) == block.avg * (|own| - 1);
    LastEnds(file, block, own);
  }

  lemma LastEnds(file: seq<Cell>, block: Block, own: seq<Bytes>)
    requires BlockStored(file, block, own)
    ensures |own| >= 1 && Start(own, |own| - 1) + block.lastSize == Total(own)
  {
    hide DataStored;
    ValueAt(own, |own| - 1);
    assert own[..|own|] == own;
  }

  lemma BlockInFile(file: seq<Cell>, b: ReadBlock, own: seq<Bytes>)
    requires BlockStored(file, b.block, own) && b.last + 1 == |own|
    ensures b.block.data + Total(own) <= |file|
    ensures b.block.bits != ALL_EQUAL ==> b.block.addr + TableLength(b) <= |file|
  {
    hide Total, TableLength, GroupSize;
    if b.block.bits != ALL_EQUAL {
      assert GroupStored(file, b.block, own, b.last / PACK);
      LastGroup(b);
    }
  }

  lemma PlanDistinct(blocks: seq<ReadBlock>, vals: seq<Bytes>, chunks: seq<Chunk>, size: nat, layout: Layout)
    requires Planned(blocks, vals, |blocks|, chunks, size, layout)
    ensures Distinct(chunks)
  {
    hide ChunkOk, ChunkOf;
    forall i, j | 0 <= i < j < |chunks|
      ensures chunks[i] != chunks[j]
    {
      assert chunks[i] != chunks[j] && Apart(chunks[i], chunks[j]);
    }
  }

  lemma LastGroup(b: ReadBlock)
    ensures GroupSize(b.block.bits) <= TableLength(b)
    ensures b.block.addr + TableLength(b) - GroupSize(b.block.bits) == GroupAt(b.block, b.last / PACK)
  {
    var n, size := Groups(b.last), GroupSize(b.block.bits);
    assert n == b.last / PACK + 1;
    assert n * size == (n - 1) * size + size;
  }

  lemma Line(avg: nat, index: nat)
    ensures avg * (index + 1) == avg * index + avg
  {}

  lemma BlockCount(file: seq<Cell>, blocks: seq<Block>, vals: seq<Bytes>)
    requires ColumnStored(file, blocks, vals) && vals != []
    ensures BLOCK * (|blocks| - 1) < |vals| <= BLOCK * |blocks|
  {}

  /** On a line, a payload other than the last one has the average length. */
  lemma EqualValue(file: seq<Cell>, block: Block, own: seq<Bytes>, index: nat)
    requires BlockStored(file, block, own) && block.bits == ALL_EQUAL && index < |own|
    ensures var at, n := block.data + block.avg * index, if index == |own| - 1 then block.lastSize else block.avg;
            && at + n <= |file| && (forall k :: at <= k < at + n ==> file[k].Byte?) && ReadBytes(file, at, n) == own[index]
  {
    hide DataStored, Start;
    assert OnLine(block, own);
    ReadValue(file, block.data, own, index);
    ValueAt(own, index);
    assert Start(own, index) == block.avg * index;
    if index < |own| - 1 {
      assert Start(own, index + 1) == block.avg * (index + 1);
      assert block.avg * (index + 1) == block.avg * index + block.avg;
    }
  }

  /** Where the difference of an address is packed, and what it is. */
  lemma GroupValue(file: seq<Cell>, block: Block, own: seq<Bytes>, index: nat)
    requires BlockStored(file, block, own) && block.bits != ALL_EQUAL && index < |own|
    ensures var at := GroupAt(block, index / PACK);
            && at < |file| && file[at].Packed? && |file[at].values| == PACK
            && UnZigZag(file[at].values[index % PACK]) == Start(own, index) - block.avg * index
  {
    hide DataStored, Start;
    assert GroupStored(file, block, own, index / PACK);
    assert index == PACK * (index / PACK) + index % PACK;
  }

  lemma NextPlace(block: Block, index: nat)
    ensures if index % PACK + 1 == PACK
            then GroupAt(block, (index + 1) / PACK) == GroupAt(block, index / PACK) + GroupSize(block.bits) && (index + 1) % PACK == 0
            else (index + 1) / PACK == index / PACK && (index + 1) % PACK == index % PACK + 1
  {
    var k, size := index / PACK, GroupSize(block.bits);
    assert (k + 1) * size == k * size + size;
  }

  lemma PackedPlace(file: seq<Cell>, block: Block, own: seq<Bytes>, index: nat)
    requires BlockStored(file, block, own) && index < |own|
    ensures var at, n := block.data + Start(own, index), |own[index]|;
            && at + n <= |file| && (forall k :: at <= k < at + n ==> file[k].Byte?) && ReadBytes(file, at, n) == own[index]
    ensures index == |own| - 1 ==> |own[index]| == block.lastSize
    ensures index < |own| - 1 ==> |own[index]| == Start(own, index + 1) - Start(own, index)
  {
    hide Start;
    ReadValue(file, block.data, own, index);
    ValueAt(own, index);
  }
}
