/** Reading columns whose payloads all have one length: an address is computed, not looked up. */
module FixedColumns {
  import opened Arithmetic
  import opened ColumnFormat
  import opened ColumnCaching
  import opened ColumnReading
  import opened Sorting

  /** Blocks of fixed length, given by where their payloads start. */
  ghost function AsBlocks(blocks: seq<nat>, len: nat, vals: seq<Bytes>): (s: seq<ReadBlock>)
    requires |vals| <= BLOCK * |blocks| && BLOCK * (|blocks| - 1) < |vals|
    ensures |s| == |blocks| && forall b :: 0 <= b < |s| ==> s[b].block == Block(blocks[b], len, blocks[b], len, ALL_EQUAL)
  {
    seq(|blocks|, b requires 0 <= b < |blocks| => AsBlock(blocks[b], len, |Slice(vals, b)| - 1))
  }

  ghost function AsBlock(data: nat, len: nat, last: int): ReadBlock {
    ReadBlock(Block(data, len, data, len, ALL_EQUAL), if last >= 0 then last else 0)
  }

  /** Where the k-th payload after `data` starts. */
  function Place(data: nat, len: nat, k: nat): (at: nat)
    ensures at == data + len * k
  {
    MulMonotone(0, k, len);
    data + len * k
  }

  lemma TotalUniform(vals: seq<Bytes>, len: nat)
    requires Uniform(vals, len)
    ensures Total(vals) == len * |vals|
  {
    UniformStart(vals, len, |vals|);
    assert vals[..|vals|] == vals;
  }

  lemma SliceUniform(vals: seq<Bytes>, len: nat, b: nat)
    requires Uniform(vals, len) && BLOCK * b <= |vals|
    ensures Uniform(Slice(vals, b), len) && Total(Slice(vals, b)) == len * |Slice(vals, b)|
  {
    TotalUniform(Slice(vals, b), len);
  }

  class FixedColumn {
    var file: seq<Cell>
    var blocks: seq<nat>
    var docsIndex: nat
    const docsCount: nat
    const len: nat
    ghost const vals: seq<Bytes>

    ghost predicate Valid()
      reads this`file, this`blocks
    {
      && vals != [] && docsCount == |vals| && Uniform(vals, len) && BLOCK * (|blocks| - 1) < |vals| <= BLOCK * |blocks|
      && ColumnStored(file, Plain(AsBlocks(blocks, len, vals)), vals) && LastsOk(AsBlocks(blocks, len, vals), vals)
    }

    constructor (file: seq<Cell>, written: seq<Block>, len: nat, docsCount: nat, docsIndex: nat, ghost vals: seq<Bytes>)
      requires ColumnStored(file, written, vals) && docsCount == |vals| > 0 && Uniform(vals, len)
      ensures Valid() && this.vals == vals && this.file == file && this.docsIndex == docsIndex
      ensures |blocks| == |written| && forall b :: 0 <= b < |blocks| ==> blocks[b] == written[b].data
    {
      hide Uniform;
      this.file, this.len, this.docsCount, this.docsIndex, this.vals := file, len, docsCount, docsIndex, vals;
      blocks := seq(|written|, b requires 0 <= b < |written| => written[b].data);
      new;
      BlockCount(file, written, vals);
      Loaded(file, written, blocks, len, vals);
    }

    /** The i-th payload. */
    method Payload(i: nat) returns (value: Bytes)
      requires Valid() && i < |vals|
      ensures value == vals[i]
    {
      hide ColumnStored, LastsOk, Slice, BlockStored, AsBlocks;
      PlaceOf(i);
      value := ReadBytes(file, Place(blocks[i / BLOCK], len, i % BLOCK), len);
    }

    lemma PlaceOf(i: nat)
      requires Valid() && i < |vals|
      ensures i / BLOCK < |blocks|
      ensures var at := Place(blocks[i / BLOCK], len, i % BLOCK);
              at + len <= |file| && (forall k :: at <= k < at + len ==> file[k].Byte?) && ReadBytes(file, at, len) == vals[i]
    {
      hide Slice, BlockStored, AsBlocks, Uniform, ColumnStored, LastsOk;
      SliceValue(vals, i);
      BlockPlace(file, AsBlocks(blocks, len, vals), vals, i / BLOCK);
      EqualValue(file, AsBlocks(blocks, len, vals)[i / BLOCK].block, Slice(vals, i / BLOCK), i % BLOCK);
    }

    /** Copies all blocks and the bitmap of documents into one buffer, and reads from there from now on. */
    method MakeBuffered(bitmapSize: nat, granted: bool)
      requires Valid() && docsIndex + bitmapSize <= |file|
      requires Told(blocks, len, docsCount)
      modifies this
      ensures Valid()
      ensures !granted ==> file == old(file) && blocks == old(blocks) && docsIndex == old(docsIndex)
      ensures granted && bitmapSize == 0 ==> docsIndex == old(docsIndex)
      ensures granted && bitmapSize > 0 ==> docsIndex + bitmapSize == |file| && file[docsIndex..] == old(file[docsIndex..docsIndex + bitmapSize])
    {
      hide ColumnStored, LastsOk, Slice, Planned, Separate, SameElements, Distinct, Progress, Copied, AsBlocks, Uniform;
      var chunks, size;
      ghost var layout;
      chunks, size, layout := Plan();
      if !granted {
        return;
      }
      ghost var was := AsBlocks(blocks, len, vals);
      PlanDistinct(was, vals, chunks, size, layout);
      var sorted := SortChunks(chunks);
      PlanSeparate(was, vals, chunks, size, layout, sorted);
      SourcesInFile(file, was, vals, chunks, size, layout, sorted);
      var buffer := new Cell[size + bitmapSize](_ => Rest);
      BlocksOfChunks(was, sorted);
      CopyChunks(sorted, buffer, size);
      ghost var moved := AsBlocks(blocks, len, vals);
      Relocated(file, vals, was, moved, buffer[..size], chunks, sorted, size, layout);
      ghost var before := buffer[..size];
      var bitmap := Chunk(0, false, size, bitmapSize, docsIndex);
      ReadInto(file, bitmap, buffer);
      assert buffer[..size] == before;
      Extended(vals, moved, buffer[..size], buffer[..]);
      BitmapCopied(file, buffer[..], bitmap);
      file := buffer[..];
      if bitmapSize > 0 {
        docsIndex := size;
      }
    }

    /** Every block is full, except maybe the last one, which is told by where it starts. */
    method Plan() returns (chunks: seq<Chunk>, size: nat, ghost layout: Layout)
      requires Valid() && Told(blocks, len, docsCount)
      ensures Disjoint(chunks, size) && Planned(AsBlocks(blocks, len, vals), vals, |blocks|, chunks, size, layout)
    {
      hide ColumnStored, LastsOk, Slice, Planned, Disjoint, AsBlocks, Uniform, NewChunks, NewSize, Total;
      SizesHere();
      ghost var all := AsBlocks(blocks, len, vals);
      var lastBlockFull := docsCount % BLOCK == 0;
      var lastOffset := blocks[|blocks| - 1];
      chunks, size, layout := [], 0, Layout([], []);
      NothingPlanned(all, vals);
      var b := 0;
      while b < |blocks|
        invariant b <= |blocks| && Planned(all, vals, b, chunks, size, layout)
      {
        PlannedNext(all, vals, b, chunks, size, layout);
        FixedChunk(blocks, len, vals, b, size);
        layout := NewLayout(all, b, size, layout);
        FixedLength(blocks, len, vals, b);
        var length: nat := (if blocks[b] != lastOffset || lastBlockFull then BLOCK else docsCount % BLOCK) * len;
        chunks := chunks + [Chunk(b, false, size, length, blocks[b])];
        size := size + length;
        b := b + 1;
      }
      PlannedDisjoint(all, vals, |blocks|, chunks, size, layout);
    }

    lemma SizesHere()
      requires Valid()
      ensures forall b :: 0 <= b < |blocks| ==> BLOCK * b < |vals|
    {
      SliceSizes(vals, |blocks|);
    }

    method CopyChunks(chunks: seq<Chunk>, buffer: array<Cell>, size: nat)
      requires |vals| <= BLOCK * |blocks| && BLOCK * (|blocks| - 1) < |vals|
      requires Separate(chunks, AsBlocks(blocks, len, vals)) && size <= buffer.Length
      requires forall k :: 0 <= k < |chunks| ==> chunks[k].block < |blocks|
      requires forall k :: 0 <= k < |chunks| ==> Pointer(AsBlocks(blocks, len, vals), chunks[k]) == chunks[k].source
      requires forall k :: 0 <= k < |chunks| ==> chunks[k].offset + chunks[k].length <= size && chunks[k].source + chunks[k].length <= |file|
      modifies this`blocks, buffer
      ensures |blocks| == |old(blocks)|
      ensures Progress(file, AsBlocks(old(blocks), len, vals), AsBlocks(blocks, len, vals), buffer[..size], chunks, |chunks|)
    {
      hide Separate, Redirect, Copied, Pointer, AsBlocks, Progress, Slice;
      ghost var was := AsBlocks(blocks, len, vals);
      StartProgress(file, was, buffer[..size], chunks);
      var n := 0;
      while n < |chunks|
        invariant n <= |chunks| && |blocks| == |old(blocks)|
        invariant Progress(file, was, AsBlocks(blocks, len, vals), buffer[..size], chunks, n)
      {
        ghost var before := buffer[..size];
        ReadInto(file, chunks[n], buffer);
        CopiedPart(file, before, buffer[..], chunks[n], size);
        ProgressNext(file, was, AsBlocks(blocks, len, vals), before, buffer[..size], chunks, n);
        RedirectedFixed(file, was, blocks, len, vals, before, chunks, n);
        blocks := blocks[chunks[n].block := chunks[n].offset];
        n := n + 1;
      }
    }
  }

  /** No block that is longer than the last one starts where the last one starts. */
  ghost predicate Told(blocks: seq<nat>, len: nat, n: nat) {
    len == 0 || n % BLOCK == 0 || forall b :: 0 <= b < |blocks| - 1 ==> blocks[b] != blocks[|blocks| - 1]
  }

  /** The length computed for a block is that of its payloads, unless it is longer than the last block and starts where that starts. */
  lemma FixedLength(blocks: seq<nat>, len: nat, vals: seq<Bytes>, b: nat)
    requires vals != [] && Uniform(vals, len) && |vals| <= BLOCK * |blocks| && BLOCK * (|blocks| - 1) < |vals| && b < |blocks|
    ensures BLOCK * b < |vals|
    ensures (if blocks[b] != blocks[|blocks| - 1] || |vals| % BLOCK == 0 then BLOCK else |vals| % BLOCK) * len == Total(Slice(vals, b))
            <==> b == |blocks| - 1 || len == 0 || |vals| % BLOCK == 0 || blocks[b] != blocks[|blocks| - 1]
  {
    hide Slice, Total, Uniform, BlockStored;
    var n := if blocks[b] != blocks[|blocks| - 1] || |vals| % BLOCK == 0 then BLOCK else |vals| % BLOCK;
    SliceSizes(vals, |blocks|);
    SliceUniform(vals, len, b);
    LastSize(|vals|);
    hide *;
    SameProduct(n, |Slice(vals, b)|, len);
  }

  lemma LastSize(n: nat)
    requires n > 0
    ensures (n - 1) % BLOCK + 1 == if n % BLOCK == 0 then BLOCK else n % BLOCK
  {}

  lemma SameProduct(a: nat, b: nat, c: nat)
    ensures a * c == c * b <==> c == 0 || a == b
  {
    if c > 0 && a < b {
      MulMonotone(a + 1, b, c);
    } else if c > 0 && b < a {
      MulMonotone(b + 1, a, c);
    }
  }

  /** The one chunk of a block of fixed length. */
  lemma FixedChunk(blocks: seq<nat>, len: nat, vals: seq<Bytes>, b: nat, size: nat)
    requires |vals| <= BLOCK * |blocks| && BLOCK * (|blocks| - 1) < |vals| && b < |blocks|
    ensures var all := AsBlocks(blocks, len, vals);
            && NewChunks(all, vals, b, size) == [Chunk(b, false, size, Total(Slice(vals, b)), blocks[b])]
            && NewSize(all, vals, b, size) == size + Total(Slice(vals, b))
  {
    hide Slice, Total, AsBlocks;
  }

  /** Pointing a block of fixed length to its copy changes the one address it has. */
  lemma RedirectedFixed(file: seq<Cell>, was: seq<ReadBlock>, blocks: seq<nat>, len: nat, vals: seq<Bytes>, buffer: seq<Cell>, chunks: seq<Chunk>, n: nat)
    requires |vals| <= BLOCK * |blocks| && BLOCK * (|blocks| - 1) < |vals| && n < |chunks| && chunks[n].block < |blocks|
    requires Progress(file, was, AsBlocks(blocks, len, vals), buffer, chunks, n)
    ensures AsBlocks(blocks[chunks[n].block := chunks[n].offset], len, vals) == Redirect(AsBlocks(blocks, len, vals), chunks[n])
  {
    hide Slice, Copied;
    assert !chunks[n].table;
  }

  /** A column of fixed length whose payloads all follow each other. */
  class DenseFixedColumn {
    var file: seq<Cell>
    var data: nat
    var docsIndex: nat
    const docsCount: nat
    const len: nat
    ghost const vals: seq<Bytes>

    ghost predicate Valid()
      reads this`file, this`data
    {
      docsCount == |vals| && Uniform(vals, len) && DenseStored(file, data, len, vals)
    }

    /** Takes the payloads of a column whose blocks were written one right after the other. */
    constructor (file: seq<Cell>, written: seq<Block>, len: nat, docsCount: nat, docsIndex: nat, ghost vals: seq<Bytes>)
      requires ColumnStored(file, written, vals) && docsCount == |vals| > 0 && Uniform(vals, len) && Adjacent(written, vals)
      ensures Valid() && this.vals == vals && this.file == file && this.docsIndex == docsIndex
    {
      hide Uniform, Adjacent, ColumnStored;
      BlockCount(file, written, vals);
      this.file, this.data, this.len, this.docsCount, this.docsIndex, this.vals := file, written[0].data, len, docsCount, docsIndex, vals;
      new;
      DenseWritten(file, written, len, vals);
    }

    method Payload(i: nat) returns (value: Bytes)
      requires Valid() && i < |vals|
      ensures value == vals[i]
    {
      hide Uniform;
      assert ValueStored(file, Place(data, len, i), vals[i]);
      UniformLength(vals, len, i);
      value := ReadBytes(file, Place(data, len, i), len);
    }

    method MakeBuffered(bitmapSize: nat, granted: bool)
      requires Valid() && docsIndex + bitmapSize <= |file|
      modifies this
      ensures Valid()
      ensures !granted ==> file == old(file) && data == old(data) && docsIndex == old(docsIndex)
      ensures granted && bitmapSize == 0 ==> docsIndex == old(docsIndex)
      ensures granted && bitmapSize > 0 ==> docsIndex + bitmapSize == |file| && file[docsIndex..] == old(file[docsIndex..docsIndex + bitmapSize])
    {
      hide Uniform, DenseStored, Copied;
      if !granted {
        return;
      }
      MulMonotone(0, docsCount, len);
      var dataSize := docsCount * len;
      DenseInFile(file, data, len, vals);
      var buffer := ReadBoth(file, data, dataSize, docsIndex, bitmapSize);
      DenseMoved(file, data, len, vals, buffer[..]);
      file := buffer[..];
      data := 0;
      if bitmapSize > 0 {
        docsIndex := dataSize;
      }
    }
  }

  /** Reads two stretches of a file, one behind the other. */
  method ReadBoth(file: seq<Cell>, data: nat, dataSize: nat, docsIndex: nat, bitmapSize: nat) returns (buffer: array<Cell>)
    requires data + dataSize <= |file| && docsIndex + bitmapSize <= |file|
    ensures fresh(buffer) && buffer.Length == dataSize + bitmapSize && Copied(buffer[..], file, Chunk(0, false, 0, dataSize, data))
    ensures buffer[dataSize..] == file[docsIndex..docsIndex + bitmapSize]
  {
    hide Copied;
    buffer := new Cell[dataSize + bitmapSize](_ => Rest);
    var payloads := Chunk(0, false, 0, dataSize, data);
    ReadInto(file, payloads, buffer);
    ghost var before := buffer[..];
    var bitmap := Chunk(0, false, dataSize, bitmapSize, docsIndex);
    ReadInto(file, bitmap, buffer);
    BitmapCopied(file, buffer[..], bitmap);
    StillCopied(before, buffer[..], file, payloads);
  }

  ghost predicate ValueStored(file: seq<Cell>, at: nat, value: Bytes) {
    at + |value| <= |file| && forall p :: at <= p < at + |value| ==> file[p] == Byte(value[p - at])
  }

  ghost predicate DenseStored(file: seq<Cell>, data: nat, len: nat, vals: seq<Bytes>) {
    && (forall i :: 0 <= i < |vals| ==> ValueStored(file, Place(data, len, i), vals[i]))
    && (vals == [] ==> data <= |file|)
  }

  lemma UniformLength(vals: seq<Bytes>, len: nat, i: nat)
    requires Uniform(vals, len) && i < |vals|
    ensures |vals[i]| == len
    ensures forall file: seq<Cell>, at: nat :: ValueStored(file, at, vals[i]) ==> forall p :: at <= p < at + len ==> file[p].Byte?
    ensures forall file: seq<Cell>, at: nat :: ValueStored(file, at, vals[i]) ==> at + len <= |file|
  {}

  /** The last payload ends inside the file, so all of them do. */
  lemma DenseInFile(file: seq<Cell>, data: nat, len: nat, vals: seq<Bytes>)
    requires DenseStored(file, data, len, vals) && Uniform(vals, len)
    ensures data + |vals| * len <= |file|
  {
    if vals != [] {
      var n := |vals| - 1;
      assert ValueStored(file, Place(data, len, n), vals[n]);
      assert len * n + len == |vals| * len;
    }
  }

  lemma StillCopied(before: seq<Cell>, after: seq<Cell>, file: seq<Cell>, c: Chunk)
    requires Copied(before, file, c) && |before| == |after| && forall p :: 0 <= p < c.offset + c.length ==> after[p] == before[p]
    ensures Copied(after, file, c)
  {}

  lemma DenseMoved(file: seq<Cell>, data: nat, len: nat, vals: seq<Bytes>, buffer: seq<Cell>)
    requires DenseStored(file, data, len, vals) && Uniform(vals, len) && Copied(buffer, file, Chunk(0, false, 0, |vals| * len, data))
    ensures DenseStored(buffer, 0, len, vals)
  {
    forall i | 0 <= i < |vals|
      ensures ValueStored(buffer, Place(0, len, i), vals[i])
    {
      assert ValueStored(file, Place(data, len, i), vals[i]);
      MulMonotone(i + 1, |vals|, len);
      assert (i + 1) * len == len * i + len;
    }
  }

  /** Where the i-th payload is, told by its block. */
  ghost function PlaceIn(written: seq<Block>, len: nat, i: nat): nat
    requires i / BLOCK < |written|
  {
    written[i / BLOCK].data + len * (i % BLOCK)
  }

  /** Every payload is where its block says. The one run that starts with the first block has all of them exactly if
      the blocks follow each other. */
  lemma DensePlacesIff(file: seq<Cell>, written: seq<Block>, len: nat, vals: seq<Bytes>)
    requires ColumnStored(file, written, vals) && Uniform(vals, len) && vals != []
    ensures forall i :: 0 <= i < |vals| ==> i / BLOCK < |written| && ValueStored(file, PlaceIn(written, len, i), vals[i])
    ensures Adjacent(written, vals) <==> forall i :: 0 <= i < |vals| ==> PlaceIn(written, len, i) == Place(written[0].data, len, i)
  {
    hide Slice, BlockStored, Uniform, Adjacent, ValueStored;
    BlockCount(file, written, vals);
    forall i | 0 <= i < |vals|
      ensures i / BLOCK < |written| && ValueStored(file, PlaceIn(written, len, i), vals[i])
      ensures Adjacent(written, vals) ==> PlaceIn(written, len, i) == Place(written[0].data, len, i)
    {
      var b := i / BLOCK;
      SliceValue(vals, i);
      SliceUniform(vals, len, b);
      ValuePlaced(file, written[b], Slice(vals, b), len, i % BLOCK);
      assert len * i == len * (BLOCK * b) + len * (i % BLOCK);
      if Adjacent(written, vals) {
        BlockBegins(file, written, len, vals, b);
      }
    }
    if forall i :: 0 <= i < |vals| ==> PlaceIn(written, len, i) == Place(written[0].data, len, i) {
      PlacesAdjacent(file, written, len, vals);
    }
  }

  lemma PlacesAdjacent(file: seq<Cell>, written: seq<Block>, len: nat, vals: seq<Bytes>)
    requires ColumnStored(file, written, vals) && Uniform(vals, len) && written != []
    requires forall i :: 0 <= i < |vals| ==> i / BLOCK < |written| && PlaceIn(written, len, i) == Place(written[0].data, len, i)
    ensures Adjacent(written, vals)
  {
    hide Slice, BlockStored, Uniform;
    SliceSizes(vals, |written|);
    forall b | 0 <= b < |written| - 1
      ensures AdjacentAt(written, vals, b)
    {
      SliceUniform(vals, len, b);
      assert PlaceIn(written, len, BLOCK * b) == Place(written[0].data, len, BLOCK * b);
      assert PlaceIn(written, len, BLOCK * (b + 1)) == Place(written[0].data, len, BLOCK * (b + 1));
      assert len * (BLOCK * (b + 1)) == len * (BLOCK * b) + len * BLOCK;
    }
  }

  /** Blocks of fixed length that follow each other are one dense run. */
  lemma DenseWritten(file: seq<Cell>, written: seq<Block>, len: nat, vals: seq<Bytes>)
    requires ColumnStored(file, written, vals) && Uniform(vals, len) && vals != [] && Adjacent(written, vals)
    ensures written != [] && DenseStored(file, written[0].data, len, vals)
  {
    hide Slice, BlockStored, Uniform, Adjacent, ValueStored;
    BlockCount(file, written, vals);
    DensePlacesIff(file, written, len, vals);
  }

  lemma {:induction false} BlockBegins(file: seq<Cell>, written: seq<Block>, len: nat, vals: seq<Bytes>, b: nat)
    requires ColumnStored(file, written, vals) && Uniform(vals, len) && b < |written| && Adjacent(written, vals)
    ensures written[b].data == written[0].data + len * (BLOCK * b)
  {
    hide Slice, BlockStored, Uniform;
    if b > 0 {
      BlockBegins(file, written, len, vals, b - 1);
      assert AdjacentAt(written, vals, b - 1);
      SliceUniform(vals, len, b - 1);
      BlockCount(file, written, vals);
      SliceSizes(vals, |written|);
      assert len * (BLOCK * b) == len * (BLOCK * (b - 1)) + len * BLOCK;
    }
  }

  lemma ValuePlaced(file: seq<Cell>, block: Block, own: seq<Bytes>, len: nat, i: nat)
    requires BlockStored(file, block, own) && Uniform(own, len) && i < |own|
    ensures ValueStored(file, block.data + len * i, own[i])
  {
    UniformStart(own, len, i);
    ReadValue(file, block.data, own, i);
    var at := block.data + len * i;
    forall p | at <= p < at + |own[i]|
      ensures file[p] == Byte(own[i][p - at])
    {
      assert ReadBytes(file, at, |own[i]|)[p - at] == own[i][p - at];
    }
  }

  /** Written blocks of fixed length are stored as such. */
  lemma Loaded(file: seq<Cell>, written: seq<Block>, blocks: seq<nat>, len: nat, vals: seq<Bytes>)
    requires ColumnStored(file, written, vals) && Uniform(vals, len) && |blocks| == |written| && vals != []
    requires BLOCK * (|blocks| - 1) < |vals| <= BLOCK * |blocks|
    requires forall b :: 0 <= b < |blocks| ==> blocks[b] == written[b].data
    ensures ColumnStored(file, Plain(AsBlocks(blocks, len, vals)), vals) && LastsOk(AsBlocks(blocks, len, vals), vals)
  {
    hide Slice, BlockStored;
    SliceSizes(vals, |blocks|);
    forall b | 0 <= b < |blocks|
      ensures BlockStored(file, AsBlocks(blocks, len, vals)[b].block, Slice(vals, b))
    {
      assert BlockStored(file, written[b], Slice(vals, b));
      SliceUniform(vals, len, b);
      FixedStored(file, written[b], Slice(vals, b), len);
    }
  }

  lemma FixedStored(file: seq<Cell>, block: Block, own: seq<Bytes>, len: nat)
    requires BlockStored(file, block, own) && Uniform(own, len)
    ensures BlockStored(file, Block(block.data, len, block.data, len, ALL_EQUAL), own)
  {
    hide DataStored;
    forall i | 0 <= i < |own|
      ensures Start(own, i) == len * i
    {
      UniformStart(own, len, i);
    }
  }
}
