/** Moving the data of a column into one buffer: which parts of the file there are, and why
    payloads stay what they are. */
module ColumnCaching {
  import opened Arithmetic
  import opened ColumnFormat
  import opened Sorting

  /** A part of the file: the address table or the payloads of a block, and its place in the buffer. */
  datatype Chunk = Chunk(block: nat, table: bool, offset: nat, length: nat, source: nat)

  function Groups(last: nat): nat { (last + PACK) / PACK }

  function TableLength(b: ReadBlock): nat {
    MulMonotone(0, Groups(b.last), GroupSize(b.block.bits));
    Groups(b.last) * GroupSize(b.block.bits)
  }

  function TableChunk(b: nat, block: ReadBlock, offset: nat): Chunk {
    Chunk(b, true, offset, TableLength(block), block.block.addr)
  }

  ghost function DataChunk(b: nat, block: ReadBlock, own: seq<Bytes>, offset: nat): Chunk {
    Chunk(b, false, offset, Total(own), block.block.data)
  }

  /** The chunk of a block, given where its table and its payloads go. */
  ghost function ChunkOf(blocks: seq<ReadBlock>, vals: seq<Bytes>, b: nat, table: bool, offset: nat): Chunk
    requires b < |blocks| && BLOCK * b <= |vals|
  {
    if table then TableChunk(b, blocks[b], offset) else DataChunk(b, blocks[b], Slice(vals, b), offset)
  }

  ghost predicate Apart(a: Chunk, b: Chunk) {
    a.offset + a.length <= b.offset || b.offset + b.length <= a.offset
  }

  /** Where the table and the payloads of every block go. */
  datatype Layout = Layout(tables: seq<nat>, payloads: seq<nat>)

  /** The chunks of the first n blocks, laid out one after the other up to `size`. */
  ghost predicate Planned(blocks: seq<ReadBlock>, vals: seq<Bytes>, n: nat, chunks: seq<Chunk>, size: nat, layout: Layout) {
    && n <= |blocks| && |layout.tables| == |layout.payloads| == n && (forall b :: 0 <= b < n ==> BLOCK * b <= |vals|)
    && (forall b :: 0 <= b < n ==> ChunkOf(blocks, vals, b, false, layout.payloads[b]) in chunks)
    && (forall b :: 0 <= b < n && blocks[b].block.bits != ALL_EQUAL ==> ChunkOf(blocks, vals, b, true, layout.tables[b]) in chunks)
    && (forall c :: c in chunks ==> ChunkOk(blocks, vals, n, c, size, layout))
    && (forall i, j :: 0 <= i < j < |chunks| ==> chunks[i] != chunks[j] && Apart(chunks[i], chunks[j]))
  }

  /** A chunk is known by its block and its kind, and lies inside the buffer. */
  ghost predicate ChunkOk(blocks: seq<ReadBlock>, vals: seq<Bytes>, n: nat, c: Chunk, size: nat, layout: Layout)
    requires n <= |blocks| && |layout.tables| == |layout.payloads| == n && (forall b :: 0 <= b < n ==> BLOCK * b <= |vals|)
  {
    && c.block < n && c.offset + c.length <= size
    && (c.table ==> blocks[c.block].block.bits != ALL_EQUAL)
    && c == ChunkOf(blocks, vals, c.block, c.table, if c.table then layout.tables[c.block] else layout.payloads[c.block])
  }

  /** The chunks lie inside the buffer and do not overlap. */
  ghost predicate Disjoint(chunks: seq<Chunk>, size: nat) {
    && (forall k :: 0 <= k < |chunks| ==> chunks[k].offset + chunks[k].length <= size)
    && (forall i, j :: 0 <= i < j < |chunks| ==> Apart(chunks[i], chunks[j]))
  }

  lemma PlannedDisjoint(blocks: seq<ReadBlock>, vals: seq<Bytes>, n: nat, chunks: seq<Chunk>, size: nat, layout: Layout)
    requires Planned(blocks, vals, n, chunks, size, layout)
    ensures Disjoint(chunks, size)
  {
    forall k | 0 <= k < |chunks|
      ensures chunks[k].offset + chunks[k].length <= size
    {
      assert ChunkOk(blocks, vals, n, chunks[k], size, layout);
    }
  }

  lemma NothingPlanned(blocks: seq<ReadBlock>, vals: seq<Bytes>)
    ensures Planned(blocks, vals, 0, [], 0, Layout([], []))
  {}

  /** The chunks of block n behind the others: its table, unless its addresses lie on the line, and its payloads. */
  ghost function NewChunks(blocks: seq<ReadBlock>, vals: seq<Bytes>, n: nat, size: nat): seq<Chunk>
    requires n < |blocks| && BLOCK * n <= |vals|
  {
    if blocks[n].block.bits == ALL_EQUAL then [ChunkOf(blocks, vals, n, false, size)]
    else [ChunkOf(blocks, vals, n, true, size), ChunkOf(blocks, vals, n, false, size + TableLength(blocks[n]))]
  }

  ghost function NewSize(blocks: seq<ReadBlock>, vals: seq<Bytes>, n: nat, size: nat): nat
    requires n < |blocks| && BLOCK * n <= |vals|
  {
    size + (if blocks[n].block.bits == ALL_EQUAL then 0 else TableLength(blocks[n])) + Total(Slice(vals, n))
  }

  ghost function NewLayout(blocks: seq<ReadBlock>, n: nat, size: nat, layout: Layout): Layout
    requires n < |blocks|
  {
    Layout(layout.tables + [size],
           layout.payloads + [size + if blocks[n].block.bits == ALL_EQUAL then 0 else TableLength(blocks[n])])
  }

  /** The chunks of one more block. */
  lemma PlannedNext(blocks: seq<ReadBlock>, vals: seq<Bytes>, n: nat, chunks: seq<Chunk>, size: nat, layout: Layout)
    requires Planned(blocks, vals, n, chunks, size, layout) && n < |blocks| && BLOCK * n <= |vals|
    ensures Planned(blocks, vals, n + 1, chunks + NewChunks(blocks, vals, n, size), NewSize(blocks, vals, n, size), NewLayout(blocks, n, size, layout))
  {
    hide TableLength, Total, Slice, NewChunks, NewSize, ChunkOf, ChunkOk, Apart;
    NewChunksOk(blocks, vals, n, chunks, size, layout);
    OldChunksOk(blocks, vals, n, chunks, size, layout);
  }

  lemma OldChunksOk(blocks: seq<ReadBlock>, vals: seq<Bytes>, n: nat, chunks: seq<Chunk>, size: nat, layout: Layout)
    requires Planned(blocks, vals, n, chunks, size, layout) && n < |blocks| && BLOCK * n <= |vals|
    ensures var next := NewLayout(blocks, n, size, layout);
            forall c :: c in chunks ==> ChunkOk(blocks, vals, n + 1, c, NewSize(blocks, vals, n, size), next) && c.block < n && c.offset + c.length <= size
  {
    hide TableLength, Total, Slice;
    forall c | c in chunks
      ensures ChunkOk(blocks, vals, n + 1, c, NewSize(blocks, vals, n, size), NewLayout(blocks, n, size, layout))
      ensures c.block < n && c.offset + c.length <= size
    {
      assert ChunkOk(blocks, vals, n, c, size, layout);
    }
  }

  lemma NewChunksOk(blocks: seq<ReadBlock>, vals: seq<Bytes>, n: nat, chunks: seq<Chunk>, size: nat, layout: Layout)
    requires Planned(blocks, vals, n, chunks, size, layout) && n < |blocks| && BLOCK * n <= |vals|
    ensures var added, all, next := NewChunks(blocks, vals, n, size), chunks + NewChunks(blocks, vals, n, size), NewLayout(blocks, n, size, layout);
            && (forall c :: c in added ==> ChunkOk(blocks, vals, n + 1, c, NewSize(blocks, vals, n, size), next))
            && ChunkOf(blocks, vals, n, false, next.payloads[n]) in all
            && (blocks[n].block.bits != ALL_EQUAL ==> ChunkOf(blocks, vals, n, true, next.tables[n]) in all)
            && (forall i, j :: 0 <= i < j < |all| ==> all[i] != all[j] && Apart(all[i], all[j]))
  {
    hide TableLength, Total, Slice;
    var added, all := NewChunks(blocks, vals, n, size), chunks + NewChunks(blocks, vals, n, size);
    OldChunksOk(blocks, vals, n, chunks, size, layout);
    assert forall k :: 0 <= k < |added| ==> all[|chunks| + k] == added[k] && added[k].block == n && size <= added[k].offset;
    forall i, j | 0 <= i < j < |all|
      ensures all[i] != all[j] && Apart(all[i], all[j])
    {
      if i < |chunks| <= j {
        assert chunks[i] in chunks && all[j] == added[j - |chunks|];
      }
    }
  }

  // -------------------------------------------------------------------- copying

  /** Chunks of a plan, in any order: each of its own kind and block, and nobody in the way of another. */
  ghost predicate Separate(chunks: seq<Chunk>, blocks: seq<ReadBlock>) {
    && (forall i :: 0 <= i < |chunks| ==> chunks[i].block < |blocks| && (chunks[i].table ==> blocks[chunks[i].block].block.bits != ALL_EQUAL))
    && forall i, j :: 0 <= i < |chunks| && 0 <= j < |chunks| && i != j ==>
         Apart(chunks[i], chunks[j]) && (chunks[i].block != chunks[j].block || chunks[i].table != chunks[j].table)
  }

  ghost predicate Copied(buffer: seq<Cell>, file: seq<Cell>, c: Chunk) {
    && c.offset + c.length <= |buffer| && c.source + c.length <= |file|
    && forall p :: c.offset <= p < c.offset + c.length ==> buffer[p] == file[c.source + (p - c.offset)]
  }

  /** Where a block says that its table or its payloads are. */
  function Pointer(blocks: seq<ReadBlock>, c: Chunk): nat
    requires c.block < |blocks|
  {
    if c.table then blocks[c.block].block.addr else blocks[c.block].block.data
  }

  /** Lets a block say that a chunk is now at its place in the buffer; a block without a table keeps both addresses the same. */
  function Redirect(blocks: seq<ReadBlock>, c: Chunk): seq<ReadBlock>
    requires c.block < |blocks|
  {
    var b := blocks[c.block];
    var block := if c.table then b.block.(addr := c.offset)
                 else if b.block.bits == ALL_EQUAL then b.block.(data := c.offset, addr := c.offset)
                 else b.block.(data := c.offset);
    blocks[c.block := ReadBlock(block, b.last)]
  }

  ghost predicate SameShape(a: seq<ReadBlock>, b: seq<ReadBlock>) {
    |a| == |b| && forall i :: 0 <= i < |a| ==>
      a[i].last == b[i].last && a[i].block.avg == b[i].block.avg && a[i].block.lastSize == b[i].block.lastSize && a[i].block.bits == b[i].block.bits
  }

  /** The first n chunks have been copied and the blocks point to the copies; the others still point to the file. */
  ghost predicate Progress(file: seq<Cell>, was: seq<ReadBlock>, blocks: seq<ReadBlock>, buffer: seq<Cell>, chunks: seq<Chunk>, n: nat) {
    && SameShape(was, blocks) && n <= |chunks| && Separate(chunks, blocks)
    && (forall k :: 0 <= k < n ==> Copied(buffer, file, chunks[k]) && Pointer(blocks, chunks[k]) == chunks[k].offset)
    && (forall k :: n <= k < |chunks| ==> Pointer(blocks, chunks[k]) == chunks[k].source)
  }

  /** The buffer after copying a chunk: that part is the file's, everything else is as before. */
  ghost predicate PartCopied(before: seq<Cell>, after: seq<Cell>, file: seq<Cell>, c: Chunk) {
    && |before| == |after| && Copied(after, file, c)
    && forall k :: 0 <= k < |after| && !(c.offset <= k < c.offset + c.length) ==> after[k] == before[k]
  }

  lemma ProgressNext(file: seq<Cell>, was: seq<ReadBlock>, blocks: seq<ReadBlock>, before: seq<Cell>, after: seq<Cell>, chunks: seq<Chunk>, n: nat)
    requires Progress(file, was, blocks, before, chunks, n) && n < |chunks| && PartCopied(before, after, file, chunks[n])
    ensures Progress(file, was, Redirect(blocks, chunks[n]), after, chunks, n + 1)
  {
    var c, next := chunks[n], Redirect(blocks, chunks[n]);
    forall k | 0 <= k < n
      ensures Copied(after, file, chunks[k]) && Pointer(next, chunks[k]) == chunks[k].offset
    {
      assert Copied(before, file, chunks[k]) && Apart(chunks[k], c);
    }
    forall k | n < k < |chunks|
      ensures Pointer(next, chunks[k]) == chunks[k].source
    {
      assert Apart(chunks[n], chunks[k]);
    }
  }

  /** Sorted by their place in the file, the chunks of a plan are still separate. */
  lemma PlanSeparate(blocks: seq<ReadBlock>, vals: seq<Bytes>, chunks: seq<Chunk>, size: nat, layout: Layout, sorted: seq<Chunk>)
    requires Planned(blocks, vals, |blocks|, chunks, size, layout) && SameElements(sorted, chunks) && Distinct(sorted)
    ensures Separate(sorted, blocks)
    ensures forall k :: 0 <= k < |sorted| ==> Pointer(blocks, sorted[k]) == sorted[k].source && sorted[k].offset + sorted[k].length <= size
    ensures forall c :: c in sorted <==> c in chunks
  {
    hide TableLength, Total, Slice;
    SameMembers(sorted, chunks);
    forall k | 0 <= k < |sorted|
      ensures sorted[k] in chunks && ChunkOk(blocks, vals, |blocks|, sorted[k], size, layout)
    {
      assert sorted[k] in sorted;
    }
    forall i, j | 0 <= i < |sorted| && 0 <= j < |sorted| && i != j
      ensures Apart(sorted[i], sorted[j]) && (sorted[i].block != sorted[j].block || sorted[i].table != sorted[j].table)
    {
      PlanApart(blocks, vals, chunks, size, layout, sorted[i], sorted[j]);
    }
  }

  lemma PlanApart(blocks: seq<ReadBlock>, vals: seq<Bytes>, chunks: seq<Chunk>, size: nat, layout: Layout, a: Chunk, b: Chunk)
    requires Planned(blocks, vals, |blocks|, chunks, size, layout) && a in chunks && b in chunks && a != b
    ensures Apart(a, b) && (a.block != b.block || a.table != b.table)
  {
    hide TableLength, Total, Slice;
    var i :| 0 <= i < |chunks| && chunks[i] == a;
    var j :| 0 <= j < |chunks| && chunks[j] == b;
    assert if i < j then Apart(chunks[i], chunks[j]) else Apart(chunks[j], chunks[i]);
    assert ChunkOk(blocks, vals, |blocks|, a, size, layout) && ChunkOk(blocks, vals, |blocks|, b, size, layout);
  }

  /** A stored block stays stored when its payloads, and its table if it has one, are moved as they are. */
  lemma BlockMoved(file: seq<Cell>, was: ReadBlock, moved: ReadBlock, own: seq<Bytes>, buffer: seq<Cell>, b: nat)
    requires BlockStored(file, was.block, own) && was.last + 1 == |own|
    requires moved.block == was.block.(addr := moved.block.addr, data := moved.block.data)
    requires Copied(buffer, file, DataChunk(b, was, own, moved.block.data))
    requires was.block.bits != ALL_EQUAL ==> Copied(buffer, file, TableChunk(b, was, moved.block.addr))
    ensures BlockStored(buffer, moved.block, own)
  {
    hide Total, Concat, Start;
    var from, to := was.block, moved.block;
    forall k | 0 <= k < Total(own)
      ensures buffer[to.data + k] == Byte(Concat(own)[k])
    {
      assert file[from.data + k] == Byte(Concat(own)[k]);
    }
    if from.bits != ALL_EQUAL {
      forall k | 0 <= k && PACK * k < |own|
        ensures GroupStored(buffer, to, own, k)
      {
        assert GroupStored(file, from, own, k);
        GroupMoved(file, was, to.addr, own, buffer, b, k);
      }
    }
  }

  lemma GroupMoved(file: seq<Cell>, was: ReadBlock, addr: nat, own: seq<Bytes>, buffer: seq<Cell>, b: nat, k: nat)
    requires GroupStored(file, was.block, own, k) && was.last + 1 == |own| && PACK * k < |own| && was.block.bits != ALL_EQUAL
    requires Copied(buffer, file, TableChunk(b, was, addr))
    ensures forall data: nat :: GroupStored(buffer, was.block.(addr := addr, data := data), own, k)
  {
    hide Total, Concat, Start;
    var size := GroupSize(was.block.bits);
    MulMonotone(k + 1, Groups(was.last), size);
    assert (k + 1) * size == k * size + size;
    assert buffer[addr + k * size] == file[was.block.addr + k * size];
  }
}
