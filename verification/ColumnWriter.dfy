/** Writing a column: payloads, their address tables, and what kind of column it turned out to be. */
module ColumnWriting {
  import opened Arithmetic
  import opened Limits
  import opened ColumnFormat
  import SparseBitmapFormat
  import SparseBitmapReading
  import SparseBitmapSearch
  import SparseBitmapWriting

  ghost predicate Increasing(docs: seq<nat>) {
    SparseBitmapFormat.Sorted(docs) && forall i :: 0 <= i < |docs| ==> MIN <= docs[i] < EOF
  }

  /** Bits needed for the largest of some numbers. */
  function Bits(v: nat): (b: nat)
    ensures v < Pow2(b) && (b > 0 ==> Pow2(b - 1) <= v)
  {
    if v == 0 then 0 else 1 + Bits(v / 2)
  }

  function MaxBits(values: seq<nat>): (b: nat)
    ensures forall i :: 0 <= i < |values| ==> values[i] < Pow2(b)
    ensures b > 0 ==> exists i :: 0 <= i < |values| && Pow2(b - 1) <= values[i]
  {
    if values == [] then 0
    else
      var n := |values| - 1;
      var rest, here := MaxBits(values[..n]), Bits(values[n]);
      if rest < here then Pow2Monotone(rest, here); here
      else
        Pow2Monotone(here, rest);
        assert rest > 0 ==> exists i :: 0 <= i < n && values[..n][i] == values[i] && Pow2(rest - 1) <= values[i];
        rest
  }

  function Raw(data: Bytes): (c: seq<Cell>)
    ensures |c| == |data| && forall i :: 0 <= i < |c| ==> c[i] == Byte(data[i])
  {
    seq(|data|, i requires 0 <= i < |data| => Byte(data[i]))
  }

  /** The addresses of payloads that lie behind `before` other bytes. */
  ghost predicate Table(offsets: seq<nat>, vals: seq<Bytes>, before: nat) {
    |vals| <= |offsets| && forall i :: 0 <= i < |vals| ==> offsets[i] == before + Start(vals, i)
  }

  /** How a block's line was chosen, and when its table was left out. */
  ghost predicate Chosen(block: Block, vals: seq<Bytes>) {
    && 1 <= |vals|
    && block.avg == (if Total(vals) == 0 then 0 else Average(Start(vals, |vals| - 1), |vals| - 1))
    && (block.bits == ALL_EQUAL <==> OnLine(block, vals)) && Width(block.bits, block.avg, vals)
  }

  ghost predicate AllChosen(blocks: seq<Block>, vals: seq<Bytes>) {
    forall b :: 0 <= b < |blocks| ==> BLOCK * b <= |vals| && Chosen(blocks[b], Slice(vals, b))
  }

  /** Every block says that all its payloads have length L. */
  ghost predicate AllFixed(blocks: seq<Block>, L: nat) {
    forall b :: 0 <= b < |blocks| ==> FixedBlock(blocks[b], L)
  }

  ghost predicate FixedBlock(block: Block, L: nat) {
    block.bits == ALL_EQUAL && block.lastSize == block.avg == L
  }

  datatype Kind = Sparse | Mask | Fixed | DenseFixed

  datatype Header = Header(docsCount: nat, min: nat, hasBitmap: bool, docsIndex: nat, kind: Kind)

  /** The documents leave no gap. */
  ghost predicate Consecutive(docs: seq<nat>) {
    docs != [] && forall i :: 0 <= i < |docs| ==> docs[i] == docs[0] + i
  }

  lemma {:induction false} Gaps(docs: seq<nat>, i: nat, j: nat)
    requires Increasing(docs) && i <= j < |docs|
    ensures docs[i] + (j - i) <= docs[j]
    decreases j
  {
    if i < j {
      Gaps(docs, i, j - 1);
    }
  }

  /** Counting documents between the first and the last one tells whether there is a gap. */
  lemma ConsecutiveIff(docs: seq<nat>)
    requires Increasing(docs)
    ensures docs != [] ==> (Consecutive(docs) <==> docs[0] + |docs| - 1 == Last(docs))
  {
    if docs != [] && docs[0] + |docs| - 1 == Last(docs) {
      forall i | 0 <= i < |docs|
        ensures docs[i] == docs[0] + i
      {
        Gaps(docs, 0, i);
        Gaps(docs, i, |docs| - 1);
      }
    }
  }

  /** A block is one of fixed length exactly if its payloads have that length, except that a
      single payload can only make such a block if it is empty. */
  lemma FixedBlockIff(file: seq<Cell>, block: Block, vals: seq<Bytes>, L: nat)
    requires BlockStored(file, block, vals) && Chosen(block, vals)
    ensures FixedBlock(block, L) <==> Uniform(vals, L) && (L == 0 || |vals| > 1)
  {
    hide DataStored, Average, Total, Start;
    var n := |vals| - 1;
    StartTotalIs(vals);
    if FixedBlock(block, L) {
      forall i | 0 <= i < |vals|
        ensures |vals[i]| == L
      {
        ValueAt(vals, i);
        assert i < n ==> Start(vals, i + 1) == L * (i + 1) && L * (i + 1) == L * i + L;
      }
      AverageExact(0, n);
      StartZero(vals);
    }
    if Uniform(vals, L) && (L == 0 || |vals| > 1) {
      forall i | 0 <= i <= |vals|
        ensures Start(vals, i) == L * i
      {
        UniformStart(vals, L, i);
      }
      AverageExact(L, n);
    }
  }

  /** All blocks have one fixed length exactly if all payloads have it, and it is 0 or no block holds a single payload. */
  lemma AllFixedIff(file: seq<Cell>, blocks: seq<Block>, vals: seq<Bytes>, L: nat)
    requires ColumnStored(file, blocks, vals) && AllChosen(blocks, vals)
    ensures AllFixed(blocks, L) <==> Uniform(vals, L) && (L == 0 || vals == [] || |vals| % BLOCK != 1)
  {
    hide ColumnStored, AllChosen, AllFixed, Uniform;
    if AllFixed(blocks, L) {
      AllFixedUniform(file, blocks, vals, L);
    }
    if Uniform(vals, L) && (L == 0 || vals == [] || |vals| % BLOCK != 1) {
      UniformAllFixed(file, blocks, vals, L);
    }
  }

  lemma SliceOf(file: seq<Cell>, blocks: seq<Block>, vals: seq<Bytes>, b: nat)
    requires ColumnStored(file, blocks, vals) && AllChosen(blocks, vals) && b < |blocks|
    ensures BLOCK * b < |vals| && BlockStored(file, blocks[b], Slice(vals, b)) && Chosen(blocks[b], Slice(vals, b))
    ensures |Slice(vals, b)| == if b + 1 < |blocks| then BLOCK else |vals| - BLOCK * b
    ensures forall i :: 0 <= i < |Slice(vals, b)| ==> Slice(vals, b)[i] == vals[BLOCK * b + i]
  {
    hide BlockStored, Chosen;
  }

  lemma BlockCount(file: seq<Cell>, blocks: seq<Block>, vals: seq<Bytes>)
    requires ColumnStored(file, blocks, vals)
    ensures vals == [] ==> blocks == []
    ensures vals != [] ==> BLOCK * (|blocks| - 1) < |vals| <= BLOCK * |blocks|
  {}

  lemma AllFixedUniform(file: seq<Cell>, blocks: seq<Block>, vals: seq<Bytes>, L: nat)
    requires ColumnStored(file, blocks, vals) && AllChosen(blocks, vals) && AllFixed(blocks, L)
    ensures Uniform(vals, L) && (L == 0 || vals == [] || |vals| % BLOCK != 1)
  {
    hide BlockStored, Chosen, FixedBlock, ColumnStored, AllChosen, Slice;
    BlockCount(file, blocks, vals);
    forall i | 0 <= i < |vals|
      ensures |vals[i]| == L
    {
      var b := i / BLOCK;
      assert FixedBlock(blocks[b], L);
      SliceOf(file, blocks, vals, b);
      FixedBlockIff(file, blocks[b], Slice(vals, b), L);
      assert vals[i] == Slice(vals, b)[i % BLOCK];
    }
    if vals != [] {
      var b := |blocks| - 1;
      assert FixedBlock(blocks[b], L);
      SliceOf(file, blocks, vals, b);
      FixedBlockIff(file, blocks[b], Slice(vals, b), L);
    }
  }

  lemma UniformAllFixed(file: seq<Cell>, blocks: seq<Block>, vals: seq<Bytes>, L: nat)
    requires ColumnStored(file, blocks, vals) && AllChosen(blocks, vals)
    requires Uniform(vals, L) && (L == 0 || vals == [] || |vals| % BLOCK != 1)
    ensures AllFixed(blocks, L)
  {
    hide BlockStored, Chosen, FixedBlock, ColumnStored, AllChosen, Slice;
    BlockCount(file, blocks, vals);
    forall b | 0 <= b < |blocks|
      ensures FixedBlock(blocks[b], L)
    {
      SliceOf(file, blocks, vals, b);
      FixedBlockIff(file, blocks[b], Slice(vals, b), L);
    }
  }

  /** What the kind chosen for a column says about all its payloads. */
  lemma Kinds(file: seq<Cell>, blocks: seq<Block>, vals: seq<Bytes>, fixed: bool, prevAvg: nat)
    requires ColumnStored(file, blocks, vals) && AllChosen(blocks, vals) && (blocks == [] ==> prevAvg == 0)
    requires if fixed then AllFixed(blocks, prevAvg) else forall L: nat :: !AllFixed(blocks, L)
    ensures fixed && prevAvg == 0 <==> Uniform(vals, 0)
    ensures fixed && prevAvg > 0 <==> exists L: nat :: L > 0 && Uniform(vals, L) && vals != [] && |vals| % BLOCK != 1
    ensures fixed && prevAvg > 0 ==> blocks != [] && blocks[0].avg == prevAvg && Uniform(vals, prevAvg)
  {
    hide BlockStored, Chosen, AllChosen;
    AllFixedIff(file, blocks, vals, prevAvg);
    AllFixedIff(file, blocks, vals, 0);
    if Uniform(vals, 0) {
      assert AllFixed(blocks, 0);
      if blocks != [] {
        assert FixedBlock(blocks[0], 0) && FixedBlock(blocks[0], prevAvg);
      }
    }
    forall L: nat | L > 0 && Uniform(vals, L) && vals != [] && |vals| % BLOCK != 1
      ensures fixed && prevAvg > 0
    {
      AllFixedIff(file, blocks, vals, L);
      assert FixedBlock(blocks[0], L) && FixedBlock(blocks[0], prevAvg);
    }
    if fixed && prevAvg > 0 {
      assert FixedBlock(blocks[0], prevAvg);
    }
  }

  /** The kind of a finished column: a mask exactly if all payloads are empty; fixed exactly if they have one positive length
      and the last block does not hold a single one, and then the blocks know the length and the last one has a start of its own. */
  ghost predicate KindIs(kind: Kind, blocks: seq<Block>, vals: seq<Bytes>) {
    && (kind == Mask <==> Uniform(vals, 0))
    && (kind == Fixed || kind == DenseFixed <==> OneLength(vals))
    && (kind == Fixed || kind == DenseFixed ==> blocks != [] && Uniform(vals, blocks[0].avg))
    && (kind == Fixed ==> forall b :: 0 <= b < |blocks| - 1 ==> blocks[b].data < blocks[|blocks| - 1].data)
  }

  /** All payloads have one positive length, and the last block does not hold a single one. */
  ghost predicate OneLength(vals: seq<Bytes>) {
    vals != [] && |vals| % BLOCK != 1 && exists L: nat :: L > 0 && Uniform(vals, L)
  }

  lemma HistoryFacts(out: seq<Cell>, blocks: seq<Block>, stored: seq<Bytes>, docsCount: nat, fixed: bool, prevAvg: nat, alone: bool)
    requires History(out, blocks, stored, docsCount, fixed, prevAvg, alone)
    ensures docsCount == |stored| && ColumnStored(out, blocks, stored) && AllChosen(blocks, stored) && (blocks == [] ==> prevAvg == 0)
    ensures if fixed then AllFixed(blocks, prevAvg) else forall L: nat :: !AllFixed(blocks, L)
    ensures fixed ==> (alone <==> Adjacent(blocks, stored))
    ensures InOrder(blocks, stored, |out|)
  {}

  lemma HistoryStays(out: seq<Cell>, more: seq<Cell>, blocks: seq<Block>, stored: seq<Bytes>, docsCount: nat, fixed: bool, prevAvg: nat, alone: bool)
    requires History(out, blocks, stored, docsCount, fixed, prevAvg, alone) && |out| <= |more| && more[..|out|] == out
    ensures History(more, blocks, stored, docsCount, fixed, prevAvg, alone)
  {
    hide AllChosen, AllFixed, Adjacent, BlockStored, InOrder;
    InOrderLater(blocks, stored, |out|, |more|);
    forall b | 0 <= b < |blocks|
      ensures BlockStored(more, blocks[b], Slice(stored, b))
    {
      BlockStays(out, blocks[b], Slice(stored, b), more);
    }
  }

  lemma InOrderLater(blocks: seq<Block>, vals: seq<Bytes>, end: nat, later: nat)
    requires InOrder(blocks, vals, end) && end <= later
    ensures InOrder(blocks, vals, later)
  {
    hide Slice, Total;
    forall b | 0 <= b < |blocks|
      ensures InOrderAt(blocks, vals, later, b)
    {
      assert InOrderAt(blocks, vals, end, b);
    }
  }

  /** The blocks written so far: what they hold, and what is known about the lengths of their payloads. */
  ghost predicate History(out: seq<Cell>, blocks: seq<Block>, stored: seq<Bytes>, docsCount: nat, fixed: bool, prevAvg: nat, alone: bool) {
    && docsCount == |stored| && ColumnStored(out, blocks, stored) && AllChosen(blocks, stored)
    && (if fixed then AllFixed(blocks, prevAvg) else forall L: nat :: !AllFixed(blocks, L))
    && (blocks == [] ==> prevAvg == 0)
    && (fixed ==> (alone <==> Adjacent(blocks, stored)))
    && InOrder(blocks, stored, |out|)
  }

  lemma NoHistory(out: seq<Cell>)
    ensures History(out, [], [], 0, true, 0, true)
  {}

  /** The payloads of every block end before those of the next one, the last ones before `end`. */
  ghost predicate InOrder(blocks: seq<Block>, vals: seq<Bytes>, end: nat) {
    forall b :: 0 <= b < |blocks| ==> InOrderAt(blocks, vals, end, b)
  }

  ghost predicate InOrderAt(blocks: seq<Block>, vals: seq<Bytes>, end: nat, b: nat)
    requires b < |blocks|
  {
    BLOCK * b <= |vals| && blocks[b].data + Total(Slice(vals, b)) <= if b + 1 < |blocks| then blocks[b + 1].data else end
  }

  lemma InOrderNext(blocks: seq<Block>, block: Block, stored: seq<Bytes>, vals: seq<Bytes>, before: nat, end: nat)
    requires |stored| == BLOCK * |blocks| && |vals| <= BLOCK && InOrder(blocks, stored, before)
    requires before <= block.data && block.data + Total(vals) <= end
    ensures InOrder(blocks + [block], stored + vals, end)
  {
    hide Total, Slice;
    var more, all := stored + vals, blocks + [block];
    assert more[..|stored|] == stored;
    LastSlice(stored, vals, |blocks|);
    forall b | 0 <= b < |all|
      ensures InOrderAt(all, more, end, b)
    {
      if b < |blocks| {
        SliceStays(stored, more, b);
        assert InOrderAt(blocks, stored, before, b);
      }
    }
  }

  /** Without empty payloads, no two blocks start at the same place. */
  lemma {:induction false} StartsDiffer(blocks: seq<Block>, vals: seq<Bytes>, end: nat, b: nat, c: nat, len: nat)
    requires InOrder(blocks, vals, end) && Uniform(vals, len) && len > 0 && b < c < |blocks| && BLOCK * c < |vals|
    ensures blocks[b].data < blocks[c].data
    decreases c
  {
    hide Slice, Total, Uniform;
    assert InOrderAt(blocks, vals, end, c - 1);
    TotalPositive(vals, len, c - 1);
    if b < c - 1 {
      StartsDiffer(blocks, vals, end, b, c - 1, len);
    }
  }

  lemma BlocksDiffer(file: seq<Cell>, blocks: seq<Block>, vals: seq<Bytes>, len: nat)
    requires ColumnStored(file, blocks, vals) && InOrder(blocks, vals, |file|) && Uniform(vals, len) && len > 0
    ensures forall b :: 0 <= b < |blocks| - 1 ==> blocks[b].data < blocks[|blocks| - 1].data
  {
    hide InOrder, Uniform, BlockStored, Slice;
    forall b | 0 <= b < |blocks| - 1
      ensures blocks[b].data < blocks[|blocks| - 1].data
    {
      StartsDiffer(blocks, vals, |file|, b, |blocks| - 1, len);
    }
  }

  lemma TotalPositive(vals: seq<Bytes>, len: nat, b: nat)
    requires Uniform(vals, len) && len > 0 && BLOCK * b < |vals|
    ensures Total(Slice(vals, b)) > 0
  {
    var own := Slice(vals, b);
    UniformStart(own, len, |own|);
    assert own[..|own|] == own;
    MulMonotone(1, |own|, len);
  }

  /** The payloads of the last block end here. */
  ghost predicate EndsAt(blocks: seq<Block>, vals: seq<Bytes>, end: nat) {
    var b := |blocks| - 1;
    blocks != [] ==> BLOCK * b <= |vals| && blocks[b].data + Total(Slice(vals, b)) == end
  }

  /** One more block, with what follows for the kind of the column. */
  lemma HistoryNext(was: seq<Cell>, out: seq<Cell>, blocks: seq<Block>, block: Block, stored: seq<Bytes>, vals: seq<Bytes>,
                    docsCount: nat, fixed: bool, prevAvg: nat, alone: bool, gap: nat)
    requires History(was, blocks, stored, docsCount, fixed, prevAvg, alone) && |stored| == BLOCK * |blocks|
    requires |was| <= |out| && out[..|was|] == was && BlockStored(out, block, vals) && Chosen(block, vals)
    requires block.bits == ALL_EQUAL ==> block.data == |was| + gap && |out| == block.data + Total(vals)
    requires |was| <= block.data && block.data + Total(vals) <= |out|
    ensures var equal := block.bits == ALL_EQUAL;
            History(out, blocks + [block], stored + vals, docsCount + |vals|,
                    equal && fixed && block.lastSize == block.avg && (docsCount == 0 || block.avg == prevAvg),
                    if equal then block.avg else prevAvg, alone && (blocks == [] || (gap == 0 && EndsAt(blocks, stored, |was|))))
    ensures block.data + Total(vals) == |out| ==> EndsAt(blocks + [block], stored + vals, |out|)
  {
    hide ColumnStored, AllChosen, AllFixed, Adjacent, InOrder, BlockStored, Chosen, Total, Slice;
    BlockSize(out, block, vals);
    LastSlice(stored, vals, |blocks|);
    InOrderNext(blocks, block, stored, vals, |was|, |out|);
    FixedNext(blocks, prevAvg, fixed, block, docsCount);
    StoredNext(was, out, blocks, block, stored, vals);
    if fixed && block.bits == ALL_EQUAL {
      AdjacentNext(blocks, block, stored, vals, |was|, gap);
    }
  }

  lemma Appended(docs: seq<nat>, key: nat)
    ensures Last(docs + [key]) == key && (docs + [key])[..|docs|] == docs
  {}

  /** Taking the last document out of a bitmap whose buffered block has the given number. */
  lemma TopErased(flushed: seq<nat>, pending: seq<nat>, pend: nat, prev: nat, block: nat)
    requires Increasing(flushed + pending) && prev <= pend && pend / BLOCK <= block
    requires forall i :: 0 <= i < |flushed + pending| ==> (flushed + pending)[i] <= pend && ((flushed + pending)[i] == pend || (flushed + pending)[i] <= prev)
    requires forall i :: 0 <= i < |pending| ==> block * BLOCK <= pending[i] < block * BLOCK + BLOCK
    requires prev < pend ==> pending != [] && Last(pending) == pend
    ensures prev < pend ==> pend / BLOCK == block
    ensures var docs, rest := flushed + pending, flushed + (if pend / BLOCK == block then SparseBitmapWriting.Without(pending, pend) else pending);
            && Increasing(rest) && (forall i :: 0 <= i < |rest| ==> rest[i] <= prev)
            && (if pending != [] && Last(pending) == pend then docs != [] && rest == docs[..|docs| - 1] && Last(rest) < pend == Last(docs) else rest == docs)
  {
    hide SparseBitmapWriting.Without, Increasing, Last, SparseBitmapFormat.Sorted;
    var docs := flushed + pending;
    var rest := flushed + (if pend / BLOCK == block then SparseBitmapWriting.Without(pending, pend) else pending);
    EndOf(flushed, pending);
    SparseBitmapWriting.WithoutTop(flushed, pending, pend);
    if pending != [] && Last(pending) == pend {
      assert pend / BLOCK == block;
      assert rest == docs[..|docs| - 1];
    } else {
      assert rest == docs;
    }
    TopCases(docs, rest, pend, prev);
  }

  lemma TopCases(docs: seq<nat>, rest: seq<nat>, pend: nat, prev: nat)
    requires Increasing(docs) && prev <= pend && forall i :: 0 <= i < |docs| ==> docs[i] <= pend && (docs[i] == pend || docs[i] <= prev)
    requires (docs != [] && rest == docs[..|docs| - 1] && Last(docs) == pend) || (rest == docs && prev == pend)
    ensures Increasing(rest) && forall i :: 0 <= i < |rest| ==> rest[i] <= prev
    ensures docs != [] && rest == docs[..|docs| - 1] && Last(docs) == pend ==> Last(rest) < pend
  {
    BelowLast(docs);
    hide Increasing, Last;
  }

  lemma EndOf(flushed: seq<nat>, pending: seq<nat>)
    requires Increasing(flushed + pending)
    ensures SparseBitmapFormat.Sorted(pending) && forall i :: 0 <= i < |pending| ==> pending[i] == (flushed + pending)[|flushed| + i]
    ensures pending != [] ==> Last(pending) == pending[|pending| - 1] == Last(flushed + pending)
  {
    assert (flushed + pending)[|flushed|..] == pending;
  }

  lemma BelowLast(docs: seq<nat>)
    requires Increasing(docs)
    ensures docs != [] ==> Increasing(docs[..|docs| - 1]) && forall i :: 0 <= i < |docs| - 1 ==> docs[i] < Last(docs)
    ensures docs != [] ==> Last(docs[..|docs| - 1]) < Last(docs)
  {}

  /** The first document of a finished bitmap. */
  method FirstDoc(file: seq<SparseBitmapFormat.Token>, written: bool, ghost docs: seq<nat>, ghost blocks: seq<SparseBitmapFormat.BlockRef>) returns (min: nat)
    requires SparseBitmapFormat.Stored(file, 0, docs, blocks, written)
    ensures min == if docs == [] then INVALID else docs[0]
  {
    hide SparseBitmapFormat.Stored, SparseBitmapFormat.TableStarts, SparseBitmapFormat.TableOk, SparseBitmapFormat.TableNames, SparseBitmapFormat.Apart,
      SparseBitmapReading.SparseBitmapIterator.Valid, SparseBitmapSearch.Landing, SparseBitmapSearch.Bitmap.Valid,
      SparseBitmapReading.SparseBitmapIterator.Standing, SparseBitmapReading.SparseBitmapIterator.Proper;
    ghost var s := SparseBitmapSearch.Bitmap(file, docs, blocks, written);
    SparseBitmapSearch.StoredIsBitmap(s, 0);
    SparseBitmapSearch.NoTable(blocks, 0);
    SparseBitmapSearch.AllSorted(s);
    var it := new SparseBitmapReading.SparseBitmapIterator(file, 0, [], false, written, false, s);
    SparseBitmapSearch.FirstLanding(s);
    var more := it.Next();
    it.Shown();
    min := if more then it.value else INVALID;
  }

  class ColumnWriter {
    const consolidation: bool
    var out: seq<Cell>         // the data file, shared with other columns
    var data: Bytes
    const offsets: array<nat>
    var count: nat             // addresses in the table
    var blocks: seq<Block>
    const docsWriter: SparseBitmapWriting.SparseBitmapWriter
    var prevAvg: nat
    var docsCount: nat
    var prev: nat              // the document before the last one
    var pend: nat              // the last document
    var fixedLength: bool

    ghost var stored: seq<Bytes>
    ghost var vals: seq<Bytes>
    ghost var docs: seq<nat>   // the documents in the bitmap
    ghost var stray: Bytes     // bytes in front of the first payload of the block being filled
    ghost var alone: bool      // nothing lies between the blocks

    /** The address table and the payloads of the block being filled. */
    ghost predicate Buffered()
      reads this`data, this`count, this`vals, this`stray, offsets
    {
      offsets.Length == BLOCK && count == |vals| <= BLOCK && data == stray + Concat(vals) && Table(offsets[..], vals, |stray|)
    }

    /** The blocks written, and what is known about their lengths. */
    ghost predicate Archived()
      reads this`out, this`blocks, this`stored, this`docsCount, this`fixedLength, this`prevAvg, this`alone
    {
      History(out, blocks, stored, docsCount, fixedLength, prevAvg, alone)
    }

    ghost predicate Ordered()
      reads this`docs, this`pend, this`prev
    {
      && Increasing(docs) && prev <= pend < EOF
      && forall i :: 0 <= i < |docs| ==> docs[i] <= pend && (docs[i] == pend || docs[i] <= prev)
    }

    ghost predicate Core()
      reads this, offsets
    {
      Buffered() && Archived() && Ordered()
    }

    /** Between documents. */
    ghost predicate Valid()
      reads this, offsets
    {
      Core() && |stored| == BLOCK * |blocks|
    }

    /** The bitmap holds the documents; a document prepared since the last reset is in its buffer. */
    ghost predicate Tracked()
      reads this`docs, this`pend, this`prev, docsWriter, docsWriter.bits
    {
      && docsWriter.Valid() && docsWriter.origin == 0 && docsWriter.Contents() == docs && pend / BLOCK <= docsWriter.block
      && (prev < pend ==> Topped())
    }

    /** The last document is in the buffer of the bitmap. */
    ghost predicate Topped()
      reads this`pend, docsWriter
    {
      docsWriter.pending != [] && Last(docsWriter.pending) == pend
    }

    /** Nothing lies behind the last block. */
    ghost predicate Tight()
      reads this`out, this`blocks, this`stored
    {
      EndsAt(blocks, stored, |out|)
    }

    /** There is a payload for every document. */
    ghost predicate Paired()
      reads this`docs, this`stored, this`vals
    {
      |docs| == |stored| + |vals|
    }

    /** There is a payload for every document, and the writer knows the last two documents
        as far as none has been taken back. */
    ghost predicate Listed()
      reads this`docs, this`pend, this`prev, this`stored, this`vals
    {
      && Paired() && pend == Last(docs)
      && (prev < pend ==> docs != [] && prev == Last(docs[..|docs| - 1]))
    }

    /** The payloads of the documents, in order. */
    ghost function Values(): seq<Bytes>
      reads this`stored, this`vals
    {
      stored + vals
    }

    constructor (out: seq<Cell>, consolidation: bool, trackPrev: bool)
      ensures Valid() && Tracked() && Listed() && Tight() && docs == [] && Values() == [] && stray == [] && alone && this.consolidation == consolidation
      ensures docsWriter.track == trackPrev && docsWriter.block == 0 && docsWriter.flushed == [] && docsWriter.apart
      ensures pend == prev == INVALID && count == 0 && fresh(offsets) && fresh(docsWriter) && fresh(docsWriter.bits)
    {
      hide SparseBitmapWriting.SparseBitmapWriter.Valid, History, Concat, Table;
      this.consolidation := consolidation;
      this.out, data, count, blocks, docs := out, [], 0, [], [];
      offsets := new nat[BLOCK];
      var writer := new SparseBitmapWriting.SparseBitmapWriter([], trackPrev);
      docsWriter := writer;
      prevAvg, docsCount, prev, pend, fixedLength := 0, 0, INVALID, INVALID, true;
      stored, vals, stray, alone := [], [], [], true;
      new;
      NoHistory(out);
      EmptyBuffer();
      assert |docsWriter.Contents()| == |docsWriter.flushed| + |docsWriter.pending|;
    }

    /** Replaces addresses by their differences from the average line. */
    method Encode(n: nat, ghost was: seq<nat>) returns (base: nat, avg: nat, allEqual: bool)
      requires 1 <= n <= offsets.Length && was == offsets[..] && forall i, j :: 0 <= i <= j < n ==> was[i] <= was[j]
      modifies offsets
      ensures base == was[0] && avg == Average(was[n - 1] - base, n - 1)
      ensures forall i :: 0 <= i < n ==> offsets[i] == ZigZag(was[i] - base - avg * i)
      ensures forall i :: n <= i < offsets.Length ==> offsets[i] == was[i]
      ensures allEqual <==> forall i :: 0 <= i < n ==> offsets[i] == 0
    {
      base := offsets[0];
      avg := Average(offsets[n - 1] - base, n - 1);
      offsets[0] := 0;
      allEqual := true;
      var avgBase := base;
      var i := 1;
      while i < n
        invariant 1 <= i <= n && avgBase == base + avg * (i - 1)
        invariant forall k :: 0 <= k < i ==> offsets[k] == ZigZag(was[k] - base - avg * k)
        invariant forall k :: i <= k < offsets.Length ==> offsets[k] == was[k]
        invariant allEqual <==> forall k :: 0 <= k < i ==> offsets[k] == 0
      {
        avgBase := avgBase + avg;
        assert avg * i == avg * (i - 1) + avg;
        offsets[i] := ZigZag(offsets[i] - avgBase);
        if offsets[i] != 0 {
          allEqual := false;
        }
        i := i + 1;
      }
    }

    /** Packs the first numbers of the table, 64 at a time. */
    method WritePacked(groups: nat, bits: nat)
      requires PACK * groups <= offsets.Length && 1 <= bits
      modifies this`out
      ensures |old(out)| <= |out| && out[..|old(out)|] == old(out)
      ensures PackedGroups(out, |old(out)|, GroupSize(bits), offsets[..], groups)
    {
      hide GroupSize, PackedGroups;
      GroupPositive(bits);
      NoGroups(out, GroupSize(bits), offsets[..]);
      var k := 0;
      while k < groups
        invariant k <= groups && |old(out)| <= |out| && out[..|old(out)|] == old(out)
        invariant PackedGroups(out, |old(out)|, GroupSize(bits), offsets[..], k)
      {
        var group := Packed(offsets[..][PACK * k..PACK * k + PACK]);
        NextGroup(out, |old(out)|, k, GroupSize(bits), offsets[..], [group] + seq(GroupSize(bits) - 1, _ => Rest));
        out := out + ([group] + seq(GroupSize(bits) - 1, _ => Rest));
        k := k + 1;
      }
    }

    /** Encodes the address table and writes it, unless every address lies on the line. */
    method WriteTable() returns (base: nat, avg: nat, bits: nat, ghost table: seq<nat>)
      requires offsets.Length == BLOCK && 0 < count == |vals| <= BLOCK && data == stray + Concat(vals) && Table(offsets[..], vals, |stray|)
      modifies this`out, offsets
      ensures |old(out)| <= |out| && out[..|old(out)|] == old(out)
      ensures base == (if data == [] then |out| else |stray|)
      ensures avg == (if Total(vals) == 0 then 0 else Average(Start(vals, |vals| - 1), |vals| - 1))
      ensures bits == ALL_EQUAL <==> forall i :: 0 <= i < |vals| ==> Start(vals, i) == avg * i
      ensures bits == ALL_EQUAL ==> out == old(out)
      ensures bits != ALL_EQUAL ==> PackedGroups(out, |old(out)|, GroupSize(bits), table, (|vals| + PACK - 1) / PACK) && Differences(table, vals, avg)
      ensures bits != ALL_EQUAL ==> Width(bits, avg, vals) && Packable(table, PACK * ((|vals| + PACK - 1) / PACK), bits)
    {
      hide Total, Start, Concat, PackedGroups, Average, MaxBits, GroupSize, ZigZag, Differences, Table, Width, Pow2;
      var groups := (count + PACK - 1) / PACK;
      var size := PACK * groups;
      ghost var before := offsets[..];
      ClearTail(size);
      TablePadded(before, offsets[..], vals, |stray|);
      base, bits, table := |out|, ALL_EQUAL, [];
      var allEqual;
      base, avg, allEqual := EncodeTable();
      if !allEqual {
        bits := MaxBits(offsets[..size]);
        table := offsets[..];
        WidthIs(offsets[..], vals, avg, size, bits);
        WritePacked(groups, bits);
      }
    }

    /** Without bytes there is nothing to encode: every address is zero. */
    method EncodeTable() returns (base: nat, avg: nat, allEqual: bool)
      requires 0 < count == |vals| <= offsets.Length && data == stray + Concat(vals) && Table(offsets[..], vals, |stray|)
      modifies offsets
      ensures base == (if data == [] then |out| else |stray|) && (data == [] ==> allEqual)
      ensures avg == (if Total(vals) == 0 then 0 else Average(Start(vals, |vals| - 1), |vals| - 1))
      ensures allEqual <==> forall i :: 0 <= i < |vals| ==> Start(vals, i) == avg * i
      ensures !allEqual ==> Differences(offsets[..], vals, avg)
      ensures forall i :: count <= i < offsets.Length ==> offsets[i] == old(offsets[i])
    {
      hide Total, Start, Concat, Average, ZigZag, Differences;
      StartsFacts(vals);
      base, avg, allEqual := |out|, 0, data == [];
      if !allEqual {
        ghost var was := offsets[..];
        base, avg, allEqual := Encode(count, was);
        EncodedZero(was, offsets[..], vals, avg, |stray|);
        NoDistance(vals);
      } else {
        AllAtZero(vals);
      }
    }

    /** Fills the table with zeros up to a whole group. */
    method ClearTail(size: nat)
      requires count <= size <= offsets.Length
      modifies offsets
      ensures forall i :: 0 <= i < offsets.Length ==> offsets[i] == if count <= i < size then 0 else old(offsets[i])
    {
      var i := count;
      while i < size
        invariant count <= i <= size
        invariant forall k :: 0 <= k < offsets.Length ==> offsets[k] == if count <= k < i then 0 else old(offsets[k])
      {
        offsets[i] := 0;
        i := i + 1;
      }
    }

    /** Starts the payload of a document; a document that is not past the last one goes on with that. */
    method Prepare(key: nat)
      requires Valid() && Tracked() && MIN <= key < EOF
      modifies this, offsets, docsWriter, docsWriter.bits
      ensures Valid() && Tracked()
      ensures old(pend) < key ==>
                && docs == old(docs) + [key] && Values() == old(Values()) + [[]] && pend == key && prev == old(pend)
                && count == (if old(count) == BLOCK then 1 else old(count) + 1) && stray == (if old(count) == BLOCK then [] else old(stray))
                && alone == (old(alone) && (old(count) < BLOCK || old(blocks) == [] || (old(stray) == [] && old(Tight())))) && (old(Tight()) ==> Tight())
                && docsWriter.block == key / BLOCK
                && docsWriter.flushed == (if old(docsWriter.block) == docsWriter.block then old(docsWriter.flushed) else old(docs))
                && docsWriter.apart == if old(docsWriter.block) == docsWriter.block then old(docsWriter.apart) else old(docsWriter.Readable())
      ensures (old(Listed()) ==> Listed()) && (old(Paired()) ==> Paired())
      ensures key <= old(pend) ==>
                && docs == old(docs) && Values() == old(Values()) && count == old(count) && pend == old(pend) && prev == old(prev)
                && stray == old(stray) && alone == old(alone) && (old(Tight()) ==> Tight()) && unchanged(docsWriter)
    {
      hide Buffered, Archived, Concat, Table, Increasing, Last, Ordered, Tracked, EndsAt, SparseBitmapWriting.SparseBitmapWriter.Readable;
      if key > pend {
        BufferedFacts();
        if count == BLOCK {
          FlushBlock();
          assert stored + [] == stored;
        }
        PushDoc(key);
        Add();
        Appended(old(docs), key);
        assert stored + vals == old(stored + vals) + [[]];
      }
    }

    lemma BufferedFacts()
      requires Buffered()
      ensures offsets.Length == BLOCK && count == |vals| <= BLOCK
    {}

    /** Adds the document to the bitmap. */
    method PushDoc(key: nat)
      requires Ordered() && Tracked() && pend < key < EOF
      modifies this`prev, this`pend, this`docs, docsWriter, docsWriter.bits
      ensures Ordered() && Tracked() && docs == old(docs) + [key] && pend == key && prev == old(pend) && prev < pend
      ensures docsWriter.block == key / BLOCK
      ensures docsWriter.flushed == if old(docsWriter.block) == docsWriter.block then old(docsWriter.flushed) else old(docs)
      ensures docsWriter.apart == if old(docsWriter.block) == docsWriter.block then old(docsWriter.apart) else old(docsWriter.Readable())
    {
      hide SparseBitmapWriting.SparseBitmapWriter.Valid, SparseBitmapWriting.SparseBitmapWriter.Readable, Last, SparseBitmapFormat.Sorted;
      LastUpTo(docs, pend);
      OrderedNext(key);
      prev := pend;
      pend := key;
      docsWriter.PushBack(key);
      Appended(docs, key);
      docs := docs + [key];
      PushedLast(docsWriter.flushed, docsWriter.pending);
    }

    lemma OrderedNext(key: nat)
      requires Ordered() && pend < key < EOF
      ensures Increasing(docs + [key])
    {}

    lemma LastUpTo(docs: seq<nat>, pend: nat)
      requires forall i :: 0 <= i < |docs| ==> docs[i] <= pend
      ensures docs != [] ==> Last(docs) <= pend
    {}

    lemma PushedLast(flushed: seq<nat>, pending: seq<nat>)
      ensures pending != [] ==> Last(flushed + pending) == Last(pending)
      ensures |flushed + pending| == |flushed| + |pending|
    {}

    /** Notes where the payload of a document starts. */
    method Add()
      requires Buffered() && count < BLOCK
      modifies this`count, this`vals, offsets
      ensures Buffered() && count == old(count) + 1 && vals == old(vals) + [[]]
    {
      hide Concat, Table;
      TableGrows(offsets[..], vals, |data|, |stray|);
      offsets[count] := |data|;
      count := count + 1;
      vals := vals + [[]];
    }

    /** Adds to the payload of the last document if its address is in the table. The table is empty before the first
        document, and when a document has been taken back for which the block before it had been written: then the
        bytes belong to no document. */
    method WriteBytes(b: Bytes)
      requires Valid()
      modifies this`data, this`vals, this`stray
      ensures Valid() && (old(Listed()) ==> Listed()) && (old(Paired()) ==> Paired()) && (old(Tight()) ==> Tight())
      ensures count > 0 ==> |old(Values())| > 0 && Values() == old(Values())[|old(Values())| - 1 := old(Values())[|old(Values())| - 1] + b] && stray == old(stray)
      ensures count == 0 ==> Values() == old(Values()) && stray == old(stray) + b
    {
      hide Archived, Concat, Table, Ordered;
      if count > 0 {
        LastGrows(offsets[..], vals, b, |stray|);
        assert (stray + Concat(vals)) + b == stray + (Concat(vals) + b);
        data := data + b;
        vals := vals[|vals| - 1 := vals[|vals| - 1] + b];
      } else {
        NoValues(offsets[..], |stray + b|);
        assert (stray + []) + b == (stray + b) + [];
        data := data + b;
        stray := stray + b;
      }
    }

    /** Takes the last payload back, and the last document out of the buffer of the bitmap. Payloads and documents still
        belong together afterwards exactly if the last document was there, and the writer still knows its last document
        exactly if that had been prepared since the last reset. */
    method Reset()
      requires Valid() && Tracked()
      modifies this`docs, this`data, this`count, this`pend, this`vals, docsWriter, docsWriter.bits
      ensures Valid() && Tracked() && (old(Tight()) ==> Tight())
      ensures old(count) == 0 ==>
                && docs == old(docs) && Values() == old(Values()) && count == 0 && pend == old(pend)
                && (old(Listed()) ==> Listed()) && (old(Paired()) ==> Paired()) && unchanged(docsWriter)
      ensures old(count) > 0 ==>
                && Values() == old(Values())[..|old(Values())| - 1] && pend == prev && count == old(count) - 1
                && docsWriter.flushed == old(docsWriter.flushed) && docsWriter.block == old(docsWriter.block) && docsWriter.apart == old(docsWriter.apart)
      ensures old(count) > 0 && old(Topped()) ==> old(docs) != [] && docs == old(docs)[..|old(docs)| - 1]
      ensures old(count) > 0 && !old(Topped()) ==> docs == old(docs)
      ensures old(count) > 0 && old(Paired()) ==> (Paired() <==> old(Topped()))
      ensures old(count) > 0 && old(Listed()) ==> (Listed() <==> old(prev) < old(pend))
    {
      hide Archived, Concat, Table, Increasing, Ordered, Tracked, EndsAt;
      if count == 0 {
        return;
      }
      LastDropped(offsets[..], vals, stray);
      assert (stored + vals)[..|stored + vals| - 1] == stored + vals[..|vals| - 1];
      EraseDoc();
      data := data[..offsets[count - 1]];
      count := count - 1;
      vals := vals[..|vals| - 1];
    }

    lemma EraseFacts()
      requires Ordered() && Tracked()
      ensures prev <= pend < EOF && pend / BLOCK <= docsWriter.block && docs == docsWriter.flushed + docsWriter.pending
      ensures prev < pend ==> pend / BLOCK == docsWriter.block
      ensures pend / BLOCK == docsWriter.block ==> docsWriter.block * BLOCK + pend % BLOCK == pend
      ensures !Topped() ==> prev == pend
    {
      hide SparseBitmapWriting.SparseBitmapWriter.Valid, Increasing;
      docsWriter.ValidFacts();
      EndOf(docsWriter.flushed, docsWriter.pending);
    }

    lemma EraseRest()
      requires Ordered() && Tracked()
      ensures var rest := docsWriter.flushed + (if pend / BLOCK == docsWriter.block then SparseBitmapWriting.Without(docsWriter.pending, pend) else docsWriter.pending);
              && Increasing(rest) && (forall i :: 0 <= i < |rest| ==> rest[i] <= prev)
              && (if Topped() then docs != [] && rest == docs[..|docs| - 1] && Last(rest) < pend == Last(docs) else rest == docs)
    {
      hide *;
      EraseFacts();
      BufferedDocs();
      TopErased(docsWriter.flushed, docsWriter.pending, pend, prev, docsWriter.block);
    }

    lemma BufferedDocs()
      requires Ordered() && Tracked()
      ensures Increasing(docs) && forall i :: 0 <= i < |docs| ==> docs[i] <= pend && (docs[i] == pend || docs[i] <= prev)
      ensures forall i :: 0 <= i < |docsWriter.pending| ==> docsWriter.block * BLOCK <= docsWriter.pending[i] < docsWriter.block * BLOCK + BLOCK
      ensures Topped() <==> docsWriter.pending != [] && Last(docsWriter.pending) == pend
    {
      hide SparseBitmapWriting.SparseBitmapWriter.Valid, Increasing, Last;
      docsWriter.ValidFacts();
    }

    lemma OrderedAgain()
      requires Increasing(docs) && prev == pend < EOF && forall i :: 0 <= i < |docs| ==> docs[i] <= prev
      ensures Ordered()
    {}

    /** Takes the last document out of the bitmap. */
    method EraseDoc()
      requires Ordered() && Tracked()
      modifies this`docs, this`pend, docsWriter, docsWriter.bits
      ensures Ordered() && Tracked() && pend == prev <= old(pend)
      ensures docsWriter.flushed == old(docsWriter.flushed) && docsWriter.block == old(docsWriter.block) && docsWriter.apart == old(docsWriter.apart)
      ensures if old(Topped()) then old(docs) != [] && docs == old(docs)[..|old(docs)| - 1] && Last(docs) < old(pend) && Last(old(docs)) == old(pend)
              else docs == old(docs) && prev == old(pend)
    {
      hide SparseBitmapWriting.SparseBitmapWriter.Valid, SparseBitmapWriting.Without, Increasing, Last, Ordered, SparseBitmapFormat.Sorted;
      EraseFacts();
      EraseRest();
      var done := docsWriter.Erase(pend);
      docs := docsWriter.flushed + docsWriter.pending;
      pend := prev;
      OrderedAgain();
    }

    /** Writes the address table and the payloads of a block. */
    method FlushBlock()
      requires Valid() && count > 0
      modifies this`out, this`data, this`count, this`blocks, this`prevAvg, this`docsCount, this`fixedLength, this`stored, this`vals, this`stray, this`alone, offsets
      ensures Core() && count == 0 && stored == old(stored + vals) && vals == [] && stray == []
      ensures Tight() && alone == (old(alone) && (old(blocks) == [] || (old(stray) == [] && old(Tight()))))
      ensures old(count) == BLOCK ==> Valid()
    {
      hide History, Concat, Total, Table, Ordered, Last, BlockStored, Chosen, Buffered, ColumnStored, Adjacent;
      BufferedFacts();
      StoreBlock();
      data, count := [], 0;
      vals, stray := [], [];
      EmptyBuffer();
    }

    /** Puts the block being filled behind the others. */
    method StoreBlock()
      requires Valid() && count > 0
      modifies this`out, this`blocks, this`prevAvg, this`docsCount, this`fixedLength, this`stored, this`alone, offsets
      ensures Archived() && stored == old(stored) + vals && |blocks| == |old(blocks)| + 1
      ensures Tight() && alone == (old(alone) && (old(blocks) == [] || (stray == [] && old(Tight()))))
    {
      hide History, Concat, Total, Table, Ordered, Last, BlockStored, Chosen, Buffered, ColumnStored, Adjacent;
      BufferedFacts();
      ghost var was := out;
      var block := WriteBlock();
      HistoryNext(was, out, blocks, block, stored, vals, docsCount, fixedLength, prevAvg, alone, |stray|);
      NoteLength(block);
      alone := alone && (blocks == [] || (stray == [] && EndsAt(blocks, stored, |was|)));
      blocks := blocks + [block];
      docsCount := docsCount + count;
      stored := stored + vals;
    }

    /** The length of the payloads stays fixed as long as the differences of all addresses and the last payload agree. */
    method NoteLength(block: Block)
      modifies this`prevAvg, this`fixedLength
      ensures fixedLength == (block.bits == ALL_EQUAL && old(fixedLength) && block.lastSize == block.avg && (docsCount == 0 || block.avg == old(prevAvg)))
      ensures prevAvg == if block.bits == ALL_EQUAL then block.avg else old(prevAvg)
    {
      if block.bits == ALL_EQUAL {
        fixedLength := fixedLength && block.lastSize == block.avg && (docsCount == 0 || block.avg == prevAvg);
        prevAvg := block.avg;
      } else {
        fixedLength := false;
      }
    }

    /** Another column writes to the shared file. */
    method Interleave(cells: seq<Cell>)
      requires Valid()
      modifies this`out
      ensures Valid() && out == old(out) + cells
    {
      hide Buffered, History, Ordered;
      HistoryStays(out, out + cells, blocks, stored, docsCount, fixedLength, prevAvg, alone);
      out := out + cells;
    }

    /** Writes what is left, and tells what kind of column it is. The bitmap of documents is
        kept unless the documents are consecutive. */
    method Finish() returns (header: Header)
      requires Valid() && Tracked()
      modifies this, offsets, docsWriter, docsWriter.bits
      ensures docs == old(docs) && Values() == stored == old(Values()) && ColumnStored(out, blocks, stored)
      ensures alone == (old(alone) && (old(count) == 0 || old(blocks) == [] || (old(stray) == [] && old(Tight()))))
      ensures header.docsCount == |stored| && header.min == if docs == [] then INVALID else docs[0]
      ensures old(Paired()) ==> |docs| == |stored| && (docs != [] ==> (header.hasBitmap <==> !(Consecutive(docs) && pend == Last(docs)))) && pend == old(pend)
      ensures SparseBitmapFormat.Stored(docsWriter.out, 0, docs, docsWriter.blocks, docsWriter.track)
      ensures SparseBitmapFormat.Apart(docs + [EOF], docsWriter.blocks) <==> old(docsWriter.Readable())
      ensures SparseBitmapFormat.TableNames(docsWriter.blockIndex, docsWriter.blocks, 0)
      ensures old(docsWriter.pending) != [] ==>
                var n := |docsWriter.blocks|; n >= 2 && docsWriter.blocks[n - 2].lo == |old(docsWriter.flushed)| && docsWriter.blocks[n - 2].id == old(docsWriter.block)
      ensures |docsWriter.blockIndex| > 2 ==> SparseBitmapFormat.TableOk(docsWriter.blockIndex, docsWriter.blocks, 0)
      ensures !header.hasBitmap ==> header.docsIndex == 0
      ensures header.hasBitmap ==> header.docsIndex + |docsWriter.out| == |out| && out[header.docsIndex..] == Embedded(docsWriter.out)
      ensures KindIs(header.kind, blocks, stored)
      ensures (header.kind == Fixed ==> !consolidation) && (header.kind == DenseFixed ==> consolidation && (alone <==> Adjacent(blocks, stored)))
    {
      hide History, Buffered, Consecutive, ColumnStored, Adjacent, Uniform, Increasing, Tracked, Embedded, KindIs,
        SparseBitmapFormat.Stored, SparseBitmapFormat.Apart, SparseBitmapFormat.TableNames, SparseBitmapFormat.TableOk,
        SparseBitmapWriting.SparseBitmapWriter.Readable;
      ghost var paired := Paired();
      FlushRest();
      var min := FinishBitmap();
      if paired {
        LastKnownIff();
      }
      var kind := ChooseKind();
      var hasBitmap, docsIndex := docsCount != 0 && min + docsCount - MIN != pend, 0;
      if hasBitmap {
        docsIndex := |out|;
        CopyBitmap();
      }
      header := Header(docsCount, min, hasBitmap, docsIndex, kind);
    }

    /** The kind of a column whose blocks are all written. */
    method ChooseKind() returns (kind: Kind)
      requires Archived()
      ensures docsCount == |stored| && ColumnStored(out, blocks, stored)
      ensures KindIs(kind, blocks, stored)
      ensures (kind == Fixed ==> !consolidation) && (kind == DenseFixed ==> consolidation && (alone <==> Adjacent(blocks, stored)))
    {
      hide History, ColumnStored, Adjacent, Uniform, InOrder, AllChosen, AllFixed;
      HistoryFacts(out, blocks, stored, docsCount, fixedLength, prevAvg, alone);
      kind := if !fixedLength then Sparse else if prevAvg == 0 then Mask else if consolidation then DenseFixed else Fixed;
      Kinds(out, blocks, stored, fixedLength, prevAvg);
      if kind == Fixed {
        BlocksDiffer(out, blocks, stored, prevAvg);
      }
    }

    /** Writes the block being filled, if there is anything in it. */
    method FlushRest()
      requires Valid()
      modifies this`out, this`data, this`count, this`blocks, this`prevAvg, this`docsCount, this`fixedLength, this`stored, this`vals, this`stray, this`alone, offsets
      ensures Core() && count == 0 && vals == [] && stored == old(stored + vals) && stored + vals == stored
      ensures alone == (old(alone) && (old(count) == 0 || old(blocks) == [] || (old(stray) == [] && old(Tight()))))
    {
      hide History, Concat, Table, Ordered;
      if count > 0 {
        FlushBlock();
      } else {
        assert vals == [] && stored + [] == stored;
      }
      assert stored + [] == stored;
    }

    /** Counting documents up to the one the writer takes for the last tells whether they leave no gap and it is right. */
    lemma LastKnownIff()
      requires Ordered()
      ensures docs != [] ==> (docs[0] + |docs| - 1 == pend <==> Consecutive(docs) && pend == Last(docs))
    {
      ConsecutiveIff(docs);
      if docs != [] {
        Gaps(docs, 0, |docs| - 1);
      }
    }

    /** Finishes the bitmap, and reads its first document. */
    method FinishBitmap() returns (min: nat)
      requires Tracked()
      modifies docsWriter, docsWriter.bits
      ensures SparseBitmapFormat.Stored(docsWriter.out, 0, docs, docsWriter.blocks, docsWriter.track)
      ensures SparseBitmapFormat.Apart(docs + [EOF], docsWriter.blocks) <==> old(docsWriter.Readable())
      ensures SparseBitmapFormat.TableNames(docsWriter.blockIndex, docsWriter.blocks, 0)
      ensures old(docsWriter.pending) != [] ==>
                var n := |docsWriter.blocks|; n >= 2 && docsWriter.blocks[n - 2].lo == |old(docsWriter.flushed)| && docsWriter.blocks[n - 2].id == old(docsWriter.block)
      ensures |docsWriter.blockIndex| > 2 ==> SparseBitmapFormat.TableOk(docsWriter.blockIndex, docsWriter.blocks, 0)
      ensures min == if docs == [] then INVALID else docs[0]
    {
      hide SparseBitmapFormat.Stored, SparseBitmapFormat.Apart, SparseBitmapFormat.TableNames, SparseBitmapFormat.TableOk,
        SparseBitmapWriting.SparseBitmapWriter.Readable, SparseBitmapWriting.SparseBitmapWriter.Valid;
      docsWriter.Finish();
      min := FirstDoc(docsWriter.out, docsWriter.track, docs, docsWriter.blocks);
    }

    /** The bitmap follows the blocks in the data file. */
    method CopyBitmap()
      requires ColumnStored(out, blocks, stored)
      modifies this`out
      ensures out == old(out) + Embedded(docsWriter.out) && out[|old(out)|..] == Embedded(docsWriter.out)
      ensures ColumnStored(out, blocks, stored)
    {
      hide BlockStored, Slice;
      ghost var more := out + Embedded(docsWriter.out);
      forall b | 0 <= b < |blocks|
        ensures BlockStored(more, blocks[b], Slice(stored, b))
      {
        BlockStays(out, blocks[b], Slice(stored, b), more);
      }
      out := out + Embedded(docsWriter.out);
    }

    lemma EmptyBuffer()
      requires offsets.Length == BLOCK && data == [] && count == 0 && vals == [] && stray == []
      ensures Buffered()
    {
      NoValues(offsets[..], 0);
    }

    /** Appends the table and the payloads to the data file. */
    method WriteBlock() returns (block: Block)
      requires Buffered() && count > 0
      modifies this`out, offsets
      ensures |old(out)| <= |out| && out[..|old(out)|] == old(out)
      ensures BlockStored(out, block, vals) && Chosen(block, vals)
      ensures |out| == block.data + Total(vals) && (block.bits == ALL_EQUAL ==> block.data == |old(out)| + |stray|)
      ensures |old(out)| <= block.data
      ensures offsets.Length == BLOCK
    {
      hide Concat, PackedGroups, Differences, Average, Total, Start, Table, BlockStored, Chosen, OnLine, GroupSize;
      LastAddress(offsets[..], vals, |stray|);
      ghost var was := out;
      var addr := |out|;
      var lastSize := |data| - offsets[count - 1];
      ghost var table;
      var base, avg, bits;
      base, avg, bits, table := WriteTable();
      ghost var tabled := out;
      if data != [] {
        base := base + |out|;
        out := out + Raw(data);
      }
      block := Block(addr, avg, base, lastSize, bits);
      BlockWritten(was, tabled, out, block, vals, table, stray);
    }
  }

  lemma TableGrows(offsets: seq<nat>, vals: seq<Bytes>, n: nat, before: nat)
    requires Table(offsets, vals, before) && |vals| < |offsets| && n == before + Total(vals)
    ensures Table(offsets[|vals| := n], vals + [[]], before) && Concat(vals + [[]]) == Concat(vals)
  {
    var more := vals + [[]];
    assert more[..|vals|] == vals;
    assert Concat(more) == Concat(vals);
    assert Start(vals, |vals|) == Total(vals) by {
      assert vals[..|vals|] == vals;
    }
    hide Concat, Total, Start;
    forall i | 0 <= i < |more|
      ensures offsets[|vals| := n][i] == before + Start(more, i)
    {
      StartStays(vals, more, i);
    }
  }

  lemma LastGrows(offsets: seq<nat>, vals: seq<Bytes>, b: Bytes, before: nat)
    requires Table(offsets, vals, before) && vals != []
    ensures var more := vals[|vals| - 1 := vals[|vals| - 1] + b]; Table(offsets, more, before) && Concat(more) == Concat(vals) + b
  {
    var more := vals[|vals| - 1 := vals[|vals| - 1] + b];
    assert more[..|vals| - 1] == vals[..|vals| - 1];
    forall i | 0 <= i < |more|
      ensures Start(more, i) == Start(vals, i)
    {
      assert more[..i] == vals[..i];
    }
  }

  lemma LastDropped(offsets: seq<nat>, vals: seq<Bytes>, stray: Bytes)
    requires Table(offsets, vals, |stray|) && vals != []
    ensures Table(offsets, vals[..|vals| - 1], |stray|) && offsets[|vals| - 1] <= |stray + Concat(vals)|
    ensures (stray + Concat(vals))[..offsets[|vals| - 1]] == stray + Concat(vals[..|vals| - 1])
  {
    var less := vals[..|vals| - 1];
    forall i | 0 <= i < |less|
      ensures Start(less, i) == Start(vals, i)
    {
      assert less[..i] == vals[..i];
    }
  }

  lemma LastAddress(offsets: seq<nat>, vals: seq<Bytes>, before: nat)
    requires Table(offsets, vals, before) && vals != []
    ensures offsets[|vals| - 1] <= before + Total(vals) && before + Total(vals) - offsets[|vals| - 1] == |vals[|vals| - 1]|
    ensures |Concat(vals)| == Total(vals)
  {
    ValueAt(vals, |vals| - 1);
    assert vals[..|vals|] == vals;
  }

  lemma NoValues(offsets: seq<nat>, before: nat)
    ensures Table(offsets, [], before) && Concat([]) == []
  {}

  ghost predicate Packable(table: seq<nat>, n: nat, bits: nat) {
    n <= |table| && forall i :: 0 <= i < n ==> table[i] < Pow2(bits)
  }

  lemma CodedBits(d: int, b: nat)
    ensures TakesBits(d, b) <==> ZigZag(d) < Pow2(b)
    ensures ZigZag(d) == 0 <==> d == 0
  {
    ZigZagInverse(d);
  }

  /** On the line nothing is to be packed. */
  lemma LineTakesNone(avg: nat, vals: seq<Bytes>)
    requires forall i :: 0 <= i < |vals| ==> Start(vals, i) == avg * i
    ensures Width(0, avg, vals)
  {
    hide Start;
  }

  /** The largest packed number tells the width. */
  lemma WidthIs(table: seq<nat>, vals: seq<Bytes>, avg: nat, size: nat, bits: nat)
    requires Differences(table, vals, avg) && |vals| <= size <= |table| && bits == MaxBits(table[..size])
    requires (forall i :: |vals| <= i < size ==> table[i] == 0) && exists i :: 0 <= i < |vals| && Start(vals, i) != avg * i
    ensures Width(bits, avg, vals) && bits > 0 && Packable(table, size, bits)
  {
    hide Start, TakesBits, ZigZag, MaxBits;
    LargestPacked(table, vals, avg, size, bits);
    hide Pow2;
    forall i | 0 <= i < |vals|
      ensures TakesBits(Start(vals, i) - avg * i, bits)
    {
      CodedBits(Start(vals, i) - avg * i, bits);
    }
    var k :| 0 <= k < |vals| && Pow2(bits - 1) <= table[k];
    CodedBits(Start(vals, k) - avg * k, bits - 1);
  }

  lemma LargestPacked(table: seq<nat>, vals: seq<Bytes>, avg: nat, size: nat, bits: nat)
    requires Differences(table, vals, avg) && |vals| <= size <= |table| && bits == MaxBits(table[..size])
    requires (forall i :: |vals| <= i < size ==> table[i] == 0) && exists i :: 0 <= i < |vals| && Start(vals, i) != avg * i
    ensures bits > 0 && (forall i :: 0 <= i < size ==> table[i] < Pow2(bits)) && exists k :: 0 <= k < |vals| && Pow2(bits - 1) <= table[k]
  {
    hide Start, MaxBits, ZigZag;
    var used := table[..size];
    forall i | 0 <= i < size
      ensures table[i] < Pow2(bits)
    {
      assert used[i] == table[i];
    }
    var i :| 0 <= i < |vals| && Start(vals, i) != avg * i;
    CodedBits(Start(vals, i) - avg * i, 0);
    assert 0 < table[i] < Pow2(bits);
    assert bits > 0;
    var k :| 0 <= k < |used| && Pow2(bits - 1) <= used[k];
    assert used[k] == table[k] > 0;
  }

  lemma TablePadded(was: seq<nat>, padded: seq<nat>, vals: seq<Bytes>, before: nat)
    requires Table(was, vals, before) && |was| == |padded| && forall i :: 0 <= i < |vals| ==> padded[i] == was[i]
    ensures Table(padded, vals, before)
  {}

  /** The differences of the addresses from the line, as they are packed. */
  ghost predicate Differences(table: seq<nat>, vals: seq<Bytes>, avg: nat) {
    |vals| <= |table| && forall i :: 0 <= i < |vals| ==> table[i] == ZigZag(Start(vals, i) - avg * i)
  }

  lemma StartsFacts(vals: seq<Bytes>)
    ensures vals != [] ==> Start(vals, 0) == 0
    ensures forall i, j :: 0 <= i <= j < |vals| ==> Start(vals, i) <= Start(vals, j)
    ensures |Concat(vals)| == Total(vals)
  {
    forall i, j | 0 <= i <= j < |vals|
      ensures Start(vals, i) <= Start(vals, j)
    {
      StartOrder(vals, i, j);
    }
  }

  lemma AllAtZero(vals: seq<Bytes>)
    requires Total(vals) == 0
    ensures forall i :: 0 <= i < |vals| ==> Start(vals, i) == 0
  {
    forall i | 0 <= i < |vals|
      ensures Start(vals, i) == 0
    {
      StartTotal(vals, i);
    }
  }

  /** Without payload bytes the average distance is 0. */
  lemma NoDistance(vals: seq<Bytes>)
    requires vals != []
    ensures Total(vals) == 0 ==> Average(Start(vals, |vals| - 1), |vals| - 1) == 0
  {
    if Total(vals) == 0 {
      AllAtZero(vals);
      AverageExact(0, |vals| - 1);
    }
  }

  /** Encoded addresses are zero exactly on the line. */
  lemma EncodedZero(was: seq<nat>, table: seq<nat>, vals: seq<Bytes>, avg: nat, before: nat)
    requires |was| == |table| && Table(was, vals, before) && vals != [] && was[0] == before
    requires forall i :: 0 <= i < |vals| ==> table[i] == ZigZag(was[i] - was[0] - avg * i)
    ensures Differences(table, vals, avg)
    ensures (forall i :: 0 <= i < |vals| ==> table[i] == 0) <==> forall i :: 0 <= i < |vals| ==> Start(vals, i) == avg * i
  {
    forall i | 0 <= i < |vals|
      ensures table[i] == ZigZag(Start(vals, i) - avg * i) && (table[i] == 0 <==> Start(vals, i) == avg * i)
    {
      ZigZagInverse(Start(vals, i) - avg * i);
    }
  }

  lemma GroupPositive(bits: nat)
    requires 1 <= bits
    ensures 1 <= GroupSize(bits)
  {}

  /** The first n groups of 64 numbers are packed from `from` on, and nothing follows them. */
  ghost predicate PackedGroups(file: seq<Cell>, from: nat, size: nat, values: seq<nat>, n: nat) {
    && PACK * n <= |values| && |file| == from + n * size
    && forall g :: 0 <= g < n ==> PackedAt(file, from + g * size, values[PACK * g..PACK * g + PACK])
  }

  lemma NoGroups(file: seq<Cell>, size: nat, values: seq<nat>)
    ensures PackedGroups(file, |file|, size, values, 0)
  {}

  lemma NextGroup(file: seq<Cell>, from: nat, k: nat, size: nat, values: seq<nat>, more: seq<Cell>)
    requires PackedGroups(file, from, size, values, k) && 1 <= size == |more| && PACK * k + PACK <= |values|
    requires more[0] == Packed(values[PACK * k..PACK * k + PACK])
    ensures PackedGroups(file + more, from, size, values, k + 1)
  {
    assert (k + 1) * size == k * size + size;
    forall g | 0 <= g < k
      ensures PackedAt(file + more, from + g * size, values[PACK * g..PACK * g + PACK])
    {
      assert PackedAt(file, from + g * size, values[PACK * g..PACK * g + PACK]);
    }
  }

  ghost predicate PackedAt(file: seq<Cell>, at: nat, group: seq<nat>) {
    at < |file| && file[at] == Packed(group)
  }

  lemma PrefixOfPrefix(a: seq<Cell>, b: seq<Cell>, c: seq<Cell>)
    requires |a| <= |b| <= |c| && b[..|a|] == a && c[..|b|] == b
    ensures c[..|a|] == a
  {
    assert c[..|a|] == c[..|b|][..|a|];
  }

  /** What FlushBlock has written is a stored block. */
  lemma BlockWritten(was: seq<Cell>, tabled: seq<Cell>, out: seq<Cell>, block: Block, vals: seq<Bytes>, table: seq<nat>, stray: Bytes)
    requires 1 <= |vals| <= BLOCK && |was| <= |tabled| && tabled[..|was|] == was && block.addr == |was|
    requires out == tabled + Raw(stray + Concat(vals)) && block.data == |tabled| + |stray|
    requires block.lastSize == |vals[|vals| - 1]|
    requires block.avg == (if Total(vals) == 0 then 0 else Average(Start(vals, |vals| - 1), |vals| - 1))
    requires block.bits == ALL_EQUAL <==> forall i :: 0 <= i < |vals| ==> Start(vals, i) == block.avg * i
    requires block.bits != ALL_EQUAL ==>
               && PackedGroups(tabled, |was|, GroupSize(block.bits), table, (|vals| + PACK - 1) / PACK) && Differences(table, vals, block.avg)
               && Width(block.bits, block.avg, vals) && Packable(table, PACK * ((|vals| + PACK - 1) / PACK), block.bits)
    ensures |was| <= |out| && out[..|was|] == was && BlockStored(out, block, vals) && Chosen(block, vals)
  {
    hide Total, Concat, Start, Average, PackedGroups, GroupSize, ZigZag, Pow2;
    PrefixOfPrefix(was, tabled, out);
    if block.bits == ALL_EQUAL {
      LineTakesNone(block.avg, vals);
    }
    if block.bits != ALL_EQUAL {
      forall k | 0 <= k && PACK * k < |vals|
        ensures GroupStored(out, block, vals, k)
      {
        GroupWritten(was, tabled, out, block, vals, table, k);
      }
    }
  }

  lemma GroupWritten(was: seq<Cell>, tabled: seq<Cell>, out: seq<Cell>, block: Block, vals: seq<Bytes>, table: seq<nat>, k: nat)
    requires |tabled| <= |out| && out[..|tabled|] == tabled && block.addr == |was| && block.bits != ALL_EQUAL && PACK * k < |vals|
    requires PackedGroups(tabled, |was|, GroupSize(block.bits), table, (|vals| + PACK - 1) / PACK) && Differences(table, vals, block.avg)
    requires Packable(table, PACK * ((|vals| + PACK - 1) / PACK), block.bits)
    ensures GroupStored(out, block, vals, k)
  {
    hide Start, ZigZag, Pow2, Differences, Packable, GroupSize;
    var n, size := (|vals| + PACK - 1) / PACK, GroupSize(block.bits);
    GroupPacked(block, vals, table, k);
    GroupInside(tabled, |was|, size, table, n, k);
    var at := GroupAt(block, k);
    hide PackedGroups, GroupAt;
    assert out[..|tabled|][at] == out[at];
  }

  lemma GroupInside(file: seq<Cell>, from: nat, size: nat, values: seq<nat>, n: nat, k: nat)
    requires PackedGroups(file, from, size, values, n) && k < n
    ensures PACK * k + PACK <= |values| && from + k * size + size <= |file|
    ensures PackedAt(file, from + k * size, values[PACK * k..PACK * k + PACK])
  {
    MulMonotone(k + 1, n, size);
    assert (k + 1) * size == k * size + size;
  }

  /** What a group of the table holds. */
  lemma GroupPacked(block: Block, vals: seq<Bytes>, table: seq<nat>, k: nat)
    requires PACK * k < |vals| && Differences(table, vals, block.avg) && Packable(table, PACK * ((|vals| + PACK - 1) / PACK), block.bits)
    ensures PACK * k + PACK <= |table|
    ensures var group := table[PACK * k..PACK * k + PACK];
            && (forall i :: 0 <= i < PACK ==> group[i] < Pow2(block.bits))
            && forall i :: 0 <= i < PACK && PACK * k + i < |vals| ==> UnZigZag(group[i]) == Start(vals, PACK * k + i) - block.avg * (PACK * k + i)
  {
    hide Start, ZigZag, Pow2;
    var group := table[PACK * k..PACK * k + PACK];
    forall i | 0 <= i < PACK && PACK * k + i < |vals|
      ensures UnZigZag(group[i]) == Start(vals, PACK * k + i) - block.avg * (PACK * k + i)
    {
      assert group[i] == table[PACK * k + i];
      ZigZagInverse(Start(vals, PACK * k + i) - block.avg * (PACK * k + i));
    }
  }

  /** The column stays one of fixed length if the new block has the length of all others. */
  lemma FixedNext(blocks: seq<Block>, prevAvg: nat, fixed: bool, block: Block, docsCount: nat)
    requires if fixed then AllFixed(blocks, prevAvg) else forall L: nat :: !AllFixed(blocks, L)
    requires blocks == [] <==> docsCount == 0
    ensures if fixed && block.bits == ALL_EQUAL && block.lastSize == block.avg && (docsCount == 0 || block.avg == prevAvg)
            then AllFixed(blocks + [block], block.avg)
            else forall L: nat :: !AllFixed(blocks + [block], L)
  {
    var all := blocks + [block];
    forall L: nat | AllFixed(all, L)
      ensures fixed && block.bits == ALL_EQUAL && block.lastSize == block.avg == L && (docsCount == 0 || block.avg == prevAvg)
    {
      assert FixedBlock(all[|blocks|], L);
      forall b | 0 <= b < |blocks|
        ensures FixedBlock(blocks[b], L)
      {
        assert FixedBlock(all[b], L);
      }
      assert AllFixed(blocks, L);
      if blocks != [] {
        assert FixedBlock(blocks[0], prevAvg) && FixedBlock(blocks[0], L);
      }
    }
  }

  lemma SliceStays(vals: seq<Bytes>, more: seq<Bytes>, b: nat)
    requires BLOCK * (b + 1) <= |vals| <= |more| && more[..|vals|] == vals
    ensures Slice(more, b) == Slice(vals, b)
  {
    var s, t := more[BLOCK * b..BLOCK * (b + 1)], vals[BLOCK * b..BLOCK * (b + 1)];
    assert forall i :: 0 <= i < |vals| ==> more[i] == more[..|vals|][i];
    assert s == t;
  }

  /** One more block follows the others without a gap exactly if there was none before and it leaves none. */
  lemma AdjacentNext(blocks: seq<Block>, block: Block, stored: seq<Bytes>, vals: seq<Bytes>, end: nat, gap: nat)
    requires |stored| == BLOCK * |blocks| && |vals| <= BLOCK && InOrder(blocks, stored, end) && block.data == end + gap
    ensures Adjacent(blocks + [block], stored + vals) <==> Adjacent(blocks, stored) && (blocks == [] || (gap == 0 && EndsAt(blocks, stored, end)))
  {
    hide Total, Slice;
    var more, all, n := stored + vals, blocks + [block], |blocks|;
    assert more[..|stored|] == stored;
    forall b | 0 <= b < n
      ensures AdjacentAt(all, more, b) <==> if b < n - 1 then AdjacentAt(blocks, stored, b) else gap == 0 && EndsAt(blocks, stored, end)
    {
      SliceStays(stored, more, b);
      assert InOrderAt(blocks, stored, end, b);
    }
    hide AdjacentAt, EndsAt;
    if Adjacent(all, more) && n > 0 {
      assert AdjacentAt(all, more, n - 1);
      assert forall b :: 0 <= b < n - 1 ==> AdjacentAt(all, more, b);
    }
  }

  lemma LastSlice(stored: seq<Bytes>, vals: seq<Bytes>, b: nat)
    requires |stored| == BLOCK * b && |vals| <= BLOCK
    ensures Slice(stored + vals, b) == vals
  {}

  lemma StoredNext(was: seq<Cell>, out: seq<Cell>, blocks: seq<Block>, block: Block, stored: seq<Bytes>, vals: seq<Bytes>)
    requires ColumnStored(was, blocks, stored) && AllChosen(blocks, stored) && |stored| == BLOCK * |blocks|
    requires |was| <= |out| && out[..|was|] == was && BlockStored(out, block, vals) && Chosen(block, vals)
    ensures ColumnStored(out, blocks + [block], stored + vals) && AllChosen(blocks + [block], stored + vals)
  {
    var more, all := stored + vals, blocks + [block];
    assert more[..|stored|] == stored;
    hide BlockStored, Chosen;
    forall b | 0 <= b < |all|
      ensures BLOCK * b < |more| && BlockStored(out, all[b], Slice(more, b)) && Chosen(all[b], Slice(more, b))
    {
      if b < |blocks| {
        SliceStays(stored, more, b);
        BlockStays(was, blocks[b], Slice(stored, b), out);
      } else {
        BlockSize(out, block, vals);
        assert Slice(more, b) == vals;
      }
    }
    BlockSize(out, block, vals);
  }

  lemma BlockSize(file: seq<Cell>, block: Block, vals: seq<Bytes>)
    requires BlockStored(file, block, vals)
    ensures 1 <= |vals| <= BLOCK
  {}
}
