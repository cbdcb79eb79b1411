/** A stored column: payloads in blocks of 65536 documents, each with a table of addresses
    kept as an average line and packed differences from it. */
module ColumnFormat {
  import opened Arithmetic
  import SparseBitmapFormat

  const BLOCK: nat := 65536
  const PACK: nat := 64        // addresses packed together
  const WORD_BYTES: nat := 8
  const ALL_EQUAL: nat := 0    // no table: every address lies on the line

  type Bytes = seq<bv8>

  /** One byte of the data file, or one value of a bitmap of documents. 64 packed addresses take a
      multiple of 8 bytes; the first one stands for them all. */
  datatype Cell = Byte(b: bv8) | Packed(values: seq<nat>) | Rest | Doc(token: SparseBitmapFormat.Token)

  /** A bitmap of documents as part of the data file. */
  function Embedded(tokens: seq<SparseBitmapFormat.Token>): (c: seq<Cell>)
    ensures |c| == |tokens| && forall i :: 0 <= i < |c| ==> c[i] == Doc(tokens[i])
  {
    seq(|tokens|, i requires 0 <= i < |tokens| => Doc(tokens[i]))
  }

  /** Reading it back. */
  function Tokens(cells: seq<Cell>): (t: seq<SparseBitmapFormat.Token>)
    requires forall i :: 0 <= i < |cells| ==> cells[i].Doc?
    ensures Embedded(t) == cells
  {
    seq(|cells|, i requires 0 <= i < |cells| => cells[i].token)
  }

  lemma TokensBack(tokens: seq<SparseBitmapFormat.Token>)
    ensures Tokens(Embedded(tokens)) == tokens
  {}

  datatype Block = Block(addr: nat, avg: nat, data: nat, lastSize: nat, bits: nat)

  function ZigZag(n: int): nat { if n >= 0 then 2 * n else -2 * n - 1 }

  function UnZigZag(m: nat): (n: int)
    ensures ZigZag(n) == m
  {
    if m % 2 == 0 then m / 2 else -(m / 2) - 1
  }

  lemma ZigZagInverse(n: int)
    ensures UnZigZag(ZigZag(n)) == n
    ensures ZigZag(n) == 0 <==> n == 0
  {}

  /** x / d rounded to the nearest integer, halves up; a distance of 0 counts as 1. */
  function Average(x: nat, d: nat): (a: nat)
    ensures Nearest(a, x, d)
  {
    var m := if d == 0 then 1 else d;
    var a := (2 * x + m) / (2 * m);
    assert 2 * x + m == 2 * (m * a) + (2 * x + m) % (2 * m);
    a
  }

  /** a steps of length d come closest to x. */
  predicate Nearest(a: nat, x: nat, d: nat) {
    var m := if d == 0 then 1 else d;
    2 * x - m < 2 * (m * a) <= 2 * x + m
  }

  lemma AverageExact(q: nat, d: nat)
    ensures Average(q * d, d) == if d == 0 then 0 else q
  {
    if d > 0 {
      assert 2 * (q * d) + d == q * (2 * d) + d;
      Quotient(q, d, 2 * d);
    }
  }

  /** Length of some payloads together. */
  ghost function Total(vals: seq<Bytes>): nat {
    if vals == [] then 0 else Total(vals[..|vals| - 1]) + |vals[|vals| - 1]|
  }

  ghost function Concat(vals: seq<Bytes>): (c: Bytes)
    ensures |c| == Total(vals)
  {
    if vals == [] then [] else Concat(vals[..|vals| - 1]) + vals[|vals| - 1]
  }

  /** Where the i-th payload starts. */
  ghost function Start(vals: seq<Bytes>, i: nat): nat
    requires i <= |vals|
  {
    Total(vals[..i])
  }

  lemma {:induction false} ValueAt(vals: seq<Bytes>, i: nat)
    requires i < |vals|
    ensures Start(vals, i) + |vals[i]| == Start(vals, i + 1) <= Total(vals)
    ensures Concat(vals)[Start(vals, i)..Start(vals, i + 1)] == vals[i]
    decreases |vals|
  {
    var n := |vals| - 1;
    assert vals[..i + 1][..i] == vals[..i];
    if i < n {
      ValueAt(vals[..n], i);
      assert vals[..n][..i] == vals[..i] && vals[..n][..i + 1] == vals[..i + 1];
      assert Concat(vals)[Start(vals, i)..Start(vals, i + 1)] == Concat(vals[..n])[Start(vals, i)..Start(vals, i + 1)];
    } else {
      assert vals[..i + 1] == vals;
    }
  }

  lemma {:induction false} StartOrder(vals: seq<Bytes>, i: nat, j: nat)
    requires i <= j <= |vals|
    ensures Start(vals, i) <= Start(vals, j) <= Total(vals)
    decreases j - i
  {
    if i < j {
      StartOrder(vals, i, j - 1);
      ValueAt(vals, j - 1);
    } else {
      StartTotal(vals, i);
    }
  }

  lemma {:induction false} StartTotal(vals: seq<Bytes>, i: nat)
    requires i <= |vals|
    ensures Start(vals, i) <= Total(vals)
    decreases |vals| - i
  {
    if i < |vals| {
      ValueAt(vals, i);
    } else {
      assert vals[..i] == vals;
    }
  }

  lemma StartStays(vals: seq<Bytes>, more: seq<Bytes>, i: nat)
    requires i <= |vals| <= |more| && more[..|vals|] == vals
    ensures Start(more, i) == Start(vals, i)
  {
    assert more[..i] == vals[..i];
  }

  /** The payloads lie in the file one after the other. */
  ghost predicate DataStored(file: seq<Cell>, at: nat, vals: seq<Bytes>) {
    at + Total(vals) <= |file| && forall k :: 0 <= k < Total(vals) ==> file[at + k] == Byte(Concat(vals)[k])
  }

  /** Bytes of one packed group of addresses: just enough for 64 numbers of so many bits. */
  function GroupSize(bits: nat): (n: nat)
    ensures 8 * n == PACK * bits
  {
    bits * WORD_BYTES
  }

  /** Where group k of a table starts. */
  function GroupAt(block: Block, k: nat): nat {
    MulMonotone(0, k, GroupSize(block.bits));
    block.addr + k * GroupSize(block.bits)
  }

  /** Group k of the address table holds the differences of its addresses from the line. */
  ghost predicate GroupStored(file: seq<Cell>, block: Block, vals: seq<Bytes>, k: nat) {
    var at := GroupAt(block, k);
    && at + GroupSize(block.bits) <= |file| && at < |file| && file[at].Packed? && |file[at].values| == PACK
    && (forall i :: 0 <= i < PACK ==> file[at].values[i] < Pow2(block.bits))
    && forall i :: 0 <= i < PACK && PACK * k + i < |vals| ==>
         UnZigZag(file[at].values[i]) == Start(vals, PACK * k + i) - block.avg * (PACK * k + i)
  }

  /** A difference that takes so many bits, one of them for the sign. */
  ghost predicate TakesBits(d: int, bits: nat) {
    -2 * d <= Pow2(bits) && 2 * d < Pow2(bits)
  }

  /** All differences from the line can be packed with so many bits, and not with fewer. */
  ghost predicate Width(bits: nat, avg: nat, vals: seq<Bytes>) {
    && (forall i :: 0 <= i < |vals| ==> TakesBits(Start(vals, i) - avg * i, bits))
    && (bits > 0 ==> exists i :: 0 <= i < |vals| && !TakesBits(Start(vals, i) - avg * i, bits - 1))
  }

  ghost predicate OnLine(block: Block, vals: seq<Bytes>) {
    forall i :: 0 <= i < |vals| ==> Start(vals, i) == block.avg * i
  }

  /** Payloads in one block, and how their addresses are told. */
  ghost predicate BlockStored(file: seq<Cell>, block: Block, vals: seq<Bytes>) {
    && 1 <= |vals| <= BLOCK && DataStored(file, block.data, vals) && block.lastSize == |vals[|vals| - 1]|
    && (block.bits == ALL_EQUAL ==> OnLine(block, vals))
    && (block.bits != ALL_EQUAL ==> forall k :: 0 <= k && PACK * k < |vals| ==> GroupStored(file, block, vals, k))
  }

  /** A stored block stays stored when the file grows. */
  lemma BlockStays(file: seq<Cell>, block: Block, vals: seq<Bytes>, grown: seq<Cell>)
    requires BlockStored(file, block, vals) && |file| <= |grown| && grown[..|file|] == file
    ensures BlockStored(grown, block, vals)
  {
    hide Total, Concat, Start, GroupAt, GroupSize;
    assert forall i :: 0 <= i < |file| ==> grown[i] == grown[..|file|][i];
    if block.bits != ALL_EQUAL {
      forall k | 0 <= k && PACK * k < |vals|
        ensures GroupStored(grown, block, vals, k)
      {
        assert GroupStored(file, block, vals, k);
      }
    }
  }

  /** The values of block b. */
  function Slice(vals: seq<Bytes>, b: nat): (s: seq<Bytes>)
    requires BLOCK * b <= |vals|
  {
    if BLOCK * (b + 1) <= |vals| then vals[BLOCK * b..BLOCK * (b + 1)] else vals[BLOCK * b..]
  }

  /** Blocks that hold a whole column. */
  ghost predicate ColumnStored(file: seq<Cell>, blocks: seq<Block>, vals: seq<Bytes>) {
    && (if vals == [] then blocks == [] else BLOCK * (|blocks| - 1) < |vals| <= BLOCK * |blocks|)
    && forall b :: 0 <= b < |blocks| ==> BLOCK * b < |vals| && BlockStored(file, blocks[b], Slice(vals, b))
  }

  /** Bytes of the file as a value. */
  function ReadBytes(file: seq<Cell>, at: nat, length: nat): (r: Bytes)
    requires at + length <= |file| && forall k :: at <= k < at + length ==> file[k].Byte?
  {
    seq(length, k requires 0 <= k < length => file[at + k].b)
  }

  /** The bytes from the start of a payload to its end are the payload. */
  lemma ReadValue(file: seq<Cell>, at: nat, vals: seq<Bytes>, i: nat)
    requires DataStored(file, at, vals) && i < |vals|
    ensures var from, n := at + Start(vals, i), |vals[i]|;
            && from + n <= |file| && (forall k :: from <= k < from + n ==> file[k].Byte?)
            && ReadBytes(file, from, n) == vals[i]
  {
    ValueAt(vals, i);
    var from, n := at + Start(vals, i), |vals[i]|;
    forall k | from <= k < from + n
      ensures file[k] == Byte(vals[i][k - from])
    {
      assert file[at + (k - at)] == Byte(Concat(vals)[k - at]);
      assert Concat(vals)[Start(vals, i)..Start(vals, i + 1)][k - from] == Concat(vals)[k - at];
    }
    assert ReadBytes(file, from, n) == vals[i];
  }

  /** A block with the index of its last payload. */
  datatype ReadBlock = ReadBlock(block: Block, last: nat)

  ghost function Plain(blocks: seq<ReadBlock>): (s: seq<Block>)
    ensures |s| == |blocks| && forall b :: 0 <= b < |s| ==> s[b] == blocks[b].block
  {
    seq(|blocks|, b requires 0 <= b < |blocks| => blocks[b].block)
  }

  /** Every block knows its last payload. */
  ghost predicate LastsOk(blocks: seq<ReadBlock>, vals: seq<Bytes>) {
    forall b :: 0 <= b < |blocks| ==> BLOCK * b <= |vals| && blocks[b].last + 1 == |Slice(vals, b)|
  }

  /** All payloads have length L. */
  ghost predicate Uniform(vals: seq<Bytes>, L: nat) {
    forall i :: 0 <= i < |vals| ==> |vals[i]| == L
  }

  lemma {:induction false} UniformStart(vals: seq<Bytes>, L: nat, i: nat)
    requires Uniform(vals, L) && i <= |vals|
    ensures Start(vals, i) == L * i
  {
    if i > 0 {
      UniformStart(vals, L, i - 1);
      ValueAt(vals, i - 1);
      assert L * i == L * (i - 1) + L;
    }
  }

  lemma StartZero(vals: seq<Bytes>)
    ensures Start(vals, 0) == 0
  {}

  lemma StartTotalIs(vals: seq<Bytes>)
    ensures Start(vals, |vals|) == Total(vals)
  {
    assert vals[..|vals|] == vals;
  }

  /** The payloads of every block end where those of the next one start. */
  ghost predicate Adjacent(blocks: seq<Block>, vals: seq<Bytes>) {
    forall b :: 0 <= b < |blocks| - 1 ==> AdjacentAt(blocks, vals, b)
  }

  ghost predicate AdjacentAt(blocks: seq<Block>, vals: seq<Bytes>, b: nat)
    requires b + 1 < |blocks|
  {
    BLOCK * b <= |vals| && blocks[b].data + Total(Slice(vals, b)) == blocks[b + 1].data
  }
}
