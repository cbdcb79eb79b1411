/** A sparse set of document identifiers as it is stored: blocks of 65536 identifiers,
    each kept as a range, a sorted array or a bitset with rank samples. */
module SparseBitmapFormat {
  import opened Limits

  const BLOCK_SIZE: nat := 65536
  const WORD: nat := 64
  const NUM_WORDS: nat := 1024
  const SAMPLE: nat := 512             // identifiers per rank sample
  const SAMPLE_WORDS: nat := 8
  const NUM_SAMPLES: nat := 128
  const BITSET_THRESHOLD: nat := 4095
  const SCAN_THRESHOLD: nat := 2

  /** One written value; a file pointer counts such values. Bit i of a word is element i. */
  datatype Token = Short(v: nat) | Int(v: nat) | Long(word: seq<bool>)

  ghost predicate Sorted(ids: seq<nat>) {
    forall i, j :: 0 <= i < j < |ids| ==> ids[i] < ids[j]
  }

  /** How many identifiers lie below x. */
  ghost function Rank(ids: seq<nat>, x: nat): (r: nat)
    ensures r <= |ids|
  {
    if ids == [] then 0 else Rank(ids[..|ids| - 1], x) + if ids[|ids| - 1] < x then 1 else 0
  }

  lemma {:induction false} RankIs(ids: seq<nat>, x: nat, r: nat)
    requires Sorted(ids) && r <= |ids|
    requires r > 0 ==> ids[r - 1] < x
    requires r < |ids| ==> x <= ids[r]
    ensures Rank(ids, x) == r
  {
    if ids != [] {
      RankIs(ids[..|ids| - 1], x, if r < |ids| then r else r - 1);
    }
  }

  lemma {:induction false} RankSplits(ids: seq<nat>, x: nat)
    requires Sorted(ids)
    ensures forall i :: 0 <= i < Rank(ids, x) ==> ids[i] < x
    ensures forall i :: Rank(ids, x) <= i < |ids| ==> x <= ids[i]
  {
    if ids != [] {
      RankSplits(ids[..|ids| - 1], x);
    }
  }

  lemma RankNext(ids: seq<nat>, x: nat)
    requires Sorted(ids)
    ensures Rank(ids, x + 1) == Rank(ids, x) + if x in ids then 1 else 0
  {
    RankSplits(ids, x);
    var r := Rank(ids, x);
    if r < |ids| && ids[r] == x {
      RankIs(ids, x + 1, r + 1);
    } else {
      RankIs(ids, x + 1, r);
    }
  }

  lemma {:induction false} Spread(own: seq<nat>, i: nat, k: nat)
    requires Sorted(own) && i <= k < |own|
    ensures own[i] + (k - i) <= own[k]
    decreases k
  {
    if i < k {
      Spread(own, i, k - 1);
    }
  }

  /** Set bits of a word, or of a part of one. */
  function Popcount(w: seq<bool>): (n: nat)
    ensures n <= |w|
  {
    if w == [] then 0 else Popcount(w[..|w| - 1]) + if w[|w| - 1] then 1 else 0
  }

  /** The lowest set bit, or the width. */
  function TrailingZeros(w: seq<bool>): (n: nat)
    ensures n <= |w| && (forall i :: 0 <= i < n ==> !w[i]) && (n < |w| ==> w[n])
  {
    if w == [] || w[0] then 0 else 1 + TrailingZeros(w[1..])
  }

  function LeadingZeros(w: seq<bool>): (n: nat)
    ensures n <= |w| && (forall i :: |w| - n <= i < |w| ==> !w[i]) && (n < |w| ==> w[|w| - n - 1])
  {
    if w == [] || w[|w| - 1] then 0 else 1 + LeadingZeros(w[..|w| - 1])
  }

  /** The bits of `w` are the identifiers from `base` on. */
  ghost predicate BitsOk(ids: seq<nat>, base: nat, w: seq<bool>) {
    forall i :: 0 <= i < |w| ==> (w[i] <==> (base + i) in ids)
  }

  /** Counting bits is the difference of two ranks. */
  lemma {:induction false} PopcountIsRank(ids: seq<nat>, base: nat, w: seq<bool>)
    requires Sorted(ids) && BitsOk(ids, base, w)
    ensures Rank(ids, base) + Popcount(w) == Rank(ids, base + |w|)
  {
    if w != [] {
      PopcountIsRank(ids, base, w[..|w| - 1]);
      RankNext(ids, base + |w| - 1);
    }
  }

  /** Without set bits there is nothing in between. */
  lemma {:induction false} NoBits(ids: seq<nat>, base: nat, w: seq<bool>, n: nat)
    requires Sorted(ids) && BitsOk(ids, base, w) && n <= |w| && forall i :: 0 <= i < n ==> !w[i]
    ensures Rank(ids, base + n) == Rank(ids, base)
  {
    if n > 0 {
      NoBits(ids, base, w, n - 1);
      RankNext(ids, base + (n - 1));
      assert !w[n - 1];
    }
  }

  /** The lowest set bit is the next identifier. */
  lemma FirstBit(ids: seq<nat>, base: nat, w: seq<bool>)
    requires Sorted(ids) && BitsOk(ids, base, w) && TrailingZeros(w) < |w|
    ensures Rank(ids, base) < |ids| && ids[Rank(ids, base)] == base + TrailingZeros(w)
  {
    var t := TrailingZeros(w);
    NoBits(ids, base, w, t);
    var i :| 0 <= i < |ids| && ids[i] == base + t;
    RankIs(ids, base + t, i);
  }

  /** The highest set bit is the identifier before the end. */
  lemma LastBit(ids: seq<nat>, base: nat, w: seq<bool>)
    requires Sorted(ids) && BitsOk(ids, base, w) && LeadingZeros(w) < |w|
    ensures 0 < Rank(ids, base + |w|) && ids[Rank(ids, base + |w|) - 1] == base + (|w| - LeadingZeros(w) - 1)
  {
    var z := |w| - LeadingZeros(w) - 1;
    var high := w[z + 1..];
    forall i | 0 <= i < |high|
      ensures !high[i] && (high[i] <==> (base + z + 1 + i) in ids)
    {
      assert high[i] == w[z + 1 + i];
      assert base + (z + 1 + i) == base + z + 1 + i;
    }
    NoBits(ids, base + z + 1, high, |high|);
    RankNext(ids, base + z);
    var i :| 0 <= i < |ids| && ids[i] == base + z;
    RankIs(ids, base + z, i);
  }

  /** A stored block: its number, where it starts, which of the identifiers it holds,
      and what its header says about the identifier before it. */
  datatype BlockRef = BlockRef(id: nat, at: nat, lo: nat, hi: nat, prev: nat) {
    function Base(): nat { id * BLOCK_SIZE }

    function DataAt(track: bool): nat { at + if track then 3 else 2 }

    function WordsAt(track: bool): nat { DataAt(track) + NUM_SAMPLES }

    function Count(): nat { if lo <= hi then hi - lo else 0 }

    function End(track: bool): nat {
      DataAt(track) + if Count() <= BITSET_THRESHOLD then Count() else if Count() == BLOCK_SIZE then 0 else NUM_SAMPLES + NUM_WORDS
    }
  }

  /** The header and the identifiers of a block lie where they should. */
  ghost predicate BlockStored(file: seq<Token>, all: seq<nat>, r: BlockRef, track: bool) {
    && r.lo < r.hi <= |all| && r.End(track) <= |file|
    && (forall i :: r.lo <= i < r.hi ==> all[i] / BLOCK_SIZE == r.id)
    && r.hi - r.lo <= BLOCK_SIZE
    && file[r.at] == Short(r.id) && file[r.at + 1] == Short(r.hi - r.lo - 1)
    && (track ==> file[r.at + 2] == Int(r.prev))
    && (r.hi - r.lo <= BITSET_THRESHOLD ==> SparseStored(file, all, r, track))
    && (BITSET_THRESHOLD < r.hi - r.lo < BLOCK_SIZE ==> DenseStored(file, all[r.lo..r.hi], r, track))
  }

  ghost predicate SparseStored(file: seq<Token>, all: seq<nat>, r: BlockRef, track: bool)
    requires r.lo <= r.hi <= |all| && r.hi - r.lo <= BITSET_THRESHOLD && r.End(track) <= |file|
  {
    forall i :: r.lo <= i < r.hi ==> file[r.DataAt(track) + (i - r.lo)] == Short(all[i] % BLOCK_SIZE)
  }

  ghost predicate DenseStored(file: seq<Token>, own: seq<nat>, r: BlockRef, track: bool)
    requires r.WordsAt(track) + NUM_WORDS <= |file|
  {
    && (forall s :: 0 <= s < NUM_SAMPLES ==> file[r.DataAt(track) + s] == Short(Rank(own, r.Base() + SAMPLE * s)))
    && (forall w :: 0 <= w < NUM_WORDS ==> WordStored(file, own, r, track, w))
  }

  ghost predicate WordStored(file: seq<Token>, own: seq<nat>, r: BlockRef, track: bool, w: nat)
    requires w < NUM_WORDS && r.WordsAt(track) + NUM_WORDS <= |file|
  {
    var token := file[r.WordsAt(track) + w];
    token.Long? && |token.word| == WORD && BitsOk(own, r.Base() + WORD * w, token.word)
  }

  /** Consecutive blocks that hold all identifiers; the last block holds the sentinel alone. */
  ghost predicate Chained(all: seq<nat>, blocks: seq<BlockRef>, track: bool) {
    && |blocks| >= 1 && blocks[0].lo == 0 && blocks[|blocks| - 1].hi == |all|
    && (forall j :: 0 <= j < |blocks| ==> blocks[j].lo < blocks[j].hi <= |all|)
    && (forall j :: 0 <= j < |blocks| - 1 ==> blocks[j].hi == blocks[j + 1].lo && blocks[j].End(track) == blocks[j + 1].at)
    && (forall i, j :: 0 <= i <= j < |blocks| ==> blocks[i].id <= blocks[j].id)
    && (forall j :: 0 <= j < |blocks| ==> blocks[j].id < BLOCK_SIZE)
    && blocks[|blocks| - 1].id == BLOCK_SIZE - 1 && blocks[|blocks| - 1].lo == |all| - 1
  }

  /** A file that holds the set `ids` from `origin` on; `all` also counts the sentinel. */
  ghost predicate Stored(file: seq<Token>, origin: nat, ids: seq<nat>, blocks: seq<BlockRef>, track: bool) {
    var all := ids + [EOF];
    && Sorted(all) && (forall i :: 0 <= i < |ids| ==> MIN <= ids[i])
    && Chained(all, blocks, track) && blocks[0].at == origin
    && forall j :: 0 <= j < |blocks| ==> BlockStored(file, all, blocks[j], track)
  }

  /** A block with the number of the block before it holds the last identifier of its range, and that alone. */
  ghost predicate ApartAt(all: seq<nat>, blocks: seq<BlockRef>, j: nat)
    requires 0 < j < |blocks|
  {
    blocks[j - 1].id == blocks[j].id ==>
      blocks[j].hi == blocks[j].lo + 1 <= |all| && all[blocks[j].lo] % BLOCK_SIZE == BLOCK_SIZE - 1
  }

  ghost predicate Apart(all: seq<nat>, blocks: seq<BlockRef>) {
    forall j :: 0 < j < |blocks| ==> ApartAt(all, blocks, j)
  }

  /** Every header names the identifier before its block. */
  ghost predicate PrevStored(ids: seq<nat>, blocks: seq<BlockRef>) {
    forall j :: 0 <= j < |blocks| && blocks[j].lo <= |ids| ==>
      blocks[j].prev == if blocks[j].lo == 0 then INVALID else ids[blocks[j].lo - 1]
  }

  /** An entry of the jump table: the identifiers before a block, and where the block starts. */
  datatype Jump = Jump(index: nat, offset: nat)

  /** Block j is the first one whose number is at least b. */
  ghost predicate FirstFrom(blocks: seq<BlockRef>, b: nat, j: nat) {
    j < |blocks| && b <= blocks[j].id && forall i :: 0 <= i < j ==> blocks[i].id < b
  }

  ghost predicate JumpOk(blocks: seq<BlockRef>, origin: nat, b: nat, jump: Jump) {
    exists j: nat :: FirstFrom(blocks, b, j) && origin <= blocks[j].at && jump == Jump(blocks[j].lo, blocks[j].at - origin)
  }

  /** Every entry names the start of some block. */
  ghost predicate StartOk(blocks: seq<BlockRef>, origin: nat, jump: Jump) {
    exists j: nat :: Starts(blocks, origin, jump, j)
  }

  ghost predicate Starts(blocks: seq<BlockRef>, origin: nat, jump: Jump, j: nat) {
    j < |blocks| && origin <= blocks[j].at && jump == Jump(blocks[j].lo, blocks[j].at - origin)
  }

  ghost predicate TableStarts(table: seq<Jump>, blocks: seq<BlockRef>, origin: nat) {
    forall b :: 0 <= b < |table| && b < BLOCK_SIZE ==> StartOk(blocks, origin, table[b])
  }

  /** Every entry names the first block from its number on. */
  ghost predicate TableNames(table: seq<Jump>, blocks: seq<BlockRef>, origin: nat) {
    forall b :: 0 <= b < |table| && b < BLOCK_SIZE ==> JumpOk(blocks, origin, b, table[b])
  }

  lemma NamesAreStarts(table: seq<Jump>, blocks: seq<BlockRef>, origin: nat)
    requires TableNames(table, blocks, origin)
    ensures TableStarts(table, blocks, origin)
  {
    forall b | 0 <= b < |table| && b < BLOCK_SIZE
      ensures StartOk(blocks, origin, table[b])
    {
      assert JumpOk(blocks, origin, b, table[b]);
      var j: nat :| FirstFrom(blocks, b, j) && origin <= blocks[j].at && table[b] == Jump(blocks[j].lo, blocks[j].at - origin);
      assert Starts(blocks, origin, table[b], j);
    }
  }

  /** Moreover no block but the sentinel lies past the table. */
  ghost predicate TableOk(table: seq<Jump>, blocks: seq<BlockRef>, origin: nat) {
    && TableNames(table, blocks, origin)
    && (table != [] ==> forall j :: 0 <= j < |blocks| - 1 ==> blocks[j].id < |table| - 1 || BLOCK_SIZE <= |table|)
  }

  /** The bits of a whole block are these identifiers. */
  ghost predicate BlockBits(words: seq<seq<bool>>, own: seq<nat>, base: nat) {
    && |words| == NUM_WORDS && Sorted(own) && base % BLOCK_SIZE == 0
    && (forall i :: 0 <= i < |own| ==> base <= own[i] < base + BLOCK_SIZE)
    && forall w :: 0 <= w < NUM_WORDS ==> WordBits(words, own, base, w)
  }

  ghost predicate WordBits(words: seq<seq<bool>>, own: seq<nat>, base: nat, w: nat)
    requires w < |words|
  {
    |words[w]| == WORD && BitsOk(own, base + WORD * w, words[w])
  }

  lemma WordRank(words: seq<seq<bool>>, own: seq<nat>, base: nat, w: nat)
    requires BlockBits(words, own, base) && w < NUM_WORDS
    ensures |words[w]| == WORD && Rank(own, base + WORD * w) + Popcount(words[w]) == Rank(own, base + WORD * (w + 1))
  {
    assert WordBits(words, own, base, w);
    PopcountIsRank(own, base + WORD * w, words[w]);
  }

  lemma RankEnds(own: seq<nat>, base: nat)
    requires Sorted(own) && forall i :: 0 <= i < |own| ==> base <= own[i] < base + BLOCK_SIZE
    ensures Rank(own, base) == 0 && Rank(own, base + BLOCK_SIZE) == |own|
  {
    RankIs(own, base, 0);
    RankIs(own, base + BLOCK_SIZE, |own|);
  }

  /** A stored block stays stored when the file and the set grow. */
  lemma BlockStays(file: seq<Token>, all: seq<nat>, r: BlockRef, track: bool, grown: seq<Token>, more: seq<nat>)
    requires BlockStored(file, all, r, track)
    requires |file| <= |grown| && grown[..|file|] == file && |all| <= |more| && more[..|all|] == all
    ensures BlockStored(grown, more, r, track)
  {
    assert forall i :: 0 <= i < |file| ==> grown[i] == grown[..|file|][i];
    assert forall i :: 0 <= i < |all| ==> more[i] == more[..|all|][i];
    assert more[r.lo..r.hi] == all[r.lo..r.hi];
    if BITSET_THRESHOLD < r.hi - r.lo < BLOCK_SIZE {
      forall w | 0 <= w < NUM_WORDS
        ensures WordStored(grown, more[r.lo..r.hi], r, track, w)
      {
        assert WordStored(file, all[r.lo..r.hi], r, track, w);
      }
    }
  }
}
