/** Writing a sparse set of document identifiers. */
module SparseBitmapWriting {
  import opened Limits
  import opened SparseBitmapFormat

  /** The blocks written so far hold exactly the flushed identifiers. */
  ghost predicate Flushed(out: seq<Token>, origin: nat, ids: seq<nat>, blocks: seq<BlockRef>, track: bool) {
    && (if blocks == [] then ids == [] && |out| == origin
        else blocks[0].lo == 0 && blocks[0].at == origin && blocks[|blocks| - 1].hi == |ids| && blocks[|blocks| - 1].End(track) == |out|)
    && (forall j :: 0 <= j < |blocks| ==> BlockStored(out, ids, blocks[j], track))
    && (forall j :: 0 <= j < |blocks| - 1 ==> blocks[j].hi == blocks[j + 1].lo && blocks[j].End(track) == blocks[j + 1].at)
    && (forall i, j :: 0 <= i <= j < |blocks| ==> blocks[i].id <= blocks[j].id)
  }

  /** A bit of a word is the identifier at that place, and its rank is its index. */
  lemma BitRank(words: seq<seq<bool>>, own: seq<nat>, base: nat, w: nat, i: nat)
    requires BlockBits(words, own, base) && w < NUM_WORDS && i < |words[w]|
    ensures var x, r := base + (WORD * w + i), Rank(own, base + (WORD * w + i));
            && Rank(own, x + 1) == r + (if words[w][i] then 1 else 0)
            && (words[w][i] ==> r < |own| && own[r] == x && x % BLOCK_SIZE == WORD * w + i)
  {
    var x := base + (WORD * w + i);
    assert WordBits(words, own, base, w);
    assert words[w][i] <==> (base + WORD * w + i) in own;
    RankNext(own, x);
    if words[w][i] {
      var k :| 0 <= k < |own| && own[k] == x;
      RankIs(own, x, k);
    }
  }

  ghost function Fill(n: nat, jump: Jump): (s: seq<Jump>)
    ensures |s| == n && forall i :: 0 <= i < n ==> s[i] == jump
  {
    seq(n, _ => jump)
  }

  /** The jump table reaches up to the last block written. */
  ghost predicate IndexOk(table: seq<Jump>, blocks: seq<BlockRef>, origin: nat) {
    && |table| == (if blocks == [] then 0 else blocks[|blocks| - 1].id + 1)
    && forall b :: 0 <= b < |table| ==> JumpOk(blocks, origin, b, table[b])
  }

  lemma BitsShape(words: seq<seq<bool>>, own: seq<nat>, base: nat)
    requires BlockBits(words, own, base)
    ensures |words| == NUM_WORDS && forall w :: 0 <= w < NUM_WORDS ==> |words[w]| == WORD
    ensures Sorted(own) && forall i :: 0 <= i < |own| ==> base <= own[i] < base + BLOCK_SIZE
  {
    forall w | 0 <= w < NUM_WORDS
      ensures |words[w]| == WORD
    {
      assert WordBits(words, own, base, w);
    }
  }

  lemma EmptyBits(words: seq<seq<bool>>, base: nat, other: nat)
    requires BlockBits(words, [], base) && other % BLOCK_SIZE == 0
    ensures BlockBits(words, [], other)
  {
    forall w | 0 <= w < NUM_WORDS
      ensures WordBits(words, [], other, w)
    {
      assert WordBits(words, [], base, w);
    }
  }

  lemma BitsPushed(words: seq<seq<bool>>, own: seq<nat>, base: nat, bit: nat)
    requires BlockBits(words, own, base) && bit < BLOCK_SIZE && (own != [] ==> own[|own| - 1] < base + bit)
    ensures var w, i := bit / WORD, bit % WORD;
            |words[w]| == WORD && BlockBits(words[w := words[w][i := true]], own + [base + bit], base)
  {
    BitsShape(words, own, base);
    var at, i := bit / WORD, bit % WORD;
    var next, more := words[at := words[at][i := true]], own + [base + bit];
    forall w | 0 <= w < NUM_WORDS
      ensures WordBits(next, more, base, w)
    {
      assert WordBits(words, own, base, w);
      forall k | 0 <= k < WORD
        ensures next[w][k] <==> (base + WORD * w + k) in more
      {
        assert words[w][k] <==> (base + WORD * w + k) in own;
      }
    }
  }

  /** All blocks written so far lie below a number that all identifiers lie below. */
  lemma BlocksBelow(out: seq<Token>, origin: nat, ids: seq<nat>, blocks: seq<BlockRef>, track: bool, b: nat)
    requires Flushed(out, origin, ids, blocks, track) && forall i :: 0 <= i < |ids| ==> ids[i] < b * BLOCK_SIZE
    ensures forall j :: 0 <= j < |blocks| ==> blocks[j].id < b && blocks[j].lo <= |ids|
    ensures forall i, j :: 0 <= i <= j < |blocks| ==> blocks[i].id <= blocks[j].id
    ensures blocks != [] ==> ids != [] && blocks[|blocks| - 1].id == ids[|ids| - 1] / BLOCK_SIZE
  {
    hide SparseStored, DenseStored;
    forall j | 0 <= j < |blocks|
      ensures blocks[j].id < b && blocks[j].lo <= |ids|
    {
      assert BlockStored(out, ids, blocks[j], track);
      assert ids[blocks[j].lo] / BLOCK_SIZE == blocks[j].id;
    }
    if blocks != [] {
      assert BlockStored(out, ids, blocks[|blocks| - 1], track);
    }
  }

  lemma FlushedGrows(out: seq<Token>, grown: seq<Token>, origin: nat, ids: seq<nat>, all: seq<nat>, blocks: seq<BlockRef>, r: BlockRef, track: bool)
    requires Flushed(out, origin, ids, blocks, track) && forall j :: 0 <= j < |blocks| ==> blocks[j].id <= r.id
    requires |out| <= |grown| && grown[..|out|] == out && |ids| <= |all| && all[..|ids|] == ids
    requires BlockStored(grown, all, r, track) && r.at == |out| && r.lo == |ids| && r.hi == |all| && r.End(track) == |grown|
    ensures Flushed(grown, origin, all, blocks + [r], track)
  {
    hide BlockStored, BlockRef.End;
    forall j | 0 <= j < |blocks|
      ensures BlockStored(grown, all, blocks[j], track)
    {
      BlockStays(out, ids, blocks[j], track, grown, all);
    }
  }

  lemma IndexGrows(table: seq<Jump>, blocks: seq<BlockRef>, r: BlockRef, origin: nat)
    requires forall i, j :: 0 <= i <= j < |blocks| ==> blocks[i].id <= blocks[j].id
    requires IndexOk(table, blocks, origin) && (forall j :: 0 <= j < |blocks| ==> blocks[j].id <= r.id) && origin <= r.at
    ensures |table| <= r.id + 1
    ensures IndexOk(table + Fill(r.id + 1 - |table|, Jump(r.lo, r.at - origin)), blocks + [r], origin)
  {
    var next, more := table + Fill(r.id + 1 - |table|, Jump(r.lo, r.at - origin)), blocks + [r];
    forall b | 0 <= b < |next|
      ensures JumpOk(more, origin, b, next[b])
    {
      if b < |table| {
        assert JumpOk(blocks, origin, b, table[b]);
        var j: nat :| FirstFrom(blocks, b, j) && origin <= blocks[j].at && table[b] == Jump(blocks[j].lo, blocks[j].at - origin);
        assert FirstFrom(more, b, j);
      } else {
        LastIsLargest(blocks, table, b);
        assert FirstFrom(more, b, |blocks|);
      }
    }
  }

  lemma LastIsLargest(blocks: seq<BlockRef>, table: seq<Jump>, b: nat)
    requires |table| <= b && |table| == (if blocks == [] then 0 else blocks[|blocks| - 1].id + 1)
    requires forall i, j :: 0 <= i <= j < |blocks| ==> blocks[i].id <= blocks[j].id
    ensures forall j :: 0 <= j < |blocks| ==> blocks[j].id < b
  {}

  lemma PrevGrows(ids: seq<nat>, all: seq<nat>, blocks: seq<BlockRef>, r: BlockRef)
    requires |ids| <= |all| && all[..|ids|] == ids && r.lo == |ids| && forall j :: 0 <= j < |blocks| ==> blocks[j].lo <= |ids|
    ensures PrevStored(ids, blocks) && r.prev == Last(ids) <==> PrevStored(all, blocks + [r])
  {
    var more := blocks + [r];
    assert forall j :: 0 <= j < |blocks| ==> more[j] == blocks[j];
    assert more[|blocks|] == r;
    assert forall i :: 0 <= i < |ids| ==> all[i] == all[..|ids|][i];
  }

  lemma TableShort(out: seq<Token>, origin: nat, ids: seq<nat>, blocks: seq<BlockRef>, track: bool, b: nat, table: seq<Jump>)
    requires Flushed(out, origin, ids, blocks, track) && IndexOk(table, blocks, origin)
    requires forall i :: 0 <= i < |ids| ==> ids[i] < b * BLOCK_SIZE
    ensures |table| <= b
  {
    BlocksBelow(out, origin, ids, blocks, track, b);
  }

  /** Everything about the blocks written so far carries over to one more block. */
  lemma Grown(out: seq<Token>, grown: seq<Token>, origin: nat, ids: seq<nat>, own: seq<nat>, blocks: seq<BlockRef>, r: BlockRef, track: bool,
              table: seq<Jump>)
    requires Flushed(out, origin, ids, blocks, track) && IndexOk(table, blocks, origin) && origin <= |out|
    requires |out| <= |grown| && grown[..|out|] == out
    requires own != [] && Sorted(ids + own) && forall i :: 0 <= i < |ids| ==> ids[i] < (r.id + 1) * BLOCK_SIZE
    requires BlockStored(grown, ids + own, r, track) && r.at == |out| && r.lo == |ids| && r.hi == |ids + own| && r.End(track) == |grown|
    ensures |table| <= r.id + 1
    ensures Flushed(grown, origin, ids + own, blocks + [r], track)
    ensures IndexOk(table + Fill(r.id + 1 - |table|, Jump(r.lo, r.at - origin)), blocks + [r], origin)
    ensures PrevStored(ids, blocks) && r.prev == Last(ids) <==> PrevStored(ids + own, blocks + [r])
    ensures Apart(ids + own, blocks + [r]) <==> Apart(ids, blocks) && Fits(ids, own, r.id)
  {
    hide Flushed, IndexOk, PrevStored, Sorted, BlockStored, Apart, Fits;
    var all := ids + own;
    assert all[..|ids|] == ids;
    BlocksBelow(out, origin, ids, blocks, track, r.id + 1);
    NoBlocks(out, origin, ids, blocks, track);
    SpansOf(out, ids, blocks, track, origin);
    IndexGrows(table, blocks, r, origin);
    FlushedGrows(out, grown, origin, ids, all, blocks, r, track);
    PrevGrows(ids, all, blocks, r);
    OwnBlock(grown, all, r, track);
    ApartGrows(ids, own, blocks, r);
  }

  /** The identifiers of a block can be written: no block with its number is there yet, or it holds the last of its range alone. */
  ghost predicate Fits(ids: seq<nat>, own: seq<nat>, id: nat) {
    own == [] || ids == [] || Last(ids) / BLOCK_SIZE != id || own == [id * BLOCK_SIZE + (BLOCK_SIZE - 1)]
  }

  lemma OwnBlock(file: seq<Token>, all: seq<nat>, r: BlockRef, track: bool)
    requires BlockStored(file, all, r, track)
    ensures r.lo < |all| && all[r.lo] / BLOCK_SIZE == r.id
  {}

  lemma SpansOf(out: seq<Token>, ids: seq<nat>, blocks: seq<BlockRef>, track: bool, origin: nat)
    requires Flushed(out, origin, ids, blocks, track)
    ensures forall j :: 0 <= j < |blocks| ==> blocks[j].lo < blocks[j].hi <= |ids|
  {
    forall j | 0 <= j < |blocks|
      ensures blocks[j].lo < blocks[j].hi <= |ids|
    {
      StoredSpan(out, ids, blocks[j], track);
    }
  }

  lemma ApartGrows(ids: seq<nat>, own: seq<nat>, blocks: seq<BlockRef>, r: BlockRef)
    requires r.lo == |ids| && r.hi == |ids + own| && own != [] && own[0] / BLOCK_SIZE == r.id
    requires (blocks == [] <==> ids == []) && (blocks != [] ==> blocks[|blocks| - 1].id == Last(ids) / BLOCK_SIZE)
    requires forall j :: 0 <= j < |blocks| ==> blocks[j].lo < blocks[j].hi <= |ids|
    ensures Apart(ids + own, blocks + [r]) <==> Apart(ids, blocks) && Fits(ids, own, r.id)
  {
    var all, more := ids + own, blocks + [r];
    forall j | 0 < j < |blocks|
      ensures ApartAt(all, more, j) <==> ApartAt(ids, blocks, j)
    {
      assert all[blocks[j].lo] == ids[blocks[j].lo];
    }
    if blocks != [] {
      assert all[r.lo] == own[0];
      assert ApartAt(all, more, |blocks|) <==> Fits(ids, own, r.id);
    }
  }

  ghost function Without(s: seq<nat>, x: nat): (r: seq<nat>)
    ensures forall y :: y in r <==> y in s && y != x
  {
    if s == [] then [] else
      var rest := Without(s[..|s| - 1], x);
      assert s == s[..|s| - 1] + [s[|s| - 1]];
      if s[|s| - 1] == x then rest else rest + [s[|s| - 1]]
  }

  lemma {:induction false} WithoutSorted(s: seq<nat>, x: nat)
    requires Sorted(s)
    ensures Sorted(Without(s, x))
  {
    if s != [] {
      var rest := Without(s[..|s| - 1], x);
      WithoutSorted(s[..|s| - 1], x);
      forall i | 0 <= i < |rest|
        ensures rest[i] < s[|s| - 1]
      {
        assert rest[i] in rest;
      }
    }
  }

  lemma {:induction false} WithoutAbsent(s: seq<nat>, x: nat)
    requires x !in s
    ensures Without(s, x) == s
  {
    if s != [] {
      WithoutAbsent(s[..|s| - 1], x);
      assert s == s[..|s| - 1] + [s[|s| - 1]];
    }
  }

  /** Taking out a number that nothing lies past takes out the last one, or nothing. */
  lemma WithoutTop(a: seq<nat>, s: seq<nat>, x: nat)
    requires Sorted(s) && forall i :: 0 <= i < |s| ==> s[i] <= x
    ensures Without(s, x) == if s != [] && Last(s) == x then s[..|s| - 1] else s
    ensures s != [] && Last(s) == x ==> a + s[..|s| - 1] == (a + s)[..|a + s| - 1]
  {
    if s != [] && Last(s) == x {
      WithoutAbsent(s[..|s| - 1], x);
    } else {
      WithoutAbsent(s, x);
    }
  }

  lemma BitsErased(words: seq<seq<bool>>, own: seq<nat>, base: nat, bit: nat)
    requires BlockBits(words, own, base) && bit < BLOCK_SIZE
    ensures var w, i := bit / WORD, bit % WORD;
            |words[w]| == WORD && BlockBits(words[w := words[w][i := false]], Without(own, base + bit), base)
  {
    BitsShape(words, own, base);
    WithoutSorted(own, base + bit);
    var at, i := bit / WORD, bit % WORD;
    var next, less := words[at := words[at][i := false]], Without(own, base + bit);
    forall k | 0 <= k < |less|
      ensures base <= less[k] < base + BLOCK_SIZE
    {
      assert less[k] in less;
    }
    forall w | 0 <= w < NUM_WORDS
      ensures WordBits(next, less, base, w)
    {
      assert WordBits(words, own, base, w);
      forall k | 0 <= k < WORD
        ensures next[w][k] <==> (base + WORD * w + k) in less
      {
        assert words[w][k] <==> (base + WORD * w + k) in own;
      }
    }
  }

  lemma SortedWithout(a: seq<nat>, b: seq<nat>, x: nat)
    requires Sorted(a + b)
    ensures Sorted(a + Without(b, x))
  {
    var c := Without(b, x);
    assert (a + b)[|a|..] == b && (a + b)[..|a|] == a;
    WithoutSorted(b, x);
    forall i, j | 0 <= i < |a| && 0 <= j < |c|
      ensures a[i] < c[j]
    {
      assert c[j] in b;
      var k :| 0 <= k < |b| && b[k] == c[j];
      assert (a + b)[i] < (a + b)[|a| + k];
    }
  }

  lemma WithoutBounds(s: seq<nat>, x: nat)
    requires forall i :: 0 <= i < |s| ==> MIN <= s[i] < EOF
    ensures forall i :: 0 <= i < |Without(s, x)| ==> MIN <= Without(s, x)[i] < EOF
  {
    var r := Without(s, x);
    forall i | 0 <= i < |r|
      ensures MIN <= r[i] < EOF
    {
      assert r[i] in r;
    }
  }

  /** The sentinel closes the file. */
  lemma Sealed(out: seq<Token>, grown: seq<Token>, origin: nat, ids: seq<nat>, blocks: seq<BlockRef>, r: BlockRef, track: bool)
    requires Flushed(out, origin, ids, blocks, track) && Sorted(ids)
    requires forall i :: 0 <= i < |ids| ==> MIN <= ids[i] < EOF
    requires |out| <= |grown| && grown[..|out|] == out
    requires r.id == EOF / BLOCK_SIZE && r.at == |out| && r.lo == |ids| && r.hi == |ids| + 1 && BlockStored(grown, ids + [EOF], r, track)
    ensures Stored(grown, origin, ids, blocks + [r], track) && (Apart(ids + [EOF], blocks + [r]) <==> Apart(ids, blocks))
  {
    hide BlockStored, BlockRef.End, Apart, ApartAt, Sorted, Chained;
    BlocksBelow(out, origin, ids, blocks, track, BLOCK_SIZE);
    BlocksStay(out, grown, origin, ids, blocks, track);
    SealedChain(|out|, origin, ids, blocks, r, track);
    SealedSorted(ids);
    NoBlocks(out, origin, ids, blocks, track);
    ApartGrows(ids, [EOF], blocks, r);
  }

  lemma BlocksStay(out: seq<Token>, grown: seq<Token>, origin: nat, ids: seq<nat>, blocks: seq<BlockRef>, track: bool)
    requires Flushed(out, origin, ids, blocks, track) && |out| <= |grown| && grown[..|out|] == out
    ensures forall j :: 0 <= j < |blocks| ==> BlockStored(grown, ids + [EOF], blocks[j], track) && blocks[j].lo < blocks[j].hi <= |ids|
  {
    hide BlockStored, BlockRef.End;
    var all := ids + [EOF];
    assert all[..|ids|] == ids;
    forall j | 0 <= j < |blocks|
      ensures BlockStored(grown, all, blocks[j], track) && blocks[j].lo < blocks[j].hi <= |ids|
    {
      BlockStays(out, ids, blocks[j], track, grown, all);
      StoredSpan(out, ids, blocks[j], track);
    }
  }

  lemma SealedSorted(ids: seq<nat>)
    requires Sorted(ids) && forall i :: 0 <= i < |ids| ==> MIN <= ids[i] < EOF
    ensures Sorted(ids + [EOF])
  {}

  lemma SealedChain(end: nat, origin: nat, ids: seq<nat>, blocks: seq<BlockRef>, r: BlockRef, track: bool)
    requires if blocks == [] then ids == [] && end == origin
             else blocks[0].lo == 0 && blocks[0].at == origin && blocks[|blocks| - 1].hi == |ids| && blocks[|blocks| - 1].End(track) == end
    requires forall j :: 0 <= j < |blocks| ==> blocks[j].lo < blocks[j].hi <= |ids|
    requires forall j :: 0 <= j < |blocks| - 1 ==> blocks[j].hi == blocks[j + 1].lo && blocks[j].End(track) == blocks[j + 1].at
    requires forall i, j :: 0 <= i <= j < |blocks| ==> blocks[i].id <= blocks[j].id
    requires forall j :: 0 <= j < |blocks| ==> blocks[j].id < BLOCK_SIZE
    requires r.id == EOF / BLOCK_SIZE && r.at == end && r.lo == |ids| && r.hi == |ids| + 1
    ensures Chained(ids + [EOF], blocks + [r], track) && (blocks + [r])[0].at == origin
  {
    hide BlockRef.End;
  }

  lemma NoBlocks(out: seq<Token>, origin: nat, ids: seq<nat>, blocks: seq<BlockRef>, track: bool)
    requires Flushed(out, origin, ids, blocks, track)
    ensures blocks == [] <==> ids == []
  {
    if blocks != [] {
      StoredSpan(out, ids, blocks[0], track);
    }
  }

  lemma StoredSpan(out: seq<Token>, ids: seq<nat>, r: BlockRef, track: bool)
    requires BlockStored(out, ids, r, track)
    ensures r.lo < r.hi <= |ids|
  {}

  /** The finished jump table can be used unless the only block is block 0, which leaves it with one entry. */
  lemma TableSealed(table: seq<Jump>, blocks: seq<BlockRef>, r: BlockRef, origin: nat, b: nat, more: seq<Jump>)
    requires IndexOk(table, blocks, origin) && |table| <= b + 1 && b < BLOCK_SIZE && origin <= r.at && r.id == BLOCK_SIZE - 1
    requires forall i, j :: 0 <= i <= j < |blocks| ==> blocks[i].id <= blocks[j].id
    requires var n := if BLOCK_SIZE <= |table| then |table| else if b == 0 then 1 else b + 2;
             more == table + Fill(n - |table|, Jump(r.lo, r.at - origin))
    ensures |more| != 2 && TableNames(more, blocks + [r], origin)
    ensures TableOk(more, blocks + [r], origin) <==> |more| > 2 || blocks == []
  {
    var all := blocks + [r];
    forall i | 0 <= i < |more| && i < BLOCK_SIZE
      ensures JumpOk(all, origin, i, more[i])
    {
      if i < |table| {
        assert JumpOk(blocks, origin, i, table[i]);
        var j: nat :| FirstFrom(blocks, i, j) && origin <= blocks[j].at && table[i] == Jump(blocks[j].lo, blocks[j].at - origin);
        assert FirstFrom(all, i, j);
      } else {
        LastIsLargest(blocks, table, i);
        assert FirstFrom(all, i, |blocks|);
      }
    }
    if blocks != [] {
      assert all[0] == blocks[0];
      LastIsLargest(blocks, table, |table|);
    }
  }

  function ClearWord(): (w: seq<bool>)
    ensures |w| == WORD && forall i :: 0 <= i < WORD ==> !w[i]
  {
    seq(WORD, _ => false)
  }

  lemma NoneSet(words: seq<seq<bool>>)
    requires |words| == NUM_WORDS && forall w :: 0 <= w < NUM_WORDS ==> words[w] == ClearWord()
    ensures BlockBits(words, [], 0)
  {}

  /** A buffer without a bit set. */
  method NewBits() returns (bits: array<seq<bool>>)
    ensures fresh(bits) && BlockBits(bits[..], [], 0)
  {
    hide BlockBits, ClearWord;
    bits := new seq<bool>[NUM_WORDS](_ => ClearWord());
    NoneSet(bits[..]);
  }

  lemma SortedPushed(a: seq<nat>, b: seq<nat>, x: nat)
    requires Sorted(a + b) && forall i :: 0 <= i < |a + b| ==> (a + b)[i] < x
    ensures Sorted(a + (b + [x])) && (b != [] ==> b[|b| - 1] < x)
  {
    assert a + (b + [x]) == (a + b) + [x];
    assert b != [] ==> (a + b)[|a + b| - 1] == b[|b| - 1];
  }

  lemma NothingFlushed(out: seq<Token>, track: bool)
    ensures Flushed(out, |out|, [], [], track) && IndexOk([], [], |out|) && PrevStored([], []) && Apart([], []) && Sorted([]) && Last([]) == 0
  {}

  class SparseBitmapWriter {
    const origin: nat
    const track: bool
    const bits: array<seq<bool>>
    var out: seq<Token>
    var blockIndex: seq<Jump>
    var popcnt: nat
    var block: nat
    var prevValue: nat
    var lastInFlushed: nat

    ghost var flushed: seq<nat>
    ghost var pending: seq<nat>
    ghost var blocks: seq<BlockRef>
    ghost var exact: bool    // when a block was flushed, its last pushed identifier was still there
    ghost var apart: bool    // when a block was flushed, it fitted behind the others

    ghost function Contents(): seq<nat>
      reads this`flushed, this`pending
    {
      flushed + pending
    }

    /** The flushed blocks and the buffered one. Blocks with the same number are possible. */
    ghost predicate Valid()
      reads this, bits
    {
      && origin <= |out| && block < BLOCK_SIZE && BlockBits(bits[..], pending, block * BLOCK_SIZE)
      && Sorted(flushed + pending) && (forall i :: 0 <= i < |flushed| ==> MIN <= flushed[i] < (block + 1) * BLOCK_SIZE && flushed[i] < EOF)
      && (forall i :: 0 <= i < |pending| ==> MIN <= pending[i] < EOF)
      && popcnt == |flushed| && Flushed(out, origin, flushed, blocks, track)
      && IndexOk(blockIndex, blocks, origin)
      && (track ==> (exact <==> PrevStored(flushed, blocks) && lastInFlushed == Last(flushed)))
      && (apart <==> Apart(flushed, blocks))
    }

    constructor (out: seq<Token>, track: bool)
      ensures Valid() && Contents() == [] && exact && apart && this.track == track && origin == |out| && this.out == out && block == 0 && fresh(bits)
    {
      hide BlockBits, Flushed, IndexOk, PrevStored, Apart, Sorted, Last, Valid;
      this.out, this.origin, this.track := out, |out|, track;
      var blank := NewBits();
      bits := blank;
      blockIndex, popcnt, block, prevValue, lastInFlushed := [], 0, 0, 0, 0;
      flushed, pending, blocks, exact, apart := [], [], [], true, true;
      new;
      NothingFlushed(out, track);
      assert flushed + pending == [];
      ValidAgain();
    }

    /** Flushing now keeps the identifiers before later blocks right: the last pushed one is still there. */
    ghost predicate Faithful()
      reads this
    {
      exact && (pending == [] || prevValue == Last(Contents()))
    }

    /** Flushing now keeps the set readable. */
    ghost predicate Readable()
      reads this
    {
      apart && Fits(flushed, pending, block)
    }

    /** Adds an identifier past all others. After erasing, its block may lie before the current one. */
    method PushBack(value: nat)
      requires Valid() && MIN <= value < EOF
      requires Contents() != [] ==> Last(Contents()) < value
      modifies this, bits
      ensures Valid() && Contents() == old(Contents()) + [value] && prevValue == value && block == value / BLOCK_SIZE
      ensures exact == if old(block) == block then old(exact) else old(Faithful())
      ensures apart == if old(block) == block then old(apart) else old(Readable())
      ensures flushed == if old(block) == block then old(flushed) else old(Contents())
    {
      hide BlockBits, Flushed, IndexOk, PrevStored, Apart, Sorted, Valid, Last, Fits;
      ValidFacts();
      LastOfAll(value);
      var b := value / BLOCK_SIZE;
      if b != block {
        Flush();
        ValidFacts();
        EmptyBits(bits[..], block * BLOCK_SIZE, b * BLOCK_SIZE);
        block := b;
        ValidAgain();
      }
      Buffer(value);
    }

    method Buffer(value: nat)
      requires Valid() && MIN <= value < EOF && value / BLOCK_SIZE == block && forall i :: 0 <= i < |flushed + pending| ==> (flushed + pending)[i] < value
      modifies this`prevValue, this`pending, bits
      ensures Valid() && pending == old(pending) + [value] && prevValue == value
    {
      hide BlockBits, Flushed, IndexOk, PrevStored, Apart, Sorted, Valid, Last;
      ValidFacts();
      var bit := value % BLOCK_SIZE;
      BitsShape(bits[..], pending, block * BLOCK_SIZE);
      SortedPushed(flushed, pending, value);
      BitsPushed(bits[..], pending, block * BLOCK_SIZE, bit);
      Set(bit);
      prevValue := value;
      pending := pending + [value];
      ValidAgain();
    }

    lemma LastOfAll(value: nat)
      requires Sorted(flushed + pending) && (Contents() != [] ==> Last(Contents()) < value)
      ensures forall i :: 0 <= i < |flushed + pending| ==> (flushed + pending)[i] < value
      ensures forall i :: 0 <= i < |flushed| ==> flushed[i] < value
      ensures flushed + (pending + [value]) == Contents() + [value] && (flushed + pending) + [value] == Contents() + [value]
    {
      assert forall i :: 0 <= i < |flushed| ==> (flushed + pending)[i] == flushed[i];
    }

    /** Sets a bit of the buffered block. */
    method Set(bit: nat)
      requires bits.Length == NUM_WORDS && bit < BLOCK_SIZE && forall w :: 0 <= w < NUM_WORDS ==> |bits[w]| == WORD
      modifies bits
      ensures bits[..] == old(bits[..])[bit / WORD := old(bits[bit / WORD])[bit % WORD := true]]
    {
      bits[bit / WORD] := bits[bit / WORD][bit % WORD := true];
    }

    method Unset(bit: nat)
      requires bits.Length == NUM_WORDS && bit < BLOCK_SIZE && forall w :: 0 <= w < NUM_WORDS ==> |bits[w]| == WORD
      modifies bits
      ensures bits[..] == old(bits[..])[bit / WORD := old(bits[bit / WORD])[bit % WORD := false]]
    {
      bits[bit / WORD] := bits[bit / WORD][bit % WORD := false];
    }

    method Flush()
      requires Valid()
      modifies this, bits
      ensures Valid() && pending == [] && flushed == old(flushed + pending) && exact == old(Faithful()) && apart == old(Readable())
      ensures block == old(block) && prevValue == old(prevValue)
      ensures old(pending) != [] ==> blocks != [] && blocks[|blocks| - 1].lo == |old(flushed)| && blocks[|blocks| - 1].id == block
    {
      hide BlockBits, Flushed, IndexOk, PrevStored, Apart, Sorted, BlockStored, Valid, Last, Fill;
      ValidFacts();
      var n := CountBits(pending, block * BLOCK_SIZE);
      if n != 0 {
        WritePending(n);
      }
    }

    /** Writes the buffered block and clears the buffer. */
    method WritePending(n: nat)
      requires Valid() && n == |pending| > 0
      modifies this`out, this`blockIndex, this`popcnt, this`lastInFlushed, this`exact, this`apart, this`blocks, this`flushed, this`pending, bits
      ensures Valid() && pending == [] && flushed == old(flushed + pending) && exact == old(Faithful()) && apart == old(Readable())
      ensures blocks != [] && blocks[|blocks| - 1].lo == |old(flushed)| && blocks[|blocks| - 1].id == block
    {
      hide BlockBits, Flushed, IndexOk, PrevStored, Apart, Sorted, BlockStored, Valid, Last, Fill, BlockRef.End, Fits;
      ghost var all, r := flushed + pending, BlockRef(block, |out|, |flushed|, |flushed| + n, lastInFlushed);
      ValidFacts();
      StorePending(n);
      Grown(old(out), out, origin, flushed, pending, blocks, r, track, old(blockIndex));
      exact := exact && prevValue == Last(all);
      apart := apart && Fits(flushed, pending, block);
      blocks, flushed, pending := blocks + [r], all, [];
      assert flushed + [] == flushed;
      ValidAgain();
    }

    /** Adds the buffered block to the table and the file, and clears the buffer. */
    method StorePending(n: nat)
      requires Valid() && n == |pending| > 0
      modifies this`out, this`blockIndex, this`popcnt, this`lastInFlushed, bits
      ensures |old(out)| <= |out| && out[..|old(out)|] == old(out) && popcnt == |flushed| + n
      ensures lastInFlushed == if track then prevValue else old(lastInFlushed)
      ensures var r := BlockRef(block, |old(out)|, |flushed|, |flushed| + n, old(lastInFlushed));
              BlockStored(out, flushed + pending, r, track) && r.End(track) == |out|
      ensures |old(blockIndex)| <= block + 1 && blockIndex == old(blockIndex) + Fill(block + 1 - |old(blockIndex)|, Jump(|flushed|, |old(out)| - origin))
      ensures BlockBits(bits[..], [], block * BLOCK_SIZE)
    {
      hide BlockBits, Flushed, IndexOk, PrevStored, Apart, Sorted, BlockStored, Valid, Fill, BlockRef.End;
      ValidFacts();
      ghost var all := flushed + pending;
      assert all[|all| - n..] == pending;
      BitsShape(bits[..], pending, block * BLOCK_SIZE);
      TableShort(out, origin, flushed, blocks, track, block + 1, blockIndex);
      AddBlock(block);
      DoFlush(n, all);
      popcnt := popcnt + n;
      Clear();
      EmptyBits(bits[..], 0, block * BLOCK_SIZE);
    }

    lemma ValidFacts()
      requires Valid()
      ensures origin <= |out| && block < BLOCK_SIZE && BlockBits(bits[..], pending, block * BLOCK_SIZE)
      ensures Sorted(flushed + pending) && Sorted(flushed) && Sorted(pending)
      ensures forall i :: 0 <= i < |flushed| ==> MIN <= flushed[i] < (block + 1) * BLOCK_SIZE && flushed[i] < EOF
      ensures forall i :: 0 <= i < |pending| ==> MIN <= pending[i] < EOF
      ensures forall i :: 0 <= i < |pending| ==> block * BLOCK_SIZE <= pending[i] < block * BLOCK_SIZE + BLOCK_SIZE
      ensures forall i :: 0 <= i < |flushed + pending| ==> MIN <= (flushed + pending)[i] < (block + 1) * BLOCK_SIZE && (flushed + pending)[i] < EOF
      ensures popcnt == |flushed| && Flushed(out, origin, flushed, blocks, track) && IndexOk(blockIndex, blocks, origin)
      ensures track ==> (exact <==> PrevStored(flushed, blocks) && lastInFlushed == Last(flushed))
      ensures apart <==> Apart(flushed, blocks)
      ensures pending == [] ==> flushed + pending == flushed
    {
      hide Flushed, IndexOk, PrevStored, Apart;
      BitsShape(bits[..], pending, block * BLOCK_SIZE);
      assert (flushed + pending)[..|flushed|] == flushed;
    }

    lemma ValidAgain()
      requires origin <= |out| && block < BLOCK_SIZE && BlockBits(bits[..], pending, block * BLOCK_SIZE)
      requires Sorted(flushed + pending)
      requires forall i :: 0 <= i < |flushed| ==> MIN <= flushed[i] < (block + 1) * BLOCK_SIZE && flushed[i] < EOF
      requires forall i :: 0 <= i < |pending| ==> MIN <= pending[i] < EOF
      requires popcnt == |flushed| && Flushed(out, origin, flushed, blocks, track) && IndexOk(blockIndex, blocks, origin)
      requires track ==> (exact <==> PrevStored(flushed, blocks) && lastInFlushed == Last(flushed))
      requires apart <==> Apart(flushed, blocks)
      ensures Valid()
    {}

    /** The table names the block about to be written up to its number. */
    method AddBlock(id: nat)
      requires |blockIndex| <= id + 1 && origin <= |out|
      modifies this`blockIndex
      ensures blockIndex == old(blockIndex) + Fill(id + 1 - |old(blockIndex)|, Jump(popcnt, |out| - origin))
    {
      var count := 1 + id - |blockIndex|;
      while count > 0
        invariant 0 <= count && count + |blockIndex| == id + 1
        invariant blockIndex == old(blockIndex) + Fill(id + 1 - |old(blockIndex)| - count, Jump(popcnt, |out| - origin))
      {
        blockIndex := blockIndex + [Jump(popcnt, |out| - origin)];
        count := count - 1;
      }
    }

    method Clear()
      requires bits.Length == NUM_WORDS
      modifies bits
      ensures BlockBits(bits[..], [], 0)
    {
      forall w | 0 <= w < NUM_WORDS {
        bits[w] := ClearWord();
      }
    }

    /** Takes an identifier back while its block is still buffered; only its place in the block matters. */
    method Erase(value: nat) returns (done: bool)
      requires Valid()
      modifies this, bits
      ensures Valid() && flushed == old(flushed) && block == old(block)
      ensures done <==> block <= value / BLOCK_SIZE
      ensures done ==> pending == Without(old(pending), block * BLOCK_SIZE + value % BLOCK_SIZE)
      ensures !done ==> pending == old(pending)
      ensures exact == old(exact) && apart == old(apart) && prevValue == old(prevValue)
    {
      hide BlockBits, Flushed, IndexOk, PrevStored, Apart, Sorted, Valid, Without, Last;
      if value / BLOCK_SIZE < block {
        return false;
      }
      ValidFacts();
      ghost var x := block * BLOCK_SIZE + value % BLOCK_SIZE;
      BitsErased(bits[..], pending, block * BLOCK_SIZE, value % BLOCK_SIZE);
      BitsShape(bits[..], pending, block * BLOCK_SIZE);
      WithoutBounds(pending, x);
      SortedWithout(flushed, pending, x);
      Unset(value % BLOCK_SIZE);
      pending := Without(pending, x);
      ValidAgain();
      done := true;
    }

    /** Writes what is buffered and the sentinel block. */
    method Finish()
      requires Valid()
      modifies this, bits
      ensures Stored(out, origin, old(Contents()), blocks, track)
      ensures Apart(old(Contents()) + [EOF], blocks) <==> old(Readable())
      ensures track ==> (PrevStored(old(Contents()), blocks) <==> old(Faithful()))
      ensures old(pending) != [] ==> |blocks| >= 2 && blocks[|blocks| - 2].lo == |old(flushed)| && blocks[|blocks| - 2].id == old(block)
      ensures |blockIndex| != 2 && (old(block) == 0 ==> |blockIndex| == 1) && TableNames(blockIndex, blocks, origin)
      ensures TableOk(blockIndex, blocks, origin) <==> |blockIndex| > 2 || old(Contents()) == []
    {
      hide BlockBits, Flushed, IndexOk, PrevStored, Apart, Sorted, BlockStored, Valid, Stored, TableOk, TableNames, Last, Fill;
      Flush();
      ValidFacts();
      BlocksBelow(out, origin, flushed, blocks, track, block + 1);
      TableShort(out, origin, flushed, blocks, track, block + 1, blockIndex);
      NoBlocks(out, origin, flushed, blocks, track);
      ghost var table, b, r := blockIndex, block, Sentinel();
      ghost var were := blocks;
      if |blockIndex| < BLOCK_SIZE {
        AddBlock(if block != 0 then block + 1 else 0);
      }
      Seal();
      TableSealed(table, were, r, origin, b, blockIndex);
    }

    /** The block that will stand behind all identifiers. */
    ghost function Sentinel(): BlockRef
      reads this`out, this`flushed, this`lastInFlushed
    {
      BlockRef(EOF / BLOCK_SIZE, |out|, |flushed|, |flushed| + 1, lastInFlushed)
    }

    /** Writes the sentinel block. */
    method Seal()
      requires block < BLOCK_SIZE && BlockBits(bits[..], [], block * BLOCK_SIZE) && Flushed(out, origin, flushed, blocks, track) && Sorted(flushed)
      requires forall i :: 0 <= i < |flushed| ==> MIN <= flushed[i] < EOF
      requires forall j :: 0 <= j < |blocks| ==> blocks[j].lo <= |flushed|
      modifies this`out, this`block, this`lastInFlushed, this`blocks, bits
      ensures blocks == old(blocks) + [old(Sentinel())] && Stored(out, origin, flushed, blocks, track)
      ensures PrevStored(flushed, blocks) <==> PrevStored(flushed, old(blocks)) && old(lastInFlushed) == Last(flushed)
      ensures Apart(flushed + [EOF], blocks) <==> Apart(flushed, old(blocks))
    {
      hide BlockBits, Flushed, PrevStored, Apart, Sorted, BlockStored, Stored;
      EmptyBits(bits[..], block * BLOCK_SIZE, (BLOCK_SIZE - 1) * BLOCK_SIZE);
      block := EOF / BLOCK_SIZE;
      SetSentinel();
      ghost var r := Sentinel();
      ghost var all := flushed + [EOF];
      assert all[|all| - 1..] == [EOF];
      DoFlush(1, all);
      Sealed(old(out), out, origin, flushed, blocks, r, track);
      assert flushed[..|flushed|] == flushed;
      PrevGrows(flushed, flushed, blocks, r);
      blocks := blocks + [r];
    }

    method SetSentinel()
      requires BlockBits(bits[..], [], (BLOCK_SIZE - 1) * BLOCK_SIZE)
      modifies bits
      ensures BlockBits(bits[..], [EOF], (BLOCK_SIZE - 1) * BLOCK_SIZE)
    {
      hide BlockBits;
      BitsShape(bits[..], [], (BLOCK_SIZE - 1) * BLOCK_SIZE);
      BitsPushed(bits[..], [], (BLOCK_SIZE - 1) * BLOCK_SIZE, EOF % BLOCK_SIZE);
      Set(EOF % BLOCK_SIZE);
      assert [] + [EOF] == [EOF];
    }

    /** Population count of the buffered block. */
    method CountBits(ghost own: seq<nat>, ghost base: nat) returns (n: nat)
      requires BlockBits(bits[..], own, base)
      ensures n == |own|
    {
      n := 0;
      var w := 0;
      RankEnds(own, base);
      while w < NUM_WORDS
        invariant w <= NUM_WORDS && n == Rank(own, base + WORD * w)
      {
        WordRank(bits[..], own, base, w);
        n := n + Popcount(bits[w]);
        w := w + 1;
      }
    }

    /** Rank samples, kept in 16 bits. */
    method WriteBlockIndex(ghost own: seq<nat>, ghost base: nat)
      requires BlockBits(bits[..], own, base) && |own| < BLOCK_SIZE
      modifies this`out
      ensures |out| == |old(out)| + NUM_SAMPLES && out[..|old(out)|] == old(out)
      ensures forall s :: 0 <= s < NUM_SAMPLES ==> out[|old(out)| + s] == Short(Rank(own, base + SAMPLE * s))
    {
      hide BlockBits, Rank;
      BitsLength(own, base);
      RankEnds(own, base);
      var n, w := 0, 0;
      while w < NUM_WORDS
        invariant w <= NUM_WORDS && w % SAMPLE_WORDS == 0 && n == Rank(own, base + WORD * w)
        invariant |out| == |old(out)| + w / SAMPLE_WORDS && out[..|old(out)|] == old(out)
        invariant forall s :: 0 <= s < w / SAMPLE_WORDS ==> out[|old(out)| + s] == Short(Rank(own, base + SAMPLE * s))
      {
        assert WORD * w == SAMPLE * (w / SAMPLE_WORDS);
        out := out + [Short(n)];
        var i := 0;
        ghost var sampled := out;
        while i < SAMPLE_WORDS
          invariant i <= SAMPLE_WORDS && out == sampled && n == Rank(own, base + WORD * (w + i))
        {
          WordRank(bits[..], own, base, w + i);
          n := (n + Popcount(bits[w + i])) % 0x1_0000;
          i := i + 1;
        }
        w := w + SAMPLE_WORDS;
      }
    }

    lemma BitsLength(own: seq<nat>, base: nat)
      requires BlockBits(bits[..], own, base)
      ensures bits.Length == NUM_WORDS && Sorted(own) && forall i :: 0 <= i < |own| ==> base <= own[i] < base + BLOCK_SIZE
    {}

    method WriteWords(ghost own: seq<nat>, ghost base: nat)
      requires BlockBits(bits[..], own, base)
      modifies this`out
      ensures |out| == |old(out)| + NUM_WORDS && out[..|old(out)|] == old(out)
      ensures bits.Length == NUM_WORDS && forall w :: 0 <= w < NUM_WORDS ==> out[|old(out)| + w] == Long(bits[..][w])
    {
      var w := 0;
      while w < NUM_WORDS
        invariant w <= NUM_WORDS && |out| == |old(out)| + w && out[..|old(out)|] == old(out)
        invariant forall k :: 0 <= k < w ==> out[|old(out)| + k] == Long(bits[k])
      {
        out := out + [Long(bits[w])];
        w := w + 1;
      }
    }

    /** The set bits in increasing order. */
    method WriteSparse(ghost own: seq<nat>, ghost base: nat)
      requires BlockBits(bits[..], own, base)
      modifies this`out
      ensures |out| == |old(out)| + |own| && out[..|old(out)|] == old(out)
      ensures forall i :: 0 <= i < |own| ==> out[|old(out)| + i] == Short(own[i] % BLOCK_SIZE)
    {
      hide BlockBits, Rank, Sorted;
      BitsLength(own, base);
      RankEnds(own, base);
      var w := 0;
      while w < NUM_WORDS
        invariant w <= NUM_WORDS && |out| == |old(out)| + Rank(own, base + WORD * w) && out[..|old(out)|] == old(out)
        invariant forall i :: 0 <= i < Rank(own, base + WORD * w) ==> out[|old(out)| + i] == Short(own[i] % BLOCK_SIZE)
      {
        WordRank(bits[..], own, base, w);
        var i := 0;
        while i < WORD
          invariant i <= WORD && |out| == |old(out)| + Rank(own, base + (WORD * w + i)) && out[..|old(out)|] == old(out)
          invariant forall k :: 0 <= k < Rank(own, base + (WORD * w + i)) ==> out[|old(out)| + k] == Short(own[k] % BLOCK_SIZE)
        {
          BitRank(bits[..], own, base, w, i);
          if bits[w][i] {
            out := out + [Short(WORD * w + i)];
          }
          i := i + 1;
        }
        w := w + 1;
      }
    }

    /** Writes the identifiers of the buffered block: samples and words, nothing, or one by one. */
    method WriteBody(n: nat, ghost all: seq<nat>, ghost r: BlockRef)
      requires r.hi == |all| && r.lo == |all| - n && 0 < n <= BLOCK_SIZE && |out| == r.DataAt(track)
      requires BlockBits(bits[..], all[r.lo..], r.Base())
      modifies this`out
      ensures |old(out)| <= |out| && out[..|old(out)|] == old(out)
      ensures BodyStored(out, all, r, track) && r.End(track) == |out|
    {
      hide BlockBits, Rank, Sorted, BodyStored;
      ghost var own, base, header := all[r.lo..], r.Base(), out;
      if n > BITSET_THRESHOLD {
        if n != BLOCK_SIZE {
          WriteBlockIndex(own, base);
          ghost var sampled := out;
          WriteWords(own, base);
          Extends(header, sampled, out);
          DenseWritten(out, header, sampled, all, r, track, bits[..]);
        } else {
          RangeWritten(out, header, all, r, track);
        }
      } else {
        WriteSparse(own, base);
        SparseWritten(out, header, all, r, track);
      }
    }

    /** Writes the header and the identifiers of the buffered block. */
    method DoFlush(n: nat, ghost all: seq<nat>)
      requires 0 < n <= |all| && block < BLOCK_SIZE
      requires BlockBits(bits[..], all[|all| - n..], block * BLOCK_SIZE)
      modifies this`out, this`lastInFlushed
      ensures |old(out)| <= |out| && out[..|old(out)|] == old(out)
      ensures lastInFlushed == if track then prevValue else old(lastInFlushed)
      ensures var r := BlockRef(block, |old(out)|, |all| - n, |all|, old(lastInFlushed));
              BlockStored(out, all, r, track) && r.End(track) == |out|
    {
      ghost var own, base, first := all[|all| - n..], block * BLOCK_SIZE, |out|;
      BitsLength(own, base);
      InBlock(own, block);
      RankEnds(own, base);
      OwnCount(own, base);
      hide BlockBits, Rank, Sorted, BlockStored, BodyStored, HeaderStored;
      out := out + [Short(block), Short(n - 1)];
      if track {
        out := out + [Int(lastInFlushed)];
        lastInFlushed := prevValue;
      }
      ghost var header := out;
      ghost var r := BlockRef(block, first, |all| - n, |all|, old(lastInFlushed));
      WriteBody(n, all, r);
      HeaderKept(old(out), header, out, r, track);
      BlockWritten(out, all, r, track);
    }
  }

  lemma Extends(a: seq<Token>, b: seq<Token>, c: seq<Token>)
    requires |a| <= |b| <= |c| && b[..|a|] == a && c[..|b|] == b
    ensures c[..|a|] == a
  {
    assert c[..|a|] == c[..|b|][..|a|];
  }

  ghost predicate BodyStored(file: seq<Token>, all: seq<nat>, r: BlockRef, track: bool) {
    && r.lo < r.hi <= |all| && r.End(track) <= |file|
    && (r.hi - r.lo <= BITSET_THRESHOLD ==> SparseStored(file, all, r, track))
    && (BITSET_THRESHOLD < r.hi - r.lo < BLOCK_SIZE ==> DenseStored(file, all[r.lo..r.hi], r, track))
  }

  ghost predicate HeaderStored(file: seq<Token>, r: BlockRef, track: bool) {
    && r.lo < r.hi && r.DataAt(track) <= |file|
    && file[r.at] == Short(r.id) && file[r.at + 1] == Short(r.Count() - 1)
    && (track ==> file[r.at + 2] == Int(r.prev))
  }

  lemma BlockWritten(file: seq<Token>, all: seq<nat>, r: BlockRef, track: bool)
    requires BodyStored(file, all, r, track) && HeaderStored(file, r, track)
    requires r.hi == |all| && r.Count() <= BLOCK_SIZE && forall i :: 0 <= i < r.Count() ==> all[r.lo..][i] / BLOCK_SIZE == r.id
    ensures BlockStored(file, all, r, track)
  {
    hide SparseStored, DenseStored;
    forall i | r.lo <= i < r.hi
      ensures all[i] / BLOCK_SIZE == r.id
    {
      assert all[r.lo..][i - r.lo] == all[i];
    }
  }

  lemma HeaderKept(before: seq<Token>, header: seq<Token>, file: seq<Token>, r: BlockRef, track: bool)
    requires r.lo < r.hi && r.at == |before|
    requires header == before + [Short(r.id), Short(r.Count() - 1)] + (if track then [Int(r.prev)] else [])
    requires |header| <= |file| && file[..|header|] == header
    ensures HeaderStored(file, r, track)
  {
    assert forall i :: 0 <= i < |header| ==> file[i] == file[..|header|][i];
  }

  lemma RangeWritten(file: seq<Token>, header: seq<Token>, all: seq<nat>, r: BlockRef, track: bool)
    requires file == header && |header| == r.DataAt(track) && r.lo < r.hi == |all| && r.Count() == BLOCK_SIZE
    ensures BodyStored(file, all, r, track) && r.End(track) == |file|
  {}

  lemma SparseWritten(file: seq<Token>, header: seq<Token>, all: seq<nat>, r: BlockRef, track: bool)
    requires |header| == r.DataAt(track) && r.lo < r.hi == |all| && r.Count() <= BITSET_THRESHOLD
    requires |file| == |header| + r.Count() && forall i :: 0 <= i < r.Count() ==> file[|header| + i] == Short(all[r.lo..][i] % BLOCK_SIZE)
    ensures BodyStored(file, all, r, track) && r.End(track) == |file|
  {
    forall i | r.lo <= i < r.hi
      ensures file[|header| + (i - r.lo)] == Short(all[i] % BLOCK_SIZE)
    {
      assert all[r.lo..][i - r.lo] == all[i];
    }
  }

  lemma DenseWritten(file: seq<Token>, header: seq<Token>, sampled: seq<Token>, all: seq<nat>, r: BlockRef, track: bool, words: seq<seq<bool>>)
    requires |header| == r.DataAt(track) && r.lo < r.hi == |all| && BITSET_THRESHOLD < r.Count() < BLOCK_SIZE
    requires BlockBits(words, all[r.lo..], r.Base()) && |sampled| == |header| + NUM_SAMPLES && |file| == |sampled| + NUM_WORDS
    requires file[..|sampled|] == sampled
    requires forall s :: 0 <= s < NUM_SAMPLES ==> sampled[|header| + s] == Short(Rank(all[r.lo..], r.Base() + SAMPLE * s))
    requires forall w :: 0 <= w < NUM_WORDS ==> file[|sampled| + w] == Long(words[w])
    ensures BodyStored(file, all, r, track) && r.End(track) == |file|
  {
    hide Rank, BitsOk;
    var own := all[r.lo..];
    assert own == all[r.lo..r.hi];
    forall s | 0 <= s < NUM_SAMPLES
      ensures file[|header| + s] == Short(Rank(own, r.Base() + SAMPLE * s))
    {
      assert file[..|sampled|][|header| + s] == sampled[|header| + s];
    }
    forall w | 0 <= w < NUM_WORDS
      ensures WordStored(file, own, r, track, w)
    {
      assert WordBits(words, own, r.Base(), w);
    }
  }

  lemma InBlock(own: seq<nat>, b: nat)
    requires forall i :: 0 <= i < |own| ==> b * BLOCK_SIZE <= own[i] < b * BLOCK_SIZE + BLOCK_SIZE
    ensures forall i :: 0 <= i < |own| ==> own[i] / BLOCK_SIZE == b
  {}

  lemma OwnCount(own: seq<nat>, base: nat)
    requires Sorted(own) && forall i :: 0 <= i < |own| ==> base <= own[i] < base + BLOCK_SIZE
    ensures |own| <= BLOCK_SIZE
  {
    if own != [] {
      Spread(own, 0, |own| - 1);
    }
  }
}
