/** Iterating over a stored sparse set: successor, rank and predecessor. */
module SparseBitmapReading {
  import opened Arithmetic
  import opened Limits
  import opened SparseBitmapFormat
  import opened SparseBitmapSearch

  /** How the current block is searched, and whether that search records the identifier before its result. */
  datatype Mode = Initial | Range(track: bool) | Sparse(track: bool) | Dense(track: bool)

  /** A bitset block read up to and including word w: where the stream is, and how many
      identifiers lie below the end of the word. */
  datatype DenseCtx = DenseCtx(popcnt: nat, wordIdx: int, word: seq<bool>, samples: seq<nat>)

  ghost predicate DenseOk(s: Bitmap, j: nat, ctx: DenseCtx, pos: nat)
    requires s.Has(j)
  {
    var r := s.blocks[j];
    && -1 <= ctx.wordIdx < NUM_WORDS && pos == r.WordsAt(s.written) + (ctx.wordIdx + 1)
    && (ctx.wordIdx >= 0 ==> |ctx.word| == WORD && BitsOk(s.Own(j), r.Base() + WORD * ctx.wordIdx, ctx.word))
    && ctx.popcnt == r.lo + Rank(s.Own(j), r.Base() + WORD * (ctx.wordIdx + 1))
    && (ctx.samples == [] || (|ctx.samples| == NUM_SAMPLES
                              && forall k :: 0 <= k < NUM_SAMPLES ==> ctx.samples[k] == Rank(s.Own(j), r.Base() + SAMPLE * k)))
  }

  /** The word under the stream position of a bitset block. */
  lemma NextWord(s: Bitmap, j: nat, w: nat)
    requires s.Valid() && j < |s.blocks| && w < NUM_WORDS && BITSET_THRESHOLD < s.blocks[j].Count() < BLOCK_SIZE
    ensures s.Has(j)
    ensures var at, base := s.blocks[j].WordsAt(s.written) + w, s.blocks[j].Base();
            && at < |s.file| && s.file[at].Long? && |s.file[at].word| == WORD
            && BitsOk(s.Own(j), base + WORD * w, s.file[at].word)
            && Rank(s.Own(j), base + WORD * w) + Popcount(s.file[at].word) == Rank(s.Own(j), base + WORD * (w + 1))
  {
    hide Sorted, Rank, BitsOk, Bitmap.Valid, SparseStored, Popcount;
    HasBlock(s, j);
    OwnFacts(s, j);
    assert DenseStored(s.file, s.Own(j), s.blocks[j], s.written);
    assert WordStored(s.file, s.Own(j), s.blocks[j], s.written, w);
    PopcountIsRank(s.Own(j), s.blocks[j].Base() + WORD * w, s.file[s.blocks[j].WordsAt(s.written) + w].word);
  }

  /** A full block holds every identifier of its range. */
  lemma FullBlock(own: seq<nat>, base: nat, target: nat)
    requires Sorted(own) && |own| == BLOCK_SIZE && base <= target < base + BLOCK_SIZE
    requires forall i :: 0 <= i < |own| ==> base <= own[i] < base + BLOCK_SIZE
    ensures own[target - base] == target && Rank(own, target) == target - base
  {
    Spread(own, 0, target - base);
    Spread(own, target - base, |own| - 1);
    RankIs(own, target, target - base);
  }

  /** The i-th value of a sorted block. */
  lemma SparseAt(s: Bitmap, j: nat, i: nat)
    requires s.Valid() && j < |s.blocks| && s.blocks[j].Count() <= BITSET_THRESHOLD && s.blocks[j].lo <= i < s.blocks[j].hi
    ensures s.Has(j) && s.blocks[j].End(s.written) == s.blocks[j].DataAt(s.written) + s.blocks[j].Count()
    ensures var at := s.blocks[j].DataAt(s.written) + (i - s.blocks[j].lo);
            at < |s.file| && s.file[at] == Short(s.Own(j)[i - s.blocks[j].lo] - s.blocks[j].Base())
    ensures s.Own(j)[i - s.blocks[j].lo] == s.All()[i]
  {
    hide Sorted, Rank, Bitmap.Valid, DenseStored;
    HasBlock(s, j);
    OwnFacts(s, j);
    assert SparseStored(s.file, s.All(), s.blocks[j], s.written);
  }

  /** The word of an identifier in its block, and the bit in the word. */
  lemma Places(id: nat, x: nat)
    requires id * BLOCK_SIZE <= x < id * BLOCK_SIZE + BLOCK_SIZE
    ensures x == id * BLOCK_SIZE + WORD * (x % BLOCK_SIZE / WORD) + x % WORD
    ensures x % BLOCK_SIZE / WORD < NUM_WORDS
  {
    assert x % BLOCK_SIZE == x - id * BLOCK_SIZE;
    assert x % WORD == x % BLOCK_SIZE % WORD;
  }

  lemma InWord(id: nat, w: nat, i: nat)
    requires w < NUM_WORDS && i < WORD
    ensures (id * BLOCK_SIZE + WORD * w + i) % BLOCK_SIZE / WORD == w
    ensures (id * BLOCK_SIZE + WORD * w + i) % WORD == i
  {
    Quotient(id, WORD * w + i, BLOCK_SIZE);
    Quotient(id * NUM_WORDS + w, i, WORD);
    Quotient(w, i, WORD);
  }

  function Mask(word: seq<bool>, n: nat): (m: seq<bool>)
    ensures |m| == |word|
  {
    seq(|word|, i requires 0 <= i < |word| => i < n && word[i])
  }

  lemma {:induction false} NoHighBits(ids: seq<nat>, base: nat, w: seq<bool>)
    requires Sorted(ids) && BitsOk(ids, base, w) && LeadingZeros(w) == |w|
    ensures Rank(ids, base) == Rank(ids, base + |w|)
  {
    NoBits(ids, base, w, |w|);
  }

  /** The identifiers below x are a prefix of the set. */
  lemma Below(own: seq<nat>, k: nat, x: nat)
    requires Sorted(own) && k < |own|
    ensures x in own[..k] <==> x in own && x < own[k]
    ensures Sorted(own[..k])
  {
    if x in own && x < own[k] {
      var i :| 0 <= i < |own| && own[i] == x;
      assert own[..k][i] == x;
    }
  }

  class SparseBitmapIterator {
    const file: seq<Token>
    const origin: nat
    const table: seq<Jump>
    const useBlockIndex: bool
    const prevWritten: bool
    const trackPrev: bool
    var pos: nat          // place in the stream
    var contBegin: nat    // where the next block starts
    var mode: Mode
    var first: nat        // identifiers before the block
    var indexMax: nat
    var block: nat
    var prev: nat
    var lazyPrev: bool    // the identifier before is looked up when asked for
    var value: nat
    var index: nat
    var sparseIndex: nat
    var missing: int
    var dense: DenseCtx

    ghost const s: Bitmap
    ghost var j: nat      // the current block
    ghost var cur: nat    // the rank of the value

    ghost predicate Fixed() {
      && s.Valid() && s.file == file && s.blocks[0].at == origin && s.written == prevWritten && (trackPrev ==> prevWritten)
      && TableStarts(table, s.blocks, origin)
    }

    /** The header of block j has been read, and the stream is inside the block. */
    ghost predicate Opened()
      reads this`pos, this`contBegin, this`mode, this`first, this`indexMax, this`block, this`sparseIndex, this`missing, this`dense, this`j
    {
      && s.Has(j)
      && block == s.blocks[j].Base() && first == s.blocks[j].lo && indexMax == s.blocks[j].hi && contBegin == s.blocks[j].End(s.written)
      && match mode
         case Initial => false
         case Range(_) => s.blocks[j].Count() == BLOCK_SIZE && missing == block - first
         case Sparse(_) => s.blocks[j].Count() <= BITSET_THRESHOLD && first <= sparseIndex <= indexMax && pos == s.blocks[j].DataAt(s.written) + (sparseIndex - first)
         case Dense(_) => BITSET_THRESHOLD < s.blocks[j].Count() < BLOCK_SIZE && DenseOk(s, j, dense, pos)
    }

    /** Nothing of the block has been read. */
    ghost predicate Fresh()
      reads this
    {
      && Opened()
      && (mode.Sparse? ==> sparseIndex == first) && (mode.Dense? ==> dense.wordIdx == -1)
      && mode.track == trackPrev && !lazyPrev && (trackPrev ==> prev == s.blocks[j].prev)
    }

    /** The iterator stands at the identifier of rank `cur`. */
    ghost predicate Standing()
      reads this
    {
      && Opened()
      && first <= cur < indexMax && value == s.All()[cur] && index == cur
      && (mode.Sparse? ==> sparseIndex == cur + 1)
      && (mode.Dense? ==> dense.wordIdx == value % BLOCK_SIZE / WORD)
      && PrevOk()
    }

    /** Where the identifier before the current one is known from. */
    ghost predicate PrevOk()
      requires Opened() && first <= cur < indexMax
      reads this
    {
      if !trackPrev then !mode.track && !lazyPrev
      else if mode.Dense? then mode.track == !lazyPrev && (if lazyPrev then first < cur else first == cur && prev == s.blocks[j].prev)
      else mode.track && !lazyPrev && prev == if cur == first then s.blocks[j].prev else s.All()[cur - 1]
    }

    ghost predicate Unread()
      reads this
    {
      mode == Initial && value == INVALID && block == 0 && pos == contBegin == origin && indexMax == 0 && !lazyPrev && j == 0
    }

    ghost predicate Valid()
      reads this
    {
      Fixed() && (Unread() || Standing() || (Fresh() && j == 0 && value == INVALID))
    }

    constructor (file: seq<Token>, origin: nat, table: seq<Jump>, useBlockIndex: bool, prevWritten: bool, trackPrev: bool, ghost s: Bitmap)
      requires s.Valid() && s.file == file && s.blocks[0].at == origin && s.written == prevWritten && TableStarts(table, s.blocks, origin)
      ensures Valid() && this.s == s && value == INVALID && index == 0 && this.table == table && this.trackPrev == (prevWritten && trackPrev)
      ensures Where() == 0
    {
      this.file, this.origin, this.table, this.useBlockIndex, this.prevWritten, this.s := file, origin, table, useBlockIndex, prevWritten, s;
      this.trackPrev := prevWritten && trackPrev;
      pos, contBegin, mode, first, indexMax, block, prev, lazyPrev := origin, origin, Initial, 0, 0, 0, INVALID, false;
      value, index, sparseIndex, missing, dense := INVALID, 0, 0, 0, DenseCtx(0, 0, [], []);
      j, cur := 0, 0;
    }

    lemma FixedFacts()
      requires Fixed()
      ensures s.Valid() && s.file == file && s.written == prevWritten && (trackPrev ==> prevWritten)
    {}

    /** Searches a full block. */
    method SeekRange(target: nat)
      requires Fixed() && Opened() && mode.Range? && s.Covers(j, target) && mode.track == trackPrev && !lazyPrev
      requires Fresh() || (Standing() && value < target)
      modifies this`value, this`index, this`prev, this`cur
      ensures Standing() && cur == first + Rank(s.Own(j), target) < indexMax
    {
      hide Bitmap.Valid, Rank, Sorted, DenseOk;
      FixedFacts();
      HasBlock(s, j);
      OwnFacts(s, j);
      FullBlock(s.Own(j), block, target);
      value := target;
      index := target - missing;
      if mode.track && index != first {
        prev := target - 1;
        FullBlock(s.Own(j), block, target - 1);
      }
      cur := index;
    }

    /** What a sorted block offers before its search. */
    lemma SparseFacts(target: nat)
      requires Fixed() && Opened() && mode.Sparse? && s.Covers(j, target) && (Fresh() || (Standing() && value < target))
      ensures s.Has(j) && j < |s.blocks| && first == s.blocks[j].lo && indexMax == s.blocks[j].hi <= |s.All()| && block == s.blocks[j].Base()
      ensures first <= sparseIndex <= indexMax && pos == s.blocks[j].DataAt(s.written) + (sparseIndex - first)
      ensures contBegin == s.blocks[j].DataAt(s.written) + s.blocks[j].Count() && |s.Own(j)| == indexMax - first
      ensures mode.track == trackPrev && !lazyPrev
      ensures mode.track && first < sparseIndex ==> block + value % BLOCK_SIZE == s.All()[sparseIndex - 1]
      ensures mode.track && first == sparseIndex ==> prev == s.blocks[j].prev
      ensures forall i :: 0 <= i < sparseIndex - first ==> s.Own(j)[i] < target
      ensures Sorted(s.Own(j)) && block <= target < block + BLOCK_SIZE && s.blocks[j].Count() <= BITSET_THRESHOLD
    {
      hide Bitmap.Valid, Rank;
      OwnFacts(s, j);
    }

    lemma SparseStanding()
      requires s.Has(j) && first == s.blocks[j].lo && indexMax == s.blocks[j].hi && block == s.blocks[j].Base()
      requires mode.Sparse? && first <= cur < indexMax && sparseIndex == cur + 1 && pos == s.blocks[j].DataAt(s.written) + (sparseIndex - first)
      requires contBegin == s.blocks[j].DataAt(s.written) + s.blocks[j].Count() && s.blocks[j].Count() <= BITSET_THRESHOLD
      requires mode.track == trackPrev && !lazyPrev && index == cur && value == s.All()[cur]
      requires mode.track ==> prev == if cur == first then s.blocks[j].prev else s.All()[cur - 1]
      ensures Standing()
    {}

    /** Searches a sorted block from where it was left. */
    method SeekSparse(target: nat) returns (found: bool)
      requires Fixed() && Opened() && mode.Sparse? && s.Covers(j, target)
      requires Fresh() || (Standing() && value < target)
      modifies this`value, this`index, this`prev, this`cur, this`pos, this`sparseIndex
      ensures found <==> Rank(s.Own(j), target) < |s.Own(j)|
      ensures found ==> Standing() && cur == first + Rank(s.Own(j), target)
      ensures !found ==> pos == contBegin
    {
      hide Bitmap.Valid, Rank, Sorted, Opened, Fresh, Standing, PrevOk, Fixed, BlockRef.Count, BlockRef.DataAt, BlockRef.Base, Bitmap.Has, Bitmap.All, Bitmap.Own, Bitmap.Covers;
      FixedFacts();
      SparseFacts(target);
      ghost var data := s.blocks[j].DataAt(s.written);
      var low := target % BLOCK_SIZE;
      var last: nat := value;
      while sparseIndex < indexMax
        invariant first <= sparseIndex <= indexMax && pos == data + (sparseIndex - first)
        invariant forall i :: 0 <= i < sparseIndex - first ==> s.Own(j)[i] < target
        invariant mode.track && first < sparseIndex ==> block + last % BLOCK_SIZE == s.All()[sparseIndex - 1]
        invariant mode.track && first == sparseIndex ==> prev == s.blocks[j].prev
      {
        SparseAt(s, j, sparseIndex);
        SparseOwn(sparseIndex, target);
        var doc := file[pos].v;
        pos := pos + 1;
        if doc >= low {
          RankIs(s.Own(j), target, sparseIndex - first);
          TakeSparse(doc, last);
          return true;
        }
        if mode.track {
          last := doc;
        }
        sparseIndex := sparseIndex + 1;
      }
      RankIs(s.Own(j), target, |s.Own(j)|);
      SparseCount();
      found := false;
    }

    /** The value just read is the result. */
    method TakeSparse(doc: nat, last: nat)
      requires s.Has(j) && first == s.blocks[j].lo && indexMax == s.blocks[j].hi && block == s.blocks[j].Base()
      requires mode.Sparse? && first <= sparseIndex < indexMax && pos == s.blocks[j].DataAt(s.written) + (sparseIndex + 1 - first)
      requires contBegin == s.blocks[j].DataAt(s.written) + s.blocks[j].Count() && s.blocks[j].Count() <= BITSET_THRESHOLD
      requires mode.track == trackPrev && !lazyPrev && block + doc == s.All()[sparseIndex]
      requires mode.track && first < sparseIndex ==> block + last % BLOCK_SIZE == s.All()[sparseIndex - 1]
      requires mode.track && first == sparseIndex ==> prev == s.blocks[j].prev
      modifies this`value, this`index, this`prev, this`cur, this`sparseIndex
      ensures Standing() && cur == old(sparseIndex)
    {
      hide Standing, Opened, Bitmap.All, Bitmap.Has, BlockRef.DataAt, BlockRef.Count, BlockRef.Base;
      value := block + doc;
      index := sparseIndex;
      if mode.track && sparseIndex != first {
        prev := block + last % BLOCK_SIZE;
      }
      cur := sparseIndex;
      sparseIndex := sparseIndex + 1;
      SparseStanding();
    }

    /** Comparing places in the block compares identifiers. */
    lemma SparseOwn(i: nat, target: nat)
      requires Fixed() && s.Has(j) && j < |s.blocks| && s.blocks[j].lo <= i < s.blocks[j].hi && block == s.blocks[j].Base()
      requires block <= target < block + BLOCK_SIZE
      ensures var doc := s.Own(j)[i - s.blocks[j].lo] - s.blocks[j].Base();
              0 <= doc < BLOCK_SIZE && (doc >= target % BLOCK_SIZE <==> target <= block + doc) && block + doc == s.All()[i]
      ensures |s.Own(j)| == s.blocks[j].hi - s.blocks[j].lo
    {
      hide Bitmap.Valid, Rank, Sorted;
      FixedFacts();
      OwnFacts(s, j);
    }

    lemma SparseCount()
      requires s.Has(j)
      ensures s.blocks[j].Count() == s.blocks[j].hi - s.blocks[j].lo
    {}

    /** Passes over whole groups of words by means of the rank samples; always forward. */
    method JumpDense(low: nat)
      requires Fixed() && j < |s.blocks| && s.Has(j) && first == s.blocks[j].lo && BITSET_THRESHOLD < s.blocks[j].Count() < BLOCK_SIZE
      requires DenseOk(s, j, dense, pos) && dense.samples != [] && low < BLOCK_SIZE && SAMPLE_WORDS <= low / WORD - dense.wordIdx
      modifies this`pos, this`dense
      ensures DenseOk(s, j, dense, pos) && old(dense.wordIdx) < dense.wordIdx <= low / WORD && dense.samples == old(dense.samples)
    {
      hide Bitmap.Valid, Rank, BitsOk, Popcount, Bitmap.Own, Bitmap.Has, Stored, BlockRef.Count;
      var group := low / SAMPLE;
      var rank := dense.samples[group];
      var w := group * SAMPLE_WORDS;
      NextWord(s, j, w);
      var delta := w - dense.wordIdx;
      assert delta > 0;
      pos := pos + (delta - 1);
      var word := file[pos].word;
      pos := pos + 1;
      assert SAMPLE * group == WORD * w;
      dense := DenseCtx(first + rank + Popcount(word), w, word, dense.samples);
    }

    /** Reads on up to word `to`. */
    method WalkDense(to: nat)
      requires Fixed() && j < |s.blocks| && s.Has(j) && BITSET_THRESHOLD < s.blocks[j].Count() < BLOCK_SIZE
      requires DenseOk(s, j, dense, pos) && dense.wordIdx <= to < NUM_WORDS
      modifies this`pos, this`dense
      ensures DenseOk(s, j, dense, pos) && dense.wordIdx == to && dense.samples == old(dense.samples)
    {
      hide Bitmap.Valid, Rank, BitsOk, Popcount, Bitmap.Own, Bitmap.Has, Stored, BlockRef.Count;
      var delta := to - dense.wordIdx;
      while delta > 0
        invariant 0 <= delta == to - dense.wordIdx && DenseOk(s, j, dense, pos) && dense.samples == old(dense.samples)
      {
        NextWord(s, j, dense.wordIdx + 1);
        var word := file[pos].word;
        pos := pos + 1;
        dense := DenseCtx(dense.popcnt + Popcount(word), dense.wordIdx + 1, word, dense.samples);
        delta := delta - 1;
      }
    }

    /** The first identifier after the current word, if the block has one. */
    method NextInDense(ghost target: nat) returns (found: bool)
      requires Fixed() && j < |s.blocks| && s.Has(j) && first == s.blocks[j].lo && block == s.blocks[j].Base()
      requires BITSET_THRESHOLD < s.blocks[j].Count() < BLOCK_SIZE
      requires DenseOk(s, j, dense, pos) && Rank(s.Own(j), target) == Rank(s.Own(j), block + WORD * (dense.wordIdx + 1))
      modifies this`pos, this`dense, this`value, this`index, this`cur
      ensures found <==> Rank(s.Own(j), target) < |s.Own(j)|
      ensures found ==> DenseOk(s, j, dense, pos) && cur == index == first + Rank(s.Own(j), target)
      ensures found ==> value == s.Own(j)[cur - first] && dense.wordIdx == value % BLOCK_SIZE / WORD
      ensures !found ==> pos == s.blocks[j].WordsAt(s.written) + NUM_WORDS
    {
      hide Bitmap.Valid, Rank, BitsOk, Popcount, Bitmap.Own, Bitmap.Has, Stored, BlockRef.Count, TrailingZeros, Sorted;
      OwnFacts(s, j);
      var w := dense.wordIdx + 1;
      while w < NUM_WORDS
        invariant 0 <= w <= NUM_WORDS && pos == s.blocks[j].WordsAt(s.written) + w && dense == old(dense)
        invariant dense.popcnt == first + Rank(s.Own(j), block + WORD * w)
        invariant Rank(s.Own(j), target) == Rank(s.Own(j), block + WORD * w)
      {
        NextWord(s, j, w);
        var word := file[pos].word;
        pos := pos + 1;
        var offset := TrailingZeros(word);
        if offset < |word| {
          FirstBit(s.Own(j), block + WORD * w, word);
          InWord(s.blocks[j].id, w, offset);
          value := block + w * WORD + offset;
          index := dense.popcnt;
          cur := index;
          dense := DenseCtx(dense.popcnt + Popcount(word), w, word, dense.samples);
          return true;
        }
        NoBits(s.Own(j), block + WORD * w, word, WORD);
        w := w + 1;
      }
      found := false;
    }

    /** Searches a bitset block. */
    method SeekDense(target: nat) returns (found: bool)
      requires Fixed() && j < |s.blocks| && s.Has(j) && first == s.blocks[j].lo && block == s.blocks[j].Base()
      requires BITSET_THRESHOLD < s.blocks[j].Count() < BLOCK_SIZE && s.Covers(j, target)
      requires DenseOk(s, j, dense, pos) && dense.wordIdx <= target % BLOCK_SIZE / WORD
      modifies this`pos, this`dense, this`value, this`index, this`cur
      ensures found <==> Rank(s.Own(j), target) < |s.Own(j)|
      ensures found ==> DenseOk(s, j, dense, pos) && cur == index == first + Rank(s.Own(j), target)
      ensures found ==> value == s.Own(j)[cur - first] && dense.wordIdx == value % BLOCK_SIZE / WORD
      ensures !found ==> pos == s.blocks[j].WordsAt(s.written) + NUM_WORDS
    {
      hide Bitmap.Valid, Rank, BitsOk, Popcount, Bitmap.Own, Bitmap.Has, Stored, BlockRef.Count, TrailingZeros, Sorted, DenseOk;
      var low := target % BLOCK_SIZE;
      var to := low / WORD;
      if dense.samples != [] && to - dense.wordIdx >= SAMPLE_WORDS {
        JumpDense(low);
      }
      WalkDense(to);
      LeftOfTarget(target);
      var left := dense.word[target % WORD..];
      var offset := TrailingZeros(left);
      if offset < |left| {
        value := target + offset;
        index := dense.popcnt - Popcount(left);
        cur := index;
        return true;
      }
      found := NextInDense(target);
    }

    /** What the rest of the target's word says. */
    lemma LeftOfTarget(target: nat)
      requires Fixed() && j < |s.blocks| && s.Has(j) && first == s.blocks[j].lo && block == s.blocks[j].Base() && s.Covers(j, target)
      requires DenseOk(s, j, dense, pos) && dense.wordIdx == target % BLOCK_SIZE / WORD
      ensures |dense.word| == WORD
      ensures var left := dense.word[target % WORD..];
              && dense.popcnt == first + Rank(s.Own(j), target) + Popcount(left)
              && (TrailingZeros(left) < |left| ==>
                    && Rank(s.Own(j), target) < |s.Own(j)| && s.Own(j)[Rank(s.Own(j), target)] == target + TrailingZeros(left)
                    && (target + TrailingZeros(left)) % BLOCK_SIZE / WORD == dense.wordIdx)
              && (TrailingZeros(left) == |left| ==> Rank(s.Own(j), target) == Rank(s.Own(j), block + WORD * (dense.wordIdx + 1)))
    {
      hide Bitmap.Valid, Rank, Popcount, Bitmap.Own, Bitmap.Has, Stored, BlockRef.Count, Sorted, TrailingZeros;
      OwnFacts(s, j);
      Places(s.blocks[j].id, target);
      LeftBits(s.Own(j), block, dense.wordIdx, dense.word, target);
      if TrailingZeros(dense.word[target % WORD..]) < WORD - target % WORD {
        InWord(s.blocks[j].id, dense.wordIdx, target % WORD + TrailingZeros(dense.word[target % WORD..]));
      }
    }

    /** Searches a bitset block; after its first identifier the one before is looked up on demand. */
    method SeekDenseBlock(target: nat) returns (found: bool)
      requires Fixed() && j < |s.blocks| && Opened() && mode.Dense? && s.Covers(j, target)
      requires Fresh() || (Standing() && value < target)
      modifies this`pos, this`dense, this`value, this`index, this`cur, this`mode, this`lazyPrev
      ensures found <==> Rank(s.Own(j), target) < |s.Own(j)|
      ensures found ==> Standing() && cur == first + Rank(s.Own(j), target)
      ensures !found ==> pos == contBegin
    {
      hide Bitmap.Valid, Rank, Stored, Sorted, DenseOk;
      DenseFacts(target);
      found := SeekDense(target);
      if mode.track && index != first {
        mode := Dense(false);
        lazyPrev := true;
      }
      if found {
        DenseStanding();
      }
    }

    lemma DenseFacts(target: nat)
      requires Fixed() && j < |s.blocks| && Opened() && mode.Dense? && s.Covers(j, target) && (Fresh() || (Standing() && value < target))
      ensures first == s.blocks[j].lo && block == s.blocks[j].Base() && BITSET_THRESHOLD < s.blocks[j].Count() < BLOCK_SIZE
      ensures DenseOk(s, j, dense, pos) && dense.wordIdx <= target % BLOCK_SIZE / WORD
      ensures contBegin == s.blocks[j].WordsAt(s.written) + NUM_WORDS
      ensures if !trackPrev then !mode.track && !lazyPrev else mode.track == !lazyPrev
      ensures trackPrev && !lazyPrev ==> prev == s.blocks[j].prev
      ensures lazyPrev ==> first < first + Rank(s.Own(j), target)
    {
      hide Bitmap.Valid, Rank, Stored, Sorted;
      if Standing() {
        OwnFacts(s, j);
        RankSplits(s.Own(j), target);
        assert value == s.Own(j)[cur - first];
        Places(s.blocks[j].id, value);
        Places(s.blocks[j].id, target);
      }
    }

    lemma DenseStanding()
      requires Fixed() && j < |s.blocks| && Opened() && mode.Dense? && first <= cur < indexMax && cur == index
      requires cur - first < |s.Own(j)| && value == s.Own(j)[cur - first] && dense.wordIdx == value % BLOCK_SIZE / WORD
      requires if !trackPrev then !mode.track && !lazyPrev else mode.track == !lazyPrev && (lazyPrev ==> first < cur)
      requires trackPrev && !lazyPrev ==> cur == first && prev == s.blocks[j].prev
      ensures Standing()
    {
      hide Bitmap.Valid, Rank, Stored, Sorted, DenseOk;
    }

    /** Searches the current block, whatever its kind. */
    method SeekInBlock(target: nat) returns (found: bool)
      requires Fixed() && j < |s.blocks| && Opened() && s.Covers(j, target)
      requires Fresh() || (Standing() && value < target)
      modifies this`pos, this`dense, this`value, this`index, this`cur, this`mode, this`lazyPrev, this`prev, this`sparseIndex
      ensures found <==> Rank(s.Own(j), target) < |s.Own(j)|
      ensures found ==> Standing() && cur == first + Rank(s.Own(j), target)
      ensures !found ==> pos == contBegin
    {
      hide Bitmap.Valid, Rank, Stored, Sorted, DenseOk, Fixed;
      match mode
      case Range(_) =>
        RangeFacts();
        SeekRange(target);
        found := true;
      case Sparse(_) =>
        found := SeekSparse(target);
      case Dense(_) =>
        found := SeekDenseBlock(target);
      case Initial =>
        assert false;
    }

    lemma RangeFacts()
      requires Opened() && mode.Range? && (Fresh() || Standing())
      ensures mode.track == trackPrev && !lazyPrev && s.Has(j) && |s.Own(j)| == indexMax - first
    {}

    /** Reads the header of the n-th block and gets ready to search it. */
    method ReadBlockHeader(ghost n: nat)
      requires Fixed() && n < |s.blocks| && pos == s.blocks[n].at && indexMax == s.blocks[n].lo
      modifies this`pos, this`contBegin, this`mode, this`first, this`indexMax, this`block, this`prev, this`lazyPrev, this`sparseIndex, this`missing,
        this`dense, this`j
      ensures Fresh() && j == n
    {
      hide Bitmap.Valid, Stored, Sorted, DenseOk, SparseStored, DenseStored, Bitmap.Own;
      FixedFacts();
      HasBlock(s, n);
      j := n;
      block := file[pos].v * BLOCK_SIZE;
      var popcnt := 1 + file[pos + 1].v;
      pos := pos + 2;
      first := indexMax;
      indexMax := indexMax + popcnt;
      if prevWritten {
        prev := file[pos].v;
        pos := pos + 1;
      }
      lazyPrev := false;
      OpenContainer(popcnt);
    }

    /** Chooses how to search the block by the number of its identifiers. */
    method OpenContainer(popcnt: nat)
      requires Fixed() && j < |s.blocks| && s.Has(j) && popcnt == s.blocks[j].Count() <= BLOCK_SIZE && pos == s.blocks[j].DataAt(s.written)
      requires block == s.blocks[j].Base() && first == s.blocks[j].lo && indexMax == s.blocks[j].hi
      requires !lazyPrev && (trackPrev ==> prev == s.blocks[j].prev)
      modifies this`pos, this`contBegin, this`mode, this`sparseIndex, this`missing, this`dense
      ensures Fresh()
    {
      hide Bitmap.Valid, DenseOk, Bitmap.Own;
      if popcnt == BLOCK_SIZE {
        missing := block - first;
        contBegin := pos;
        mode := Range(trackPrev);
      } else if popcnt <= BITSET_THRESHOLD {
        contBegin := pos + popcnt;
        sparseIndex := first;
        mode := Sparse(trackPrev);
      } else {
        var samples := ReadSamples(j);
        pos := pos + NUM_SAMPLES;
        contBegin := pos + NUM_WORDS;
        dense := DenseCtx(first, -1, [], samples);
        mode := Dense(trackPrev);
        DenseFresh(j, samples);
      }
    }

    /** The rank samples of a bitset block, if they are to be used. */
    method ReadSamples(ghost n: nat) returns (samples: seq<nat>)
      requires Fixed() && n < |s.blocks| && s.Has(n) && BITSET_THRESHOLD < s.blocks[n].Count() < BLOCK_SIZE && pos == s.blocks[n].DataAt(s.written)
      ensures if !useBlockIndex then samples == []
              else |samples| == NUM_SAMPLES && forall k :: 0 <= k < NUM_SAMPLES ==> samples[k] == Rank(s.Own(n), s.blocks[n].Base() + SAMPLE * k)
    {
      hide Bitmap.Valid, Stored, Sorted, SparseStored, Rank;
      samples := [];
      if useBlockIndex {
        FixedFacts();
        HasBlock(s, n);
        assert DenseStored(s.file, s.Own(n), s.blocks[n], s.written);
        while |samples| < NUM_SAMPLES
          invariant |samples| <= NUM_SAMPLES
          invariant forall k :: 0 <= k < |samples| ==> samples[k] == Rank(s.Own(n), s.blocks[n].Base() + SAMPLE * k)
        {
          assert file[s.blocks[n].DataAt(s.written) + |samples|] == Short(Rank(s.Own(n), s.blocks[n].Base() + SAMPLE * |samples|));
          samples := samples + [file[pos + |samples|].v];
        }
      }
    }

    lemma DenseFresh(n: nat, samples: seq<nat>)
      requires Fixed() && n < |s.blocks| && s.Has(n) && pos == s.blocks[n].WordsAt(s.written) && dense == DenseCtx(s.blocks[n].lo, -1, [], samples)
      requires samples == [] || (|samples| == NUM_SAMPLES
                                 && forall k :: 0 <= k < NUM_SAMPLES ==> samples[k] == Rank(s.Own(n), s.blocks[n].Base() + SAMPLE * k))
      ensures DenseOk(s, n, dense, pos)
    {
      hide Bitmap.Valid, Sorted, Rank, Bitmap.Own;
      OwnFacts(s, n);
    }

    /** How far the blocks have been read: none, or up to the current one. */
    ghost function Where(): nat
      reads this`mode, this`j
    {
      if mode.Initial? then 0 else j + 1
    }

    /** Searches end at successors: the blocks are apart, and the jump table is a proper one. */
    ghost predicate Proper() {
      && |s.blocks| > 0 && Apart(s.All(), s.blocks) && TableOk(table, s.blocks, s.blocks[0].at)
    }

    /** Reading headers goes on behind the current block. */
    lemma NextBlock(target: nat)
      requires Valid() && block < target <= EOF && target % BLOCK_SIZE == 0
      ensures Fixed() && Where() < |s.blocks| && contBegin == s.blocks[Where()].at && indexMax == s.blocks[Where()].lo
      ensures block == if Where() == 0 then 0 else s.blocks[Where() - 1].Base()
      ensures TableStarts(table, s.blocks, s.blocks[0].at) && s.blocks[0].at == origin
    {
      hide Bitmap.Valid, DenseOk, PrevOk, Bitmap.All, TableStarts;
      FixedFacts();
      HasBlock(s, 0);
      if !Unread() {
        HasBlock(s, j);
      }
    }

    lemma FreshFacts()
      requires Fresh()
      ensures s.Has(j) && j < |s.blocks| && block == s.blocks[j].Base() && contBegin == s.blocks[j].End(s.written) && indexMax == s.blocks[j].hi
      ensures first == s.blocks[j].lo && Opened() && !mode.Initial?
    {}

    /** Goes to a block by the jump table if the target is far away, otherwise to the first
        block behind the current one whose number is at least that of the target. */
    method SeekToBlock(target: nat)
      requires Valid() && block < target <= EOF && target % BLOCK_SIZE == 0
      modifies this
      ensures Fresh() && value == old(value)
      ensures s.Valid() && old(Where()) < |s.blocks| && TableStarts(table, s.blocks, s.blocks[0].at)
      ensures j == Place(s, table, old(block) / BLOCK_SIZE, old(Where()), target / BLOCK_SIZE)
    {
      hide Bitmap.Valid, Stored, Sorted, DenseOk, Standing, Fresh, Bitmap.Own, TableStarts, Chained, Fixed;
      NextBlock(target);
      FixedFacts();
      ghost var b, n := target / BLOCK_SIZE, Where();
      if table != [] {
        var targetBlock := target / BLOCK_SIZE;
        if targetBlock >= block / BLOCK_SIZE + SCAN_THRESHOLD {
          var jump := table[if targetBlock < |table| then targetBlock else |table| - 1];
          ghost var to := Jumped(s, table, b);
          indexMax := jump.index;
          pos := origin + jump.offset;
          ReadBlockHeader(to);
          return;
        }
      }
      var again := true;
      while again
        invariant Fixed() && value == old(value)
        invariant if again then n < |s.blocks| && NextFrom(s, b, n) == NextFrom(s, b, old(Where())) && contBegin == s.blocks[n].at && indexMax == s.blocks[n].lo
                  else Fresh() && j == NextFrom(s, b, old(Where()))
        decreases |s.blocks| - n, again
      {
        pos := contBegin;
        ReadBlockHeader(n);
        FreshFacts();
        HasBlock(s, n);
        again := block < target;
        n := n + 1;
      }
    }

    lemma StartFacts(target: nat)
      requires Valid() && value < target <= EOF
      ensures Fixed() && s.Valid() && TableStarts(table, s.blocks, s.blocks[0].at) && Where() <= |s.blocks|
      ensures Where() > 0 ==> block == s.blocks[Where() - 1].Base() && Behind(s, Where() - 1, target)
      ensures Where() == 0 ==> block == 0
      ensures Where() > 0 ==> Opened() && (Fresh() || Standing())
      ensures Where() > 0 && block != target / BLOCK_SIZE * BLOCK_SIZE && target / BLOCK_SIZE * BLOCK_SIZE <= block ==> Fresh()
    {
      hide Bitmap.Valid, Stored, Sorted, DenseOk, Rank, PrevOk, BlockRef.End, TableStarts;
      FixedFacts();
      SomeBlock(s);
      if !mode.Initial? {
        HasBlock(s, j);
        if Standing() {
          OwnFacts(s, j);
          assert value == s.Own(j)[cur - first];
          if s.blocks[j].lo > 0 {
            Ascending(s, s.blocks[j].lo - 1, cur);
          }
        }
      }
    }

    lemma UnreadFacts()
      requires Valid() && mode.Initial?
      ensures Fixed() && Unread() && |s.blocks| > 0
    {
      FixedFacts();
      SomeBlock(s);
    }

    /** What is known where the search goes on. */
    lemma PlaceFacts(target: nat)
      requires Fixed() && target <= EOF && !mode.Initial? && Opened() && (Fresh() || (Standing() && value < target))
      ensures s.Has(j) && j < |s.blocks| && s.Valid()
      ensures first == s.blocks[j].lo && contBegin == s.blocks[j].End(s.written) && indexMax == s.blocks[j].hi
      ensures block == target / BLOCK_SIZE * BLOCK_SIZE ==> s.Covers(j, target) && s.blocks[j].id == target / BLOCK_SIZE
      ensures block != target / BLOCK_SIZE * BLOCK_SIZE ==> s.blocks[j].id != target / BLOCK_SIZE
    {
      hide Bitmap.Valid, Stored, Sorted, DenseOk, Rank, PrevOk, BlockRef.End;
      FixedFacts();
    }

    /** A block without a successor of the target is not the last one. */
    lemma BlockEnd(n: nat, target: nat)
      requires Fixed() && n < |s.blocks| && s.Has(n) && Rank(s.Own(n), target) >= |s.Own(n)| && target <= EOF
      ensures s.blocks[n].lo + Rank(s.Own(n), target) == s.blocks[n].hi && n + 1 < |s.blocks|
      ensures s.blocks[n].hi == s.blocks[n + 1].lo && s.blocks[n].End(s.written) == s.blocks[n + 1].at
    {
      hide Bitmap.Valid, Stored, Sorted, Rank, BlockRef.End;
      FixedFacts();
      HasBlock(s, n);
      OwnFacts(s, n);
      RankSplits(s.Own(n), target);
      assert s.Own(n)[0] == s.All()[s.blocks[n].lo] && s.All()[|s.ids|] == EOF;
    }

    lemma BaseRank()
      requires Fixed() && j < |s.blocks|
      ensures s.Has(j) && s.Covers(j, s.blocks[j].Base()) && Rank(s.Own(j), s.blocks[j].Base()) == 0 < |s.Own(j)|
    {
      hide Bitmap.Valid, Stored, Sorted, Rank;
      FixedFacts();
      OwnFacts(s, j);
    }

    /** Rank and value in terms of the stored set; past its end the value is the sentinel. */
    lemma Shows(target: nat)
      requires Standing() && cur == Rank(s.All(), target) && target <= EOF
      ensures index == Rank(s.ids, target) && value == if index < |s.ids| then s.ids[index] else EOF
    {
      hide DenseOk, PrevOk;
      assert s.All()[..|s.All()| - 1] == s.ids;
    }

    lemma Shown()
      requires Standing()
      ensures value == s.All()[cur] && index == cur < |s.All()|
    {}

    lemma ValidStanding()
      requires Fixed() && Standing()
      ensures Valid()
    {}

    /** With blocks that are apart and a proper table, the search has ended at the successor. */
    lemma Ended(from: nat, target: nat)
      requires Standing() && s.Valid() && from <= |s.blocks| && target <= EOF && TableStarts(table, s.blocks, s.blocks[0].at)
      requires cur == Landing(s, table, from, target) && (from > 0 ==> Behind(s, from - 1, target))
      ensures Proper() ==> cur == Rank(s.All(), target) && index == Rank(s.ids, target) && value == if index < |s.ids| then s.ids[index] else EOF
    {
      hide Bitmap.Valid, Standing, Landing, Behind, TableStarts, TableOk, Apart, Rank, Bitmap.All;
      if Proper() {
        LandingIsRank(s, table, from, target);
        Shows(target);
      }
    }

    /** The block that a search goes to, seen from the current one. */
    lemma HeadingFacts(target: nat)
      requires Valid() && value < target <= EOF
      ensures s.Valid() && Where() <= |s.blocks| && TableStarts(table, s.blocks, s.blocks[0].at)
      ensures block < target / BLOCK_SIZE * BLOCK_SIZE ==>
                Where() < |s.blocks| && Heading(s, table, Where(), target) == Place(s, table, block / BLOCK_SIZE, Where(), target / BLOCK_SIZE)
      ensures target / BLOCK_SIZE * BLOCK_SIZE <= block ==> Heading(s, table, Where(), target) == j
      ensures Where() == 0 ==> block == 0 && j == 0
    {
      hide Bitmap.Valid, DenseOk, PrevOk, TableStarts, Place;
      StartFacts(target);
      SomeBlock(s);
      HasBlock(s, j);
      NextFromHere(s, table);
    }

    /** The very first block is needed and not read yet. */
    method InitialSeek(target: nat)
      requires Fixed() && Unread() && MIN <= target < BLOCK_SIZE && s.Valid() && |s.blocks| > 0
      modifies this
      ensures Valid() && Standing() && cur == InBlock(s, 0, target)
      decreases 1, 0
    {
      hide Bitmap.Valid, Stored, Sorted, DenseOk, Standing, Rank, TableStarts, Apart, TableOk, Place;
      FixedFacts();
      HasBlock(s, 0);
      ReadBlockHeader(0);
      var _ := Seek(target);
    }

    /** The rank that the blocks and the jump table lead to; if these are proper, the smallest
        identifier that is not below the target, and how many lie before it. */
    method Seek(target: nat) returns (found: nat)
      requires Valid() && target <= EOF
      modifies this
      ensures Valid() && found == value
      ensures target <= old(value) ==> value == old(value) && cur == old(cur) && index == old(index)
      ensures old(value) < target ==>
                && s.Valid() && old(Where()) <= |s.blocks| && TableStarts(table, s.blocks, s.blocks[0].at)
                && Standing() && cur == Landing(s, table, old(Where()), target)
      ensures old(value) < target && Proper() ==> cur == Rank(s.All(), target)
      ensures old(value) < target && Proper() ==> index == Rank(s.ids, target) && value == if index < |s.ids| then s.ids[index] else EOF
      decreases if mode.Initial? then 1 else 0, 1
    {
      hide Bitmap.Valid, Stored, Sorted, DenseOk, Standing, Fresh, Rank, Bitmap.Own, Unread, Valid, Fixed, Bitmap.All, Opened,
        Bitmap.Has, Bitmap.Covers, BlockRef.End, BlockRef.Base, TableStarts, Proper, Place, Heading, Behind;
      if target <= value {
        return value;
      }
      var targetBlock := target / BLOCK_SIZE * BLOCK_SIZE;
      ghost var from := Where();
      StartFacts(target);
      HeadingFacts(target);
      if block < targetBlock {
        SeekToBlock(targetBlock);
        FreshFacts();
      }
      if block == targetBlock {
        if mode.Initial? {
          UnreadFacts();
          InitialSeek(target);
          Ended(from, target);
          return value;
        }
        PlaceFacts(target);
        var here := SeekInBlock(target);
        if here {
          ValidStanding();
          Ended(from, target);
          return value;
        }
        BlockEnd(j, target);
        ReadBlockHeader(j + 1);
      } else {
        PlaceFacts(target);
      }
      FreshFacts();
      BaseRank();
      var here := SeekInBlock(block);
      ValidStanding();
      Ended(from, target);
      found := value;
    }

    /** The next identifier; the step past the sentinel wraps around and stays there. */
    method Next() returns (more: bool)
      requires Valid()
      modifies this
      ensures Valid() && more == (value != EOF)
      ensures old(value) == EOF ==> value == EOF && index == old(index)
      ensures old(value) < EOF ==>
                && s.Valid() && old(Where()) <= |s.blocks| && TableStarts(table, s.blocks, s.blocks[0].at)
                && Standing() && cur == Landing(s, table, old(Where()), old(value) + 1)
      ensures old(value) < EOF && Proper() ==> cur == Rank(s.All(), old(value) + 1)
      ensures old(value) < EOF && Proper() ==>
                index == Rank(s.ids, old(value) + 1) && value == if index < |s.ids| then s.ids[index] else EOF
    {
      hide Standing, Fresh, Rank, Fixed, Landing, Proper, TableStarts, Bitmap.Valid;
      ValueBound();
      var found := Seek((value + 1) % (EOF + 1));
      more := found != EOF;
    }

    lemma ValueBound()
      requires Valid()
      ensures value <= EOF
    {
      if Standing() {
        AllSorted(s);
      }
    }

    /** The identifier before the current one, if it is tracked. */
    method PrevDoc() returns (p: nat)
      requires Valid() && Standing() && trackPrev && PrevStored(s.ids, s.blocks)
      ensures p == if cur == 0 then INVALID else s.ids[cur - 1]
    {
      if lazyPrev {
        p := SeekPrev();
      } else {
        p := prev;
        StandingFacts();
      }
    }

    lemma StandingFacts()
      requires Fixed() && Standing() && trackPrev && PrevStored(s.ids, s.blocks)
      ensures first == s.blocks[j].lo && cur <= |s.ids| && first <= cur
      ensures !lazyPrev ==> prev == if cur == 0 then INVALID else s.ids[cur - 1]
    {
      hide DenseOk;
      HasBlock(s, j);
    }

    /** What the bitset block offers for looking back. */
    lemma LazyFacts()
      requires Fixed() && Standing() && trackPrev && lazyPrev
      ensures s.Valid() && s.file == file && j < |s.blocks| && s.Has(j) && block == s.blocks[j].Base() && first == s.blocks[j].lo
      ensures BITSET_THRESHOLD < s.blocks[j].Count() < BLOCK_SIZE && first < cur <= |s.ids| && cur - first < |s.Own(j)|
      ensures 0 <= dense.wordIdx < NUM_WORDS && pos == s.blocks[j].WordsAt(s.written) + (dense.wordIdx + 1)
      ensures |dense.word| == WORD && BitsOk(s.Own(j), block + WORD * dense.wordIdx, dense.word)
      ensures Sorted(s.Own(j)) && value == s.Own(j)[cur - first] == block + WORD * dense.wordIdx + value % WORD
      ensures s.Own(j)[..cur - first][cur - first - 1] == s.ids[cur - 1]
      ensures forall i :: 0 <= i < |s.Own(j)| ==> block <= s.Own(j)[i] < block + BLOCK_SIZE
    {
      hide Bitmap.Valid, Stored, Sorted, Rank, BitsOk;
      FixedFacts();
      OwnFacts(s, j);
      HasBlock(s, j);
      Places(s.blocks[j].id, value);
    }

    lemma MaskBits()
      requires Fixed() && Standing() && trackPrev && lazyPrev
      ensures s.Has(j) && cur - first < |s.Own(j)| && first < cur
      ensures var low := s.Own(j)[..cur - first];
              && Sorted(low) && BitsOk(low, block + WORD * dense.wordIdx, Mask(dense.word, value % WORD))
              && Rank(low, block + WORD * (dense.wordIdx + 1)) == |low|
    {
      hide Bitmap.Valid, Stored, Sorted, Standing, Rank, Bitmap.Own, Fixed, Bitmap.All, Bitmap.Has, BlockRef.Base;
      LazyFacts();
      var own, base, k := s.Own(j), block + WORD * dense.wordIdx, cur - first;
      var low, m := own[..k], Mask(dense.word, value % WORD);
      Below(own, k, 0);
      forall i | 0 <= i < |m|
        ensures m[i] <==> (base + i) in low
      {
        assert dense.word[i] <==> (base + i) in own;
        Below(own, k, base + i);
      }
      LowEnds(own, k, block + WORD * (dense.wordIdx + 1));
    }

    lemma LowEnds(own: seq<nat>, k: nat, x: nat)
      requires Sorted(own) && 0 < k < |own| && own[k] <= x
      ensures Rank(own[..k], x) == k
    {
      RankIs(own[..k], x, k);
    }

    /** An earlier word of the block holds smaller identifiers only. */
    lemma PrevWord(w: int)
      requires Fixed() && Standing() && trackPrev && lazyPrev && 0 <= w < dense.wordIdx
      ensures s.Has(j) && j < |s.blocks| && cur - first < |s.Own(j)| && first < cur
      ensures var low, at := s.Own(j)[..cur - first], s.blocks[j].WordsAt(s.written) + w;
              && at < |file| && file[at].Long? && |file[at].word| == WORD && BitsOk(low, block + WORD * w, file[at].word)
    {
      hide Bitmap.Valid, Stored, Sorted, Standing, Rank, Bitmap.Own, Fixed, Bitmap.All, Bitmap.Has, BlockRef.Base, BlockRef.Count;
      LazyFacts();
      NextWord(s, j, w);
      var own, base, k := s.Own(j), block + WORD * w, cur - first;
      var word := file[s.blocks[j].WordsAt(s.written) + w].word;
      forall i | 0 <= i < |word|
        ensures word[i] <==> (base + i) in own[..k]
      {
        assert word[i] <==> (base + i) in own;
        Below(own, k, base + i);
      }
    }

    /** A word without identifiers is not the first one of the block. */
    lemma EmptyWord(low: seq<nat>, w: nat, word: seq<bool>)
      requires Fixed() && Standing() && trackPrev && lazyPrev && s.Has(j) && first <= cur && cur - first <= |s.Own(j)|
      requires low == s.Own(j)[..cur - first] && |word| == WORD && BitsOk(low, block + WORD * w, word) && LeadingZeros(word) == |word|
      requires Rank(low, block + WORD * (w + 1)) == |low| && Sorted(low)
      ensures 0 < w && Rank(low, block + WORD * w) == |low|
    {
      hide Bitmap.Valid, Stored, Sorted, Standing, Rank, Bitmap.Own, Fixed, Bitmap.All, Bitmap.Has, BlockRef.Base, BitsOk, LeadingZeros;
      LazyFacts();
      NoHighBits(low, block + WORD * w, word);
      RankIs(low, block, 0);
    }

    /** Walks back over the words of the bitset; the stream ends where it was. */
    method SeekPrev() returns (p: nat)
      requires Fixed() && Standing() && trackPrev && lazyPrev
      ensures 0 < cur <= |s.ids| && p == s.ids[cur - 1]
    {
      hide Bitmap.Valid, Stored, Sorted, Standing, Rank, Bitmap.Own, Fixed, Bitmap.All, LeadingZeros, BitsOk;
      LazyFacts();
      ghost var low := s.Own(j)[..cur - first];
      var word := Mask(dense.word, value % WORD);
      var wordIdx := dense.wordIdx;
      MaskBits();
      var at: int := pos - 2;
      while LeadingZeros(word) == |word|
        invariant 0 <= wordIdx < NUM_WORDS && at == s.blocks[j].WordsAt(s.written) + wordIdx - 1
        invariant |word| == WORD && BitsOk(low, block + WORD * wordIdx, word)
        invariant Rank(low, block + WORD * (wordIdx + 1)) == |low|
        decreases wordIdx
      {
        EmptyWord(low, wordIdx, word);
        PrevWord(wordIdx - 1);
        word := file[at].word;
        wordIdx := wordIdx - 1;
        at := at - 1;
      }
      LastBit(low, block + WORD * wordIdx, word);
      p := block + (wordIdx + 1) * WORD - LeadingZeros(word) - 1;
    }
  }

  lemma LeftBits(own: seq<nat>, base: nat, w: nat, word: seq<bool>, target: nat)
    requires Sorted(own) && |word| == WORD && BitsOk(own, base + WORD * w, word) && target == base + WORD * w + target % WORD
    ensures var left := word[target % WORD..];
            && Rank(own, base + WORD * (w + 1)) == Rank(own, target) + Popcount(left)
            && (TrailingZeros(left) < |left| ==> Rank(own, target) < |own| && own[Rank(own, target)] == target + TrailingZeros(left))
            && (TrailingZeros(left) == |left| ==> Rank(own, target) == Rank(own, base + WORD * (w + 1)))
  {
    hide Rank, Popcount, Sorted, TrailingZeros;
    var from := target % WORD;
    var left := word[from..];
    forall i | 0 <= i < |left|
      ensures left[i] <==> (target + i) in own
    {
      assert word[from + i] <==> (base + WORD * w + (from + i)) in own;
    }
    PopcountIsRank(own, target, left);
    if TrailingZeros(left) < |left| {
      FirstBit(own, target, left);
    } else {
      NoBits(own, target, left, |left|);
    }
  }
}
