/** A term as it lies in its files, and reading its documents block by block. */
module DocBlocks {
  import opened Limits
  import opened SkipFormat
  import opened SkipWriting
  import opened PostingsFormat
  import opened Positions

  /** A term as it lies in the document and position files. */
  datatype Term = Term(p: seq<Posting>, f: Format, meta: TermMeta, file: seq<Token>, posFile: seq<PosToken>,
                       bound: (nat, nat) -> real, written: seq<seq<Token>>)
  {
    ghost predicate Valid() {
      && ValidList(p, f)
      && 1 <= |p| == meta.docsCount
      && (if |p| == 1 then meta.singleDoc + MIN == p[0].doc && (f.freq ==> meta.freq == p[0].freq) else BlocksStored() && TailStored())
      && (BLOCK < |p| ==> SkipStored())
      && (f.pos ==> PosOk())
    }

    ghost predicate PosOk() {
      && PosStored(posFile, meta.posStart, Stream(|p|)) && meta.freq == |Stream(|p|)|
      && (meta.freq > BLOCK ==> meta.posEnd == Some(meta.freq / BLOCK))
    }

    ghost function Stream(n: nat): seq<int>
      requires n <= |p|
    {
      PosStream(p, f, n)
    }

    /** Where the data of block b starts. */
    ghost function BlockPos(b: nat): nat { meta.docStart + b * f.Width() }

    /** Where the documents after the last full block start; the root score of a short list comes first. */
    ghost function TailPos(): nat {
      BlockPos(|p| / BLOCK) + if f.wand && |p| <= BLOCK then 1 else 0
    }

    ghost predicate BlocksStored()
      requires SortedDocs(p)
    {
      forall b :: 0 <= b < |p| / BLOCK ==> BlockStored(b)
    }

    ghost predicate BlockStored(b: nat)
      requires SortedDocs(p) && b < |p| / BLOCK
    {
      && BlockPos(b) + f.Width() <= |file|
      && file[BlockPos(b)] == DocBlock(DocDeltas(p, BLOCK * b, BLOCK))
      && (f.freq ==> file[BlockPos(b) + 1] == FreqBlock(Freqs(p, BLOCK * b, BLOCK)))
    }

    ghost predicate TailStored()
      requires SortedDocs(p)
    {
      TailAt(TailPos(), |p| / BLOCK * BLOCK)
    }

    /** The unblocked documents from the i-th on are stored at `pos`. */
    ghost predicate TailAt(pos: nat, i: nat)
      requires SortedDocs(p) && i <= |p|
    {
      pos + |Tail(p, f, i)| <= |file| && file[pos..pos + |Tail(p, f, i)|] == Tail(p, f, i)
    }

    ghost function Ix(): Index
      requires 1 <= |p|
    {
      IndexOf(p, f, meta.docStart, meta.posStart, bound)
    }

    ghost predicate SkipStored()
      requires SortedDocs(p) && BLOCK < |p|
    {
      var at, t := meta.docStart + meta.skipStart + (if f.wand then 1 else 0), [LevelCount(|written|)] + LevelsTokens(written, |written|);
      && 1 <= |written| <= MAX_SKIP_LEVELS
      && Complete(Ix(), written, |written|)
      && at + |t| <= |file| && file[at..at + |t|] == t
    }
  }

  lemma TailStep(t: Term, pos: nat, i: nat)
    requires SortedDocs(t.p) && i < |t.p| && t.TailAt(pos, i)
    ensures var e := TailEntry(t.p, t.f, i);
            && pos + |e| <= |t.file| && t.TailAt(pos + |e|, i + 1)
            && 1 <= |e| <= 2 && t.file[pos] == e[0] && (|e| == 2 ==> t.file[pos + 1] == e[1])
  {
    var e, rest, all := TailEntry(t.p, t.f, i), Tail(t.p, t.f, i + 1), Tail(t.p, t.f, i);
    assert all == e + rest;
    forall k | 0 <= k < |e|
      ensures t.file[pos + k] == e[k]
    {
      assert t.file[pos..pos + |all|][k] == all[k];
    }
    assert t.file[pos + |e|..pos + |all|] == t.file[pos..pos + |all|][|e|..];
  }

  lemma TermFacts(t: Term)
    requires t.Valid()
    ensures 1 <= |t.p| == t.meta.docsCount && SortedDocs(t.p) && (t.f.pos ==> t.PosOk())
  {}

  /** The positions of one document are the stretch of the stream between its bounds. */
  lemma StreamStep(t: Term, i: nat)
    requires i < |t.p|
    ensures |t.Stream(i + 1)| == |t.Stream(i)| + |t.p[i].positions| <= |t.Stream(|t.p|)|
    ensures t.Stream(|t.p|)[|t.Stream(i)|..|t.Stream(i + 1)|] == PosDeltas(t.p[i].positions, t.f.PosMin())
  {
    PosStreamPrefix(t.p, t.f, i + 1, |t.p|);
    var all, upTo := t.Stream(|t.p|), t.Stream(i + 1);
    assert all[|t.Stream(i)|..|upTo|] == all[..|upTo|][|t.Stream(i)|..];
  }

  lemma StreamGrows(t: Term, done: nat, i: nat)
    requires done <= i <= |t.p|
    ensures |t.Stream(done)| <= |t.Stream(i)| <= |t.Stream(|t.p|)|
  {
    PosStreamPrefix(t.p, t.f, done, i);
    PosStreamPrefix(t.p, t.f, i, |t.p|);
  }

  lemma PositionsAre(t: Term, i: nat)
    requires t.Valid() && t.f.pos && i < |t.p|
    ensures |t.p[i].positions| == t.p[i].freq >= 1
    ensures forall x :: x in t.p[i].positions ==> 1 <= x < EOF
  {}

  /** A position iterator that has been told about the first `done` documents. */
  ghost predicate Follows(pos: PositionIterator, t: Term, done: nat)
    requires done <= |t.p|
    reads pos, pos.deltas
  {
    && pos.Valid() && pos.d == t.Stream(|t.p|) && pos.start == t.meta.posStart && pos.oneBased == t.f.oneBased
    && pos.upTo == |t.Stream(done)|
  }

  /** Tells a position iterator that the documents from `done` to `i` have been taken. */
  method Arrive(pos: PositionIterator, n: nat, ghost t: Term, ghost done: nat, ghost i: nat)
    requires t.Valid() && t.f.pos && done <= i < |t.p| && Follows(pos, t, done)
    requires |t.Stream(done)| + n == |t.Stream(i + 1)| && pos.freq.value == t.p[i].freq
    modifies pos
    ensures Follows(pos, t, i + 1) && pos.InStep(t.p[i].positions) && pos.value == INVALID
  {
    hide Term.Valid, PositionIterator.Valid, PosStream, PosDeltas;
    StreamStep(t, i);
    StreamGrows(t, done, i);
    pos.Notify(n);
    pos.Clear();
    Arrived(pos, t, i);
  }

  lemma Arrived(pos: PositionIterator, t: Term, i: nat)
    requires t.Valid() && t.f.pos && i < |t.p| && Follows(pos, t, i + 1) && pos.freq.value == t.p[i].freq && pos.value == INVALID
    requires pos.pend >= |t.p[i].positions| && pos.cookiePend >= |t.p[i].positions|
    ensures pos.InStep(t.p[i].positions)
  {
    hide Term.Valid;
    StreamStep(t, i);
    PositionsAre(t, i);
  }

  /** Tells a position iterator how many positions the documents since `done` had. */
  method Follow(pos: PositionIterator, n: nat, ghost t: Term, ghost done: nat, ghost upTo: nat)
    requires done <= upTo <= |t.p| && Follows(pos, t, done) && |t.Stream(done)| + n == |t.Stream(upTo)|
    modifies pos
    ensures Follows(pos, t, upTo)
  {
    StreamGrows(t, done, upTo);
    hide PositionIterator.Valid, PosStream;
    pos.Notify(n);
  }

  /** Moves a position iterator to the block that starts with the n-th document. */
  method PreparePositions(pos: PositionIterator, last: SkipState, ghost t: Term, ghost n: nat, ghost done: nat)
    requires n <= |t.p| && done <= |t.p| && Follows(pos, t, done)
    requires AtPoint(last, t.meta.posStart, |t.Stream(n)|)
    modifies pos
    ensures Follows(pos, t, n)
  {
    hide PositionIterator.Valid, PosStream, AtPoint;
    StreamGrows(t, n, n);
    pos.Prepare(last, |t.Stream(n)|);
  }

  /** The position iterator of a document iterator; one that nobody asked for has no positions. */
  method OpenPositions(wanted: bool, posFile: seq<PosToken>, meta: TermMeta, f: Format, freq: Frequency, ghost t: Term)
    returns (pos: PositionIterator)
    requires t.Valid() && t.meta == meta && t.posFile == posFile && t.f == f && (wanted ==> f.pos)
    ensures fresh(pos) && fresh(pos.deltas) && pos.freq == freq
    ensures wanted ==> Follows(pos, t, 0)
  {
    hide Term.Valid, PosStored, PositionIterator.Valid;
    if wanted {
      TermFacts(t);
      pos := new PositionIterator(posFile, meta, f.oneBased, freq, t.Stream(|t.p|));
    } else {
      EmptyPosStored();
      pos := new PositionIterator([], TermMeta(0, 0, 0, 0, None, 0, 0), f.oneBased, freq, []);
    }
  }

  /** The part of a document iterator that reads blocks of documents and frequencies. */
  class BlockReader {
    const docFile: seq<Token>
    const fieldFreq: bool    // what the field stores
    const wantFreq: bool     // what the iterator was asked for
    const docs: array<nat>
    const freqs: array<nat>
    var begin: nat           // place in the document block
    var freqAt: nat          // place in the frequency block
    var docIn: nat           // place in the document file
    var left: nat            // documents after the block

    ghost const t: Term
    ghost var idx: nat       // documents taken

    ghost predicate Fixed() {
      && t.Valid() && 2 <= |t.p| && docFile == t.file && fieldFreq == t.f.freq && (wantFreq ==> fieldFreq)
      && docs.Length == freqs.Length == BLOCK && docs != freqs
    }

    constructor (file: seq<Token>, fieldFreq: bool, wantFreq: bool, docIn: nat, left: nat, ghost t: Term)
      requires t.Valid() && 2 <= |t.p| && t.file == file && fieldFreq == t.f.freq && (wantFreq ==> fieldFreq) && left == |t.p|
      requires docIn == t.meta.docStart + if |t.p| < BLOCK && t.f.wand then 1 else 0
      ensures Buffered() && this.t == t && this.wantFreq == wantFreq && begin == BLOCK && idx == 0
      ensures docFile == file && fresh(docs) && fresh(freqs) && this.docIn == docIn && this.left == left
    {
      docFile, this.fieldFreq, this.wantFreq, this.t := file, fieldFreq, wantFreq, t;
      docs, freqs := new nat[BLOCK], new nat[BLOCK];
      begin, freqAt, this.docIn, this.left, idx := BLOCK, BLOCK, docIn, left, 0;
    }

    /** The loaded block goes on from the idx-th document, and the file after the block. */
    ghost predicate Buffered()
      reads this`begin, this`docIn, this`left, this`idx, docs, freqs
    {
      && Fixed() && begin <= BLOCK && idx + (BLOCK - begin) + left == |t.p|
      && (forall k :: begin <= k < BLOCK ==> docs[k] == DocDelta(t.p, idx + (k - begin)))
      && (wantFreq ==> forall k :: begin <= k < BLOCK ==> freqs[k] == t.p[idx + (k - begin)].freq)
      && (left > 0 ==> FileAt(|t.p| - left))
    }

    /** The file stands at the block that starts with the n-th document. */
    ghost predicate FileAt(n: nat)
      requires Fixed()
      reads this`docIn
    {
      n % BLOCK == 0 && docIn == if n == |t.p| / BLOCK * BLOCK then t.TailPos() else t.BlockPos(n / BLOCK)
    }

    lemma FixedFacts()
      requires Fixed()
      ensures t.Valid() && SortedDocs(t.p) && docFile == t.file && fieldFreq == t.f.freq && (wantFreq ==> fieldFreq)
      ensures docs.Length == freqs.Length == BLOCK && docs != freqs
      ensures t.f.Width() == if fieldFreq then 2 else 1
    {}

    /** The values under the file position are those of the full block after n documents. */
    lemma BlockHere(n: nat)
      requires Fixed() && FileAt(n) && n + BLOCK <= |t.p| && SortedDocs(t.p)
      ensures docIn + t.f.Width() <= |docFile| && docFile[docIn] == DocBlock(DocDeltas(t.p, n, BLOCK))
      ensures fieldFreq ==> docFile[docIn + 1] == FreqBlock(Freqs(t.p, n, BLOCK))
      ensures docIn == t.BlockPos(n / BLOCK) && n % BLOCK == 0
    {
      hide PosStored, Term.PosOk, Term.SkipStored, Term.TailStored, SortedDocs, ValidPositions;
      assert t.BlocksStored() && t.BlockStored(n / BLOCK);
    }

    /** After a full block the file stands at the next one, or at the tail. */
    lemma NextFileAt(n: nat)
      requires Fixed() && n % BLOCK == 0 && n + BLOCK < |t.p| && docIn == t.BlockPos(n / BLOCK) + t.f.Width()
      ensures FileAt(n + BLOCK)
    {
      hide Term.Valid;
      NextBlockPos(n / BLOCK);
    }

    lemma NextBlockPos(b: nat)
      ensures t.BlockPos(b + 1) == t.BlockPos(b) + t.f.Width()
    {
      assert (b + 1) * t.f.Width() == b * t.f.Width() + t.f.Width();
    }

    method Refill()
      requires Fixed() && left > 0 && idx + left == |t.p| && FileAt(idx)
      modifies this`begin, this`freqAt, this`docIn, this`left, docs, freqs
      ensures Buffered() && begin < BLOCK && left == (if old(left) < BLOCK then 0 else old(left) - BLOCK) && (wantFreq ==> freqAt == begin)
    {
      hide Term.Valid, Term.BlocksStored, Term.TailStored, Term.TailAt, SortedDocs, DocDelta, FileAt;
      FixedFacts();
      if left >= BLOCK {
        BlockHere(idx);
        ReadBlock();
      } else {
        TailHere();
        ReadTailBlock();
      }
    }

    lemma TailHere()
      requires Fixed() && SortedDocs(t.p) && idx + left == |t.p| && FileAt(idx) && left < BLOCK
      ensures t.TailAt(docIn, idx)
    {
      hide PosStored, Term.PosOk, Term.SkipStored, Term.BlocksStored, SortedDocs, Tail;
      assert t.TailStored();
    }

    method ReadBlock()
      requires Fixed() && SortedDocs(t.p) && left >= BLOCK && idx + left == |t.p|
      requires docIn == t.BlockPos(idx / BLOCK) && idx % BLOCK == 0
      requires docIn + t.f.Width() <= |docFile| && docFile[docIn] == DocBlock(DocDeltas(t.p, idx, BLOCK))
      requires fieldFreq ==> docFile[docIn + 1] == FreqBlock(Freqs(t.p, idx, BLOCK))
      modifies this`begin, this`freqAt, this`docIn, this`left, docs, freqs
      ensures Buffered() && begin < BLOCK && left == old(left) - BLOCK && (wantFreq ==> freqAt == begin)
    {
      hide Term.Valid, Term.BlocksStored, Term.TailStored, Term.TailAt, Term.BlockPos, SortedDocs, DocDelta, FileAt;
      FixedFacts();
      var block := docFile[docIn].deltas;
      docIn := docIn + 1;
      forall k | 0 <= k < BLOCK {
        docs[k] := block[k];
      }
      if wantFreq {
        var fs := docFile[docIn].freqs;
        docIn := docIn + 1;
        forall k | 0 <= k < BLOCK {
          freqs[k] := fs[k];
        }
        freqAt := 0;
      } else if fieldFreq {
        docIn := docIn + 1;
      }
      begin := 0;
      left := left - BLOCK;
      if left > 0 {
        NextFileAt(idx);
      }
    }

    /** The documents that fill no block go to the end of the buffer. */
    method ReadTailBlock()
      requires Fixed() && SortedDocs(t.p) && 0 < left < BLOCK && idx + left == |t.p| && t.TailAt(docIn, idx)
      modifies this`begin, this`freqAt, this`docIn, this`left, docs, freqs
      ensures Buffered() && begin < BLOCK && left == 0 && (wantFreq ==> freqAt == begin)
    {
      hide Term.Valid, Term.BlocksStored, Term.TailStored, Term.TailAt, SortedDocs, DocDelta, FileAt;
      FixedFacts();
      var i := BLOCK - left;
      begin := i;
      freqAt := i;
      while i < BLOCK
        invariant begin == freqAt == BLOCK - left <= i <= BLOCK && left == old(left)
        invariant t.TailAt(docIn, idx + (i - begin))
        invariant forall k :: begin <= k < i ==> docs[k] == DocDelta(t.p, idx + (k - begin))
        invariant wantFreq ==> forall k :: begin <= k < i ==> freqs[k] == t.p[idx + (k - begin)].freq
      {
        TailStep(t, docIn, idx + (i - begin));
        var v := docFile[docIn].v;
        docIn := docIn + 1;
        if fieldFreq {
          docs[i] := v / 2;
          var f := 1;
          if v % 2 == 0 {
            f := docFile[docIn].v;
            docIn := docIn + 1;
          }
          if wantFreq {
            freqs[i] := f;
          }
        } else {
          docs[i] := v;
        }
        i := i + 1;
      }
      left := 0;
    }

    /** Takes the difference under `begin`. */
    method NextDelta() returns (delta: nat)
      requires Buffered() && begin < BLOCK && idx < |t.p|
      modifies this`begin, this`idx
      ensures Buffered() && idx == old(idx) + 1 && begin == old(begin) + 1 <= BLOCK
      ensures delta == DocDelta(t.p, idx - 1) && (wantFreq ==> freqs[begin - 1] == t.p[idx - 1].freq)
    {
      hide Term.Valid, FileAt, SortedDocs, DocDelta;
      FixedFacts();
      delta := docs[begin];
      begin := begin + 1;
      idx := idx + 1;
    }

    lemma BufferedFacts()
      requires Buffered()
      ensures Fixed() && SortedDocs(t.p) && begin <= BLOCK && idx + (BLOCK - begin) + left == |t.p|
      ensures left > 0 ==> FileAt(|t.p| - left)
    {}

    /** The file position of a boundary is where the next block, or the tail, starts. */
    lemma FileAtBoundary(b: nat)
      requires Fixed() && BLOCK < |t.p| && BLOCK * b < |t.p| && docIn == t.BlockPos(b)
      ensures FileAt(BLOCK * b)
    {
      hide Term.Valid;
    }
  }

  lemma DeltaAt(p: seq<Posting>, i: nat)
    requires SortedDocs(p) && i < |p|
    ensures DocDelta(p, i) + Prev(p, i) == p[i].doc < EOF
    ensures p[i].doc > INVALID
  {}
}
