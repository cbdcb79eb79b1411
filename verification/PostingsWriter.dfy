/** Writing the posting list of a term. */
module PostingsWriting {
  import opened Limits
  import opened SkipFormat
  import opened SkipWriting
  import opened PostingsFormat
  import opened Positions
  import opened DocBlocks

  /** Replaces documents by differences: the first from `base`, each other from its predecessor. */
  method DeltaEncode(a: array<nat>, base: nat)
    requires a.Length > 0 && base <= a[0] && forall k :: 0 < k < a.Length ==> a[k - 1] <= a[k]
    modifies a
    ensures forall k :: 0 <= k < a.Length ==> a[k] == old(a[k]) - if k == 0 then base else old(a[k - 1])
  {
    var prev := base;
    var k := 0;
    while k < a.Length
      invariant 0 <= k <= a.Length && prev == if k == 0 then base else old(a[k - 1])
      invariant forall j :: 0 <= j < k ==> a[j] == old(a[j]) - if j == 0 then base else old(a[j - 1])
      invariant forall j :: k <= j < a.Length ==> a[j] == old(a[j])
    {
      var doc := a[k];
      a[k] := doc - prev;
      prev := doc;
      k := k + 1;
    }
  }

  class PostingsWriter {
    const f: Format
    const skip: SkipWriter
    const docs: array<nat>
    const freqs: array<nat>
    const buf: array<int>
    const total: nat            // documents of the segment
    var docOut: seq<Token>
    var posOut: seq<PosToken>
    var docAt: nat              // documents buffered
    var last: nat               // last buffered document
    var blockLast: nat          // last document of the last full block
    var docStart: nat
    var docSkip: seq<nat>       // where the last entry of each level stood
    var posSize: nat            // positions buffered
    var posLast: int
    var posPend: nat            // positions buffered when the last block was full
    var posStart: nat
    var posSkip: seq<nat>

    ghost predicate Fixed()
      reads skip
    {
      && docs.Length == freqs.Length == buf.Length == BLOCK && docs != freqs
      && buf as object != docs && buf as object != freqs
      && skip.Valid() && skip.skip0 == BLOCK && skip.skipN == SKIP_N
      && skip.maxLevels == var needed := CountMaxLevels(BLOCK, SKIP_N, total); if MAX_SKIP_LEVELS <= needed then MAX_SKIP_LEVELS else needed
    }

    constructor (f: Format, total: nat)
      ensures Fixed() && this.f == f && this.total == total && docOut == [] && posOut == []
      ensures docAt == 0 && posSize == 0 && fresh(docs) && fresh(freqs) && fresh(buf) && fresh(skip)
    {
      this.f, this.total := f, total;
      skip := new SkipWriter(BLOCK, SKIP_N);
      docs, freqs, buf := new nat[BLOCK], new nat[BLOCK], new int[BLOCK];
      docOut, posOut := [], [];
      docAt, last, blockLast, docStart, docSkip := 0, INVALID, MIN, 0, [];
      posSize, posLast, posPend, posStart, posSkip := 0, 0, 0, 0, [];
      new;
      skip.Prepare(MAX_SKIP_LEVELS, total);
    }

    /** The document buffer and stream after i documents; `base` is what the stream held before the term. */
    ghost predicate DocsWritten(p: seq<Posting>, i: nat, base: seq<Token>)
      requires i <= |p| && docs.Length == freqs.Length == BLOCK
      reads this`docOut, this`docAt, this`last, this`blockLast, docs, freqs
    {
      && docOut == base + Blocks(p, f, i / BLOCK)
      && docAt == i % BLOCK
      && (forall k :: 0 <= k < docAt ==> docs[k] == p[i / BLOCK * BLOCK + k].doc && freqs[k] == p[i / BLOCK * BLOCK + k].freq)
      && last == (if i == 0 then INVALID else p[i - 1].doc)
      && blockLast == Prev(p, i / BLOCK * BLOCK)
    }

    /** The position buffer and stream after the differences in d. */
    ghost predicate PosWritten(d: seq<int>, base: seq<PosToken>)
      requires buf.Length == BLOCK
      reads this`posOut, this`posSize, buf
    {
      && posOut == base + PosBlocks(d, |d| / BLOCK)
      && posSize == |d| % BLOCK
      && forall k :: 0 <= k < posSize ==> buf[k] == d[|d| - posSize + k]
    }

    /** Between the start and the end of the i-th document: a full block is written, but not yet dropped. */
    ghost predicate DocsBegun(p: seq<Posting>, i: nat, base: seq<Token>)
      requires 0 < i <= |p| && docs.Length == freqs.Length == BLOCK
      reads this`docOut, this`docAt, this`last, this`blockLast, docs, freqs
    {
      && docOut == base + Blocks(p, f, i / BLOCK)
      && docAt == (i - 1) % BLOCK + 1
      && (docAt < BLOCK ==> forall k :: 0 <= k < docAt ==> docs[k] == p[i / BLOCK * BLOCK + k].doc && freqs[k] == p[i / BLOCK * BLOCK + k].freq)
      && last == p[i - 1].doc
      && blockLast == Prev(p, (i - 1) / BLOCK * BLOCK)
    }

    /** Adds a document; the block is written once it is full. Fails if the document is out of order. */
    method BeginDocument(id: nat, freq: nat, ghost p: seq<Posting>, ghost i: nat, ghost base: seq<Token>) returns (ok: bool)
      requires Fixed() && i < |p| && DocsWritten(p, i, base) && p[i].doc == id && p[i].freq == freq && Ascending(p, i)
      modifies this`docOut, this`docAt, this`last, this`posLast, docs, freqs
      ensures ok == (old(last) < id) == Ascending(p, i + 1)
      ensures ok ==> DocsBegun(p, i + 1, base) && posLast == f.PosMin()
      ensures !ok ==> docOut == old(docOut)
    {
      hide Blocks, DocDelta;
      ok := last < id;
      if ok {
        docs[docAt] := id;
        freqs[docAt] := freq;
        docAt := docAt + 1;
        last := id;
        if docAt == BLOCK {
          WriteBlock(p, i / BLOCK, base);
        }
        posLast := f.PosMin();
      }
    }

    method WriteBlock(ghost p: seq<Posting>, ghost b: nat, ghost base: seq<Token>)
      requires Fixed() && BLOCK * (b + 1) <= |p| && Ascending(p, BLOCK * (b + 1)) && blockLast == Prev(p, BLOCK * b)
      requires forall k :: 0 <= k < BLOCK ==> docs[k] == p[BLOCK * b + k].doc && freqs[k] == p[BLOCK * b + k].freq
      requires docOut == base + Blocks(p, f, b)
      modifies this`docOut, docs
      ensures docOut == base + Blocks(p, f, b + 1)
    {
      DeltaEncode(docs, blockLast);
      assert docs[..] == DocDeltas(p, BLOCK * b, BLOCK);
      docOut := docOut + [DocBlock(docs[..])];
      if f.freq {
        assert freqs[..] == Freqs(p, BLOCK * b, BLOCK);
        docOut := docOut + [FreqBlock(freqs[..])];
      }
    }

    /** Buffers a position difference; a full block is written. */
    method AddPosition(pos: nat, ghost d: seq<int>, ghost base: seq<PosToken>)
      requires Fixed() && PosWritten(d, base)
      modifies this`posOut, this`posSize, this`posLast, buf
      ensures PosWritten(d + [pos - old(posLast)], base) && posLast == pos
    {
      ghost var d' := d + [pos - posLast];
      PosBlocksGrow(d, pos - posLast);
      buf[posSize] := pos - posLast;
      posLast := pos;
      posSize := posSize + 1;
      if posSize == BLOCK {
        assert buf[..] == d'[|d'| - BLOCK..|d'|];
        posOut := posOut + [PosBlock(buf[..])];
        posSize := 0;
      }
    }

    method EndDocument(ghost p: seq<Posting>, ghost i: nat, ghost base: seq<Token>)
      requires Fixed() && 0 < i <= |p| && DocsBegun(p, i, base)
      modifies this`docAt, this`blockLast, this`posPend
      ensures DocsWritten(p, i, base)
      ensures posPend == if i % BLOCK == 0 then posSize else old(posPend)
    {
      hide Blocks;
      if docAt == BLOCK {
        blockLast := last;
        posPend := posSize;
        docAt := 0;
      }
    }

    ghost function Ix(p: seq<Posting>, blockMax: (nat, nat) -> real): Index
      requires 1 <= |p|
      reads this`docStart, this`posStart
    {
      IndexOf(p, f, docStart, posStart, blockMax)
    }

    /** The levels hold the first n boundaries, and the pointers of each level its last entry. */
    ghost predicate SkipWritten(p: seq<Posting>, n: nat, blockMax: (nat, nat) -> real)
      requires 1 <= |p|
      reads this`docStart, this`posStart, this`docSkip, this`posSkip, skip
    {
      var ix := Ix(p, blockMax);
      && Fixed() && |docSkip| == |posSkip| == MAX_SKIP_LEVELS
      && Holds(ix, skip.levels[..skip.maxLevels], n)
      && forall l :: 0 <= l < skip.maxLevels ==> PtrsAt(ix, l, n, docSkip[l], posSkip[l])
    }

    /** Writes the boundary after `count` documents. */
    method WriteSkip(count: nat, blockMax: (nat, nat) -> real, ghost p: seq<Posting>, ghost n: nat, ghost live: bool)
      requires Fixed() && |docSkip| == |posSkip| == MAX_SKIP_LEVELS && count == n * BLOCK && 1 <= n && 1 <= skip.maxLevels && count < |p|
      requires live ==> SortedDocs(p) && SkipWritten(p, n - 1, blockMax)
      requires live ==> AtMark(p, n)
      modifies this`docSkip, this`posSkip, skip`levels
      ensures Fixed() && |docSkip| == |posSkip| == MAX_SKIP_LEVELS
      ensures live ==> SkipWritten(p, n, blockMax)
    {
      hide SkipWritten, PtrsAt, EntryFor, Holds, Writes, AtMark, IndexOf, Index.Valid, Index.At, Entries, Mark, SortedDocs;
      var docPtr, posPtr := |docOut|, if f.pos then |posOut| else posStart;
      var doc, pend, dSkip, pSkip := blockLast, if f.pos then posPend else 0, docSkip, posSkip;
      var write := (l: nat) => EntryFor(l, dSkip, pSkip, docPtr, posPtr, doc, pend, blockMax(l, count));
      ghost var ix := Ix(p, blockMax);
      if live {
        BeforeSkip(p, n, blockMax, docPtr, posPtr, pend);
        forall l | 0 <= l < skip.maxLevels && OnLevel(ix, l, n)
          ensures Writes(ix, write, l, n)
        {
          EntryIsRight(p, f, docStart, posStart, blockMax, l, n, dSkip, pSkip);
          WritesThen(ix, write, l, n);
        }
      }
      var top := skip.Skip(count, write, ix, n, live);
      docSkip := seq<nat>(MAX_SKIP_LEVELS, l requires 0 <= l < MAX_SKIP_LEVELS => if l < top then docPtr else dSkip[l]);
      posSkip := seq<nat>(MAX_SKIP_LEVELS, l requires 0 <= l < MAX_SKIP_LEVELS => if l < top then posPtr else pSkip[l]);
      if live {
        forall l | 0 <= l < skip.maxLevels
          ensures PtrsAt(ix, l, n, docSkip[l], posSkip[l])
        {
          PtrsNext(ix, l, n, dSkip[l], pSkip[l], docPtr, posPtr);
        }
        AfterSkip(p, n, blockMax);
      }
    }

    lemma BeforeSkip(p: seq<Posting>, n: nat, blockMax: (nat, nat) -> real, docPtr: nat, posPtr: nat, pend: nat)
      requires 1 <= n && BLOCK * n < |p| && SortedDocs(p) && SkipWritten(p, n - 1, blockMax) && AtMark(p, n)
      requires docPtr == |docOut| && posPtr == (if f.pos then |posOut| else posStart) && pend == if f.pos then posPend else 0
      ensures var ix := Ix(p, blockMax);
              && ix.Valid() && n < |ix.marks| && ix.skip0 == BLOCK && ix.skipN == SKIP_N && skip.maxLevels <= |skip.levels|
              && Holds(ix, skip.levels[..skip.maxLevels], n - 1)
              && (forall l :: 0 <= l < skip.maxLevels ==> PtrsAt(ix, l, n - 1, docSkip[l], posSkip[l]))
      ensures Mark(p, f, docStart, posStart, n) == SkipState(blockLast, docPtr, pend, posPtr) == Ix(p, blockMax).marks[n]
      ensures skip.maxLevels <= MAX_SKIP_LEVELS == |docSkip| == |posSkip|
    {
      IndexValid(p, f, docStart, posStart, blockMax);
    }

    lemma AfterSkip(p: seq<Posting>, n: nat, blockMax: (nat, nat) -> real)
      requires 1 <= |p| && Fixed() && |docSkip| == |posSkip| == MAX_SKIP_LEVELS
      requires var ix := Ix(p, blockMax);
               && Holds(ix, skip.levels[..skip.maxLevels], n)
               && forall l :: 0 <= l < skip.maxLevels ==> PtrsAt(ix, l, n, docSkip[l], posSkip[l])
      ensures SkipWritten(p, n, blockMax)
    {}

    /** After i documents of a term that started at the end of `docBase` and `posBase`. */
    ghost predicate Writing(p: seq<Posting>, i: nat, docBase: seq<Token>, posBase: seq<PosToken>, blockMax: (nat, nat) -> real)
      reads this, docs, freqs, buf, skip
    {
      && Fixed() && i <= |p| && DocsWritten(p, i, docBase)
      && docStart == |docBase| && posStart == |posBase| && |docSkip| == |posSkip| == MAX_SKIP_LEVELS
      && (if f.pos then PosWritten(PosStream(p, f, i), posBase) && posPend == |PosStream(p, f, i / BLOCK * BLOCK)| % BLOCK
          else posOut == posBase && posSize == 0)
      && (Live(p) ==> SkipWritten(p, Calls(i), blockMax))
    }

    method BeginTerm(ghost p: seq<Posting>, blockMax: (nat, nat) -> real)
      requires Fixed() && docAt == 0 && posSize == 0
      modifies this, skip`levels
      ensures Writing(p, 0, old(docOut), old(posOut), blockMax)
      ensures docOut == old(docOut) && posOut == old(posOut)
    {
      hide SkipWritten, SortedDocs, CountMaxLevels, DocsWritten, PosWritten;
      docStart, posStart := |docOut|, |posOut|;
      var d, q := docStart, posStart;
      docSkip, posSkip := seq<nat>(MAX_SKIP_LEVELS, _ => d), seq<nat>(MAX_SKIP_LEVELS, _ => q);
      last, blockLast, posPend := INVALID, MIN, 0;
      skip.Reset();
      if Live(p) {
        NoneWritten(p, blockMax);
      }
      NothingYet(p);
    }

    lemma NothingYet(p: seq<Posting>)
      requires Fixed() && docAt == 0 && posSize == 0 && last == INVALID && blockLast == MIN
      ensures DocsWritten(p, 0, docOut) && PosWritten(PosStream(p, f, 0), posOut) && |PosStream(p, f, 0)| == 0
    {
      assert docOut == docOut + Blocks(p, f, 0);
      assert posOut == posOut + PosBlocks(PosStream(p, f, 0), 0);
    }

    lemma NoneWritten(p: seq<Posting>, blockMax: (nat, nat) -> real)
      requires Live(p) && Fixed() && |docSkip| == |posSkip| == MAX_SKIP_LEVELS
      requires forall l :: 0 <= l < MAX_SKIP_LEVELS ==> docSkip[l] == docStart && posSkip[l] == posStart
      requires forall l :: 0 <= l < |skip.levels| ==> skip.levels[l] == []
      ensures SkipWritten(p, 0, blockMax)
    {
      var ix := Ix(p, blockMax);
      IndexValid(p, f, docStart, posStart, blockMax);
      HoldsNone(ix, skip.levels[..skip.maxLevels]);
      forall l | 0 <= l < skip.maxLevels
        ensures PtrsAt(ix, l, 0, docSkip[l], posSkip[l])
      {
        AtStep(ix, l, 0);
        EntriesExact(ix, l, 0, 0);
      }
    }

    /** One turn of the writing loop. Fails, without a trace in the streams but skip data, if the document is out of order. */
    method WriteDocument(p: seq<Posting>, i: nat, blockMax: (nat, nat) -> real, ghost docBase: seq<Token>, ghost posBase: seq<PosToken>)
      returns (ok: bool)
      requires Writing(p, i, docBase, posBase, blockMax) && i < |p| <= total && Ascending(p, i)
      modifies this, docs, freqs, buf, skip`levels
      ensures ok == Ascending(p, i + 1)
      ensures ok ==> Writing(p, i + 1, docBase, posBase, blockMax)
    {
      hide DocsWritten, DocsBegun, PosWritten, SkipWritten, AtMark, Fixed, PosStream, Blocks, Ascending, SortedDocs, CountMaxLevels, Calls;
      WritingFacts(p, i, docBase, posBase, blockMax);
      if last != INVALID && docAt == 0 {
        WriteSkip(i, blockMax, p, i / BLOCK, Live(p));
      }
      CallsNext(p, i);
      ok := BeginDocument(p[i].doc, p[i].freq, p, i, docBase);
      if !ok {
        return;
      }
      if f.pos {
        WritePositions(p[i].positions, PosStream(p, f, i), posBase);
        PosSizeIs(PosStream(p, f, i) + PosDeltas(p[i].positions, f.PosMin()), posBase);
      }
      EndDocument(p, i + 1, docBase);
      StreamNext(p, i);
    }

    lemma WritingFacts(p: seq<Posting>, i: nat, docBase: seq<Token>, posBase: seq<PosToken>, blockMax: (nat, nat) -> real)
      requires Writing(p, i, docBase, posBase, blockMax) && i < |p| <= total && Ascending(p, i)
      ensures last != INVALID && docAt == 0 ==>
                && i == i / BLOCK * BLOCK && 1 <= i / BLOCK && 1 <= skip.maxLevels && Calls(i) == i / BLOCK - 1
                && AtMark(p, i / BLOCK)
      ensures docs.Length == freqs.Length == buf.Length == BLOCK && Fixed()
      ensures !(last != INVALID && docAt == 0) ==> Calls(i + 1) == Calls(i)
      ensures Calls(i + 1) == i / BLOCK
    {}

    lemma CallsNext(p: seq<Posting>, i: nat)
      ensures Calls(i + 1) == i / BLOCK
    {}

    lemma PosSizeIs(d: seq<int>, base: seq<PosToken>)
      requires Fixed() && PosWritten(d, base)
      ensures posSize == |d| % BLOCK
    {}

    lemma StreamNext(p: seq<Posting>, i: nat)
      requires i < |p|
      ensures PosStream(p, f, i + 1) == PosStream(p, f, i) + PosDeltas(p[i].positions, f.PosMin())
      ensures (i + 1) % BLOCK != 0 ==> (i + 1) / BLOCK == i / BLOCK
      ensures (i + 1) % BLOCK == 0 ==> (i + 1) / BLOCK * BLOCK == i + 1
    {}

    method WritePositions(positions: seq<nat>, ghost d: seq<int>, ghost base: seq<PosToken>)
      requires Fixed() && PosWritten(d, base) && posLast == f.PosMin()
      modifies this`posOut, this`posSize, this`posLast, buf
      ensures PosWritten(d + PosDeltas(positions, f.PosMin()), base)
    {
      hide PosWritten;
      var k := 0;
      assert d + PosDeltas([], f.PosMin()) == d;
      while k < |positions|
        invariant 0 <= k <= |positions| && posLast == if k == 0 then f.PosMin() else positions[k - 1]
        invariant PosWritten(d + PosDeltas(positions[..k], f.PosMin()), base)
      {
        assert d + PosDeltas(positions[..k + 1], f.PosMin()) == d + PosDeltas(positions[..k], f.PosMin()) + [positions[k] - posLast];
        AddPosition(positions[k], d + PosDeltas(positions[..k], f.PosMin()), base);
        k := k + 1;
      }
      assert positions[..k] == positions;
    }

    /** Writes the documents that fill no block one by one. */
    method WriteTail(ghost p: seq<Posting>)
      requires Fixed() && Ascending(p, |p|) && docAt == |p| % BLOCK && blockLast == Prev(p, |p| / BLOCK * BLOCK)
      requires forall k :: 0 <= k < docAt ==> docs[k] == p[|p| / BLOCK * BLOCK + k].doc && freqs[k] == p[|p| / BLOCK * BLOCK + k].freq
      modifies this`docOut
      ensures docOut == old(docOut) + Tail(p, f, |p| / BLOCK * BLOCK)
    {
      hide Tail, CountMaxLevels;
      ghost var from := |p| / BLOCK * BLOCK;
      var prev := blockLast;
      var k := 0;
      while k < docAt
        invariant 0 <= k <= docAt && prev == Prev(p, from + k)
        invariant docOut + Tail(p, f, from + k) == old(docOut) + Tail(p, f, from)
      {
        var delta := docs[k] - prev;
        var entry := if !f.freq then [Vint(delta)] else if freqs[k] == 1 then [Vint(2 * delta + 1)] else [Vint(2 * delta), Vint(freqs[k])];
        TailSplit(p, from + k);
        assert docOut + (entry + Tail(p, f, from + k + 1)) == (docOut + entry) + Tail(p, f, from + k + 1);
        docOut := docOut + entry;
        prev := docs[k];
        k := k + 1;
      }
      TailEnd(p);
      assert docOut + [] == docOut;
    }

    lemma TailSplit(p: seq<Posting>, i: nat)
      requires i < |p|
      ensures Tail(p, f, i) == TailEntry(p, f, i) + Tail(p, f, i + 1)
    {}

    lemma TailEnd(p: seq<Posting>)
      ensures Tail(p, f, |p|) == []
    {}

    method WritePosTail(ghost d: seq<int>, ghost base: seq<PosToken>)
      requires Fixed() && PosWritten(d, base)
      modifies this`posOut
      ensures posOut == base + PosImage(d)
    {
      hide PosBlocks, CountMaxLevels;
      var k := 0;
      while k < posSize
        invariant 0 <= k <= posSize
        invariant posOut == base + PosBlocks(d, |d| / BLOCK) + PosTail(d)[..k]
      {
        posOut := posOut + [PosVint(buf[k])];
        k := k + 1;
      }
      assert PosTail(d)[..k] == PosTail(d);
    }

    /** Writes the posting list of a term, unless a document is out of order. */
    method Write(p: seq<Posting>, blockMax: (nat, nat) -> real, rootScore: real)
      returns (meta: Option<TermMeta>, ghost written: seq<seq<Token>>)
      requires Fixed() && docAt == 0 && posSize == 0 && |p| <= total
      requires ValidPositions(p, f) && forall i :: 0 <= i < |p| ==> p[i].doc < EOF
      modifies this, docs, freqs, buf, skip`levels
      ensures meta.Some? <==> Ascending(p, |p|)
      ensures meta.Some? ==> Fixed() && docAt == 0 && posSize == 0 && old(docOut) <= docOut && old(posOut) <= posOut
      ensures meta.Some? ==> MetaIs(p, f, meta.value, |old(docOut)|, |old(posOut)|)
      ensures meta.Some? && |p| <= 1 ==> docOut == old(docOut)
      ensures meta.Some? && (|p| == 0 || !f.pos) ==> posOut == old(posOut)
      ensures meta.Some? && 1 <= |p| ==> Term(p, f, meta.value, docOut, posOut, blockMax, written).Valid()
    {
      hide *;
      ghost var docBase, posBase := docOut, posOut;
      BeginTerm(p, blockMax);
      var docsCount, totalFreq := 0, 0;
      written := [];
      NoneAscending(p);
      while docsCount < |p|
        invariant docsCount <= |p| && Ascending(p, docsCount) && Writing(p, docsCount, docBase, posBase, blockMax)
        invariant totalFreq == FreqTotal(p, docsCount)
      {
        var ok := WriteDocument(p, docsCount, blockMax, docBase, posBase);
        if !ok {
          NotAscending(p, docsCount + 1);
          return None, [];
        }
        FreqTotalNext(p, docsCount);
        totalFreq := totalFreq + p[docsCount].freq;
        docsCount := docsCount + 1;
      }
      if docsCount == 0 {
        NothingWritten(p, docBase, posBase, blockMax);
        MetaAssembled(p, f, TermMeta(0, 0, docStart, posStart, None, 0, 0), docStart, posStart);
        return Some(TermMeta(0, 0, docStart, posStart, None, 0, 0)), [];
      }
      InOrder(p);
      var m;
      m, written := EndTerm(docsCount, totalFreq, rootScore, p, docBase, posBase, blockMax);
      meta := Some(m);
    }

    lemma NoneAscending(p: seq<Posting>)
      ensures Ascending(p, 0) && FreqTotal(p, 0) == 0
    {}

    lemma NotAscending(p: seq<Posting>, i: nat)
      requires i <= |p| && !Ascending(p, i)
      ensures !Ascending(p, |p|)
    {}

    lemma FreqTotalNext(p: seq<Posting>, i: nat)
      requires i < |p|
      ensures FreqTotal(p, i + 1) == FreqTotal(p, i) + p[i].freq
    {}

    lemma NothingWritten(p: seq<Posting>, docBase: seq<Token>, posBase: seq<PosToken>, blockMax: (nat, nat) -> real)
      requires |p| == 0 && Writing(p, 0, docBase, posBase, blockMax)
      ensures Fixed() && docAt == 0 && posSize == 0 && docBase == docOut && posBase == posOut
      ensures docStart == |docBase| && posStart == |posBase|
    {
      assert PosStream(p, f, 0) == [];
    }

    /** A list written to its end is in order, and its frequencies count its positions. */
    lemma InOrder(p: seq<Posting>)
      requires Ascending(p, |p|) && ValidPositions(p, f) && forall i :: 0 <= i < |p| ==> p[i].doc < EOF
      ensures ValidList(p, f)
      ensures f.pos ==> FreqTotal(p, |p|) == |PosStream(p, f, |p|)|
    {
      if f.pos {
        FreqTotalIsLength(p, f, |p|);
      }
    }

    /** Finishes the term: tail, remaining positions, skip list. */
    method EndTerm(docsCount: nat, totalFreq: nat, rootScore: real, ghost p: seq<Posting>, ghost docBase: seq<Token>,
                   ghost posBase: seq<PosToken>, blockMax: (nat, nat) -> real) returns (meta: TermMeta, ghost written: seq<seq<Token>>)
      requires Writing(p, |p|, docBase, posBase, blockMax) && 1 <= |p| == docsCount <= total && ValidList(p, f)
      requires totalFreq == FreqTotal(p, |p|) && (f.pos ==> totalFreq == |PosStream(p, f, |p|)|)
      modifies this
      ensures Fixed() && docAt == 0 && posSize == 0 && MetaIs(p, f, meta, |docBase|, |posBase|)
      ensures |p| == 1 ==> docOut == docBase
      ensures Term(p, f, meta, docOut, posOut, blockMax, written).Valid()
      ensures docBase <= docOut && posBase <= posOut && (!f.pos ==> posOut == posBase)
    {
      hide *;
      EndFacts(p, docBase, posBase, blockMax);
      ghost var front := docOut;
      var singleDoc := EndDocuments(docsCount, rootScore, p);
      var posEnd := EndPositions(totalFreq, p, posBase);
      ghost var middle := docOut;
      var skipStart := |docOut| - docStart;
      written := EndSkipList(docsCount, rootScore, p, blockMax);
      meta := TermMeta(docsCount, totalFreq, docStart, posStart, posEnd, skipStart, singleDoc);
      OneFreq(p);
      EndAssembled(Term(p, f, meta, docOut, posOut, blockMax, written), docBase, front, middle, rootScore);
      MetaAssembled(p, f, meta, |docBase|, |posBase|);
      docAt, posSize, last := 0, 0, INVALID;
    }

    method EndDocuments(docsCount: nat, rootScore: real, ghost p: seq<Posting>) returns (singleDoc: nat)
      requires Fixed() && Ascending(p, |p|) && 1 <= docsCount == |p| && docAt == |p| % BLOCK && blockLast == Prev(p, |p| / BLOCK * BLOCK)
      requires forall k :: 0 <= k < docAt ==> docs[k] == p[|p| / BLOCK * BLOCK + k].doc && freqs[k] == p[|p| / BLOCK * BLOCK + k].freq
      modifies this`docOut
      ensures |p| == 1 ==> singleDoc + MIN == p[0].doc && docOut == old(docOut)
      ensures 2 <= |p| ==> docOut == old(docOut) + ((if |p| <= BLOCK then Root(f, rootScore) else []) + Tail(p, f, |p| / BLOCK * BLOCK))
    {
      hide Tail, CountMaxLevels;
      singleDoc := 0;
      if docsCount == 1 {
        singleDoc := docs[0] - MIN;
      } else {
        if docsCount <= BLOCK && f.wand {
          docOut := docOut + [RootScore(rootScore)];
        }
        WriteTail(p);
      }
    }

    method EndPositions(totalFreq: nat, ghost p: seq<Posting>, ghost posBase: seq<PosToken>) returns (posEnd: Option<nat>)
      requires Fixed() && posStart == |posBase| && (f.pos ==> totalFreq == |PosStream(p, f, |p|)|)
      requires if f.pos then PosWritten(PosStream(p, f, |p|), posBase) else posOut == posBase
      modifies this`posOut
      ensures f.pos ==> PosStored(posOut, posStart, PosStream(p, f, |p|))
      ensures posEnd == if f.pos && totalFreq > BLOCK then Some(totalFreq / BLOCK) else None
      ensures posBase <= posOut && (!f.pos ==> posOut == posBase)
    {
      posEnd := None;
      if f.pos {
        if totalFreq > BLOCK {
          posEnd := Some(|posOut| - posStart);
        }
        WritePosTail(PosStream(p, f, |p|), posBase);
        PosStoredAt(posBase, PosStream(p, f, |p|));
      }
    }

    method EndSkipList(docsCount: nat, rootScore: real, ghost p: seq<Posting>, blockMax: (nat, nat) -> real)
      returns (ghost written: seq<seq<Token>>)
      requires Fixed() && docsCount == |p| && SortedDocs(p)
      requires BLOCK < |p| ==> SkipWritten(p, (|p| - 1) / BLOCK, blockMax) && skip.Valid() && 1 <= skip.maxLevels <= MAX_SKIP_LEVELS
      modifies this`docOut
      ensures BLOCK < |p| ==>
                && 1 <= |written| <= MAX_SKIP_LEVELS && Complete(IndexOf(p, f, docStart, posStart, blockMax), written, |written|)
                && docOut == old(docOut) + (Root(f, rootScore) + ([LevelCount(|written|)] + LevelsTokens(written, |written|)))
      ensures |p| <= BLOCK ==> docOut == old(docOut)
    {
      hide SkipWritten, LevelsTokens, Complete, SortedDocs, IndexOf, Fixed, CountMaxLevels;
      written := [];
      if BLOCK < docsCount {
        var n := skip.CountLevels();
        if f.wand {
          docOut := docOut + [RootScore(rootScore)];
        }
        docOut := skip.FlushLevels(n, docOut);
        written := skip.levels[..n];
        FlushedFacts(p, blockMax, n);
      }
    }

    lemma EndAssembled(t: Term, docBase: seq<Token>, front: seq<Token>, middle: seq<Token>, rootScore: real)
      requires t.f == f && 1 <= |t.p| == t.meta.docsCount && ValidList(t.p, f) && t.meta.docStart == |docBase|
      requires f.pos ==> PosStored(posOut, t.meta.posStart, PosStream(t.p, f, |t.p|)) && t.meta.freq == |PosStream(t.p, f, |t.p|)|
      requires f.pos ==> (t.meta.freq > BLOCK ==> t.meta.posEnd == Some(t.meta.freq / BLOCK))
      requires t.posFile == posOut && t.file == docOut
      requires front == docBase + Blocks(t.p, f, |t.p| / BLOCK)
      requires |t.p| == 1 ==> middle == front && t.meta.singleDoc + MIN == t.p[0].doc && t.meta.freq == t.p[0].freq
      requires 2 <= |t.p| ==> middle == front + ((if |t.p| <= BLOCK then Root(f, rootScore) else []) + Tail(t.p, f, |t.p| / BLOCK * BLOCK))
      requires |t.p| <= BLOCK ==> docOut == middle
      requires BLOCK < |t.p| ==>
                && docOut == middle + (Root(f, rootScore) + ([LevelCount(|t.written|)] + LevelsTokens(t.written, |t.written|)))
                && t.meta.skipStart == |middle| - |docBase|
                && 1 <= |t.written| <= MAX_SKIP_LEVELS
                && Complete(IndexOf(t.p, f, t.meta.docStart, t.meta.posStart, t.bound), t.written, |t.written|)
      ensures t.Valid() && docBase <= docOut
    {
      hide Blocks, Tail, LevelsTokens, Complete, SortedDocs, PosStored, IndexOf, PosStream;
      if 2 <= |t.p| {
        hide Term.Valid;
        assert docOut == docBase + TermTokens(t, rootScore);
        Assembled(t, docBase, rootScore);
      }
    }

    lemma EndFacts(p: seq<Posting>, docBase: seq<Token>, posBase: seq<PosToken>, blockMax: (nat, nat) -> real)
      requires Writing(p, |p|, docBase, posBase, blockMax) && 1 <= |p| <= total && ValidList(p, f)
      ensures Fixed() && SortedDocs(p) && Ascending(p, |p|) && docOut == docBase + Blocks(p, f, |p| / BLOCK)
      ensures docAt == |p| % BLOCK && blockLast == Prev(p, |p| / BLOCK * BLOCK)
      ensures forall k :: 0 <= k < docAt ==> docs[k] == p[|p| / BLOCK * BLOCK + k].doc && freqs[k] == p[|p| / BLOCK * BLOCK + k].freq
      ensures docs.Length == freqs.Length == BLOCK && docStart == |docBase| && posStart == |posBase|
      ensures |p| == 1 ==> docs[0] == p[0].doc >= MIN && docOut == docBase
      ensures f.pos ==> PosWritten(PosStream(p, f, |p|), posBase) && |posOut| == posStart + |PosStream(p, f, |p|)| / BLOCK
      ensures !f.pos ==> posOut == posBase
      ensures BLOCK < |p| ==> SkipWritten(p, (|p| - 1) / BLOCK, blockMax) && skip.Valid() && 1 <= skip.maxLevels <= MAX_SKIP_LEVELS
    {}

    lemma FlushedFacts(p: seq<Posting>, blockMax: (nat, nat) -> real, n: nat)
      requires Live(p) && SkipWritten(p, (|p| - 1) / BLOCK, blockMax) && skip.Valid() && 1 <= skip.maxLevels <= MAX_SKIP_LEVELS
      requires n <= skip.maxLevels && (n > 0 ==> skip.levels[n - 1] != [])
      requires forall i :: n <= i < skip.maxLevels ==> skip.levels[i] == []
      ensures 1 <= n <= MAX_SKIP_LEVELS && Complete(IndexOf(p, f, docStart, posStart, blockMax), skip.levels[..n], n)
      ensures LevelsTokens(skip.levels, n) == LevelsTokens(skip.levels[..n], n)
    {
      hide SkipWritten, LevelsTokens, Holds, HoldsAt, IndexOf, Index.Valid, SortedDocs, SkipWriter.Valid;
      var ix := Ix(p, blockMax);
      SkipHolds(p, blockMax);
      CompleteLevels(ix, skip.levels, n, skip.maxLevels);
      CompletePrefix(ix, skip.levels[..skip.maxLevels], n);
      assert skip.levels[..skip.maxLevels][..n] == skip.levels[..n];
      LevelsTokensPrefix(skip.levels, skip.levels[..n], n);
    }

    lemma SkipHolds(p: seq<Posting>, blockMax: (nat, nat) -> real)
      requires Live(p) && SkipWritten(p, (|p| - 1) / BLOCK, blockMax)
      ensures Ix(p, blockMax).Valid() && skip.maxLevels <= |skip.levels|
      ensures Holds(Ix(p, blockMax), skip.levels[..skip.maxLevels], Ix(p, blockMax).Inner())
    {}

    lemma OneFreq(p: seq<Posting>)
      ensures |p| == 1 ==> FreqTotal(p, |p|) == p[0].freq
    {
      assert |p| == 1 ==> FreqTotal(p, 1) == FreqTotal(p, 0) + p[0].freq;
    }

    /** What has been written is exactly n full blocks of documents. */
    ghost predicate AtMark(p: seq<Posting>, n: nat)
      requires BLOCK * n <= |p|
      reads this`docStart, this`posStart, this`docOut, this`posOut, this`blockLast, this`posPend
    {
      var mark := Mark(p, f, docStart, posStart, n);
      && blockLast == mark.doc && |docOut| == mark.docPtr
      && (f.pos ==> |posOut| == mark.posPtr && posPend == mark.pend)
    }
  }

  /** What a term's metadata says: how many documents there are and how often the term occurs in all of them together, where its
      data starts, and where the positions that fill no block start, if others come before them. */
  ghost predicate MetaIs(p: seq<Posting>, f: Format, meta: TermMeta, docStart: nat, posStart: nat) {
    && meta.docsCount == |p| && meta.freq == FreqTotal(p, |p|) && meta.docStart == docStart && meta.posStart == posStart
    && meta.posEnd == if f.pos && meta.freq > BLOCK then Some(meta.freq / BLOCK) else None
  }

  lemma MetaAssembled(p: seq<Posting>, f: Format, meta: TermMeta, docStart: nat, posStart: nat)
    requires meta.docsCount == |p| && meta.freq == FreqTotal(p, |p|) && meta.docStart == docStart && meta.posStart == posStart
    requires meta.posEnd == if f.pos && meta.freq > BLOCK then Some(meta.freq / BLOCK) else None
    ensures MetaIs(p, f, meta, docStart, posStart)
  {}

  lemma PosStoredAt(base: seq<PosToken>, d: seq<int>)
    ensures PosStored(base + PosImage(d), |base|, d)
  {}

  ghost function Root(f: Format, rootScore: real): seq<Token> {
    if f.wand then [RootScore(rootScore)] else []
  }

  /** What a finished term adds to the document stream, piece by piece. */
  ghost function TermTokens(t: Term, rootScore: real): seq<Token> {
    Blocks(t.p, t.f, |t.p| / BLOCK)
    + ((if |t.p| <= BLOCK then Root(t.f, rootScore) else []) + Tail(t.p, t.f, |t.p| / BLOCK * BLOCK))
    + (if BLOCK < |t.p| then Root(t.f, rootScore) + ([LevelCount(|t.written|)] + LevelsTokens(t.written, |t.written|)) else [])
  }

  lemma Middle(file: seq<Token>, a: seq<Token>, b: seq<Token>, c: seq<Token>)
    requires file == a + b + c
    ensures |a| + |b| <= |file| && file[|a|..|a| + |b|] == b
  {}

  /** A file that holds these pieces holds the term. */
  lemma Assembled(t: Term, base: seq<Token>, rootScore: real)
    requires ValidList(t.p, t.f) && 2 <= |t.p| == t.meta.docsCount && t.meta.docStart == |base|
    requires t.file == base + TermTokens(t, rootScore)
    requires BLOCK < |t.p| ==>
               && t.meta.skipStart == |Blocks(t.p, t.f, |t.p| / BLOCK)| + |Tail(t.p, t.f, |t.p| / BLOCK * BLOCK)|
               && 1 <= |t.written| <= MAX_SKIP_LEVELS && Complete(t.Ix(), t.written, |t.written|)
    requires t.f.pos ==> t.PosOk()
    ensures t.Valid()
  {
    hide Blocks, Tail, LevelsTokens, Complete, SortedDocs, PosStored, Term.BlocksStored, Term.TailStored, Term.SkipStored, IndexOf, PosStream;
    var blocks := Blocks(t.p, t.f, |t.p| / BLOCK);
    var all := TermTokens(t, rootScore);
    assert all == blocks + all[|blocks|..];
    assert t.file == base + blocks + all[|blocks|..];
    AssembledBlocks(t, base, all[|blocks|..]);
    if |t.p| <= BLOCK {
      AssembledShort(t, base, rootScore);
    } else {
      AssembledLong(t, base, rootScore);
    }
  }

  lemma AssembledShort(t: Term, base: seq<Token>, rootScore: real)
    requires SortedDocs(t.p) && t.meta.docStart == |base| && |t.p| <= BLOCK && t.file == base + TermTokens(t, rootScore)
    ensures t.TailStored()
  {
    hide Blocks, Tail, LevelsTokens, SortedDocs;
    var blocks, tail := Blocks(t.p, t.f, |t.p| / BLOCK), Tail(t.p, t.f, |t.p| / BLOCK * BLOCK);
    var root := Root(t.f, rootScore);
    assert t.file == (base + blocks + root) + tail + [];
    Middle(t.file, base + blocks + root, tail, []);
  }

  lemma AssembledLong(t: Term, base: seq<Token>, rootScore: real)
    requires SortedDocs(t.p) && t.meta.docStart == |base| && BLOCK < |t.p| && t.file == base + TermTokens(t, rootScore)
    requires t.meta.skipStart == |Blocks(t.p, t.f, |t.p| / BLOCK)| + |Tail(t.p, t.f, |t.p| / BLOCK * BLOCK)|
    requires 1 <= |t.written| <= MAX_SKIP_LEVELS && Complete(t.Ix(), t.written, |t.written|)
    ensures t.TailStored() && t.SkipStored()
  {
    hide Blocks, Tail, LevelsTokens, Complete, SortedDocs, IndexOf;
    var blocks, tail := Blocks(t.p, t.f, |t.p| / BLOCK), Tail(t.p, t.f, |t.p| / BLOCK * BLOCK);
    var root := Root(t.f, rootScore);
    var levels := [LevelCount(|t.written|)] + LevelsTokens(t.written, |t.written|);
    assert t.file == (base + blocks) + tail + (root + levels);
    Middle(t.file, base + blocks, tail, root + levels);
    assert t.file == (base + blocks + tail + root) + levels + [];
    Middle(t.file, base + blocks + tail + root, levels, []);
  }

  lemma AssembledBlocks(t: Term, base: seq<Token>, rest: seq<Token>)
    requires SortedDocs(t.p) && t.meta.docStart == |base| && t.file == base + Blocks(t.p, t.f, |t.p| / BLOCK) + rest
    ensures t.BlocksStored()
  {
    var n, w := |t.p| / BLOCK, t.f.Width();
    forall b | 0 <= b < n
      ensures t.BlockStored(b)
    {
      BlockAt(t.p, t.f, n, b);
      var s := Blocks(t.p, t.f, n);
      assert t.file[t.BlockPos(b)] == s[b * w] == s[b * w..b * w + w][0];
      if t.f.freq {
        assert t.file[t.BlockPos(b) + 1] == s[b * w + 1] == s[b * w..b * w + w][1];
      }
    }
  }

  ghost function FreqTotal(p: seq<Posting>, n: nat): nat
    requires n <= |p|
  {
    if n == 0 then 0 else FreqTotal(p, n - 1) + p[n - 1].freq
  }

  lemma {:induction false} FreqTotalIsLength(p: seq<Posting>, f: Format, n: nat)
    requires n <= |p| && ValidPositions(p, f) && f.pos
    ensures FreqTotal(p, n) == |PosStream(p, f, n)|
  {
    if n > 0 {
      FreqTotalIsLength(p, f, n - 1);
    }
  }

  /** A list in order that is long enough to skip in. */
  ghost predicate Live(p: seq<Posting>) {
    SortedDocs(p) && BLOCK < |p|
  }

  /** Boundaries written once i documents are in: the one after a block waits for the next document. */
  ghost function Calls(i: nat): nat {
    if i == 0 then 0 else (i - 1) / BLOCK
  }

  ghost predicate PtrsAt(ix: Index, l: nat, n: nat, docPtr: nat, posPtr: nat)
    requires ix.Valid() && n < |ix.marks|
  {
    EntriesBound(ix, l, n);
    var mark := ix.marks[ix.At(l, Entries(ix, l, n))];
    docPtr == mark.docPtr && posPtr == mark.posPtr
  }

  /** The entry for one level: the boundary, with pointers relative to the level's last entry. */
  function EntryFor(l: nat, docSkip: seq<nat>, posSkip: seq<nat>, docPtr: nat, posPtr: nat, doc: nat, pend: nat, bound: real): Entry {
    if l < |docSkip| == |posSkip| then Entry(doc, Minus(docPtr, docSkip[l]), pend, Minus(posPtr, posSkip[l]), bound)
    else Entry(0, 0, 0, 0, 0.0)
  }

  lemma EntryIsRight(p: seq<Posting>, f: Format, docStart: nat, posStart: nat, blockMax: (nat, nat) -> real, l: nat, n: nat,
                     docSkip: seq<nat>, posSkip: seq<nat>)
    requires SortedDocs(p) && 1 <= n && BLOCK * n < |p| && l < |docSkip| == |posSkip|
    requires var ix := IndexOf(p, f, docStart, posStart, blockMax); ix.Valid() && PtrsAt(ix, l, n - 1, docSkip[l], posSkip[l]) && OnLevel(ix, l, n)
    ensures var ix, mark := IndexOf(p, f, docStart, posStart, blockMax), Mark(p, f, docStart, posStart, n);
            && 1 <= Entries(ix, l, n) && ix.At(l, Entries(ix, l, n)) == n
            && EntryFor(l, docSkip, posSkip, mark.docPtr, mark.posPtr, mark.doc, mark.pend, blockMax(l, n * BLOCK))
               == ix.EntryAt(l, Entries(ix, l, n))
  {
    var ix := IndexOf(p, f, docStart, posStart, blockMax);
    EntriesStep(ix, l, n);
    var e := Entries(ix, l, n);
    AtStep(ix, l, n);
    AtStep(ix, l, e - 1);
    assert CountAt(l, e) == n * BLOCK;
  }

  lemma WritesThen(ix: Index, write: nat -> Entry, l: nat, n: nat)
    requires ix.Valid() && 1 <= Entries(ix, l, n) && ix.At(l, Entries(ix, l, n)) < |ix.marks|
    requires write(l) == ix.EntryAt(l, Entries(ix, l, n))
    ensures Writes(ix, write, l, n)
  {}

  lemma PtrsNext(ix: Index, l: nat, n: nat, docPtr: nat, posPtr: nat, docPtr': nat, posPtr': nat)
    requires ix.Valid() && 1 <= n < |ix.marks| && PtrsAt(ix, l, n - 1, docPtr, posPtr)
    requires docPtr' == ix.marks[n].docPtr && posPtr' == ix.marks[n].posPtr
    ensures OnLevel(ix, l, n) ==> PtrsAt(ix, l, n, docPtr', posPtr')
    ensures !OnLevel(ix, l, n) ==> PtrsAt(ix, l, n, docPtr, posPtr)
  {
    EntriesStep(ix, l, n);
  }

  /** The first i documents come in order. */
  ghost predicate Ascending(p: seq<Posting>, i: nat) {
    && i <= |p|
    && (forall j :: 0 <= j < i ==> MIN <= p[j].doc)
    && (forall j, k :: 0 <= j < k < i ==> p[j].doc < p[k].doc)
  }

  /** One more difference leaves the full blocks as they are, or completes one. */
  lemma {:induction false} PosBlocksSame(d: seq<int>, x: int, n: nat)
    requires BLOCK * n <= |d|
    ensures PosBlocks(d + [x], n) == PosBlocks(d, n)
  {
    forall b | 0 <= b < n
      ensures PosBlocks(d + [x], n)[b] == PosBlocks(d, n)[b]
    {
      assert (d + [x])[BLOCK * b..BLOCK * b + BLOCK] == d[BLOCK * b..BLOCK * b + BLOCK];
    }
  }

  lemma PosBlocksGrow(d: seq<int>, x: int)
    ensures var d', n := d + [x], |d| / BLOCK;
            && PosBlocks(d', n) == PosBlocks(d, n)
            && (|d'| % BLOCK == 0 ==> PosBlocks(d', |d'| / BLOCK) == PosBlocks(d, n) + [PosBlock(d'[|d'| - BLOCK..|d'|])])
  {
    PosBlocksSame(d, x, |d| / BLOCK);
  }
}
