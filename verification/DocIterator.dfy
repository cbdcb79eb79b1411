/** Iterating over the documents of a term, with skipping. */
module DocIterators {
  import opened Limits
  import opened SkipFormat
  import opened SkipWriting
  import opened SkipReading
  import opened PostingsFormat
  import opened Positions
  import opened DocBlocks

  /** The first document that is not less than the target. */
  ghost function LowerDoc(p: seq<Posting>, target: nat, i: nat): (r: nat)
    requires i <= |p|
    ensures i <= r <= |p| && (r < |p| ==> target <= p[r].doc) && forall j :: i <= j < r ==> p[j].doc < target
    decreases |p| - i
  {
    if i == |p| || target <= p[i].doc then i else LowerDoc(p, target, i + 1)
  }

  class DocIterator {
    const base: BlockReader
    const fieldWand: bool
    const wantPos: bool
    const freq: Frequency
    const pos: PositionIterator
    const skip: SkipReader
    var skipOffs: nat
    var docsCount: nat       // non-zero while the skip list is not open yet
    var value: nat

    ghost const t: Term

    ghost predicate Fixed() {
      && base.t == t && base.Fixed() && fieldWand == t.f.wand
      && (wantPos ==> base.wantFreq && t.f.pos)
      && pos.deltas as object != base.docs && pos.deltas as object != base.freqs
      && pos.freq == freq
    }

    /** The skip list is not needed, not open yet, or open. */
    ghost predicate SkipOk()
      requires Fixed()
      reads this`docsCount, this`skipOffs, skip
    {
      && !skip.wand && skip.file == base.docFile && skip.skip0 == BLOCK && skip.skipN == SKIP_N && skip.threshold < SCORE_MAX
      && if |t.p| <= BLOCK then docsCount == 0 && |skip.states| == 1 && skip.states[0].doc == EOF
         else if docsCount > 0 then
           && docsCount == |t.p| && |skip.states| == 1 && skip.states[0] == Mark(t.p, t.f, t.meta.docStart, t.meta.posStart, 0)
           && skipOffs == t.meta.docStart + t.meta.skipStart
         else skip.Ready() && skip.setup.ix == t.Ix()
    }

    /** Ready for the next document, whatever the attributes of the current one are. */
    ghost predicate Between()
      reads this, base, base.docs, base.freqs, skip, pos, pos.deltas
    {
      && Fixed() && base.Buffered() && base.idx <= |t.p| && SkipOk() && (wantPos ==> Follows(pos, t, base.idx))
      && (base.wantFreq && base.begin < BLOCK ==> base.freqAt == base.begin) && (base.idx == 0 ==> base.begin == BLOCK)
      && (value == (if base.idx == 0 then INVALID else t.p[base.idx - 1].doc) || Exhausted())
    }

    /** At rest: before the first document, at one, or after the last. */
    ghost predicate Valid()
      reads this, base, base.docs, base.freqs, skip, pos, pos.deltas, freq
    {
      Between() && (base.idx == 0 || Showing(base.idx) || Exhausted())
    }

    constructor (wantFreq: bool, wantPos: bool, meta: TermMeta, file: seq<Token>, posFile: seq<PosToken>, f: Format, ghost t: Term)
      requires t.Valid() && 2 <= |t.p| && t.meta == meta && t.file == file && t.posFile == posFile && t.f == f
      requires (wantFreq ==> f.freq) && (wantPos ==> wantFreq && f.pos)
      ensures Valid() && this.t == t && base.idx == 0 && value == INVALID && base.wantFreq == wantFreq && this.wantPos == wantPos
      ensures fresh(base) && fresh(base.docs) && fresh(base.freqs) && fresh(skip) && fresh(pos) && fresh(pos.deltas) && fresh(freq)
    {
      hide Term.Valid, SkipReader.Ready, PosStored, PositionIterator.Valid, BlockReader.Buffered, Follows, SkipOk, Valid, Between, Fixed, PosStream,
        Term.Stream, SortedDocs, Showing, Exhausted;
      TermFacts(t);
      fieldWand, this.wantPos, this.t := f.wand, wantPos, t;
      var docIn := meta.docStart + if meta.docsCount < BLOCK && f.wand then 1 else 0;
      base := new BlockReader(file, f.freq, wantFreq, docIn, meta.docsCount, t);
      var fr := new Frequency();
      freq := fr;
      var ps := OpenPositions(wantPos, posFile, meta, f, fr, t);
      pos := ps;
      var sk := new SkipReader(file, BLOCK, SKIP_N, false);
      value, skipOffs, docsCount := INVALID, 0, 0;
      if meta.docsCount > BLOCK {
        sk.Enable(meta.docStart, meta.posStart);
        skipOffs := meta.docStart + meta.skipStart;
        docsCount := meta.docsCount;
      }
      skip := sk;
      new;
      Opened();
    }

    lemma Opened()
      requires base.t == t && base.Buffered() && base.docFile == t.file && fieldWand == t.f.wand && (wantPos ==> base.wantFreq && t.f.pos)
      requires pos.deltas as object != base.docs && pos.deltas as object != base.freqs && pos.freq == freq
      requires base.begin == BLOCK && base.idx == 0 && value == INVALID
      requires wantPos ==> Follows(pos, t, 0)
      requires !skip.wand && skip.file == t.file && skip.skip0 == BLOCK && skip.skipN == SKIP_N && skip.threshold == 0.0
      requires docsCount == if BLOCK < |t.p| then |t.p| else 0
      requires skip.states == [if BLOCK < |t.p| then SkipState(INVALID, t.meta.docStart, 0, t.meta.posStart) else SkipState(EOF, 0, 0, 0)]
      requires BLOCK < |t.p| ==> skipOffs == t.meta.docStart + t.meta.skipStart
      ensures Valid()
    {}

    lemma FixedFacts()
      requires Fixed()
      ensures base.t == t && t.Valid() && SortedDocs(t.p) && base.Fixed() && base.docFile == t.file
      ensures (wantPos ==> base.wantFreq && t.f.pos) && base.docs.Length == base.freqs.Length == BLOCK && pos.freq == freq
    {}

    /** What the iterator shows once it has taken n documents. */
    ghost predicate Showing(n: nat)
      requires Fixed()
      reads base, this`value, pos, pos.deltas, freq
    {
      && 0 < n <= |t.p| && base.idx == n && value == t.p[n - 1].doc
      && (base.wantFreq ==> freq.value == t.p[n - 1].freq)
      && (wantPos ==> Follows(pos, t, n) && pos.InStep(t.p[n - 1].positions))
    }

    /** Just arrived at the n-th document: none of its positions has been taken. */
    ghost predicate Landing(n: nat)
      requires Fixed()
      reads base, this`value, pos, pos.deltas, freq
    {
      Showing(n) && (wantPos ==> pos.value == INVALID)
    }

    ghost predicate Exhausted()
      requires Fixed()
      reads base, this`value
    {
      base.idx == |t.p| && value == EOF
    }

    /** The next document, or the end. */
    method Next() returns (more: bool)
      requires Between()
      modifies this, base, base.docs, base.freqs, pos, pos.deltas, freq
      ensures Valid() && more == (old(base.idx) < |t.p|)
      ensures if more then Landing(old(base.idx) + 1) else Exhausted()
    {
      hide Term.Valid, BlockReader.FileAt, SkipOk, Follows, BlockReader.Buffered, Fixed, PositionIterator.InStep, SortedDocs, DocDelta, SkipReader.Ready;
      ValidFacts();
      if base.begin == BLOCK {
        if base.left == 0 {
          value := EOF;
          return false;
        }
        base.Refill();
        if value == INVALID {
          value := value + 1;
        }
      }
      TakeNext();
      more := true;
    }

    /** Takes the document under `begin`. */
    method TakeNext()
      requires Fixed() && base.Buffered() && base.begin < BLOCK && (base.wantFreq ==> base.freqAt == base.begin)
      requires base.idx < |t.p| && value == Prev(t.p, base.idx) && (wantPos ==> Follows(pos, t, base.idx))
      modifies base`begin, base`freqAt, base`idx, this`value, pos, freq
      ensures base.Buffered() && base.idx == old(base.idx) + 1 && Landing(base.idx) && (base.wantFreq ==> base.freqAt == base.begin)
    {
      hide Term.Valid, BlockReader.Buffered, Follows, PositionIterator.InStep, SortedDocs;
      FixedFacts();
      NextBuffered();
      if base.wantFreq {
        freq.value := base.freqs[base.freqAt];
        base.freqAt := base.freqAt + 1;
        if wantPos {
          StreamStep(t, base.idx - 1);
          PositionsAre(t, base.idx - 1);
          Arrive(pos, freq.value, t, base.idx - 1, base.idx - 1);
        }
      }
    }

    /** Adds the difference under `begin`. */
    method NextBuffered()
      requires Fixed() && base.Buffered() && base.begin < BLOCK && base.idx < |t.p| && value == Prev(t.p, base.idx)
      modifies base`begin, base`idx, this`value
      ensures base.Buffered() && base.idx == old(base.idx) + 1 && base.begin == old(base.begin) + 1 <= BLOCK
      ensures value == t.p[base.idx - 1].doc && (base.wantFreq ==> base.freqs[base.begin - 1] == t.p[base.idx - 1].freq)
    {
      hide BlockReader.Buffered, SortedDocs, DocDelta, Term.Valid;
      FixedFacts();
      var delta := base.NextDelta();
      DeltaAt(t.p, base.idx - 1);
      value := value + delta;
    }

    lemma ValidFacts()
      requires Between()
      ensures Fixed() && SortedDocs(t.p) && base.Buffered() && SkipOk()
      ensures base.docs.Length == base.freqs.Length == BLOCK && base.begin <= BLOCK && base.idx + (BLOCK - base.begin) + base.left == |t.p|
      ensures base.left > 0 ==> base.FileAt(|t.p| - base.left)
      ensures wantPos ==> base.wantFreq && Follows(pos, t, base.idx)
      ensures base.idx > 0 ==> INVALID < t.p[base.idx - 1].doc < EOF
      ensures base.idx < |t.p| ==> value == if base.idx == 0 then INVALID else t.p[base.idx - 1].doc
      ensures base.t == t && base.Fixed()
    {
      hide Term.BlocksStored, Term.TailStored, Term.SkipStored, Term.PosOk, ValidPositions, Mark, SkipReader.Ready, PositionIterator.Valid, SkipOk;
    }

    /** No document of the first n reaches the target. */
    ghost predicate Below(n: nat, target: nat) {
      n <= |t.p| && forall j :: 0 <= j < n ==> t.p[j].doc < target
    }

    /** The first document that reaches the target, if there is one, is among the next block. */
    ghost predicate Close(target: nat)
      reads base`idx
    {
      base.idx + BLOCK <= |t.p| - 1 ==> target <= t.p[base.idx + BLOCK - 1].doc
    }

    /** Looks for the target in the loaded block. */
    method ScanBlock(target: nat) returns (found: bool)
      requires Fixed() && base.Buffered() && (base.wantFreq && base.begin < BLOCK ==> base.freqAt == base.begin) && (wantPos ==> Follows(pos, t, base.idx))
      requires base.begin < BLOCK ==> value == Prev(t.p, base.idx) && Below(base.idx, target)
      modifies base`begin, base`freqAt, base`idx, this`value, pos, freq
      ensures base.Buffered() && base.idx >= old(base.idx) && (base.idx == old(base.idx) ==> !found && value == old(value) && base.begin == old(base.begin))
      ensures found ==> Landing(base.idx) && Below(base.idx - 1, target) && target <= value && (base.wantFreq ==> base.freqAt == base.begin)
      ensures !found ==> base.begin == BLOCK && (wantPos ==> Follows(pos, t, base.idx)) && (base.idx > old(base.idx) ==> value == t.p[base.idx - 1].doc && Below(base.idx, target))
    {
      hide Term.Valid, BlockReader.Buffered, Follows, PositionIterator.InStep, Fixed, SortedDocs, Term.Stream, Showing, Below;
      FixedFacts();
      base.BufferedFacts();
      ghost var first := base.idx;
      var notify: nat := 0;
      found := false;
      while base.begin != BLOCK && !found
        invariant base.Buffered() && first <= base.idx <= |t.p| && base.begin <= BLOCK && base.idx + (BLOCK - base.begin) <= |t.p|
        invariant base.idx == first ==> !found && base.begin == old(base.begin) && value == old(value)
        invariant base.idx > first ==> value == t.p[base.idx - 1].doc
        invariant found ==> Landing(base.idx) && Below(base.idx - 1, target) && target <= value && (base.wantFreq ==> base.freqAt == base.begin)
        invariant !found && wantPos ==> Pending(first, notify)
        invariant !found ==> (base.begin < BLOCK ==> value == Prev(t.p, base.idx)) && (base.begin < BLOCK || first < base.idx ==> Below(base.idx, target))
      {
        found, notify := ScanStep(target, notify, first);
      }
      if !found && wantPos {
        Follow(pos, notify, t, first, base.idx);
      }
    }

    /** Documents since `first` whose `notify` positions the position iterator has not been told about. */
    ghost predicate Pending(first: nat, notify: nat)
      requires Fixed() && wantPos
      reads base`idx, base`begin, base`freqAt, pos, pos.deltas
    {
      && first <= base.idx <= |t.p| && Follows(pos, t, first) && |t.Stream(first)| + notify == |t.Stream(base.idx)|
      && (base.begin < BLOCK ==> base.freqAt == base.begin)
    }

    /** Takes one document of the block and compares it with the target. */
    method ScanStep(target: nat, notify: nat, ghost first: nat) returns (found: bool, n: nat)
      requires Fixed() && base.Buffered() && base.begin < BLOCK && base.idx < |t.p| && value == Prev(t.p, base.idx) && Below(base.idx, target)
      requires wantPos ==> Pending(first, notify)
      modifies base`begin, base`freqAt, base`idx, this`value, pos, freq
      ensures base.Buffered() && base.idx == old(base.idx) + 1 && base.begin == old(base.begin) + 1 <= BLOCK && value == t.p[base.idx - 1].doc
      ensures found ==> Landing(base.idx) && target <= value && (base.wantFreq ==> base.freqAt == base.begin)
      ensures !found ==> Below(base.idx, target) && (wantPos ==> Pending(first, n))
    {
      hide Term.Valid, BlockReader.Buffered, Follows, PositionIterator.InStep, Fixed, SortedDocs, Term.Stream;
      FixedFacts();
      NextBuffered();
      n := notify;
      found := value >= target;
      if !wantPos {
        if found && base.wantFreq {
          base.freqAt := base.begin;
          freq.value := base.freqs[base.freqAt - 1];
        }
      } else {
        freq.value := base.freqs[base.freqAt];
        base.freqAt := base.freqAt + 1;
        n := n + freq.value;
        StreamStep(t, base.idx - 1);
        PositionsAre(t, base.idx - 1);
        if found {
          Arrive(pos, n, t, first, base.idx - 1);
        }
      }
    }

    /** Opens the skip list on first use. */
    method OpenSkipList()
      requires Fixed() && SkipOk() && BLOCK < |t.p| && docsCount != 0
      modifies this`docsCount, skip
      ensures Fixed() && SkipOk() && docsCount == 0 && 0 < |skip.states|
      ensures skip.states[|skip.states| - 1].doc == INVALID
    {
      hide Term.Valid, Complete, SkipReader.Ready, LoadedLevels, LevelsTokens, SortedDocs, Fixed, Index.Valid;
      SkipFacts();
      var skipIn := skipOffs;
      if fieldWand {
        skipIn := skipIn + 1;
      }
      var ok := skip.Prepare(skipIn, docsCount, t.written);
      assert ok;
      docsCount := 0;
      var n := |skip.levels|;
      skip.Init(n, t.Ix(), t.written);
    }

    lemma SkipFacts()
      requires Fixed() && BLOCK < |t.p|
      ensures SortedDocs(t.p) && t.SkipStored() && fieldWand == t.f.wand && t.Ix().Valid()
      ensures base.docFile == t.file && forall i :: 0 <= i < |t.written| ==> t.written[i] != []
      ensures Complete(t.Ix(), t.written, |t.written|) && t.Ix().marks[0] == Mark(t.p, t.f, t.meta.docStart, t.meta.posStart, 0)
    {
      IndexValid(t.p, t.f, t.meta.docStart, t.meta.posStart, t.bound);
    }

    /** Jumps to the last block whose predecessors all end before the target. */
    method SeekToBlock(target: nat)
      requires Fixed() && SkipOk() && BLOCK < |t.p| && MIN <= target <= EOF && base.idx <= |t.p| && (wantPos ==> Follows(pos, t, base.idx))
      requires |skip.states| > 0 && skip.states[|skip.states| - 1].doc < target
      modifies this, base`docIn, base`left, base`idx, skip, pos
      ensures SkipOk() && base.begin == old(base.begin) && base.idx + base.left == |t.p| && 0 < base.left && base.FileAt(base.idx) && base.idx < |t.p|
      ensures value == (if base.idx == 0 then INVALID else t.p[base.idx - 1].doc) && Below(base.idx, target) && (base.idx > 0 ==> INVALID < value)
      ensures (wantPos ==> Follows(pos, t, base.idx)) && Close(target)
    {
      hide Term.Valid, SkipReader.Ready, SkipReader.Basics, SkipReader.IsLess, SkipReader.Passed, Follows, BlockReader.FileAt, Below, Scan,
        SortedDocs, Index.Valid, Fixed, SkipOk, IndexOf, Mark, AtPoint, Term.Ix, Term.BlockPos, DeadRange, Close;
      FixedFacts();
      if docsCount != 0 {
        OpenSkipList();
      }
      OpenFacts(target);
      base.left := skip.Seek(target);
      skip.ReadyFacts();
      SkipStillOk();
      Place(target, skip.Passed());
    }

    /** Puts everything where the block starts that the skip list stands at. */
    method Place(target: nat, ghost b: nat)
      requires Fixed() && SkipOk() && BLOCK < |t.p| && base.idx <= |t.p| && (wantPos ==> Follows(pos, t, base.idx))
      requires b == Scan(t.Ix().marks, target, 0) && skip.prev == t.Ix().marks[b] && base.left == t.Ix().count - b * BLOCK
      modifies this`value, base`docIn, base`idx, pos
      ensures SkipOk() && base.idx + base.left == |t.p| && 0 < base.left && base.FileAt(base.idx) && base.idx < |t.p|
      ensures value == (if base.idx == 0 then INVALID else t.p[base.idx - 1].doc) && Below(base.idx, target) && (base.idx > 0 ==> INVALID < value)
      ensures (wantPos ==> Follows(pos, t, base.idx)) && Close(target)
    {
      hide Term.Valid, SkipReader.Ready, SkipReader.Basics, SkipReader.IsLess, SkipReader.Passed, Follows, BlockReader.FileAt, Below, Scan,
        SortedDocs, Index.Valid, Fixed, SkipOk, IndexOf, Mark, AtPoint, Term.Ix, Term.BlockPos, DeadRange, Close;
      FixedFacts();
      Landed(b, target);
      LandedClose(b, target);
      var last := skip.prev;
      base.docIn := last.docPtr;
      value := last.doc;
      ghost var before := base.idx;
      base.idx := BLOCK * b;
      if wantPos {
        PreparePositions(pos, last, t, base.idx, before);
      }
      base.FileAtBoundary(b);
      CloseNow(b, target);
    }

    lemma CloseNow(b: nat, target: nat)
      requires base.idx == BLOCK * b && (BLOCK * (b + 1) < |t.p| ==> target <= t.p[BLOCK * (b + 1) - 1].doc)
      ensures Close(target)
    {}

    lemma SkipStillOk()
      requires Fixed() && BLOCK < |t.p| && docsCount == 0 && skip.Ready() && skip.setup.ix == t.Ix()
      requires !skip.wand && skip.file == base.docFile && skip.skip0 == BLOCK && skip.skipN == SKIP_N && skip.threshold < SCORE_MAX
      ensures SkipOk()
    {}

    lemma OpenFacts(target: nat)
      requires Fixed() && SkipOk() && BLOCK < |t.p| && docsCount == 0 && MIN <= target
      requires |skip.states| > 0 && skip.states[|skip.states| - 1].doc < target
      ensures skip.file == base.docFile && skip.skip0 == BLOCK && skip.skipN == SKIP_N
      ensures skip.setup.ix.count == |t.p|
      ensures skip.Ready() && skip.setup.ix == t.Ix() && !skip.wand && skip.threshold < SCORE_MAX && 1 <= skip.setup.size
      ensures |skip.states| == |skip.scores| == skip.setup.size && skip.IsLess(skip.setup.size - 1, target)
    {}

    lemma LandedClose(b: nat, target: nat)
      requires Fixed() && BLOCK < |t.p| && b == Scan(t.Ix().marks, target, 0)
      ensures BLOCK * (b + 1) < |t.p| ==> target <= t.p[BLOCK * (b + 1) - 1].doc
    {
      hide Fixed, BlockReader.Fixed, Term.Valid, PosStream;
      ScanEnds(t.Ix().marks, target, 0);
    }

    /** What the skip list says about the block it stops at. */
    lemma Landed(b: nat, target: nat)
      requires Fixed() && BLOCK < |t.p| && b == Scan(t.Ix().marks, target, 0)
      ensures BLOCK * b < |t.p| && t.Ix().marks[b] == Mark(t.p, t.f, t.meta.docStart, t.meta.posStart, b)
      ensures 0 < t.Ix().count - b * BLOCK == |t.p| - BLOCK * b
      ensures Below(BLOCK * b, target)
      ensures t.Ix().marks[b].docPtr == t.BlockPos(b)
      ensures t.Ix().marks[b].doc == if b == 0 then INVALID else t.p[BLOCK * b - 1].doc
      ensures b > 0 ==> INVALID < t.p[BLOCK * b - 1].doc
      ensures t.f.pos ==> AtPoint(t.Ix().marks[b], t.meta.posStart, |t.Stream(BLOCK * b)|)
    {
      hide Fixed, BlockReader.Fixed, Term.Valid, PosStream, Index.Valid;
      SkipFacts();
      ScanLess(t.Ix().marks, target, 0);
    }

    /** The first document that is not less than the target, or the end; a target not
        past the current document changes nothing. */
    method Seek(target: nat) returns (found: nat)
      requires Valid() && target <= EOF
      modifies this, base, base.docs, base.freqs, skip, pos, pos.deltas, freq
      ensures Valid() && found == value
      ensures target <= old(value) ==> base.idx == old(base.idx) && value == old(value) && unchanged(pos) && unchanged(freq)
      ensures old(value) < target ==>
                var i := LowerDoc(t.p, target, 0);
                if i < |t.p| then Landing(i + 1) else Exhausted()
    {
      hide Between, Showing, Exhausted, LowerDoc;
      if target > value {
        SeekForward(target);
      }
      found := value;
    }

    method SeekForward(target: nat)
      requires Valid() && value < target <= EOF
      modifies this, base, base.docs, base.freqs, skip, pos, pos.deltas, freq
      ensures Valid()
      ensures var i := LowerDoc(t.p, target, 0); if i < |t.p| then Landing(i + 1) else Exhausted()
    {
      hide Term.Valid, Between, BlockReader.Buffered, BlockReader.FileAt, Follows, SkipOk, SkipReader.Ready, LowerDoc, SortedDocs, Fixed, Below,
        PositionIterator.InStep, PositionIterator.Valid;
      Approach(target);
      var here := ScanBlock(target);
      if here {
        LowerFound(base.idx - 1, target);
        BetweenAgain();
        return;
      }
      BetweenAgain();
      ValueBelow(target);
      NextUntil(target);
    }

    lemma ValueBelow(target: nat)
      requires Below(base.idx, target) && MIN <= target && value == if base.idx == 0 then INVALID else t.p[base.idx - 1].doc
      ensures value < target
    {}

    /** Everything before the current place is below the target; a block is loaded or needs loading. */
    method Approach(target: nat)
      requires Valid() && value < target <= EOF
      modifies this, base, base.docs, base.freqs, skip, pos, pos.deltas
      ensures Fixed() && base.Buffered() && SkipOk() && (wantPos ==> Follows(pos, t, base.idx)) && Below(base.idx, target)
      ensures (base.wantFreq && base.begin < BLOCK ==> base.freqAt == base.begin) && (base.begin < BLOCK ==> value == Prev(t.p, base.idx))
      ensures base.begin == BLOCK ==> value == if base.idx == 0 then INVALID else t.p[base.idx - 1].doc
      ensures old(|skip.states| > 0 && skip.states[|skip.states| - 1].doc < target) ==> Close(target)
    {
      hide Term.Valid, BlockReader.Buffered, BlockReader.FileAt, Follows, Below, SkipReader.Ready, SortedDocs, Scan;
      ApproachFacts(target);
      if skip.states[|skip.states| - 1].doc < target {
        SeekToBlock(target);
        base.Refill();
        if value == INVALID {
          value := value + 1;
        }
      }
    }

    lemma ApproachFacts(target: nat)
      requires Valid() && value < target <= EOF
      ensures Fixed() && base.Buffered() && SkipOk() && (wantPos ==> Follows(pos, t, base.idx)) && Below(base.idx, target)
      ensures |skip.states| > 0 && (skip.states[|skip.states| - 1].doc < target ==> BLOCK < |t.p|)
      ensures (base.wantFreq && base.begin < BLOCK ==> base.freqAt == base.begin) && (base.begin < BLOCK ==> value == Prev(t.p, base.idx))
      ensures value == if base.idx == 0 then INVALID else t.p[base.idx - 1].doc
    {}

    lemma BetweenAgain()
      requires Fixed() && base.Buffered() && SkipOk() && (wantPos ==> Follows(pos, t, base.idx)) && (base.wantFreq && base.begin < BLOCK ==> base.freqAt == base.begin)
      requires (base.idx == 0 ==> base.begin == BLOCK) && value == (if base.idx == 0 then INVALID else t.p[base.idx - 1].doc)
      ensures Between()
    {}

    lemma LowerFound(i: nat, target: nat)
      requires i < |t.p| && Below(i, target) && target <= t.p[i].doc
      ensures LowerDoc(t.p, target, 0) == i
    {}

    method NextUntil(target: nat)
      requires Between() && Below(base.idx, target) && value < target <= EOF && base.begin == BLOCK
      requires value == if base.idx == 0 then INVALID else t.p[base.idx - 1].doc
      modifies this, base, base.docs, base.freqs, pos, pos.deltas, freq
      ensures Between() && target <= value
      ensures var i := LowerDoc(t.p, target, 0); if i < |t.p| then Landing(i + 1) else Exhausted()
    {
      hide Term.Valid, Between, BlockReader.Buffered, BlockReader.FileAt, Follows, SkipOk, SkipReader.Ready, LowerDoc, SortedDocs;
      ValidFacts();
      while value < target
        invariant Fixed() && Between() && base.idx <= |t.p|
        invariant value < target ==> Below(base.idx, target) && !Exhausted()
        invariant target <= value ==> var i := LowerDoc(t.p, target, 0); if i < |t.p| then Landing(i + 1) else Exhausted()
        decreases |t.p| - base.idx, value < target
      {
        ghost var i := base.idx;
        var more := Next();
        if !more {
          LowerNone(target);
        } else if target <= value {
          LowerFound(i, target);
        }
      }
    }

    lemma LowerNone(target: nat)
      requires Below(|t.p|, target)
      ensures LowerDoc(t.p, target, 0) == |t.p|
    {}
  }
}
