/** Iterating over the documents of a term whose score can still compete. */
module Wanderators {
  import opened Arithmetic
  import opened Limits
  import opened SkipFormat
  import opened SkipWriting
  import opened SkipReading
  import opened PostingsFormat
  import opened Positions
  import opened DocBlocks

  type Scorer = (nat, nat) -> real

  ghost function ScoreOf(t: Term, scorer: Scorer, i: nat): real
    requires i < |t.p|
  {
    scorer(t.p[i].doc, t.p[i].freq)
  }

  /** An entry's bound is at least the score of each document of the blocks it covers. */
  ghost predicate BoundsBlock(t: Term, scorer: Scorer, level: nat, k: nat, j: nat)
    requires SortedDocs(t.p) && BLOCK < |t.p| && t.Ix().Valid()
  {
    Covers(t.Ix(), level, k, j) ==>
      forall i :: BLOCK * j <= i < BLOCK * (j + 1) && i < |t.p| ==> ScoreOf(t, scorer, i) <= t.Ix().bound(level, k)
  }

  ghost predicate Bounded(t: Term, scorer: Scorer)
    requires SortedDocs(t.p) && BLOCK < |t.p| && t.Ix().Valid()
  {
    && (forall i :: 0 <= i < |t.p| ==> ScoreOf(t, scorer, i) <= SCORE_MAX)
    && (forall level: nat, k: nat, j: nat :: level < |t.written| ==> BoundsBlock(t, scorer, level, k, j))
  }

  /** How documents are told that cannot compete: by their own scores, or by what is stored for their blocks alone. */
  datatype Judge = ByScore(scorer: Scorer) | ByBlocks

  ghost predicate Rejects(t: Term, judge: Judge, i: nat, threshold: real)
    requires i < |t.p|
  {
    match judge
    case ByScore(scorer) => ScoreOf(t, scorer, i) <= threshold
    case ByBlocks => RuledOut(t, i / BLOCK, threshold)
  }

  /** An entry of some level that covers the block has a bound that is not above the threshold. */
  ghost predicate RuledOut(t: Term, j: nat, threshold: real) {
    && BLOCK < |t.p| && t.Ix().Valid()
    && exists level: nat, k: nat :: level < |t.written| && Covers(t.Ix(), level, k, j) && t.Ix().bound(level, k) <= threshold
  }

  /** No entry of a coarser level has a smaller bound than those of the blocks it covers. */
  ghost predicate Nested(t: Term) {
    && BLOCK < |t.p| && t.Ix().Valid()
    && forall level: nat, k: nat, j: nat :: level < |t.written| && Covers(t.Ix(), level, k, j) ==> BestOf(t.p, t.bound, j) <= t.Ix().bound(level, k)
  }

  /** Document i is of no use: it lies before the target, or it is told that it cannot compete. */
  ghost predicate Poor(t: Term, judge: Judge, i: nat, target: nat, threshold: real)
    requires i < |t.p|
  {
    t.p[i].doc < target || Rejects(t, judge, i, threshold)
  }

  ghost predicate AllPoor(t: Term, judge: Judge, from: nat, to: nat, target: nat, threshold: real) {
    from <= to <= |t.p| && forall i :: from <= i < to ==> Poor(t, judge, i, target, threshold)
  }

  /** The first document at or after the target that is not told to be unable to compete. */
  ghost function FirstGood(t: Term, judge: Judge, target: nat, threshold: real, i: nat): (r: nat)
    requires i <= |t.p|
    ensures i <= r <= |t.p| && AllPoor(t, judge, i, r, target, threshold)
    ensures r < |t.p| ==> !Poor(t, judge, r, target, threshold)
    decreases |t.p| - i
  {
    if i == |t.p| || !Poor(t, judge, i, target, threshold) then i else FirstGood(t, judge, target, threshold, i + 1)
  }

  lemma FirstGoodIs(t: Term, judge: Judge, target: nat, threshold: real, i: nat)
    requires AllPoor(t, judge, 0, i, target, threshold) && (i < |t.p| ==> !Poor(t, judge, i, target, threshold))
    ensures FirstGood(t, judge, target, threshold, 0) == i
  {}

  lemma AllPoorJoin(t: Term, judge: Judge, from: nat, mid: nat, to: nat, target: nat, threshold: real)
    requires AllPoor(t, judge, from, mid, target, threshold) && AllPoor(t, judge, mid, to, target, threshold)
    ensures AllPoor(t, judge, from, to, target, threshold)
  {}

  lemma AllPoorNone(t: Term, judge: Judge, n: nat, target: nat, threshold: real)
    requires n <= |t.p|
    ensures AllPoor(t, judge, n, n, target, threshold)
  {}

  lemma AllPoorNext(t: Term, judge: Judge, from: nat, i: nat, poor: bool, target: nat, threshold: real)
    requires AllPoor(t, judge, from, i, target, threshold) && i < |t.p| && (poor ==> Poor(t, judge, i, target, threshold))
    ensures AllPoor(t, judge, from, if poor then i + 1 else i, target, threshold)
  {}

  lemma AllPoorPart(t: Term, judge: Judge, low: nat, from: nat, to: nat, target: nat, threshold: real)
    requires AllPoor(t, judge, low, to, target, threshold) && low <= from <= to
    ensures AllPoor(t, judge, from, to, target, threshold)
  {}

  lemma AllPoorBefore(t: Term, judge: Judge, n: nat, target: nat, threshold: real)
    requires SortedDocs(t.p) && n <= |t.p| && (n > 0 ==> t.p[n - 1].doc < target)
    ensures AllPoor(t, judge, 0, n, target, threshold)
  {
    forall i | 0 <= i < n
      ensures t.p[i].doc < target
    {
      assert t.p[i].doc <= t.p[n - 1].doc;
    }
  }

  /** Documents that follow a point where everything is past the first target stay poor for it. */
  lemma AllPoorRetarget(t: Term, judge: Judge, at: nat, from: nat, to: nat, first: nat, target: nat, threshold: real)
    requires SortedDocs(t.p) && AllPoor(t, judge, from, to, target, threshold)
    requires at <= from && (target == first || (0 < at && target == t.p[at - 1].doc + 1))
    ensures AllPoor(t, judge, from, to, first, threshold)
  {
    forall i | from <= i < to
      ensures Poor(t, judge, i, first, threshold)
    {
      assert Poor(t, judge, i, target, threshold);
      if target != first {
        assert t.p[at - 1].doc < t.p[i].doc;
      }
    }
  }

  lemma IxFacts(t: Term)
    requires t.Valid() && BLOCK < |t.p|
    ensures SortedDocs(t.p) && t.Ix().Valid() && |t.Ix().marks| == (|t.p| - 1) / BLOCK + 1
    ensures t.Ix().count == |t.p| && t.Ix().skip0 == BLOCK && t.Ix().skipN == SKIP_N
    ensures forall j :: 0 <= j < |t.Ix().marks| ==> t.Ix().marks[j] == Mark(t.p, t.f, t.meta.docStart, t.meta.posStart, j)
  {
    IndexValid(t.p, t.f, t.meta.docStart, t.meta.posStart, t.bound);
  }

  lemma MarkDoc(t: Term, b: nat)
    requires t.Valid() && BLOCK < |t.p| && 0 < b < |t.Ix().marks|
    ensures BLOCK * b < |t.p| && t.Ix().marks[b].doc == t.p[BLOCK * b - 1].doc
    ensures forall i :: BLOCK * b <= i < |t.p| ==> t.Ix().marks[b].doc < t.p[i].doc
  {}

  /** What the list says of its b-th block: the document before it, its last one, and the bound
      stored for it. Behind the last boundary there are neither. */
  ghost function StartOf(p: seq<Posting>, b: nat): nat
    requires BLOCK * b <= |p|
  {
    if b == 0 then INVALID else p[BLOCK * b - 1].doc
  }

  ghost function EndOf(p: seq<Posting>, b: nat): nat {
    if BLOCK * (b + 1) < |p| then p[BLOCK * (b + 1) - 1].doc else EOF
  }

  ghost function BestOf(p: seq<Posting>, bound: (nat, nat) -> real, b: nat): real {
    if BLOCK * (b + 1) < |p| then bound(0, BLOCK * (b + 1)) else SCORE_MAX
  }

  lemma BoundIs(t: Term, k: nat)
    requires |t.p| > 0
    ensures t.Ix().bound(0, k) == t.bound(0, BLOCK * k)
  {
    assert CountAt(0, k) == BLOCK * k;
  }

  /** With nested bounds the finest one decides. */
  lemma NotRuledOut(t: Term, j: nat, threshold: real)
    requires Nested(t) && threshold < BestOf(t.p, t.bound, j)
    ensures !RuledOut(t, j, threshold)
  {
    hide Covers, Index.Valid, IndexOf;
  }

  /** Every document of a dead block is poor. */
  lemma DeadIsPoor(s: Setup, t: Term, judge: Judge, j: nat, target: nat, threshold: real)
    requires t.Valid() && BLOCK < |t.p| && t.Ix().Valid() && s.wand && (judge.ByScore? ==> Bounded(t, judge.scorer))
    requires s.ix == t.Ix() && s.size == |t.written| && s.Valid()
    requires j + 1 < |t.Ix().marks| && Dead(s, j, target, threshold)
    ensures BLOCK * (j + 1) <= |t.p| && AllPoor(t, judge, BLOCK * j, BLOCK * (j + 1), target, threshold)
  {
    hide Term.Valid, Index.Valid, Covers, Power, Index.At, Index.Unit;
    IxFacts(t);
    forall i | BLOCK * j <= i < BLOCK * (j + 1)
      ensures Poor(t, judge, i, target, threshold)
    {
      if s.ix.marks[j + 1].doc < target {
        assert t.p[i].doc <= t.p[BLOCK * (j + 1) - 1].doc;
      } else {
        var level: nat, k: nat :| level < s.size && Covers(s.ix, level, k, j) && s.ix.bound(level, k) <= threshold;
        assert i / BLOCK == j;
        if judge.ByScore? {
          assert BoundsBlock(t, judge.scorer, level, k, j);
        }
      }
    }
  }

  /** A stretch of dead blocks holds poor documents only. */
  lemma DeadRangeIsPoor(s: Setup, t: Term, judge: Judge, from: nat, to: nat, target: nat, threshold: real)
    requires t.Valid() && BLOCK < |t.p| && t.Ix().Valid() && s.wand && (judge.ByScore? ==> Bounded(t, judge.scorer))
    requires s.ix == t.Ix() && s.size == |t.written| && s.Valid()
    requires from <= to < |t.Ix().marks| && DeadRange(s, from, to, target, threshold)
    ensures BLOCK * to <= |t.p| && AllPoor(t, judge, BLOCK * from, BLOCK * to, target, threshold)
  {
    hide Term.Valid, Index.Valid, Covers, Dead, Bounded, Poor, Mark, Term.Ix, Setup.Valid, IndexOf, SortedDocs;
    IxFacts(t);
    forall i | BLOCK * from <= i < BLOCK * to
      ensures i < |t.p| && Poor(t, judge, i, target, threshold)
    {
      DeadIsPoor(s, t, judge, i / BLOCK, target, threshold);
    }
  }

  lemma SkipStoredFacts(t: Term)
    requires t.Valid() && BLOCK < |t.p|
    ensures SortedDocs(t.p) && t.SkipStored() && 1 <= |t.written|
    ensures t.Ix().Valid() && forall i :: 0 <= i < |t.written| ==> t.written[i] != []
    ensures t.Ix().count == t.meta.docsCount && t.Ix().skip0 == BLOCK && t.Ix().skipN == SKIP_N
    ensures Complete(t.Ix(), t.written, |t.written|) && t.Ix().marks[0] == SkipState(INVALID, t.meta.docStart, 0, t.meta.posStart)
  {
    IxFacts(t);
  }

  /** Opens the skip list of a term: past the score bound of the whole list, coarsest level first. */
  method OpenSkipList(file: seq<Token>, meta: TermMeta, ghost t: Term) returns (sk: SkipReader)
    requires t.Valid() && t.file == file && t.meta == meta && BLOCK < |t.p| && t.f.wand
    ensures fresh(sk) && sk.Ready() && sk.wand && sk.file == file && sk.skip0 == BLOCK && sk.skipN == SKIP_N && sk.threshold == 0.0
    ensures sk.setup.ix == t.Ix() && sk.setup.size == |t.written| && forall id :: 0 <= id < |sk.ks| ==> sk.ks[id] == 0
    ensures |sk.scores| == |sk.ks| == sk.setup.size >= 1
  {
    hide Term.Valid, SkipReader.Ready, SortedDocs, Complete, LoadedLevels, LevelsTokens, Index.Valid, IndexOf, Mark;
    sk := new SkipReader(file, BLOCK, SKIP_N, true);
    SkipStoredFacts(t);
    sk.Enable(meta.docStart, meta.posStart);
    var ok := sk.Prepare(meta.docStart + meta.skipStart + 1, meta.docsCount, t.written);
    assert ok;
    sk.Init(|sk.levels|, t.Ix(), t.written);
    sk.ReadyFacts();
  }

  class Wanderator {
    const base: BlockReader
    const root: bool          // scores are compared for single documents, too
    const wantPos: bool
    const scorer: Scorer
    const freq: Frequency
    const pos: PositionIterator
    const skip: SkipReader
    var value: nat
    var score: real
    var maxLeaf: real

    ghost const t: Term
    ghost var told: nat       // documents the position iterator has been told about

    ghost predicate Fixed() {
      && base.t == t && base.Fixed() && base.wantFreq
      && BLOCK < |t.p| && t.f.wand && t.Ix().Valid() && Bounded(t, scorer)
      && (wantPos ==> t.f.pos)
      && pos.deltas as object != base.docs && pos.deltas as object != base.freqs
      && pos.freq == freq
    }

    ghost function By(): Judge { if root then ByScore(scorer) else ByBlocks }

    ghost predicate SkipOk()
      reads this`maxLeaf, skip
    {
      && skip.Ready() && skip.wand && skip.file == base.docFile && skip.skip0 == BLOCK && skip.skipN == SKIP_N
      && |t.p| > 0 && skip.setup.ix == t.Ix() && skip.setup.size == |t.written| && skip.threshold < SCORE_MAX
      && skip.Passed() < |t.Ix().marks|
      && maxLeaf == skip.scores[skip.Leaf()]
    }

    /** Whether the walk has ever moved, and the block it stands at. */
    ghost function Moved(): bool
      requires SkipOk()
      reads this`maxLeaf, skip
    {
      skip.ks[skip.Leaf()] > 0
    }

    ghost function Block(): nat
      requires SkipOk()
      reads this`maxLeaf, skip
    {
      skip.Passed()
    }

    /** Documents after block b. */
    ghost function Rest(b: nat): nat {
      if BLOCK * (b + 1) <= |t.p| then |t.p| - BLOCK * (b + 1) else 0
    }

    /** The loaded block is the one the skip list stands at. */
    ghost predicate Loaded()
      requires Fixed() && SkipOk()
      reads this`told, this`maxLeaf, base, base.docs, base.freqs, skip, pos, pos.deltas
    {
      && base.Buffered() && Moved() && skip.prev.docPtr == 0
      && BLOCK * Block() <= base.idx <= |t.p| && base.left == Rest(Block())
      && (wantPos ==> told == base.idx && Follows(pos, t, told) && (base.begin < BLOCK ==> base.freqAt == base.begin))
    }

    /** The skip list stands at a block that is not loaded yet. */
    ghost predicate Parked()
      requires Fixed() && SkipOk()
      reads this, base, base.docs, base.freqs, skip, pos, pos.deltas
    {
      && base.begin == BLOCK && Moved() && base.idx == BLOCK * Block() < |t.p| && base.left == |t.p| - base.idx
      && skip.prev == t.Ix().marks[Block()] && value == skip.prev.doc
      && (skip.prev.docPtr == 0 ==> base.docIn == 0 && told == base.idx)
      && (wantPos ==> told <= |t.p| && Follows(pos, t, told))
    }

    ghost predicate Fresh()
      requires Fixed() && SkipOk()
      reads this, base, base.docs, base.freqs, skip, pos, pos.deltas
    {
      && base.begin == BLOCK && !Moved() && base.idx == 0 && base.left == |t.p| && base.docIn == t.meta.docStart
      && value == INVALID && told == 0 && (wantPos ==> Follows(pos, t, told))
    }

    /** At rest: before the first document, at one, after the last, or between two blocks. */
    ghost predicate Valid()
      reads this, base, base.docs, base.freqs, skip, pos, pos.deltas, freq
    {
      && Fixed() && SkipOk()
      && (Fresh() || Parked() || (Loaded() && base.idx > 0 && (value == t.p[base.idx - 1].doc || Exhausted())))
    }

    ghost predicate Exhausted()
      requires Fixed()
      reads base`idx, this`value
    {
      base.idx == |t.p| && value == EOF
    }

    /** What the iterator shows once it has taken n documents; no position of the last one is taken yet. */
    ghost predicate Showing(n: nat)
      requires Fixed()
      reads base`idx, this`value, this`score, pos, pos.deltas, freq
    {
      && 0 < n <= |t.p| && base.idx == n && value == t.p[n - 1].doc && freq.value == t.p[n - 1].freq
      && (root ==> score == ScoreOf(t, scorer, n - 1))
      && (wantPos ==> pos.InStep(t.p[n - 1].positions) && pos.value == INVALID)
    }

    constructor (root: bool, wantPos: bool, meta: TermMeta, file: seq<Token>, posFile: seq<PosToken>, f: Format, scorer: Scorer, ghost t: Term)
      requires t.Valid() && t.meta == meta && t.file == file && t.posFile == posFile && t.f == f
      requires BLOCK < |t.p| && f.wand && f.freq && (wantPos ==> f.pos)
      requires t.Ix().Valid() && Bounded(t, scorer)
      ensures Valid() && this.t == t && this.root == root && this.wantPos == wantPos && this.scorer == scorer
      ensures base.idx == 0 && value == INVALID && skip.threshold == 0.0
      ensures fresh(base) && fresh(base.docs) && fresh(base.freqs) && fresh(skip) && fresh(pos) && fresh(pos.deltas) && fresh(freq)
    {
      hide Term.Valid, SkipReader.Ready, PosStored, PositionIterator.Valid, BlockReader.Buffered, Follows, SkipOk, Valid, Fixed, PosStream,
        Term.Stream, SortedDocs, Bounded, Complete, LoadedLevels, LevelsTokens, Index.Valid;
      TermFacts(t);
      this.root, this.wantPos, this.scorer, this.t := root, wantPos, scorer, t;
      base := new BlockReader(file, f.freq, true, meta.docStart, meta.docsCount, t);
      var fr := new Frequency();
      freq := fr;
      var ps := OpenPositions(wantPos, posFile, meta, f, fr, t);
      pos := ps;
      value, score, told := INVALID, 0.0, 0;
      var sk := OpenSkipList(file, meta, t);
      maxLeaf := sk.scores[|sk.scores| - 1];
      skip := sk;
      new;
      Opened();
    }

    lemma Opened()
      requires base.t == t && base.Buffered() && base.wantFreq && base.docFile == t.file && BLOCK < |t.p| && t.f.wand && (wantPos ==> t.f.pos)
      requires t.Ix().Valid() && Bounded(t, scorer)
      requires pos.deltas as object != base.docs && pos.deltas as object != base.freqs && pos.freq == freq
      requires base.begin == BLOCK && base.idx == 0 && base.docIn == t.meta.docStart && value == INVALID && told == 0
      requires wantPos ==> Follows(pos, t, 0)
      requires skip.Ready() && skip.wand && skip.file == t.file && skip.skip0 == BLOCK && skip.skipN == SKIP_N && skip.threshold == 0.0
      requires skip.setup.ix == t.Ix() && skip.setup.size == |t.written| && (forall id :: 0 <= id < |skip.ks| ==> skip.ks[id] == 0)
      requires |skip.scores| > 0 && maxLeaf == skip.scores[|skip.scores| - 1]
      ensures Valid()
    {
      hide SkipReader.Ready, Bounded, Index.Valid, Term.Valid;
      skip.ReadyFacts();
      base.BufferedFacts();
    }

    lemma FixedFacts()
      requires Fixed()
      ensures base.t == t && t.Valid() && SortedDocs(t.p) && base.Fixed() && base.docFile == t.file && base.wantFreq && BLOCK < |t.p|
      ensures (wantPos ==> t.f.pos) && base.docs.Length == base.freqs.Length == BLOCK && pos.freq == freq
      ensures t.Ix().Valid() && Bounded(t, scorer)
    {
      hide Term.Valid, Bounded, Index.Valid;
      base.FixedFacts();
    }

    /** Where a resting iterator is, without the definitions behind it. */
    lemma PlaceFacts()
      requires Valid()
      ensures Fixed() && SkipOk() && base.idx <= |t.p| && SortedDocs(t.p)
      ensures BLOCK * Block() <= base.idx <= BLOCK * (Block() + 1) && Block() < |t.Ix().marks|
      ensures !Moved() ==> base.docIn == t.meta.docStart && told == 0 && base.idx == 0
      ensures wantPos ==> told <= |t.p| && Follows(pos, t, told)
      ensures value == (if base.idx == 0 then INVALID else t.p[base.idx - 1].doc) || Exhausted()
      ensures base.begin <= BLOCK && (base.idx == |t.p| ==> base.begin == BLOCK && base.left == 0)
    {
      hide Bounded, Term.Valid, SkipOk, Follows, SkipReader.Ready, SkipReader.Passed, PositionIterator.Valid, BlockReader.FileAt, Index.Valid;
      FixedFacts();
      IxFacts(t);
      SkipFacts();
    }

    lemma SkipFacts()
      requires Fixed() && SkipOk()
      ensures skip.Ready() && Block() < |t.Ix().marks| && skip.setup.ix == t.Ix() && skip.setup.size == |t.written| && skip.setup.Valid()
      ensures |skip.states| == |skip.scores| == |skip.ks| == skip.setup.size >= 1 && skip.wand && skip.threshold < SCORE_MAX
      ensures skip.setup.wand && skip.skip0 == BLOCK && skip.Leaf() == skip.setup.size - 1
      ensures maxLeaf == skip.scores[skip.Leaf()] && Moved() == (skip.ks[skip.Leaf()] > 0) && Block() == skip.Passed()
      ensures Block() == if skip.ks[skip.Leaf()] == 0 then 0 else skip.ks[skip.Leaf()] - 1
      ensures skip.file == base.docFile && skip.skipN == SKIP_N
    {
      skip.ReadyFacts();
    }

    /** The threshold of competitive scores; it is meant to grow, but need not. */
    method SetThreshold(arg: real)
      requires Valid() && arg < SCORE_MAX
      modifies skip`threshold
      ensures Valid() && skip.threshold == arg
    {
      hide Bounded, Term.Valid, Follows, SkipReader.Ready, PositionIterator.Valid, BlockReader.Buffered, Index.Valid, SkipReader.Passed, PositionIterator.InStep;
      skip.SetThreshold(arg);
    }

    /** A walk that was needed leaves the block it started in. */
    lemma SkipMoved(was: nat)
      requires Fixed() && skip.Ready() && skip.wand && skip.file == base.docFile && skip.skip0 == BLOCK && skip.skipN == SKIP_N
      requires skip.setup.ix == t.Ix() && skip.setup.size == |t.written| && skip.threshold < SCORE_MAX
      requires skip.Passed() < |t.Ix().marks| && was < skip.ks[skip.Leaf()]
      requires |skip.scores| > 0 && maxLeaf == skip.scores[|skip.scores| - 1]
      ensures SkipOk() && Moved() && Block() == skip.Passed() == skip.ks[skip.Leaf()] - 1
    {
      hide SkipReader.Ready, Bounded, Index.Valid;
      skip.ReadyFacts();
    }

    lemma ParkedNow(was: nat)
      requires Fixed() && SkipOk() && Moved() && base.begin == BLOCK && base.idx == BLOCK * Block() && was <= Block()
      requires base.left == t.Ix().count - Block() * BLOCK > 0 && skip.prev == t.Ix().marks[Block()] && value == skip.prev.doc
      requires was == 0 ==> base.docIn == t.meta.docStart && told == 0
      requires wantPos ==> told <= |t.p| && Follows(pos, t, told)
      ensures Parked() && Valid() && base.idx <= |t.p|
    {
      hide SkipReader.Ready, Bounded, Index.Valid, Term.Valid, Follows, PosStream, IndexOf, Term.Ix;
      FixedFacts();
      IxFacts(t);
      if skip.prev.docPtr == 0 {
        MulMonotone(Block(), Block(), t.f.Width());
        MulMonotone(1, t.f.Width(), Block());
      }
    }

    /** Everything jumped over is poor. */
    lemma Jumped(was: nat, idx: nat, target: nat)
      requires Fixed() && SkipOk() && base.idx == BLOCK * Block() && BLOCK * was <= idx <= BLOCK * (was + 1) && (was < Block() || idx == 0)
      requires was <= Block() && DeadRange(skip.setup, was, Block(), target, skip.threshold)
      ensures AllPoor(t, By(), idx, base.idx, target, skip.threshold)
    {
      hide SkipReader.Ready, Bounded, Index.Valid, Term.Valid, DeadRange, Setup.Valid, AllPoor, IndexOf, Term.Ix;
      FixedFacts();
      SkipFacts();
      MulMonotone(was, Block(), BLOCK);
      DeadRangeIsPoor(skip.setup, t, By(), was, Block(), target, skip.threshold);
      AllPoorPart(t, By(), BLOCK * was, idx, base.idx, target, skip.threshold);
    }

    /** What the finest level shows about the block it stands at. */
    lemma LeafBounds(target: nat)
      requires Valid() && !skip.IsLess(skip.setup.size - 1, target) && MIN <= target
      ensures var last := skip.states[skip.setup.size - 1].doc;
              && target <= last && skip.threshold < maxLeaf
              && (forall i :: base.idx <= i < |t.p| && t.p[i].doc <= last ==> ScoreOf(t, scorer, i) <= maxLeaf)
    {
      hide SkipReader.Ready, Index.Valid, Term.Valid, Follows, PosStream, IndexOf, Term.Ix, SkipOk, Valid, SkipReader.Passed, Block, Moved, Mark, Covers, Index.At;
      PlaceFacts();
      SkipFacts();
      skip.LeafShows();
      IxFacts(t);
      FixedFacts();
      var last, b := skip.states[skip.setup.size - 1].doc, Block();
      if b + 1 < |t.Ix().marks| {
        assert BoundsBlock(t, scorer, 0, b + 1, b);
        MarkDoc(t, b + 1);
      }
    }

    /** Jumps to the first block that may hold a document worth stopping at. */
    method SeekToBlock(target: nat)
      requires Valid() && MIN <= target <= EOF
      modifies this`value, this`maxLeaf, base`begin, base`left, base`idx, skip
      ensures Valid() && skip.threshold == old(skip.threshold)
      ensures !skip.IsLess(skip.setup.size - 1, target)
      ensures AllPoor(t, By(), old(base.idx), base.idx, target, skip.threshold)
      ensures Parked() || (base.idx == old(base.idx) && base.begin == old(base.begin) && value == old(value))
    {
      hide *;
      PlaceFacts();
      SkipFacts();
      FixedFacts();
      if skip.IsLess(|skip.states| - 1, target) {
        Jump(target);
      } else {
        AllPoorNone(t, By(), base.idx, target, skip.threshold);
      }
    }

    /** Walks over the levels and parks in front of the block found. */
    method Jump(target: nat)
      requires Valid() && MIN <= target <= EOF && skip.IsLess(skip.setup.size - 1, target)
      modifies this`value, this`maxLeaf, base`begin, base`left, base`idx, skip
      ensures Valid() && Parked() && skip.threshold == old(skip.threshold)
      ensures !skip.IsLess(skip.setup.size - 1, target)
      ensures AllPoor(t, By(), old(base.idx), base.idx, target, skip.threshold)
    {
      hide *;
      PlaceFacts();
      SkipFacts();
      FixedFacts();
      ghost var k := skip.ks[skip.Leaf()];
      ghost var wasAt := skip.Passed();
      base.left := skip.Seek(target);
      skip.ReadyFacts();
      value := skip.prev.doc;
      maxLeaf := skip.scores[|skip.scores| - 1];
      base.begin := BLOCK;
      base.idx := BLOCK * skip.Passed();
      SkipMoved(k);
      JumpedTo(k, wasAt, old(base.idx), target);
    }

    lemma JumpedTo(k: nat, was: nat, idx: nat, target: nat)
      requires Fixed() && SkipOk() && Moved() && base.begin == BLOCK && base.idx == BLOCK * Block() && k <= Block()
      requires base.left == t.Ix().count - Block() * BLOCK > 0 && skip.prev == t.Ix().marks[Block()] && value == skip.prev.doc
      requires k == 0 ==> base.docIn == t.meta.docStart && told == 0
      requires wantPos ==> told <= |t.p| && Follows(pos, t, told)
      requires BLOCK * was <= idx <= BLOCK * (was + 1) && (was < Block() || idx == 0)
      requires was <= Block() && DeadRange(skip.setup, was, Block(), target, skip.threshold)
      ensures Parked() && Valid() && AllPoor(t, By(), idx, base.idx, target, skip.threshold)
    {
      hide *;
      ParkedNow(k);
      Jumped(was, idx, target);
    }

    /** Block b and its stored bound are what the finest level shows. */
    ghost predicate Within(b: nat, last: nat)
      requires Fixed()
      reads this, base`idx
    {
      && BLOCK * b <= base.idx <= BLOCK * (b + 1) && BLOCK * b <= |t.p|
      && last == EndOf(t.p, b) && maxLeaf == BestOf(t.p, t.bound, b)
    }

    lemma LeafIs(target: nat) returns (b: nat)
      requires Valid() && !skip.IsLess(skip.setup.size - 1, target) && MIN <= target
      ensures Within(b, skip.states[skip.setup.size - 1].doc) && b == Block()
    {
      hide SkipReader.Ready, Index.Valid, Term.Valid, Follows, PosStream, IndexOf, SkipOk, Valid, SkipReader.Passed, Block, Moved, Mark, Covers, Index.At;
      PlaceFacts();
      SkipFacts();
      skip.LeafShows();
      IxFacts(t);
      FixedFacts();
      b := Block();
      BoundIs(t, b + 1);
      if b + 1 < |t.Ix().marks| {
        MarkDoc(t, b + 1);
      }
    }

    /** The best-case answer of a conjunction: every document from here up to the returned
        one scores at most `maxLeaf`, and everything passed over is poor. The answer belongs
        to the block the iterator is in, or is put in front of. */
    method ShallowSeek(target: nat) returns (last: nat, ghost b: nat)
      requires Valid() && MIN <= target <= EOF
      modifies this`value, this`maxLeaf, base`begin, base`left, base`idx, skip
      ensures Valid() && skip.threshold == old(skip.threshold)
      ensures AllPoor(t, By(), old(base.idx), base.idx, target, skip.threshold)
      ensures target <= last && skip.threshold < maxLeaf
      ensures forall i :: base.idx <= i < |t.p| && t.p[i].doc <= last ==> ScoreOf(t, scorer, i) <= maxLeaf
      ensures Within(b, last)
      ensures (value == old(value) && base.idx == old(base.idx)) || (base.idx == BLOCK * b < |t.p| && value == StartOf(t.p, b))
    {
      hide *;
      SeekToBlock(target);
      PlaceFacts();
      SkipFacts();
      LeafBounds(target);
      b := LeafIs(target);
      if Parked() {
        ParkedFacts();
        ParkedAt(b);
      }
      last := skip.states[|skip.states| - 1].doc;
    }

    lemma ParkedAt(b: nat)
      requires Fixed() && SkipOk() && Parked() && b == Block()
      ensures base.idx == BLOCK * b < |t.p| && value == StartOf(t.p, b)
    {
      ParkedFacts();
    }

    lemma ParkedFacts()
      requires Fixed() && SkipOk() && Parked()
      ensures base.begin == BLOCK && base.idx < |t.p| && base.left == |t.p| - base.idx && base.idx == BLOCK * Block()
      ensures value == if base.idx == 0 then INVALID else t.p[base.idx - 1].doc
      ensures skip.prev == t.Ix().marks[Block()] && skip.prev.docPtr == t.BlockPos(Block())
      ensures skip.prev.docPtr == 0 ==> base.docIn == 0 && told == base.idx
      ensures wantPos ==> told <= |t.p| && Follows(pos, t, told) && AtPoint(skip.prev, t.meta.posStart, |t.Stream(base.idx)|)
      ensures INVALID == value <==> base.idx == 0
      ensures Prev(t.p, base.idx) == if base.idx == 0 then INVALID + 1 else value
    {
      hide SkipReader.Ready, Bounded, Index.Valid, Term.Valid, Follows, PosStream, SkipReader.Passed;
      FixedFacts();
      IxFacts(t);
    }

    lemma LoadedNow()
      requires Fixed() && SkipOk() && Moved() && base.Buffered() && skip.prev.docPtr == 0
      requires base.idx == BLOCK * Block() <= |t.p| && base.left == (if |t.p| - base.idx < BLOCK then 0 else |t.p| - base.idx - BLOCK)
      requires wantPos ==> told == base.idx && Follows(pos, t, told) && (base.begin < BLOCK ==> base.freqAt == base.begin)
      ensures Loaded()
    {
      hide SkipReader.Ready, Bounded, Index.Valid, Term.Valid, Follows, SkipReader.Passed, BlockReader.Buffered;
    }

    lemma SkipConsumed(was: nat)
      requires Fixed() && skip.Ready() && skip.wand && skip.file == base.docFile && skip.skip0 == BLOCK && skip.skipN == SKIP_N
      requires skip.setup.ix == t.Ix() && skip.setup.size == |t.written| && skip.threshold < SCORE_MAX
      requires skip.Passed() < |t.Ix().marks| && skip.ks[skip.Leaf()] > 0 && skip.Passed() == was
      requires |skip.scores| == skip.setup.size && maxLeaf == skip.scores[skip.setup.size - 1]
      ensures SkipOk() && Moved() && Block() == was
    {
      hide SkipReader.Ready, Bounded, Index.Valid;
      skip.ReadyFacts();
    }

    /** Loads the block the skip list stands at. */
    method Load()
      requires Fixed() && SkipOk() && Moved() && Parked()
      modifies this`value, this`told, base`begin, base`freqAt, base`docIn, base`left, base.docs, base.freqs, skip`prev, pos
      ensures SkipOk() && Moved() && Block() == old(Block()) && Loaded() && base.begin < BLOCK
      ensures base.idx < |t.p| && value == Prev(t.p, base.idx)
    {
      hide *;
      ParkedFacts();
      SkipFacts();
      FixedFacts();
      ghost var b := Block();
      if skip.prev.docPtr != 0 {
        base.docIn := skip.prev.docPtr;
        if wantPos {
          PreparePositions(pos, skip.prev, t, base.idx, told);
        }
        told := base.idx;
        skip.Consume();
        skip.ReadyFacts();
        SkipConsumed(b);
      }
      if value == INVALID {
        value := value + 1;
      }
      base.FileAtBoundary(b);
      base.Refill();
      LoadedNow();
    }

    /** Documents since `first` whose `notify` positions the position iterator has not been told about. */
    ghost predicate Scanning(first: nat, notify: nat)
      requires Fixed()
      reads base, base.docs, base.freqs, pos, pos.deltas
    {
      && base.Buffered() && base.begin <= BLOCK && first <= base.idx <= |t.p| && base.idx + (BLOCK - base.begin) + base.left == |t.p|
      && (wantPos ==> Follows(pos, t, first) && |t.Stream(first)| + notify == |t.Stream(base.idx)|
                      && (base.begin < BLOCK ==> base.freqAt == base.begin))
    }

    /** The document just taken is the result. */
    ghost predicate Hit(target: nat)
      requires Fixed()
      reads base, base.docs, base.freqs, this`value, this`score, pos, pos.deltas, freq, skip`threshold
    {
      && Showing(base.idx) && base.Buffered() && target <= value && (root ==> skip.threshold < score)
      && (wantPos ==> Follows(pos, t, base.idx) && (base.begin < BLOCK ==> base.freqAt == base.begin))
    }

    lemma HitFacts(target: nat)
      requires Fixed() && Hit(target)
      ensures Showing(base.idx) && base.Buffered() && base.idx <= |t.p| && target <= value && (root ==> skip.threshold < score)
      ensures wantPos ==> Follows(pos, t, base.idx) && (base.begin < BLOCK ==> base.freqAt == base.begin)
    {
      hide BlockReader.Buffered, Follows, PositionIterator.InStep;
    }

    /** Adds the difference under `begin`. */
    method Take()
      requires Fixed() && base.Buffered() && base.begin < BLOCK && base.idx < |t.p| && value == Prev(t.p, base.idx)
      modifies base`begin, base`idx, this`value
      ensures base.Buffered() && base.idx == old(base.idx) + 1 && base.begin == old(base.begin) + 1 <= BLOCK
      ensures value == t.p[base.idx - 1].doc && base.freqs[base.begin - 1] == t.p[base.idx - 1].freq
    {
      hide BlockReader.Buffered, SortedDocs, DocDelta, Term.Valid;
      FixedFacts();
      var delta := base.NextDelta();
      DeltaAt(t.p, base.idx - 1);
      value := value + delta;
    }

    /** Takes one document of the block; it is the result unless it is poor. */
    method ScanStep(target: nat, notify: nat, ghost first: nat) returns (found: bool, n: nat)
      requires Fixed() && SkipOk() && Scanning(first, notify) && base.begin < BLOCK && base.idx < |t.p| && value == Prev(t.p, base.idx)
      modifies base`begin, base`freqAt, base`idx, this`value, this`score, pos, freq
      ensures base.idx == old(base.idx) + 1 <= |t.p| && value == t.p[base.idx - 1].doc && base.begin == old(base.begin) + 1
      ensures found ==> Hit(target)
      ensures !found ==> Scanning(first, n) && Poor(t, By(), base.idx - 1, target, skip.threshold)
    {
      hide Term.Valid, BlockReader.Buffered, Follows, PositionIterator.InStep, Fixed, SkipOk, SortedDocs, Term.Stream, DocDelta;
      FixedFacts();
      Take();
      n := notify;
      if wantPos {
        freq.value := base.freqs[base.freqAt];
        base.freqAt := base.freqAt + 1;
        n := n + freq.value;
        StreamStep(t, base.idx - 1);
        PositionsAre(t, base.idx - 1);
      } else if value >= target {
        base.freqAt := base.begin;
        freq.value := base.freqs[base.freqAt - 1];
      }
      found := value >= target;
      if found && root {
        score := scorer(value, freq.value);
        found := score > skip.threshold;
      }
      if found && wantPos {
        Arrive(pos, n, t, first, base.idx - 1);
      }
    }

    lemma ScanningFacts(first: nat, notify: nat)
      requires Fixed() && Scanning(first, notify)
      ensures base.Buffered() && first <= base.idx <= |t.p|
      ensures wantPos ==> Follows(pos, t, first) && |t.Stream(first)| + notify == |t.Stream(base.idx)|
                          && (base.begin < BLOCK ==> base.freqAt == base.begin)
    {}

    lemma LoadedFacts()
      requires Fixed() && SkipOk() && Loaded()
      ensures Scanning(base.idx, 0) && base.begin <= BLOCK && base.idx + (BLOCK - base.begin) + base.left == |t.p|
      ensures Moved() && skip.prev.docPtr == 0 && BLOCK * Block() <= base.idx && base.left == Rest(Block())
    {
      hide Term.Valid, Follows, SkipReader.Ready, SkipReader.Passed, BlockReader.FileAt, Bounded, Index.Valid;
    }

    lemma LoadedAgain()
      requires Fixed() && SkipOk() && base.Buffered() && Moved() && skip.prev.docPtr == 0
      requires BLOCK * Block() <= base.idx <= |t.p| && base.left == Rest(Block())
      requires wantPos ==> told == base.idx && Follows(pos, t, told) && (base.begin < BLOCK ==> base.freqAt == base.begin)
      ensures Loaded()
    {
      hide SkipReader.Ready, BlockReader.Buffered, Follows, Bounded, Index.Valid, Term.Valid;
    }

    /** Looks for a document that is not poor in the loaded block. */
    method ScanBlock(target: nat) returns (found: bool)
      requires Fixed() && SkipOk() && Loaded() && (base.begin < BLOCK ==> value == Prev(t.p, base.idx))
      modifies base`begin, base`freqAt, base`idx, this`value, this`score, this`told, pos, freq
      ensures old(base.idx) <= base.idx <= |t.p| && Loaded() && (found ==> old(base.idx) < base.idx)
      ensures found ==> Showing(base.idx) && AllPoor(t, By(), old(base.idx), base.idx - 1, target, skip.threshold)
      ensures found ==> target <= value && (root ==> skip.threshold < score)
      ensures !found ==> base.begin == BLOCK && AllPoor(t, By(), old(base.idx), base.idx, target, skip.threshold)
      ensures !found && old(base.begin) < BLOCK ==> old(base.idx) < base.idx && value == t.p[base.idx - 1].doc
    {
      hide Term.Valid, BlockReader.Buffered, Follows, PositionIterator.InStep, Fixed, SkipOk, SortedDocs, Term.Stream, Scanning, Showing, Poor, Loaded, Block, Moved, Hit, Rest, AllPoor;
      FixedFacts();
      LoadedFacts();
      AllPoorNone(t, By(), base.idx, target, skip.threshold);
      ghost var first := base.idx;
      var notify: nat := 0;
      found := false;
      while base.begin != BLOCK && !found
        invariant first <= base.idx <= |t.p| && base.begin <= BLOCK && base.idx + (BLOCK - base.begin) + base.left == |t.p|
        invariant found ==> Hit(target) && first < base.idx
        invariant !found ==> Scanning(first, notify) && (base.begin < BLOCK ==> value == Prev(t.p, base.idx))
        invariant base.idx > first ==> value == t.p[base.idx - 1].doc
        invariant base.idx == first ==> base.begin == old(base.begin)
        invariant AllPoor(t, By(), first, if found then base.idx - 1 else base.idx, target, skip.threshold)
      {
        ghost var i := base.idx;
        found, notify := ScanStep(target, notify, first);
        AllPoorNext(t, By(), first, i, !found, target, skip.threshold);
      }
      if found {
        HitFacts(target);
      } else {
        ScanningFacts(first, notify);
        if wantPos {
          Follow(pos, notify, t, first, base.idx);
        }
      }
      told := base.idx;
      LoadedAgain();
    }

    /** Where a seek for `target` may end: at the i-th document, with nothing but poor documents before it. */
    ghost predicate Lands(i: nat, target: nat)
      requires Fixed()
      reads this, base`idx, pos, pos.deltas, freq, skip`threshold
    {
      && i <= |t.p| && AllPoor(t, By(), 0, i, target, skip.threshold)
      && (if i == |t.p| then Exhausted()
          else Showing(i + 1) && target <= t.p[i].doc
               && if root then !Poor(t, By(), i, target, skip.threshold) else skip.threshold < BestOf(t.p, t.bound, i / BLOCK))
    }

    /** A document at or after the target such that everything passed over is poor; with scores
        compared for single documents, the first one whose score is above the threshold. */
    method Seek(target: nat) returns (found: nat)
      requires Valid() && target <= EOF
      modifies this, base, base.docs, base.freqs, skip, pos, pos.deltas, freq
      ensures Valid() && found == value && skip.threshold == old(skip.threshold)
      ensures target <= old(value) ==> value == old(value) && base.idx == old(base.idx)
      ensures old(value) < target ==> (value == EOF && Lands(|t.p|, target)) || (0 < base.idx && Lands(base.idx - 1, target))
      ensures old(value) < target && (root || Nested(t)) ==> Lands(FirstGood(t, By(), target, skip.threshold, 0), target)
    {
      hide Valid, Fixed, SkipOk, Parked, Loaded, Fresh, Moved, Block, AllPoor, Lands, Showing, Exhausted, FirstGood, SkipReader.IsLess, SkipReader.Ready, BlockReader.Buffered, Follows, Term.Valid, Index.Valid, SortedDocs, Bounded, Rest, Prev, PositionIterator.InStep;
      if target > value {
        SeekForward(target);
        PlaceFacts();
        FirstLanded(target);
      }
      found := value;
    }

    lemma FirstLanded(target: nat)
      requires Fixed()
      requires (value == EOF && Lands(|t.p|, target)) || (0 < base.idx && Lands(base.idx - 1, target))
      ensures root || Nested(t) ==> Lands(FirstGood(t, By(), target, skip.threshold, 0), target)
    {
      hide Fixed, FirstGood, Nested, Lands, By, Poor;
      if value == EOF && Lands(|t.p|, target) {
        LandsFirst(|t.p|, target);
      } else {
        LandsFirst(base.idx - 1, target);
      }
    }

    lemma LandsFirst(i: nat, target: nat)
      requires Fixed() && Lands(i, target)
      ensures root || Nested(t) ==> FirstGood(t, By(), target, skip.threshold, 0) == i
    {
      hide Fixed, FirstGood, Nested, Showing, RuledOut, Term.Ix;
      if i < |t.p| && !root && Nested(t) {
        NotRuledOut(t, i / BLOCK, skip.threshold);
      }
      if root || Nested(t) {
        FirstGoodIs(t, By(), target, skip.threshold, i);
      }
    }

    /** A resting iterator has only poor documents behind it. */
    lemma Behind(target: nat)
      requires Valid() && value < target <= EOF
      ensures Fixed() && base.idx <= |t.p| && AllPoor(t, By(), 0, base.idx, target, skip.threshold)
    {
      hide SkipOk, Parked, Loaded, Fresh, Fixed;
      PlaceFacts();
      AllPoorBefore(t, By(), base.idx, target, skip.threshold);
    }

    lemma Kept(idx: nat, first: nat, target: nat)
      requires Valid() && AllPoor(t, By(), 0, idx, first, skip.threshold) && AllPoor(t, By(), idx, base.idx, target, skip.threshold)
      requires idx <= |t.p| && (target == first || (0 < idx && target == t.p[idx - 1].doc + 1))
      ensures idx <= base.idx <= |t.p| && AllPoor(t, By(), 0, base.idx, first, skip.threshold)
      ensures Fixed() && SkipOk()
      ensures base.begin <= BLOCK && (base.idx == |t.p| ==> base.begin == BLOCK && base.left == 0)
    {
      hide SkipOk, Parked, Loaded, Fresh, Fixed, Poor;
      PlaceFacts();
      AllPoorRetarget(t, By(), idx, idx, base.idx, first, target, skip.threshold);
      AllPoorJoin(t, By(), 0, idx, base.idx, first, skip.threshold);
    }

    /** A seek that needed no jump has left the unmoved state. */
    lemma NotFresh(target: nat)
      requires Fixed() && SkipOk() && MIN <= target && !skip.IsLess(skip.setup.size - 1, target)
      ensures Moved()
    {
      hide SkipReader.Ready, Bounded, Index.Valid, Term.Valid;
      SkipFacts();
      skip.LeafShows();
    }

    lemma AtEnd(target: nat)
      requires Valid() && base.begin == BLOCK && base.left == 0 && MIN <= target && !skip.IsLess(skip.setup.size - 1, target)
      ensures Fixed() && SkipOk() && Loaded() && base.idx == |t.p| > 0
    {
      hide SkipOk, Fixed, SkipReader.Ready, SkipReader.IsLess, Moved, Block, Term.Valid, Follows;
      PlaceFacts();
      NotFresh(target);
      FixedFacts();
      if !Parked() {
        base.BufferedFacts();
      }
    }

    lemma Ended(first: nat)
      requires Fixed() && SkipOk() && Loaded() && base.idx == |t.p| > 0 && value == EOF && AllPoor(t, By(), 0, |t.p|, first, skip.threshold)
      ensures Valid() && Lands(|t.p|, first)
    {
      hide SkipOk, Fixed, Loaded, AllPoor;
    }

    /** The finest level shows the last document of the block. */
    lemma LeafEnd(target: nat)
      requires Fixed() && SkipOk() && Loaded() && base.begin == BLOCK && base.left > 0 && !skip.IsLess(skip.setup.size - 1, target)
      ensures 0 < base.idx < |t.p| && target <= t.p[base.idx - 1].doc
    {
      hide SkipReader.Ready, Index.Valid, Term.Valid, Follows, PosStream, IndexOf, Term.Ix, SkipOk, SkipReader.Passed, Block, Moved, Mark, Bounded, Fixed;
      FixedFacts();
      SkipFacts();
      base.BufferedFacts();
      skip.LeafShows();
      IxFacts(t);
      MarkDoc(t, Block() + 1);
    }

    lemma StillParked(target: nat)
      requires Valid() && base.begin == BLOCK && base.left > 0 && (Parked() || value < target) && MIN <= target && !skip.IsLess(skip.setup.size - 1, target)
      ensures Fixed() && SkipOk() && Moved() && Parked()
    {
      hide SkipOk, Fixed, SkipReader.Ready, SkipReader.IsLess, Moved, Block, Term.Valid, Follows, Parked, Loaded;
      PlaceFacts();
      NotFresh(target);
      if Loaded() {
        LeafEnd(target);
      }
    }

    lemma Midway(target: nat)
      requires Valid() && base.begin < BLOCK && (Parked() || value < target <= EOF)
      ensures Fixed() && SkipOk() && Loaded() && base.idx < |t.p| && value == Prev(t.p, base.idx)
    {
      hide SkipOk, Fixed, Loaded;
      PlaceFacts();
    }

    /** The block the walk ends at may hold documents that can compete. */
    lemma CanCompete(target: nat)
      requires Valid() && !skip.IsLess(skip.setup.size - 1, target) && MIN <= target
      ensures SkipOk() && skip.threshold < BestOf(t.p, t.bound, Block()) && BLOCK * Block() <= base.idx
    {
      hide *;
      PlaceFacts();
      SkipFacts();
      LeafBounds(target);
      var b := LeafIs(target);
      WithinIs(b, skip.states[skip.setup.size - 1].doc);
    }

    lemma WithinIs(b: nat, last: nat)
      requires Fixed() && Within(b, last)
      ensures last == EndOf(t.p, b) && maxLeaf == BestOf(t.p, t.bound, b)
    {}

    /** The document found is one of the loaded block. */
    lemma FoundBlock()
      requires Fixed() && SkipOk() && Loaded() && BLOCK * Block() <= base.idx - 1
      ensures (base.idx - 1) / BLOCK == Block()
    {
      hide SkipOk, Fixed, Loaded, Moved, Block;
      LoadedFacts();
    }

    lemma Found(idx: nat, from: nat, first: nat, target: nat)
      requires Fixed() && SkipOk() && Loaded() && 0 < base.idx && Showing(base.idx)
      requires AllPoor(t, By(), 0, from, first, skip.threshold) && AllPoor(t, By(), from, base.idx - 1, target, skip.threshold)
      requires idx <= from && first <= target && (target == first || (0 < idx <= |t.p| && target == t.p[idx - 1].doc + 1))
      requires target <= value && (root ==> skip.threshold < score)
      requires BLOCK * Block() <= from && skip.threshold < BestOf(t.p, t.bound, Block())
      ensures Valid() && Lands(base.idx - 1, first)
    {
      hide SkipOk, Fixed, Loaded, AllPoor, BestOf, Moved, Block;
      FixedFacts();
      AllPoorRetarget(t, By(), idx, from, base.idx - 1, first, target, skip.threshold);
      AllPoorJoin(t, By(), 0, from, base.idx - 1, first, skip.threshold);
      assert from <= base.idx - 1 by {
        PoorRange(from, base.idx - 1, target);
      }
      FoundBlock();
      Landed(first);
    }

    lemma PoorRange(from: nat, to: nat, target: nat)
      requires SkipOk() && AllPoor(t, By(), from, to, target, skip.threshold)
      ensures from <= to <= |t.p|
    {}

    lemma Landed(first: nat)
      requires Fixed() && SkipOk() && Loaded() && 0 < base.idx && Showing(base.idx) && AllPoor(t, By(), 0, base.idx - 1, first, skip.threshold)
      requires first <= value && (root ==> skip.threshold < score) && skip.threshold < BestOf(t.p, t.bound, (base.idx - 1) / BLOCK)
      ensures Valid() && Lands(base.idx - 1, first)
    {
      hide SkipOk, Fixed, Loaded, AllPoor, BestOf, Follows, PositionIterator.InStep, RuledOut;
      FixedFacts();
    }

    lemma BlockDone(idx: nat, from: nat, first: nat, target: nat)
      requires Fixed() && SkipOk() && Loaded() && 0 < base.idx <= |t.p| && value == t.p[base.idx - 1].doc && base.begin == BLOCK
      requires AllPoor(t, By(), 0, from, first, skip.threshold) && AllPoor(t, By(), from, base.idx, target, skip.threshold)
      requires idx <= from && first <= target && (target == first || (0 < idx <= |t.p| && target == t.p[idx - 1].doc + 1))
      requires !skip.IsLess(skip.setup.size - 1, target)
      ensures Valid() && value < EOF && AllPoor(t, By(), 0, base.idx, first, skip.threshold)
      ensures first <= value || base.idx == |t.p|
    {
      hide SkipOk, Fixed, Loaded, AllPoor, SkipReader.IsLess, BlockReader.Buffered, Scanning, Block, Moved, Term.Valid, Index.Valid, SortedDocs, Bounded;
      FixedFacts();
      AllPoorRetarget(t, By(), idx, from, base.idx, first, target, skip.threshold);
      AllPoorJoin(t, By(), 0, from, base.idx, first, skip.threshold);
      LoadedFacts();
      DeltaAt(t.p, base.idx - 1);
      if base.left > 0 {
        LeafEnd(target);
      }
    }

    method SeekForward(first: nat)
      requires Valid() && value < first <= EOF
      modifies this, base, base.docs, base.freqs, skip, pos, pos.deltas, freq
      ensures Valid() && skip.threshold == old(skip.threshold)
      ensures (value == EOF && Lands(|t.p|, first)) || (0 < base.idx && Lands(base.idx - 1, first))
    {
      hide Valid, Fixed, SkipOk, Parked, Loaded, Fresh, Moved, Block, AllPoor, Lands, Showing, Exhausted, FirstGood, SkipReader.IsLess, SkipReader.Ready, BlockReader.Buffered, Follows, Term.Valid, Index.Valid, SortedDocs, Bounded, Rest, Prev, PositionIterator.InStep;
      var target := first;
      Behind(first);
      while true
        invariant Valid() && value < target <= EOF && base.idx <= |t.p| && skip.threshold == old(skip.threshold)
        invariant AllPoor(t, By(), 0, base.idx, first, skip.threshold)
        invariant target == first || (0 < base.idx && target == t.p[base.idx - 1].doc + 1)
        invariant first <= target || base.idx == |t.p|
        decreases |t.p| - base.idx
      {
        ghost var idx := base.idx;
        SeekToBlock(target);
        Kept(idx, first, target);
        CanCompete(target);
        ghost var from, b := base.idx, Block();
        if base.begin == BLOCK {
          if base.left == 0 {
            AtEnd(target);
            value := EOF;
            Ended(first);
            return;
          }
          StillParked(target);
          Load();
        } else {
          Midway(target);
        }
        var here := ScanBlock(target);
        if here {
          Found(idx, from, first, target);
          return;
        }
        BlockDone(idx, from, first, target);
        target := value + 1;
      }
    }

    /** The next document worth stopping at; the step past the largest document wraps around and stays at the end. */
    method Next() returns (more: bool)
      requires Valid()
      modifies this, base, base.docs, base.freqs, skip, pos, pos.deltas, freq
      ensures Valid() && more == (value != EOF) && skip.threshold == old(skip.threshold)
      ensures old(value) == EOF ==> value == EOF
      ensures old(value) < EOF ==> (value == EOF && Lands(|t.p|, old(value) + 1)) || (0 < base.idx && Lands(base.idx - 1, old(value) + 1))
      ensures old(value) < EOF && (root || Nested(t)) ==> Lands(FirstGood(t, By(), old(value) + 1, skip.threshold, 0), old(value) + 1)
    {
      hide Valid, Fixed, SkipOk, Lands, FirstGood, Parked, Loaded, Fresh;
      ValueBound();
      var found := Seek((value + 1) % (EOF + 1));
      more := found != EOF;
    }

    lemma ValueBound()
      requires Valid()
      ensures value <= EOF
    {
      hide Parked, Loaded, Fresh, SkipOk, Fixed;
      PlaceFacts();
    }
  }
}
