/** Whole runs over a term with score bounds. */
module WandRuns {
  import opened Limits
  import opened SkipFormat
  import opened SkipWriting
  import opened SkipReading
  import opened PostingsFormat
  import opened PostingsWriting
  import opened Positions
  import opened DocBlocks
  import opened Wanderators
  import PostingsRuns

  /** What a caller asks of an iterator. The threshold of competitive scores is set before each step. */
  datatype Step =
    | Ask(target: nat, threshold: real)
    | Next(threshold: real)
    | Shallow(target: nat, threshold: real)

  /** Where a step ends: at a document, with its frequency if it is a new one, and its positions
      if they are asked for; or behind a document, with the end and the best score of a block. */
  datatype Shown =
    | Hit(doc: nat, freq: nat, positions: seq<nat>)
    | Range(doc: nat, last: nat, best: real)

  ghost predicate Askable(step: Step) {
    step.threshold < SCORE_MAX && (!step.Next? ==> step.target <= EOF) && (step.Shallow? ==> MIN <= step.target)
  }

  /** What a document is worth: its own score if single documents are compared, else the bound stored for its block. */
  datatype Grading = Grading(root: bool, scorer: Scorer, bound: (nat, nat) -> real)

  ghost function Grade(p: seq<Posting>, g: Grading, i: nat): real
    requires i < |p|
  {
    if g.root then g.scorer(p[i].doc, p[i].freq) else BestOf(p, g.bound, i / BLOCK)
  }

  ghost function Graded(it: Wanderator): Grading { Grading(it.root, it.scorer, it.t.bound) }

  /** The first document from the i-th on that is not before the target and has a worth above the threshold. */
  ghost function FirstAbove(p: seq<Posting>, g: Grading, target: nat, threshold: real, i: nat): (r: nat)
    requires i <= |p|
    ensures i <= r <= |p|
    ensures r < |p| ==> target <= p[r].doc && threshold < Grade(p, g, r)
    ensures forall k :: i <= k < r ==> p[k].doc < target || Grade(p, g, k) <= threshold
    decreases |p| - i
  {
    if i == |p| || (target <= p[i].doc && threshold < Grade(p, g, i)) then i else FirstAbove(p, g, target, threshold, i + 1)
  }

  /** What an iterator takes for unable to compete is worth no more than the threshold. */
  lemma PoorIs(t: Term, g: Grading, i: nat, target: nat, threshold: real)
    requires i < |t.p| && Fit(t, g) && threshold < SCORE_MAX
    ensures Poor(t, JudgeOf(g), i, target, threshold) <==> t.p[i].doc < target || Grade(t.p, g, i) <= threshold
  {
    if !g.root {
      RuledOutIs(t, i / BLOCK, threshold);
    }
  }

  ghost function JudgeOf(g: Grading): Judge { if g.root then ByScore(g.scorer) else ByBlocks }

  ghost predicate Fit(t: Term, g: Grading) {
    t.Valid() && g.bound == t.bound && (g.root || Nested(t))
  }

  lemma RuledOutIs(t: Term, j: nat, threshold: real)
    requires t.Valid() && Nested(t) && threshold < SCORE_MAX
    ensures RuledOut(t, j, threshold) <==> BestOf(t.p, t.bound, j) <= threshold
  {
    hide Term.BlocksStored, Term.TailStored, Term.PosOk, SortedDocs, ValidPositions, IndexOf, Mark, Index.Valid;
    if BestOf(t.p, t.bound, j) <= threshold {
      LeafCovers(t, j);
    }
  }

  /** The entry of the finest level that covers a block. */
  lemma LeafCovers(t: Term, j: nat)
    requires t.Valid() && BLOCK < |t.p| && t.Ix().Valid() && BLOCK * (j + 1) < |t.p|
    ensures 1 <= |t.written| && Covers(t.Ix(), 0, j + 1, j) && t.Ix().bound(0, j + 1) == BestOf(t.p, t.bound, j)
  {
    IxFacts(t);
    SkipStoredFacts(t);
    BoundIs(t, j + 1);
    AtStep(t.Ix(), 0, j);
  }

  lemma {:induction false} FirstGoodIsAbove(t: Term, g: Grading, target: nat, threshold: real, i: nat)
    requires i <= |t.p| && Fit(t, g) && threshold < SCORE_MAX
    ensures FirstGood(t, JudgeOf(g), target, threshold, i) == FirstAbove(t.p, g, target, threshold, i)
    decreases |t.p| - i
  {
    hide Fit, Poor, Grade;
    if i < |t.p| {
      PoorIs(t, g, i, target, threshold);
      FirstGoodIsAbove(t, g, target, threshold, i + 1);
    }
  }

  /** What a linear search past the current document answers. */
  ghost function Answer(p: seq<Posting>, g: Grading, wantPos: bool, value: nat, target: nat, threshold: real): Shown {
    if target <= value then Hit(value, 0, [])
    else
      var i := FirstAbove(p, g, target, threshold, 0);
      if i < |p| then Hit(p[i].doc, p[i].freq, if wantPos then p[i].positions else []) else Hit(EOF, 0, [])
  }

  /** A shallow seek is answered by a block: the target is not behind it, and the score stored for it can
      compete and is not exceeded by any of its documents still to come. Nothing passed over on the way there
      can compete. */
  ghost predicate Bounds(p: seq<Posting>, g: Grading, value: nat, target: nat, threshold: real, shown: Shown) {
    && shown.Range? && value <= shown.doc && target <= shown.last && threshold < shown.best
    && (forall i :: 0 <= i < |p| && value < p[i].doc <= shown.doc ==> p[i].doc < target || Grade(p, g, i) <= threshold)
    && (forall i :: 0 <= i < |p| && shown.doc < p[i].doc <= shown.last ==> g.scorer(p[i].doc, p[i].freq) <= shown.best)
    && exists b: nat :: IsBlock(p, g.bound, b, value, shown)
  }

  /** The answer is the b-th block; the iterator was in it already or is put in front of it. */
  ghost predicate IsBlock(p: seq<Posting>, bound: (nat, nat) -> real, b: nat, value: nat, shown: Shown) {
    && BLOCK * b <= |p| && shown.Range?
    && StartOf(p, b) <= shown.doc <= shown.last == EndOf(p, b) && shown.best == BestOf(p, bound, b)
    && (shown.doc == value || shown.doc == StartOf(p, b))
  }

  /** A step from the document `value` is answered as by a linear search. */
  ghost predicate Agrees(p: seq<Posting>, g: Grading, wantPos: bool, value: nat, step: Step, shown: Shown) {
    match step
    case Ask(target, threshold) => shown == Answer(p, g, wantPos, value, target, threshold)
    case Next(threshold) => shown == Answer(p, g, wantPos, value, value + 1, threshold)
    case Shallow(target, threshold) => Bounds(p, g, value, target, threshold, shown)
  }

  /** All steps are answered, each from where the one before has ended. */
  ghost predicate AllAgree(p: seq<Posting>, g: Grading, wantPos: bool, value: nat, steps: seq<Step>, shown: seq<Shown>) {
    |shown| == |steps| && forall k :: 0 <= k < |steps| ==> Agrees(p, g, wantPos, From(value, shown, k), steps[k], shown[k])
  }

  /** The document that step k starts from. */
  ghost function From(value: nat, shown: seq<Shown>, k: nat): nat
    requires k <= |shown|
  {
    if k == 0 then value else shown[k - 1].doc
  }

  lemma LandedShows(it: Wanderator, i: nat, target: nat)
    requires it.Fixed() && it.Lands(i, target)
    ensures i < |it.t.p| ==> it.Showing(i + 1) && it.value == it.t.p[i].doc < EOF && it.freq.value == it.t.p[i].freq
    ensures i >= |it.t.p| ==> it.value == EOF
  {
    it.FixedFacts();
    hide Term.Valid, Index.Valid, Bounded, AllPoor;
    if i < |it.t.p| {
      DeltaAt(it.t.p, i);
    }
  }

  /** An iterator that leaves single documents alone needs bounds that do not grow from coarse to fine. */
  ghost predicate Ready(it: Wanderator) {
    it.root || Nested(it.t)
  }

  /** All positions of the document found. */
  method ReadPositions(it: Wanderator, ghost n: nat) returns (positions: seq<nat>)
    requires it.Valid() && it.Fixed() && it.wantPos && 0 < n <= |it.t.p| && it.Showing(n)
    modifies it.pos, it.pos.deltas
    ensures it.Valid() && positions == it.t.p[n - 1].positions
  {
    hide SkipReader.Ready, BlockReader.Buffered, Wanderator.Fixed, Wanderator.SkipOk, PositionIterator.InStep, Follows, Wanderator.Block, Wanderator.Moved,
      Wanderator.Rest, Term.Stream, Term.Ix, SortedDocs;
    it.PlaceFacts();
    it.FixedFacts();
    PostingsRuns.FollowFacts(it.pos, it.t, it.told);
    positions := PostingsRuns.AllPositions(it.pos, it.t.p[n - 1].positions);
    PostingsRuns.StillFollows(it.pos, it.t, it.told, it.t.p[n - 1].positions);
  }

  /** What a seek that moves has found. */
  lemma SoughtShows(it: Wanderator, target: nat)
    requires it.Valid() && it.Fixed() && Ready(it) && it.Lands(FirstGood(it.t, it.By(), target, it.skip.threshold, 0), target)
    ensures var i := FirstAbove(it.t.p, Graded(it), target, it.skip.threshold, 0);
            && (i < |it.t.p| ==> it.Showing(i + 1) && it.value == it.t.p[i].doc < EOF && it.freq.value == it.t.p[i].freq)
            && (i == |it.t.p| ==> it.value == EOF)
  {
    hide *;
    FixedFit(it);
    ThresholdFacts(it);
    LandedShows(it, FirstGood(it.t, it.By(), target, it.skip.threshold, 0), target);
    FirstGoodIsAbove(it.t, Graded(it), target, it.skip.threshold, 0);
    GradedIs(it);
  }

  lemma ThresholdFacts(it: Wanderator)
    requires it.Valid()
    ensures it.skip.threshold < SCORE_MAX
  {
    hide Wanderator.Fixed;
    it.PlaceFacts();
  }

  lemma GradedIs(it: Wanderator)
    ensures Graded(it).bound == it.t.bound && Graded(it).scorer == it.scorer && Graded(it).root == it.root
  {}

  /** What the iterator shows after a move. */
  method Show(it: Wanderator, ghost before: nat, ghost target: nat) returns (hit: Shown)
    requires it.Valid() && it.Fixed() && Ready(it) && it.Lands(FirstGood(it.t, it.By(), target, it.skip.threshold, 0), target) && before < target
    modifies it.pos, it.pos.deltas
    ensures it.Valid() && it.value == hit.doc
    ensures hit == Answer(it.t.p, Graded(it), it.wantPos, before, target, it.skip.threshold)
  {
    hide Wanderator.Valid, Wanderator.Lands, Wanderator.Showing, FirstGood, FirstAbove, Wanderator.Fixed, Wanderator.SkipOk, Wanderator.Block, Wanderator.Moved,
      Wanderator.Exhausted, Follows, SortedDocs;
    it.PlaceFacts();
    SoughtShows(it, target);
    ghost var i := FirstAbove(it.t.p, Graded(it), target, it.skip.threshold, 0);
    hit := Hit(EOF, 0, []);
    if it.value < EOF {
      var positions := [];
      if it.wantPos {
        positions := ReadPositions(it, i + 1);
      }
      hit := Hit(it.value, it.freq.value, positions);
    }
  }

  /** One seek; blocks and documents that cannot compete are passed over on the way. */
  method Ask(it: Wanderator, target: nat) returns (hit: Shown)
    requires it.Valid() && Ready(it) && target <= EOF
    modifies it, it.base, it.base.docs, it.base.freqs, it.skip, it.pos, it.pos.deltas, it.freq
    ensures it.Valid() && it.skip.threshold == old(it.skip.threshold) && it.value == hit.doc
    ensures hit == Answer(it.t.p, Graded(it), it.wantPos, old(it.value), target, it.skip.threshold)
  {
    hide Wanderator.Valid, Wanderator.Lands, Wanderator.Showing, FirstGood, Wanderator.Fixed, Wanderator.SkipOk, Wanderator.Block, Wanderator.Moved;
    var before := it.value;
    var found := it.Seek(target);
    hit := Hit(found, 0, []);
    if target > before {
      it.PlaceFacts();
      hit := Show(it, before, target);
    }
  }

  /** One document on; behind the largest number there is nothing. */
  method Advance(it: Wanderator) returns (hit: Shown)
    requires it.Valid() && Ready(it)
    modifies it, it.base, it.base.docs, it.base.freqs, it.skip, it.pos, it.pos.deltas, it.freq
    ensures it.Valid() && it.skip.threshold == old(it.skip.threshold) && it.value == hit.doc
    ensures hit == Answer(it.t.p, Graded(it), it.wantPos, old(it.value), old(it.value) + 1, it.skip.threshold)
  {
    hide Wanderator.Valid, Wanderator.Lands, Wanderator.Showing, FirstGood, Wanderator.Fixed, Wanderator.SkipOk, Wanderator.Block, Wanderator.Moved;
    it.ValueBound();
    var before := it.value;
    var more := it.Next();
    if before < EOF {
      it.PlaceFacts();
      hit := Show(it, before, before + 1);
    } else {
      PastEnd(it);
      hit := Hit(EOF, 0, []);
    }
  }

  /** No document is past the end. */
  lemma PastEnd(it: Wanderator)
    requires it.Valid()
    ensures Answer(it.t.p, Graded(it), it.wantPos, EOF, EOF + 1, it.skip.threshold) == Hit(EOF, 0, [])
  {
    hide Wanderator.Valid, Wanderator.Fixed, Wanderator.SkipOk;
    it.PlaceFacts();
    var i := FirstAbove(it.t.p, Graded(it), EOF + 1, it.skip.threshold, 0);
    assert i == |it.t.p|;
  }

  /** One shallow seek: the best that can still be found up to where. */
  method LookAhead(it: Wanderator, target: nat) returns (range: Shown)
    requires it.Valid() && Ready(it) && MIN <= target <= EOF
    modifies it, it.base, it.skip
    ensures it.Valid() && it.skip.threshold == old(it.skip.threshold) && it.value == range.doc
    ensures Bounds(it.t.p, Graded(it), old(it.value), target, it.skip.threshold, range)
  {
    hide *;
    StandsAt(it);
    ghost var before, idx := it.value, it.base.idx;
    ghost var b;
    var last;
    last, b := it.ShallowSeek(target);
    StandsAt(it);
    range := Range(it.value, last, it.maxLeaf);
    ShallowSaid(it, last, b);
    FixedFit(it);
    ThresholdFacts(it);
    GradedIs(it);
    ShallowIs(it.t, Graded(it), idx, before, it.base.idx, target, it.skip.threshold, b, range);
  }

  lemma ShallowSaid(it: Wanderator, last: nat, b: nat)
    requires it.Fixed() && it.Within(b, last)
    ensures BLOCK * b <= it.base.idx <= BLOCK * (b + 1) && BLOCK * b <= |it.t.p| && last == EndOf(it.t.p, b) && it.maxLeaf == BestOf(it.t.p, it.t.bound, b)
  {}

  /** Where an iterator stands. */
  lemma StandsAt(it: Wanderator)
    requires it.Valid()
    ensures it.Fixed() && SortedDocs(it.t.p) && Stands(it.t.p, it.base.idx, it.value)
  {
    hide Wanderator.Valid, Wanderator.Fixed, Wanderator.SkipOk, SortedDocs;
    it.PlaceFacts();
  }

  ghost predicate Stands(p: seq<Posting>, idx: nat, value: nat) {
    idx <= |p| && (value == (if idx == 0 then INVALID else p[idx - 1].doc) || (idx == |p| && value == EOF))
  }

  lemma FixedFit(it: Wanderator)
    requires it.Fixed() && Ready(it)
    ensures Fit(it.t, Graded(it)) && it.By() == JudgeOf(Graded(it))
  {
    hide Nested;
    it.FixedFacts();
  }

  lemma ShallowIs(t: Term, g: Grading, idx: nat, before: nat, at: nat, target: nat, threshold: real, b: nat, range: Shown)
    requires SortedDocs(t.p) && Stands(t.p, idx, before) && Stands(t.p, at, range.doc) && range.Range? && Fit(t, g) && threshold < SCORE_MAX
    requires AllPoor(t, JudgeOf(g), idx, at, target, threshold) && target <= range.last && threshold < range.best
    requires forall i :: at <= i < |t.p| && t.p[i].doc <= range.last ==> ScoreOf(t, g.scorer, i) <= range.best
    requires BLOCK * b <= at <= BLOCK * (b + 1) && BLOCK * b <= |t.p| && range.last == EndOf(t.p, b) && range.best == BestOf(t.p, t.bound, b)
    requires (range.doc == before && at == idx) || (at == BLOCK * b < |t.p| && range.doc == StartOf(t.p, b))
    ensures Bounds(t.p, g, before, target, threshold, range)
  {
    PassedPoor(t, g, idx, before, at, target, threshold, range.doc);
    assert g.bound == t.bound;
    hide Fit, Grade, Poor, BestOf, AllPoor;
    AheadBounded(t, g, at, range);
    InBlock(t.p, idx, before, at, b, range);
    PassedForward(t, JudgeOf(g), idx, before, at, target, threshold, range.doc);
    assert IsBlock(t.p, g.bound, b, before, range);
  }

  lemma AheadBounded(t: Term, g: Grading, at: nat, range: Shown)
    requires SortedDocs(t.p) && range.Range? && Stands(t.p, at, range.doc)
    requires forall i :: at <= i < |t.p| && t.p[i].doc <= range.last ==> ScoreOf(t, g.scorer, i) <= range.best
    ensures forall i :: 0 <= i < |t.p| && range.doc < t.p[i].doc <= range.last ==> g.scorer(t.p[i].doc, t.p[i].freq) <= range.best
  {
    forall i | 0 <= i < |t.p| && range.doc < t.p[i].doc <= range.last
      ensures at <= i
    {
      assert at > 0 ==> t.p[at - 1].doc < t.p[i].doc || i < at;
    }
  }

  lemma InBlock(p: seq<Posting>, idx: nat, before: nat, at: nat, b: nat, range: Shown)
    requires SortedDocs(p) && range.Range? && Stands(p, at, range.doc) && BLOCK * b <= at <= BLOCK * (b + 1) && BLOCK * b <= |p| && range.last == EndOf(p, b)
    requires (range.doc == before && at == idx) || (at == BLOCK * b < |p| && range.doc == StartOf(p, b))
    ensures StartOf(p, b) <= range.doc <= range.last
  {
    assert at > 0 ==> p[at - 1].doc < EOF;
    assert b > 0 && BLOCK * b < at ==> p[BLOCK * b - 1].doc < p[at - 1].doc;
    assert BLOCK * (b + 1) < |p| && 0 < at < BLOCK * (b + 1) ==> p[at - 1].doc < p[BLOCK * (b + 1) - 1].doc;
  }

  lemma PassedForward(t: Term, judge: Judge, idx: nat, before: nat, at: nat, target: nat, threshold: real, doc: nat)
    requires SortedDocs(t.p) && Stands(t.p, idx, before) && Stands(t.p, at, doc) && AllPoor(t, judge, idx, at, target, threshold)
    requires (doc == before && at == idx) || at < |t.p|
    ensures before <= doc
  {
    assert idx <= at;
    assert 0 < idx < at ==> t.p[idx - 1].doc < t.p[at - 1].doc;
  }

  lemma PassedPoor(t: Term, g: Grading, idx: nat, before: nat, at: nat, target: nat, threshold: real, doc: nat)
    requires SortedDocs(t.p) && Stands(t.p, idx, before) && Stands(t.p, at, doc) && AllPoor(t, JudgeOf(g), idx, at, target, threshold)
    requires Fit(t, g) && threshold < SCORE_MAX
    ensures forall i :: 0 <= i < |t.p| && before < t.p[i].doc <= doc ==> t.p[i].doc < target || Grade(t.p, g, i) <= threshold
  {
    hide Fit, Grade, Poor;
    forall i | 0 <= i < |t.p| && before < t.p[i].doc <= doc
      ensures t.p[i].doc < target || Grade(t.p, g, i) <= threshold
    {
      assert idx > 0 ==> t.p[idx - 1].doc <= t.p[i].doc || i < idx;
      assert at > 0 ==> t.p[at - 1].doc < t.p[i].doc || i < at;
      assert idx <= i < at;
      assert Poor(t, JudgeOf(g), i, target, threshold);
      PoorIs(t, g, i, target, threshold);
    }
  }

  /** One step under its threshold. */
  method Take(it: Wanderator, step: Step) returns (shown: Shown)
    requires it.Valid() && Ready(it) && Askable(step)
    modifies it, it.base, it.base.docs, it.base.freqs, it.skip, it.pos, it.pos.deltas, it.freq
    ensures it.Valid() && it.value == shown.doc
    ensures Agrees(it.t.p, Graded(it), it.wantPos, old(it.value), step, shown)
  {
    hide Wanderator.Valid, Answer, Bounds;
    it.SetThreshold(step.threshold);
    match step
    case Ask(target, _) => shown := Ask(it, target);
    case Next(_) => shown := Advance(it);
    case Shallow(target, _) => shown := LookAhead(it, target);
  }

  lemma AgreesNext(p: seq<Posting>, g: Grading, wantPos: bool, value: nat, steps: seq<Step>, shown: seq<Shown>, next: Shown)
    requires |shown| < |steps| && AllAgree(p, g, wantPos, value, steps[..|shown|], shown)
    requires Agrees(p, g, wantPos, From(value, shown, |shown|), steps[|shown|], next)
    ensures AllAgree(p, g, wantPos, value, steps[..|shown| + 1], shown + [next])
  {
    hide Agrees;
    var longer, taken := shown + [next], steps[..|shown| + 1];
    forall k | 0 <= k < |longer|
      ensures Agrees(p, g, wantPos, From(value, longer, k), taken[k], longer[k])
    {
      assert From(value, longer, k) == From(value, shown, k) && taken[k] == steps[k];
      assert k < |shown| ==> steps[..|shown|][k] == steps[k] && longer[k] == shown[k];
    }
  }

  /** Any run of steps, whatever their targets and thresholds, is answered as by linear search. */
  method RunWand(it: Wanderator, steps: seq<Step>) returns (shown: seq<Shown>)
    requires it.Valid() && Ready(it) && forall k :: 0 <= k < |steps| ==> Askable(steps[k])
    modifies it, it.base, it.base.docs, it.base.freqs, it.skip, it.pos, it.pos.deltas, it.freq
    ensures it.Valid() && AllAgree(it.t.p, Graded(it), it.wantPos, old(it.value), steps, shown)
  {
    hide Wanderator.Valid, Agrees;
    shown := [];
    while |shown| < |steps|
      invariant |shown| <= |steps| && it.Valid() && it.value == From(old(it.value), shown, |shown|)
      invariant AllAgree(it.t.p, Graded(it), it.wantPos, old(it.value), steps[..|shown|], shown)
    {
      var next := Take(it, steps[|shown|]);
      AgreesNext(it.t.p, Graded(it), it.wantPos, old(it.value), steps, shown, next);
      shown := shown + [next];
    }
    assert steps[..|shown|] == steps;
  }

  /** What is stored with an entry is at least the score of every document the entry passes over. */
  ghost predicate UpperBounds(p: seq<Posting>, blockMax: (nat, nat) -> real, scorer: Scorer) {
    && (forall i :: 0 <= i < |p| ==> scorer(p[i].doc, p[i].freq) <= SCORE_MAX)
    && forall level: nat, k: nat, i: nat :: EntryPasses(|p|, level, k, i) ==> scorer(p[i].doc, p[i].freq) <= blockMax(level, CountAt(level, k))
  }

  ghost predicate EntryPasses(n: nat, level: nat, k: nat, i: nat) {
    1 <= k && CountAt(level, k - 1) <= i < CountAt(level, k) < n
  }

  lemma AreBounds(t: Term, blockMax: (nat, nat) -> real, scorer: Scorer)
    requires t.Valid() && BLOCK < |t.p| && t.bound == blockMax && UpperBounds(t.p, blockMax, scorer)
    ensures t.Ix().Valid() && Bounded(t, scorer)
  {
    IndexValid(t.p, t.f, t.meta.docStart, t.meta.posStart, t.bound);
    hide Term.Valid, Index.Valid, Mark, SortedDocs;
    forall level: nat, k: nat, j: nat | Covers(t.Ix(), level, k, j)
      ensures BoundsBlock(t, scorer, level, k, j)
    {
      forall i | BLOCK * j <= i < BLOCK * (j + 1) && i < |t.p|
        ensures ScoreOf(t, scorer, i) <= t.Ix().bound(level, k)
      {
        assert EntryPasses(|t.p|, level, k, i);
      }
    }
  }

  /** The bound of a block is at most that of any entry that passes over it. */
  ghost predicate NestedBounds(p: seq<Posting>, blockMax: (nat, nat) -> real) {
    forall level: nat, k: nat, i: nat :: EntryPasses(|p|, level, k, i) ==> BestOf(p, blockMax, i / BLOCK) <= blockMax(level, CountAt(level, k))
  }

  lemma AreNested(t: Term)
    requires t.Valid() && BLOCK < |t.p| && NestedBounds(t.p, t.bound)
    ensures Nested(t)
  {
    IndexValid(t.p, t.f, t.meta.docStart, t.meta.posStart, t.bound);
    hide Term.Valid, Index.Valid, Mark, SortedDocs, BestOf, NestedBounds;
    forall level: nat, k: nat, j: nat | level < |t.written| && Covers(t.Ix(), level, k, j)
      ensures BestOf(t.p, t.bound, j) <= t.Ix().bound(level, k)
    {
      NestedAt(t.p, t.bound, level, k, j);
    }
  }

  lemma NestedAt(p: seq<Posting>, blockMax: (nat, nat) -> real, level: nat, k: nat, j: nat)
    requires NestedBounds(p, blockMax) && EntryPasses(|p|, level, k, BLOCK * j)
    ensures BestOf(p, blockMax, j) <= blockMax(level, CountAt(level, k))
  {
    hide EntryPasses, BestOf;
    assert BLOCK * j / BLOCK == j;
  }

  /** Writes a term with score bounds and asks for its best documents, single ones or blocks of them. */
  method WriteAndSearch(p: seq<Posting>, f: Format, root: bool, wantPos: bool, blockMax: (nat, nat) -> real, rootScore: real, scorer: Scorer, steps: seq<Step>)
    returns (shown: seq<Shown>)
    requires BLOCK < |p| && ValidList(p, f) && f.freq && f.wand && (wantPos ==> f.pos) && UpperBounds(p, blockMax, scorer)
    requires root || NestedBounds(p, blockMax)
    requires forall k :: 0 <= k < |steps| ==> Askable(steps[k])
    ensures AllAgree(p, Grading(root, scorer, blockMax), wantPos, INVALID, steps, shown)
  {
    hide Term.Valid, Wanderator.Valid, Ascending, Bounded, UpperBounds, Index.Valid, AllAgree, ValidPositions, MetaIs, Nested, NestedBounds;
    var writer := new PostingsWriter(f, |p|);
    var meta, written := writer.Write(p, blockMax, rootScore);
    PostingsRuns.AllAscending(p);
    ghost var t := Term(p, f, meta.value, writer.docOut, writer.posOut, blockMax, written);
    AreBounds(t, blockMax, scorer);
    if !root {
      AreNested(t);
    }
    var it := new Wanderator(root, wantPos, meta.value, writer.docOut, writer.posOut, f, scorer, t);
    shown := RunWand(it, steps);
  }
}
