/** Reading a stored skip list: the level walk and the two readers that ride on it,
    the plain one and the one that also passes over blocks with low score bounds. */
module SkipReading {
  import opened Arithmetic
  import opened Limits
  import opened SkipFormat
  import opened SkipWriting

  /** Pointer into the level below; the finest level has none. */
  datatype ChildRef = Undefined | Ref(ptr: nat)

  /** Reading position of one level. `left` may go below zero. */
  datatype Level = Level(begin: nat, pos: nat, child: ChildRef, left: int, step: nat)

  /** Everything fixed for one reader: the list, the file it is stored in, the number of
      levels, and whether score bounds take part. Reader levels count from the top. */
  datatype Setup = Setup(ix: Index, file: seq<Token>, size: nat, wand: bool) {
    ghost predicate Valid() { ix.Valid() && 1 <= size }

    function Depth(id: nat): nat
      requires id < size
    {
      size - 1 - id
    }

    function At(id: nat, k: nat): nat
      requires id < size && 1 <= ix.skipN
    {
      ix.At(Depth(id), k)
    }

    function Unit(id: nat): (u: nat)
      requires id < size && 1 <= ix.skipN
      ensures 1 <= u
    {
      ix.Unit(Depth(id))
    }

    /** Level `id` after passing `k` entries, where running past the last one counts as one more. */
    ghost predicate LevelOk(id: nat, level: Level, k: nat)
      requires Valid() && id < size
    {
      var at := At(id, k);
      var read := if k == 0 || at < |ix.marks| then k else k - 1;
      && level.step == ix.skip0 * Unit(id)
      && level.left == ix.count - at * ix.skip0
      && level.pos == level.begin + EntryEnd(Depth(id), read)
      && level.child == ChildOf(id, read)
      && LevelStored(ix, file, level.begin, Depth(id))
      && (k > 0 ==> At(id, k - 1) < |ix.marks|)
    }

    function ChildOf(id: nat, k: nat): ChildRef
      requires id < size && 1 <= ix.skipN
    {
      if Depth(id) == 0 then Undefined
      else if k == 0 then Ref(0)
      else MulPositive(k, ix.skipN); Ref(ChildPtr(Depth(id) - 1, k * ix.skipN))
    }

    /** The document a level shows after `k` entries. */
    ghost predicate ShownOk(id: nat, k: nat, state: SkipState)
      requires Valid() && id < size
    {
      state.doc == if At(id, k) < |ix.marks| then ix.marks[At(id, k)].doc else EOF
    }

    /** The score bound a level shows after `k` entries. */
    ghost predicate Scored(id: nat, k: nat, score: real)
      requires Valid() && id < size
    {
      wand ==> score == if k == 0 then 0.0 else if At(id, k) < |ix.marks| then ix.bound(Depth(id), k) else SCORE_MAX
    }

    /** The whole boundary state of a level is current, not only its document. */
    ghost predicate FullState(id: nat, k: nat, state: SkipState)
      requires Valid() && id < size
    {
      At(id, k) < |ix.marks| ==> state == ix.marks[At(id, k)]
    }
  }

  /** Level `id` in full: its stream, what it shows, and its boundary state once it has read an entry. */
  ghost predicate Good(s: Setup, id: nat, level: Level, state: SkipState, k: nat)
    requires s.Valid() && id < s.size
  {
    s.LevelOk(id, level, k) && s.ShownOk(id, k, state) && (k > 0 ==> s.FullState(id, k, state))
  }

  ghost predicate AllGood(s: Setup, levels: seq<Level>, states: seq<SkipState>, ks: seq<nat>) {
    && s.Valid()
    && |levels| == |states| == |ks| == s.size
    && forall id :: 0 <= id < s.size ==> Good(s, id, levels[id], states[id], ks[id])
  }

  lemma AllGoodUpdate(s: Setup, id: nat, levels: seq<Level>, states: seq<SkipState>, ks: seq<nat>,
                      level: Level, state: SkipState, k: nat)
    requires AllGood(s, levels, states, ks) && id < s.size
    requires Good(s, id, level, state, k)
    ensures AllGood(s, levels[id := level], states[id := state], ks[id := k])
  {}

  /** Every level but `id` shows the bound of its current entry. */
  ghost predicate ScoredBut(s: Setup, scores: seq<real>, ks: seq<nat>, id: nat) {
    && s.Valid()
    && |scores| == |ks| == s.size
    && forall j :: 0 <= j < s.size && j != id ==> s.Scored(j, ks[j], scores[j])
  }

  /** The k-th entry of a level passes over block j. */
  ghost predicate Covers(ix: Index, level: nat, k: nat, j: nat)
    requires ix.Valid()
  {
    1 <= k && ix.At(level, k) < |ix.marks| && ix.At(level, k - 1) <= j < ix.At(level, k)
  }

  /** Block j has nothing for this target: its last document lies before it, or an entry
      of some level that covers the block carries a bound not above the threshold. */
  ghost predicate Dead(s: Setup, j: nat, target: nat, threshold: real)
    requires s.Valid() && j + 1 < |s.ix.marks|
  {
    || s.ix.marks[j + 1].doc < target
    || (s.wand && exists level: nat, k: nat :: level < s.size && Covers(s.ix, level, k, j) && s.ix.bound(level, k) <= threshold)
  }

  ghost predicate DeadRange(s: Setup, from: nat, to: nat, target: nat, threshold: real)
    requires s.Valid()
  {
    forall j :: from <= j < to && j + 1 < |s.ix.marks| ==> Dead(s, j, target, threshold)
  }

  /** How far each level has read, from the top level down. */
  ghost predicate Descending(s: Setup, ks: seq<nat>)
    requires s.Valid() && |ks| == s.size
  {
    forall i :: 0 <= i < s.size - 1 ==> s.At(i + 1, ks[i + 1]) <= s.At(i, ks[i])
  }

  /** Each level above `id` has the level below it inside its current entry. */
  ghost predicate NestedAbove(s: Setup, ks: seq<nat>, id: nat)
    requires s.Valid() && |ks| == s.size
  {
    forall i :: 0 <= i < id && i < s.size - 1 ==> s.At(i, ks[i]) < s.At(i + 1, ks[i + 1]) + s.Unit(i)
  }

  /** What a level shows after `k` entries makes it one to advance. */
  ghost predicate LessAt(s: Setup, id: nat, k: nat, target: nat, threshold: real)
    requires s.Valid() && id < s.size
  {
    var at := s.At(id, k);
    at < |s.ix.marks| && (s.ix.marks[at].doc < target || (s.wand && (if k == 0 then 0.0 else s.ix.bound(s.Depth(id), k)) <= threshold))
  }

  /** A walk at level `id`: the levels above it need no advance and hold the walk inside
      their current entries, and every block passed since `from` is dead. */
  ghost predicate Walk(s: Setup, ks: seq<nat>, id: nat, target: nat, threshold: real, from: nat)
  {
    && s.Valid() && |ks| == s.size && id <= s.size
    && (forall j :: 0 <= j < id ==> !LessAt(s, j, ks[j], target, threshold))
    && (id > 0 ==> NestedAbove(s, ks, id - 1))
    && (if id < s.size then
          && s.At(id, ks[id]) < |s.ix.marks|
          && DeadRange(s, from, s.At(id, ks[id]), target, threshold)
          && (id > 0 ==> s.At(id - 1, ks[id - 1]) <= s.At(id, ks[id]) + s.Unit(id - 1))
          && (!s.wand && id > 0 ==> s.At(id, ks[id]) < s.At(id - 1, ks[id - 1]))
        else
          && 0 < ks[s.size - 1] <= |s.ix.marks|
          && DeadRange(s, from, ks[s.size - 1] - 1, target, threshold))
  }

  ghost predicate Unmoved(before: seq<nat>, after: seq<nat>) {
    |before| == |after| && forall j :: 0 <= j < |before| ==> before[j] <= after[j]
  }

  lemma UnmovedStep(ks: seq<nat>, id: nat, k: nat)
    requires id < |ks| && ks[id] <= k
    ensures Unmoved(ks, ks[id := k])
  {}

  lemma UnmovedTrans(a: seq<nat>, b: seq<nat>, c: seq<nat>)
    requires Unmoved(a, b) && Unmoved(b, c)
    ensures Unmoved(a, c)
  {}

  lemma WalkStart(s: Setup, ks: seq<nat>, id: nat, target: nat, threshold: real, from: nat)
    requires s.Valid() && |ks| == s.size && id < s.size && Descending(s, ks) && NestedAbove(s, ks, s.size)
    requires forall j :: 0 <= j < id ==> !LessAt(s, j, ks[j], target, threshold)
    requires LessAt(s, id, ks[id], target, threshold)
    requires from == if ks[s.size - 1] == 0 then 0 else ks[s.size - 1] - 1
    ensures Walk(s, ks, id, target, threshold, from)
  {
    LeafInside(s, ks, id);
    if ks[id] > 0 {
      AtStep(s.ix, s.Depth(id), ks[id] - 1);
    }
    DeadByLess(s, ks, id, ks[id], target, threshold, from);
    if id > 0 {
      assert s.At(id - 1 + 1, ks[id - 1 + 1]) <= s.At(id - 1, ks[id - 1]);
    }
  }

  /** An entry that shows less, reached over dead blocks only, extends them. */
  lemma DeadByLess(s: Setup, ks: seq<nat>, id: nat, k: nat, target: nat, threshold: real, from: nat)
    requires s.Valid() && id < s.size && LessAt(s, id, k, target, threshold)
    requires k > 0 ==> s.At(id, k - 1) <= from || DeadRange(s, from, s.At(id, k - 1), target, threshold)
    ensures DeadRange(s, from, s.At(id, k), target, threshold)
  {
    forall j | from <= j < s.At(id, k) && j + 1 < |s.ix.marks|
      ensures Dead(s, j, target, threshold)
    {
      if s.ix.marks[s.At(id, k)].doc < target {
        assert s.ix.marks[j + 1].doc <= s.ix.marks[s.At(id, k)].doc;
      } else if s.At(id, k - 1) <= j {
        assert Covers(s.ix, s.Depth(id), k, j);
      }
    }
  }

  lemma WalkClimb(s: Setup, ks: seq<nat>, id: nat, r: nat, target: nat, threshold: real, from: nat)
    requires Walk(s, ks, id, target, threshold, from) && id < s.size && r <= id
    requires s.At(r, ks[r]) == s.At(id, ks[id])
    requires r > 0 ==> s.At(r, ks[r]) < s.At(r - 1, ks[r - 1])
    ensures Walk(s, ks, r, target, threshold, from)
    ensures MIN <= target && r < id ==> ks[r] > 0
  {}

  lemma WalkStay(s: Setup, ks: seq<nat>, id: nat, target: nat, threshold: real, from: nat)
    requires Walk(s, ks, id, target, threshold, from) && id < s.size
    requires id > 0 ==> s.At(id, ks[id]) < s.At(id - 1, ks[id - 1])
    requires LessAt(s, id, ks[id] + 1, target, threshold)
    ensures Walk(s, ks[id := ks[id] + 1], id, target, threshold, from)
  {
    AtStep(s.ix, s.Depth(id), ks[id]);
    DeadByLess(s, ks, id, ks[id] + 1, target, threshold, from);
  }

  /** The finest level has left its block: the walk is over. */
  lemma WalkEnd(s: Setup, ks: seq<nat>, id: nat, target: nat, threshold: real, from: nat)
    requires Walk(s, ks, id, target, threshold, from) && id == s.size - 1
    requires id > 0 ==> s.At(id, ks[id]) < s.At(id - 1, ks[id - 1])
    requires !LessAt(s, id, ks[id] + 1, target, threshold)
    ensures Walk(s, ks[id := ks[id] + 1], s.size, target, threshold, from)
  {
    AtStep(s.ix, 0, ks[id]);
  }

  /** A level has left its entry: the walk goes on inside that entry, one level down. */
  lemma WalkDown(s: Setup, ks: seq<nat>, id: nat, m: nat, target: nat, threshold: real, from: nat)
    requires Walk(s, ks, id, target, threshold, from) && id + 1 < s.size
    requires id > 0 ==> s.At(id, ks[id]) < s.At(id - 1, ks[id - 1])
    requires !LessAt(s, id, ks[id] + 1, target, threshold)
    requires s.At(id + 1, m) == s.At(id, ks[id])
    ensures Walk(s, ks[id := ks[id] + 1][id + 1 := m], id + 1, target, threshold, from)
    ensures s.At(id + 1, m) < s.At(id, ks[id] + 1)
  {
    AtStep(s.ix, s.Depth(id), ks[id]);
  }

  lemma SealedNotLess(s: Setup, id: nat, k: nat, target: nat, threshold: real)
    requires s.Valid() && id < s.size && s.At(id, k) >= |s.ix.marks|
    ensures !LessAt(s, id, k, target, threshold)
  {}

  /** Reading an entry brings its bound with it: then all levels show theirs. */
  lemma ScoredStep(s: Setup, scores: seq<real>, ks: seq<nat>, id: nat, score: real)
    requires ScoredBut(s, scores, ks, id) && id < s.size && s.Scored(id, ks[id] + 1, score)
    ensures ScoredBut(s, scores[id := score], ks[id := ks[id] + 1], s.size)
  {}

  lemma ScoredWeaken(s: Setup, scores: seq<real>, ks: seq<nat>, id: nat, m: nat)
    requires ScoredBut(s, scores, ks, s.size) && id < s.size
    ensures ScoredBut(s, scores, ks, id) && ScoredBut(s, scores, ks[id := m], id)
  {}

  /** Two levels at different counts differ by at least a step of the finer one. */
  lemma Gap(s: Setup, id: nat, k: nat, m: nat)
    requires s.Valid() && id + 1 < s.size
    requires s.At(id + 1, k) < s.At(id, m)
    ensures s.At(id + 1, k + 1) <= s.At(id, m)
  {
    AtDown(s.ix, s.Depth(id + 1), m);
    AtOrder(s.ix, s.Depth(id + 1), k, m * s.ix.skipN);
  }

  /** The finest level has not read further than any other. */
  lemma {:induction false} LeafLowest(s: Setup, ks: seq<nat>, id: nat)
    requires s.Valid() && |ks| == s.size && id < s.size && Descending(s, ks)
    ensures s.At(s.size - 1, ks[s.size - 1]) <= s.At(id, ks[id])
    decreases s.size - id
  {
    if id + 1 < s.size {
      LeafLowest(s, ks, id + 1);
    }
  }

  /** The finest level stays inside the current entry of every level above it. */
  lemma {:induction false} LeafInside(s: Setup, ks: seq<nat>, id: nat)
    requires s.Valid() && |ks| == s.size && id < s.size
    requires Descending(s, ks) && NestedAbove(s, ks, s.size)
    ensures s.At(s.size - 1, ks[s.size - 1]) <= s.At(id, ks[id]) < s.At(s.size - 1, ks[s.size - 1]) + s.Unit(id)
    decreases s.size - id
  {
    if id + 1 < s.size {
      LeafInside(s, ks, id + 1);
      var low, here := ks[id + 1], ks[id];
      var leaf := s.At(s.size - 1, ks[s.size - 1]);
      AtDown(s.ix, s.Depth(id + 1), here);
      AtStep(s.ix, s.Depth(id), here);
      if here > 0 {
        // the previous entry of this level ends at a multiple of the finer step
        AtStep(s.ix, s.Depth(id), here - 1);
        Gap'(s, id, here - 1, low);
      }
    }
  }

  lemma Gap'(s: Setup, id: nat, m: nat, k: nat)
    requires s.Valid() && id + 1 < s.size
    requires s.At(id, m) < s.At(id + 1, k)
    ensures s.At(id, m) + s.Unit(id + 1) <= s.At(id + 1, k)
  {
    AtDown(s.ix, s.Depth(id + 1), m);
    AtOrder(s.ix, s.Depth(id + 1), m * s.ix.skipN, k);
    AtStep(s.ix, s.Depth(id + 1), m * s.ix.skipN);
  }

  /** The state an entry leads to. */
  function Apply(state: SkipState, entry: Entry): SkipState {
    SkipState(entry.doc, state.docPtr + entry.docDelta, entry.pend, state.posPtr + entry.posDelta)
  }

  /** A level after taking the entry it stands at, with the child pointer behind it. */
  function Taken(file: seq<Token>, level: Level): Level
    requires level.pos < |file| && file[level.pos].Skip?
    requires level.child.Ref? ==> level.pos + 1 < |file| && file[level.pos + 1].Child?
  {
    if level.child.Undefined? then level.(pos := level.pos + 1)
    else level.(pos := level.pos + 2, child := Ref(file[level.pos + 1].ptr))
  }

  /** Another entry is left exactly when documents are; taking it keeps the level in order. */
  lemma NextLevelOk(s: Setup, id: nat, level: Level, k: nat)
    requires s.Valid() && id < s.size && s.LevelOk(id, level, k) && s.At(id, k) < |s.ix.marks|
    ensures 0 < level.left - level.step <==> s.At(id, k + 1) < |s.ix.marks|
    ensures s.At(id, k + 1) < |s.ix.marks| ==>
              && level.pos < |s.file| && s.file[level.pos] == Skip(s.ix.EntryAt(s.Depth(id), k + 1))
              && (level.child.Ref? ==> level.pos + 1 < |s.file| && s.file[level.pos + 1].Child?)
              && s.LevelOk(id, Taken(s.file, level).(left := level.left - level.step), k + 1)
    ensures s.At(id, k + 1) >= |s.ix.marks| ==> s.LevelOk(id, level.(left := level.left - level.step), k + 1)
  {
    AtStep(s.ix, s.Depth(id), k);
    LeftPositive(s.ix, s.At(id, k + 1));
    Distribute(s.At(id, k), s.Unit(id), s.ix.skip0);
    assert EntryStored(s.ix, s.file, level.begin, s.Depth(id), k + 1);
  }

  lemma NextState(s: Setup, id: nat, k: nat, state: SkipState, score: real)
    requires s.Valid() && id < s.size && s.At(id, k) < |s.ix.marks| && s.FullState(id, k, state)
    ensures s.At(id, k + 1) < |s.ix.marks| ==>
              var entry := s.ix.EntryAt(s.Depth(id), k + 1);
              && s.ShownOk(id, k + 1, Apply(state, entry))
              && s.Scored(id, k + 1, if s.wand then entry.bound else score)
              && s.FullState(id, k + 1, Apply(state, entry))
    ensures s.At(id, k + 1) >= |s.ix.marks| ==>
              && s.ShownOk(id, k + 1, state.(doc := EOF))
              && s.Scored(id, k + 1, if s.wand then SCORE_MAX else score)
              && s.FullState(id, k + 1, state.(doc := EOF))
  {
    AtStep(s.ix, s.Depth(id), k);
  }

  /** A level can take the entry it stands at, if documents are left for one. */
  ghost predicate CanStep(s: Setup, level: Level) {
    0 < level.left - level.step ==>
      && level.pos < |s.file| && s.file[level.pos].Skip?
      && (level.child.Ref? ==> level.pos + 1 < |s.file| && s.file[level.pos + 1].Child?)
  }

  /** One step of a level: it takes the entry it stands at, or its stream is sealed. */
  ghost function StepLevelOf(s: Setup, level: Level): Level
    requires CanStep(s, level)
  {
    (if 0 < level.left - level.step then Taken(s.file, level) else level).(left := level.left - level.step)
  }

  ghost function StepStateOf(s: Setup, level: Level, state: SkipState): SkipState
    requires CanStep(s, level)
  {
    if 0 < level.left - level.step then Apply(state, s.file[level.pos].entry) else state.(doc := EOF)
  }

  ghost function StepScoreOf(s: Setup, level: Level, score: real): real
    requires CanStep(s, level)
  {
    if !s.wand then score
    else if 0 < level.left - level.step then s.file[level.pos].entry.bound
    else SCORE_MAX
  }

  /** A step keeps every level in order and adds one entry to the count of its level. */
  lemma Advanced(s: Setup, id: nat, levels: seq<Level>, states: seq<SkipState>, score: real, ks: seq<nat>)
    requires AllGood(s, levels, states, ks) && Descending(s, ks)
    requires id < s.size && s.At(id, ks[id]) < |s.ix.marks| && s.FullState(id, ks[id], states[id])
    requires id > 0 ==> s.At(id, ks[id]) < s.At(id - 1, ks[id - 1])
    ensures CanStep(s, levels[id])
    ensures 0 < levels[id].left - levels[id].step <==> s.At(id, ks[id] + 1) < |s.ix.marks|
    ensures var state := StepStateOf(s, levels[id], states[id]);
            && AllGood(s, levels[id := StepLevelOf(s, levels[id])], states[id := state], ks[id := ks[id] + 1])
            && Descending(s, ks[id := ks[id] + 1])
            && s.Scored(id, ks[id] + 1, StepScoreOf(s, levels[id], score))
            && s.FullState(id, ks[id] + 1, state)
  {
    hide Setup.Unit, Setup.At, Setup.FullState, Setup.Scored, Descending, Index.At, Index.Unit, Index.EntryAt, LevelStored;
    var k := ks[id];
    assert Good(s, id, levels[id], states[id], k);
    NextLevelOk(s, id, levels[id], k);
    NextState(s, id, k, states[id], score);
    DescendingStep(s, ks, id);
    assert Good(s, id, StepLevelOf(s, levels[id]), StepStateOf(s, levels[id], states[id]), k + 1);
    hide Good, Setup.LevelOk, Setup.ShownOk, Descending, Setup.Unit, Setup.At;
    AllGoodUpdate(s, id, levels, states, ks, StepLevelOf(s, levels[id]), StepStateOf(s, levels[id], states[id]), k + 1);
  }

  function MovedToChild(file: seq<Token>, level: Level, ptr: nat, parent: Level): Level
    requires level.pos < level.begin + ptr && level.child.Ref? ==> level.begin + ptr < |file| && file[level.begin + ptr].Child?
  {
    var at := level.begin + ptr;
    if at <= level.pos then level
    else if level.child.Undefined? then level.(pos := at, left := parent.left + parent.step)
    else level.(pos := at + 1, left := parent.left + parent.step, child := Ref(file[at].ptr))
  }

  /** The child pointer of a passed entry leads to the same count on the finer level,
      which stands there already or somewhere before it. */
  lemma MovedGood(s: Setup, id: nat, k: nat, parent: Level, m: nat, level: Level, ptr: nat, state: SkipState)
    requires s.Valid() && id + 1 < s.size && s.At(id, k) < |s.ix.marks|
    requires s.LevelOk(id, parent, k + 1) && s.LevelOk(id + 1, level, m)
    requires s.At(id + 1, m) <= s.At(id, k)
    requires s.ChildOf(id, k) == Ref(ptr) && state == s.ix.marks[s.At(id, k)]
    ensures m <= k * s.ix.skipN && s.At(id + 1, k * s.ix.skipN) == s.At(id, k)
    ensures var at := level.begin + ptr; level.pos < at && level.child.Ref? ==> at < |s.file| && s.file[at].Child?
    ensures Good(s, id + 1, MovedToChild(s.file, level, ptr, parent), state, k * s.ix.skipN)
  {
    MovedCounts(s, id, k, m);
    hide Index.At, Index.Unit, Power;
    assert EntryStored(s.ix, s.file, level.begin, s.Depth(id + 1), k * s.ix.skipN);
  }

  lemma MovedCounts(s: Setup, id: nat, k: nat, m: nat)
    requires s.Valid() && id + 1 < s.size && s.At(id + 1, m) <= s.At(id, k)
    ensures m <= k * s.ix.skipN && s.At(id + 1, k * s.ix.skipN) == s.At(id, k)
    ensures s.At(id, k + 1) == s.At(id, k) + s.Unit(id)
    ensures (s.At(id, k) + s.Unit(id)) * s.ix.skip0 == s.At(id, k) * s.ix.skip0 + s.ix.skip0 * s.Unit(id)
    ensures k > 0 ==> k * s.ix.skipN >= 1 && s.At(id + 1, k * s.ix.skipN - 1) < s.At(id + 1, k * s.ix.skipN)
  {
    var low := s.Depth(id + 1);
    AtDown(s.ix, low, k);
    AtOrder(s.ix, low, k * s.ix.skipN, m);
    AtStep(s.ix, s.Depth(id), k);
    Distribute(s.At(id, k), s.Unit(id), s.ix.skip0);
    if k > 0 {
      MulPositive(k, s.ix.skipN);
      AtOrder(s.ix, low, k * s.ix.skipN - 1, k * s.ix.skipN);
    }
  }

  lemma DescendingDown(s: Setup, ks: seq<nat>, id: nat, k: nat)
    requires s.Valid() && |ks| == s.size && id + 1 < s.size && Descending(s, ks)
    requires s.At(id + 1, ks[id + 1]) <= s.At(id + 1, k) <= s.At(id, ks[id])
    ensures Descending(s, ks[id + 1 := k])
  {
    var next := ks[id + 1 := k];
    forall i | 0 <= i < s.size - 1
      ensures s.At(i + 1, next[i + 1]) <= s.At(i, next[i])
    {
      assert s.At(i + 1, ks[i + 1]) <= s.At(i, ks[i]);
    }
  }

  lemma DescendingStep(s: Setup, ks: seq<nat>, id: nat)
    requires s.Valid() && |ks| == s.size && id < s.size && Descending(s, ks)
    requires id > 0 ==> s.At(id, ks[id]) < s.At(id - 1, ks[id - 1])
    ensures Descending(s, ks[id := ks[id] + 1])
  {
    var next := ks[id := ks[id] + 1];
    if id > 0 {
      Gap(s, id - 1, ks[id], ks[id - 1]);
    }
    AtStep(s.ix, s.Depth(id), ks[id]);
    forall i | 0 <= i < s.size - 1
      ensures s.At(i + 1, next[i + 1]) <= s.At(i, next[i])
    {
      assert s.At(i + 1, ks[i + 1]) <= s.At(i, ks[i]);
    }
  }

  lemma Descended(s: Setup, id: nat, levels: seq<Level>, states: seq<SkipState>, ks: seq<nat>, ptr: nat, state: SkipState)
    requires AllGood(s, levels, states, ks) && Descending(s, ks)
    requires id + 1 < s.size && ks[id] > 0 && s.ChildOf(id, ks[id] - 1) == Ref(ptr)
    requires s.At(id, ks[id] - 1) < |s.ix.marks| && state == s.ix.marks[s.At(id, ks[id] - 1)]
    requires s.At(id + 1, ks[id + 1]) <= s.At(id, ks[id] - 1)
    ensures var k, level := (ks[id] - 1) * s.ix.skipN, levels[id + 1];
            && ks[id + 1] <= k && s.At(id + 1, k) == s.At(id, ks[id] - 1)
            && (var at := level.begin + ptr; level.pos < at && level.child.Ref? ==> at < |s.file| && s.file[at].Child?)
            && AllGood(s, levels[id + 1 := MovedToChild(s.file, level, ptr, levels[id])], states[id + 1 := state], ks[id + 1 := k])
            && Descending(s, ks[id + 1 := k])
            && s.FullState(id + 1, k, state)
  {
    var k := (ks[id] - 1) * s.ix.skipN;
    assert Good(s, id, levels[id], states[id], ks[id]);
    assert Good(s, id + 1, levels[id + 1], states[id + 1], ks[id + 1]);
    MovedGood(s, id, ks[id] - 1, levels[id], ks[id + 1], levels[id + 1], ptr, state);
    AtStep(s.ix, s.Depth(id), ks[id] - 1);
    DescendingDown(s, ks, id, k);
    hide Good, Setup.LevelOk, Setup.ShownOk, Descending, Setup.Unit, Setup.At;
    AllGoodUpdate(s, id + 1, levels, states, ks, MovedToChild(s.file, levels[id + 1], ptr, levels[id]), state, k);
  }

  /** Entries still unread over all levels; every turn of the walk uses one up. */
  ghost function Unread(s: Setup, ks: seq<nat>): nat
    requires s.Valid()
  {
    if ks == [] then 0
    else (if ks[0] <= |s.ix.marks| then |s.ix.marks| - ks[0] else 0) + Unread(s, ks[1..])
  }

  lemma {:induction false} UnreadShrinks(s: Setup, before: seq<nat>, after: seq<nat>, id: nat)
    requires s.Valid() && id < |before|
    requires Unmoved(before, after)
    requires before[id] < after[id] <= |s.ix.marks|
    ensures Unread(s, after) < Unread(s, before)
  {
    if id > 0 {
      UnreadShrinks(s, before[1..], after[1..], id - 1);
    } else {
      UnreadGrowsNot(s, before[1..], after[1..]);
    }
  }

  lemma {:induction false} UnreadGrowsNot(s: Setup, before: seq<nat>, after: seq<nat>)
    requires s.Valid()
    requires Unmoved(before, after)
    ensures Unread(s, after) <= Unread(s, before)
  {
    if before != [] {
      UnreadGrowsNot(s, before[1..], after[1..]);
    }
  }

  /** A freshly loaded level stands at the start of the stream written for it. */
  ghost predicate Loaded(file: seq<Token>, written: seq<seq<Token>>, i: nat, level: Level, left: nat, skip0: nat, skipN: nat)
    requires i < |written| && 1 <= skipN
  {
    && level == Level(level.begin, level.begin, if i == 0 then Undefined else Ref(0), left, skip0 * Power(skipN, i))
    && level.begin + |written[i]| <= |file| && file[level.begin..level.begin + |written[i]|] == written[i]
  }

  ghost predicate LoadedLevels(file: seq<Token>, written: seq<seq<Token>>, levels: seq<Level>, left: nat, skip0: nat, skipN: nat)
  {
    && |levels| == |written| && 1 <= skipN
    && forall id :: 0 <= id < |levels| ==> Loaded(file, written, |written| - 1 - id, levels[id], left, skip0, skipN)
  }

  lemma NextLoaded(file: seq<Token>, written: seq<seq<Token>>, n: nat, pos: nat)
    requires 1 <= n <= |written|
    requires var t := LevelsTokens(written, n); pos + |t| <= |file| && file[pos..pos + |t|] == t
    ensures file[pos] == LevelLength(|written[n - 1]|)
    ensures pos + 1 + |written[n - 1]| <= |file| && file[pos + 1..pos + 1 + |written[n - 1]|] == written[n - 1]
    ensures var next, rest := pos + 1 + |written[n - 1]|, LevelsTokens(written, n - 1);
            next + |rest| <= |file| && file[next..next + |rest|] == rest
  {
    var w, rest := written[n - 1], LevelsTokens(written, n - 1);
    SplitAt(file, pos, [LevelLength(|w|)], w + rest);
    SplitAt(file, pos + 1, w, rest);
    assert [LevelLength(|w|)] + w + rest == [LevelLength(|w|)] + (w + rest);
    assert file[pos..pos + 1][0] == file[pos];
  }

  /** A stretch of a file that is two pieces holds each of them. */
  lemma SplitAt(file: seq<Token>, pos: nat, a: seq<Token>, b: seq<Token>)
    requires pos + |a + b| <= |file| && file[pos..pos + |a + b|] == a + b
    ensures file[pos..pos + |a|] == a && file[pos + |a|..pos + |a| + |b|] == b
  {
    var t := a + b;
    assert t[..|a|] == a && t[|a|..] == b;
    assert file[pos..pos + |t|][..|a|] == file[pos..pos + |a|];
    assert file[pos..pos + |t|][|a|..] == file[pos + |a|..pos + |t|];
  }

  lemma PowerDown(a: nat, b: nat, e: nat)
    requires 1 <= b && 1 <= e
    ensures a * Power(b, e) / b == a * Power(b, e - 1)
  {
    assert a * (b * Power(b, e - 1)) == (a * Power(b, e - 1)) * b;
    MultipleOf(a * Power(b, e - 1), b);
  }

  lemma InitGood(s: Setup, written: seq<seq<Token>>, levels: seq<Level>, states: seq<SkipState>, ks: seq<nat>)
    requires 1 <= s.size && Complete(s.ix, written, s.size) && |written| == s.size
    requires LoadedLevels(s.file, written, levels, s.ix.count, s.ix.skip0, s.ix.skipN)
    requires |states| == |ks| == s.size && forall id :: 0 <= id < s.size ==> states[id].doc == INVALID && ks[id] == 0
    ensures AllGood(s, levels, states, ks)
  {
    hide Good;
    forall id | 0 <= id < s.size
      ensures Good(s, id, levels[id], states[id], ks[id])
    {
      LoadedGood(s, written, id, levels[id], states[id]);
    }
  }

  lemma InitOrder(s: Setup, ks: seq<nat>)
    requires s.Valid() && |ks| == s.size && forall id :: 0 <= id < s.size ==> ks[id] == 0
    ensures Descending(s, ks) && NestedAbove(s, ks, s.size)
    ensures forall id :: 0 <= id < s.size ==> s.At(id, ks[id]) == 0
  {
    forall id | 0 <= id < s.size
      ensures s.At(id, ks[id]) == 0
    {
      AtStep(s.ix, s.Depth(id), 0);
    }
  }

  lemma LoadedGood(s: Setup, written: seq<seq<Token>>, id: nat, level: Level, state: SkipState)
    requires 1 <= s.size && Complete(s.ix, written, s.size) && |written| == s.size && id < s.size
    requires Loaded(s.file, written, s.Depth(id), level, s.ix.count, s.ix.skip0, s.ix.skipN) && state.doc == INVALID
    ensures Good(s, id, level, state, 0)
  {
    var i := s.Depth(id);
    EntriesBound(s.ix, i, s.ix.Inner());
    assert HoldsAt(s.ix, written[i], i, s.ix.Inner());
    StoredFromTokens(s.ix, s.file, level.begin, i);
    AtStep(s.ix, i, 0);
    assert s.LevelOk(id, level, 0);
  }

  /** Scanning the finest level from boundary j: the last boundary whose document is less than the target. */
  ghost function Scan(marks: seq<SkipState>, target: nat, j: nat): (b: nat)
    requires j < |marks|
    ensures j <= b < |marks|
    decreases |marks| - j
  {
    if j + 1 < |marks| && marks[j + 1].doc < target then Scan(marks, target, j + 1) else j
  }

  lemma {:induction false} ScanEnds(marks: seq<SkipState>, target: nat, j: nat)
    requires j < |marks|
    ensures var b := Scan(marks, target, j); b + 1 < |marks| ==> target <= marks[b + 1].doc
    decreases |marks| - j
  {
    if j + 1 < |marks| && marks[j + 1].doc < target {
      ScanEnds(marks, target, j + 1);
    }
  }

  lemma {:induction false} ScanStops(marks: seq<SkipState>, target: nat, j: nat, b: nat)
    requires j <= b < |marks|
    requires forall i :: j < i <= b ==> marks[i].doc < target
    requires b + 1 < |marks| ==> target <= marks[b + 1].doc
    ensures Scan(marks, target, j) == b
    decreases b - j
  {
    if j < b {
      ScanStops(marks, target, j + 1, b);
    }
  }

  lemma {:induction false} ScanLess(marks: seq<SkipState>, target: nat, j: nat)
    requires j < |marks|
    ensures j < Scan(marks, target, j) ==> marks[Scan(marks, target, j)].doc < target
    decreases |marks| - j
  {
    if j + 1 < |marks| && marks[j + 1].doc < target {
      ScanLess(marks, target, j + 1);
    }
  }

  /** Without scores, leaving only dead blocks behind is scanning the finest level. */
  lemma SeekIsScan(s: Setup, before: nat, after: nat, target: nat, threshold: real)
    requires s.Valid() && !s.wand && 1 <= after <= |s.ix.marks|
    requires LessAt(s, s.size - 1, before, target, threshold) && !LessAt(s, s.size - 1, after, target, threshold)
    requires DeadRange(s, if before == 0 then 0 else before - 1, after - 1, target, threshold)
    ensures Scan(s.ix.marks, target, 0) == after - 1
  {
    forall i | 0 < i <= after - 1
      ensures s.ix.marks[i].doc < target
    {
      if i <= before {
        assert s.ix.marks[i].doc <= s.ix.marks[before].doc;
      } else {
        assert Dead(s, i - 1, target, threshold);
      }
    }
    ScanStops(s.ix.marks, target, 0, after - 1);
  }

  class SkipReader {
    const file: seq<Token>
    const skip0: nat
    const skipN: nat
    const wand: bool
    // SkipReaderBase
    var levels: seq<Level>
    var docsCount: nat
    // The reader riding on the levels
    var states: seq<SkipState>
    var scores: seq<real>
    var prev: SkipState
    var threshold: real

    ghost var setup: Setup
    ghost var ks: seq<nat>

    /** A reader without levels; walking is off until it is enabled. */
    constructor (file: seq<Token>, skip0: nat, skipN: nat, wand: bool)
      requires 1 <= skip0 && 2 <= skipN
      ensures this.file == file && this.skip0 == skip0 && this.skipN == skipN && this.wand == wand
      ensures levels == [] && states == [SkipState(EOF, 0, 0, 0)] && threshold == 0.0
    {
      this.file, this.skip0, this.skipN, this.wand := file, skip0, skipN, wand;
      levels, docsCount := [], 0;
      states, scores := [SkipState(EOF, 0, 0, 0)], [0.0];
      prev := SkipState(INVALID, 0, 0, 0);
      threshold := 0.0;
    }

    method Enable(docStart: nat, posStart: nat)
      requires |states| == 1
      modifies this`states
      ensures states == [SkipState(INVALID, docStart, old(states[0].pend), posStart)]
    {
      states := [SkipState(INVALID, docStart, states[0].pend, posStart)];
    }

    /** Loads the levels flushed at `at`, coarsest first; an empty level is an error. Without levels nothing is loaded. */
    method Prepare(at: nat, left: nat, ghost written: seq<seq<Token>>) returns (ok: bool)
      requires 1 <= skip0 && 2 <= skipN
      requires var t := [LevelCount(|written|)] + LevelsTokens(written, |written|);
               at + |t| <= |file| && file[at..at + |t|] == t
      modifies this`levels, this`docsCount
      ensures ok <==> forall i :: 0 <= i < |written| ==> written[i] != []
      ensures ok && written != [] ==> docsCount == left && |levels| == |written| && LoadedLevels(file, written, levels, left, skip0, skipN)
      ensures !ok || written == [] ==> levels == old(levels) && docsCount == old(docsCount)
    {
      hide Power, LevelsTokens;
      ghost var t := [LevelCount(|written|)] + LevelsTokens(written, |written|);
      assert file[at] == file[at..at + |t|][0] == LevelCount(|written|);
      var n: nat := file[at].levels;
      if n == 0 {
        return true;
      }
      var pos: nat := at + 1;
      assert file[pos..pos + |LevelsTokens(written, n)|] == file[at..at + |t|][1..];
      var step := skip0 * Power(skipN, n - 1);
      var loaded: seq<Level> := [];
      while n > 0
        invariant levels == old(levels) && docsCount == old(docsCount)
        invariant n + |loaded| == |written| && (n > 0 ==> step == skip0 * Power(skipN, n - 1))
        invariant n <= |written| && pos + |LevelsTokens(written, n)| <= |file| && file[pos..pos + |LevelsTokens(written, n)|] == LevelsTokens(written, n)
        invariant forall i :: n <= i < |written| ==> written[i] != []
        invariant forall id :: 0 <= id < |loaded| ==> Loaded(file, written, |written| - 1 - id, loaded[id], left, skip0, skipN)
      {
        NextLoaded(file, written, n, pos);
        var length := file[pos].length;
        if length == 0 {
          return false;
        }
        var level := Level(pos + 1, pos + 1, if n == 1 then Undefined else Ref(0), left, step);
        loaded := loaded + [level];
        pos := pos + 1 + length;
        if n > 1 {
          PowerDown(skip0, skipN, n - 1);
          step := step / skipN;
        }
        n := n - 1;
      }
      levels, docsCount, ok := loaded, left, true;
    }

    /** Makes room for one state per level; the top one keeps where the list starts. */
    method Init(n: nat, ghost ix: Index, ghost written: seq<seq<Token>>)
      requires 1 <= n == |levels| && |states| == 1 && 1 <= skip0 && 2 <= skipN
      requires Complete(ix, written, n) && n == |written|
      requires ix.skip0 == skip0 && ix.skipN == skipN && states[0] == ix.marks[0]
      requires LoadedLevels(file, written, levels, ix.count, skip0, skipN)
      modifies this`states, this`scores, this`setup, this`ks
      ensures Ready() && setup.ix == ix && (forall id :: 0 <= id < |ks| ==> ks[id] == 0)
      ensures |states| == n && forall id :: 0 <= id < n ==> states[id].doc == INVALID
    {
      states := states + seq(n - 1, i => SkipState(INVALID, 0, 0, 0));
      scores := seq(n, i => 0.0);
      setup := Setup(ix, file, n, wand);
      ks := seq(n, i => 0);
      InitGood(setup, written, levels, states, ks);
      InitOrder(setup, ks);
    }

    /** What holds at every point of a walk. */
    ghost predicate Basics()
      reads this
    {
      && setup.Valid()
      && setup.file == file && setup.wand == wand
      && setup.ix.skip0 == skip0 && setup.ix.skipN == skipN
      && |levels| == |states| == |scores| == |ks| == setup.size
      && AllGood(setup, levels, states, ks)
      && Descending(setup, ks)
    }

    /** What holds between two walks. */
    ghost predicate Ready()
      reads this
    {
      && Basics()
      && ScoredBut(setup, scores, ks, setup.size)
      && NestedAbove(setup, ks, setup.size)
      && setup.FullState(0, ks[0], states[0])
      && ((forall id :: 0 <= id < setup.size ==> ks[id] == 0) || (forall id :: 0 <= id < setup.size ==> ks[id] > 0))
    }

    ghost function Leaf(): nat
      requires Basics()
      reads this
    {
      setup.size - 1
    }

    /** Blocks that lie before the one the finest level stands in. */
    ghost function Passed(): nat
      requires Basics()
      reads this
    {
      if ks[Leaf()] == 0 then 0 else ks[Leaf()] - 1
    }

    predicate IsLess(id: nat, target: nat)
      requires id < |states| == |scores|
      reads this`states, this`scores, this`threshold
    {
      states[id].doc < target || (wand && scores[id] <= threshold)
    }

    /** From now on entries whose bound is not above `arg` are passed over. */
    method SetThreshold(arg: real)
      requires Ready()
      modifies this`threshold
      ensures Ready() && threshold == arg && Passed() == old(Passed())
    {
      threshold := arg;
    }

    /** The block state has been used to place the streams. */
    method Consume()
      requires Ready()
      modifies this`prev
      ensures Ready() && prev == old(prev).(docPtr := 0) && Passed() == old(Passed())
    {
      prev := prev.(docPtr := 0);
    }

    /** Takes the next entry of a level; the state before it is kept in `prev`. */
    method Read(id: nat)
      requires id < |levels| == |states| == |scores|
      requires levels[id].pos < |file| && file[levels[id].pos].Skip?
      modifies this`states, this`scores, this`prev, this`levels
      ensures prev == old(states[id])
      ensures states == old(states)[id := Apply(prev, file[old(levels[id].pos)].entry)]
      ensures scores == if wand then old(scores)[id := file[old(levels[id].pos)].entry.bound] else old(scores)
      ensures levels == old(levels)[id := old(levels[id]).(pos := old(levels[id].pos) + 1)]
    {
      prev := states[id];
      var entry := file[levels[id].pos].entry;
      levels := levels[id := levels[id].(pos := levels[id].pos + 1)];
      states := states[id := SkipState(entry.doc, prev.docPtr + entry.docDelta, entry.pend, prev.posPtr + entry.posDelta)];
      if wand {
        scores := scores[id := entry.bound];
      }
    }

    /** The stream of a level is exhausted. */
    method Seal(id: nat)
      requires id < |states| == |scores|
      modifies this`states, this`scores, this`prev
      ensures prev == old(states[id])
      ensures states == old(states)[id := old(states[id]).(doc := EOF)]
      ensures scores == if wand then old(scores)[id := SCORE_MAX] else old(scores)
    {
      prev := states[id];
      states := states[id := states[id].(doc := EOF)];
      if wand {
        scores := scores[id := SCORE_MAX];
      }
    }

    /** Moves to the more granular level. */
    method MoveDown(id: nat)
      requires id < |states|
      modifies this`states
      ensures states == old(states)[id := prev]
    {
      states := states[id := prev];
    }

    /** Climbs while a finer level has caught up with the next entry of a coarser one. */
    method AdjustLevel(id: nat, ghost target: nat, ghost from: nat) returns (r: nat)
      requires OnWalk(id, target, from) && id < setup.size && MIN <= target
      ensures OnWalk(r, target, from) && r <= id
      ensures |ks| == setup.size && setup.Valid()
      ensures r > 0 ==> setup.At(r, ks[r]) < setup.At(r - 1, ks[r - 1])
    {
      hide *;
      OnWalkFacts(id, target, from);
      r := id;
      if wand {
        while r > 0 && states[r].doc >= states[r - 1].doc
          invariant r <= id && setup.At(r, ks[r]) == setup.At(id, ks[id])
          invariant r < id ==> setup.At(id, ks[id]) == setup.At(id - 1, ks[id - 1])
        {
          Caught(r);
          r := r - 1;
        }
        if r > 0 {
          Caught(r);
        }
      }
      Climbed(id, r, target, from);
    }

    /** What a walk above the finest level's end says, without its definition. */
    lemma OnWalkFacts(id: nat, target: nat, from: nat)
      requires OnWalk(id, target, from) && id < setup.size
      ensures setup.Valid() && 1 <= setup.ix.skipN == skipN && Basics()
      ensures |levels| == |states| == |scores| == |ks| == setup.size
      ensures setup.At(id, ks[id]) < |setup.ix.marks| && setup.FullState(id, ks[id], states[id])
      ensures !wand && id > 0 ==> setup.At(id, ks[id]) < setup.At(id - 1, ks[id - 1])
      ensures ks[id] < |setup.ix.marks| && (id == setup.size - 1 ==> setup.At(id, ks[id]) == ks[id])
      ensures levels[id].child == setup.ChildOf(id, ks[id])
      ensures levels[id].child.Undefined? <==> id == setup.size - 1
      ensures id + 1 < setup.size ==> setup.At(id + 1, ks[id + 1]) <= setup.At(id, ks[id])
      ensures Walk(setup, ks, id, target, threshold, from) && ScoredBut(setup, scores, ks, id)
    {
      assert Good(setup, id, levels[id], states[id], ks[id]);
      AtOrder(setup.ix, setup.Depth(id), ks[id], ks[id]);
    }

    /** What the finest level shows: the end and the bound of the block it stands in. */
    lemma LeafShows()
      requires Ready()
      ensures |states| == |scores| == |ks| == setup.size && 1 <= setup.size && setup.Valid()
      ensures ks[Leaf()] == 0 ==> states[Leaf()].doc == INVALID
      ensures ks[Leaf()] > 0 ==> Passed() == ks[Leaf()] - 1 < |setup.ix.marks|
      ensures ks[Leaf()] > 0 && Passed() + 1 < |setup.ix.marks| ==> states[Leaf()].doc == setup.ix.marks[Passed() + 1].doc
      ensures wand && ks[Leaf()] > 0 && Passed() + 1 < |setup.ix.marks| ==>
                scores[Leaf()] == setup.ix.bound(0, Passed() + 1) && Covers(setup.ix, 0, Passed() + 1, Passed())
      ensures ks[Leaf()] > 0 && Passed() + 1 >= |setup.ix.marks| ==> states[Leaf()].doc == EOF && (wand ==> scores[Leaf()] == SCORE_MAX)
    {
      assert Good(setup, Leaf(), levels[Leaf()], states[Leaf()], ks[Leaf()]);
      assert setup.Scored(Leaf(), ks[Leaf()], scores[Leaf()]);
    }

    lemma ReadyFacts()
      requires Ready()
      ensures Basics() && Leaf() == setup.size - 1
      ensures |levels| == |states| == |scores| == |ks| == setup.size && 1 <= setup.size
    {}

    lemma BasicsFacts()
      requires Basics()
      ensures setup.Valid() && 1 <= setup.ix.skipN == skipN
      ensures |levels| == |states| == |scores| == |ks| == setup.size
    {}

    lemma OnWalkAgain(id: nat, target: nat, from: nat)
      requires Basics() && id < setup.size && Walk(setup, ks, id, target, threshold, from)
      requires ScoredBut(setup, scores, ks, id) && setup.FullState(id, ks[id], states[id])
      requires (id > 0 ==> setup.At(id, ks[id]) < setup.At(id - 1, ks[id - 1])) || ScoredBut(setup, scores, ks, setup.size)
      ensures OnWalk(id, target, from)
    {}

    lemma OnWalkOver(target: nat, from: nat)
      requires Basics() && Walk(setup, ks, setup.size, target, threshold, from)
      requires ScoredBut(setup, scores, ks, setup.size)
      requires prev == setup.ix.marks[ks[setup.size - 1] - 1]
      ensures OnWalk(setup.size, target, from)
    {}

    lemma Climbed(id: nat, r: nat, target: nat, from: nat)
      requires OnWalk(id, target, from) && id < setup.size && r <= id && MIN <= target
      requires setup.At(r, ks[r]) == setup.At(id, ks[id])
      requires r > 0 ==> setup.At(r, ks[r]) < setup.At(r - 1, ks[r - 1])
      requires r < id ==> setup.At(id, ks[id]) == setup.At(id - 1, ks[id - 1])
      ensures OnWalk(r, target, from)
    {
      WalkClimb(setup, ks, id, r, target, threshold, from);
      assert Good(setup, r, levels[r], states[r], ks[r]);
      if r < id {
        ScoredWeaken(setup, scores, ks, r, 0);
      }
    }

    lemma Caught(r: nat)
      requires Basics() && 0 < r < setup.size && setup.At(r, ks[r]) < |setup.ix.marks|
      ensures setup.At(r, ks[r]) <= setup.At(r - 1, ks[r - 1])
      ensures states[r].doc >= states[r - 1].doc <==> setup.At(r, ks[r]) == setup.At(r - 1, ks[r - 1])
    {
      assert setup.At((r - 1) + 1, ks[(r - 1) + 1]) <= setup.At(r - 1, ks[r - 1]);
      assert Good(setup, r, levels[r], states[r], ks[r]);
      assert Good(setup, r - 1, levels[r - 1], states[r - 1], ks[r - 1]);
    }

    /** One step on a level: the next entry, or the end of its stream. */
    method Advance(id: nat) returns (more: bool)
      requires Basics() && id < setup.size && setup.At(id, ks[id]) < |setup.ix.marks|
      requires setup.FullState(id, ks[id], states[id])
      requires id > 0 ==> setup.At(id, ks[id]) < setup.At(id - 1, ks[id - 1])
      modifies this`states, this`scores, this`prev, this`levels, this`ks
      ensures Basics() && ks == old(ks)[id := old(ks[id]) + 1]
      ensures prev == old(states[id])
      ensures more <==> setup.At(id, ks[id]) < |setup.ix.marks|
      ensures scores == old(scores)[id := scores[id]] && setup.Scored(id, ks[id], scores[id])
      ensures setup.FullState(id, ks[id], states[id])
      ensures forall j :: 0 <= j < setup.size && j != id ==> states[j] == old(states[j])
    {
      Advanced(setup, id, levels, states, scores[id], ks);
      hide Good, AllGood, Setup.LevelOk, Setup.ShownOk, Setup.FullState, Setup.Scored, Descending, Setup.Unit, Setup.At;
      more := StepLevel(id);
      ks := ks[id := ks[id] + 1];
    }

    method StepLevel(id: nat) returns (more: bool)
      requires setup.file == file && setup.wand == wand
      requires id < |levels| == |states| == |scores|
      requires CanStep(setup, levels[id])
      modifies this`states, this`scores, this`prev, this`levels
      ensures more <==> 0 < old(levels[id].left) - old(levels[id].step)
      ensures prev == old(states[id])
      ensures levels == old(levels)[id := StepLevelOf(setup, old(levels[id]))]
      ensures states == old(states)[id := StepStateOf(setup, old(levels[id]), old(states[id]))]
      ensures scores == old(scores)[id := StepScoreOf(setup, old(levels[id]), old(scores[id]))]
    {
      levels := levels[id := levels[id].(left := levels[id].left - levels[id].step)];
      more := levels[id].left > 0;
      if more {
        Read(id);
        if levels[id].child != Undefined {
          levels := levels[id := levels[id].(child := Ref(file[levels[id].pos].ptr), pos := levels[id].pos + 1)];
        }
      } else {
        Seal(id);
      }
    }

    /** Moves a level to the place its parent's last passed entry points at; it never moves back. */
    method SeekToChild(id: nat, ptr: nat, parent: Level)
      requires id < |levels|
      requires var at := levels[id].begin + ptr; levels[id].pos < at && levels[id].child.Ref? ==> at < |file| && file[at].Child?
      modifies this`levels
      ensures levels == old(levels)[id := MovedToChild(file, old(levels[id]), ptr, parent)]
      ensures old(levels[id].pos) <= levels[id].pos && levels[id].begin + ptr <= levels[id].pos
    {
      var at := levels[id].begin + ptr;
      if levels[id].pos < at {
        levels := levels[id := levels[id].(pos := at, left := parent.left + parent.step)];
        if levels[id].child != Undefined {
          levels := levels[id := levels[id].(child := Ref(file[at].ptr), pos := at + 1)];
        }
      }
    }

    /** From a level whose next entry is not less to the finer level, placed where the last passed entry ends. */
    method Descend(id: nat, ptr: nat)
      requires Basics() && id + 1 < setup.size && ks[id] > 0
      requires setup.ChildOf(id, ks[id] - 1) == Ref(ptr)
      requires prev == setup.ix.marks[setup.At(id, ks[id] - 1)]
      requires setup.At(id + 1, ks[id + 1]) <= setup.At(id, ks[id] - 1)
      modifies this`levels, this`states, this`ks
      ensures Basics() && ks == old(ks)[id + 1 := ks[id + 1]] && ks[id + 1] >= old(ks[id + 1])
      ensures setup.At(id + 1, ks[id + 1]) == setup.At(id, ks[id] - 1) < |setup.ix.marks|
      ensures setup.FullState(id + 1, ks[id + 1], states[id + 1])
      ensures states == old(states)[id + 1 := prev]
    {
      ghost var k := (ks[id] - 1) * skipN;
      Descended(setup, id, levels, states, ks, ptr, prev);
      hide Good, AllGood, Setup.LevelOk, Setup.ShownOk, Descending, Setup.Unit, Setup.At;
      SeekToChild(id + 1, ptr, levels[id]);
      MoveDown(id + 1);
      ks := ks[id + 1 := k];
    }

    lemma LessIsLessAt(id: nat, target: nat)
      requires Basics() && id < setup.size && setup.Scored(id, ks[id], scores[id])
      requires MIN <= target <= EOF && threshold < SCORE_MAX
      ensures IsLess(id, target) <==> LessAt(setup, id, ks[id], target, threshold)
    {
      assert Good(setup, id, levels[id], states[id], ks[id]);
    }

    lemma ReadyLeaf(target: nat)
      requires Ready() && MIN <= target <= EOF && threshold < SCORE_MAX && IsLess(Leaf(), target)
      ensures LessAt(setup, Leaf(), ks[Leaf()], target, threshold)
      ensures Passed() == if ks[Leaf()] == 0 then 0 else ks[Leaf()] - 1
    {
      assert setup.Scored(Leaf(), ks[Leaf()], scores[Leaf()]);
      LessIsLessAt(Leaf(), target);
    }

    lemma ScanAgrees(before: seq<nat>, target: nat, from: nat)
      requires Basics() && !wand && |before| == setup.size && ks[Leaf()] > 0 && Passed() < |setup.ix.marks|
      requires MIN <= target <= EOF && threshold < SCORE_MAX
      requires LessAt(setup, Leaf(), before[Leaf()], target, threshold) && !IsLess(Leaf(), target)
      requires from == if before[Leaf()] == 0 then 0 else before[Leaf()] - 1
      requires DeadRange(setup, from, Passed(), target, threshold)
      ensures Passed() == Scan(setup.ix.marks, target, 0)
    {
      LessIsLessAt(Leaf(), target);
      SeekIsScan(setup, before[Leaf()], ks[Leaf()], target, threshold);
    }

    /** A walk that was needed and is over has moved the finest level. */
    lemma LeafMoved(before: seq<nat>, target: nat)
      requires Ready() && |before| == setup.size && Unmoved(before, ks)
      requires MIN <= target <= EOF && threshold < SCORE_MAX
      requires LessAt(setup, Leaf(), before[Leaf()], target, threshold) && !IsLess(Leaf(), target)
      ensures before[Leaf()] < ks[Leaf()]
    {
      LessIsLessAt(Leaf(), target);
    }

    /** The walk starts at the topmost level that shows less. */
    lemma Started(id: nat, target: nat)
      requires Ready() && id < setup.size && MIN <= target <= EOF && threshold < SCORE_MAX
      requires IsLess(id, target) && forall j :: 0 <= j < id ==> !IsLess(j, target)
      ensures OnWalk(id, target, Passed())
    {
      forall j | 0 <= j <= id
        ensures IsLess(j, target) <==> LessAt(setup, j, ks[j], target, threshold)
      {
        LessIsLessAt(j, target);
      }
      WalkStart(setup, ks, id, target, threshold, Passed());
      assert Good(setup, id, levels[id], states[id], ks[id]);
      ScoredWeaken(setup, scores, ks, id, 0);
    }

    /** A walk past the finest level leaves the reader ready for the next one. */
    lemma Finished(target: nat, from: nat)
      requires OnWalk(setup.size, target, from) && MIN <= target <= EOF && threshold < SCORE_MAX
      ensures Ready() && Leaf() == setup.size - 1 && !IsLess(Leaf(), target)
      ensures ks[Leaf()] > 0 && Passed() < |setup.ix.marks| && prev == setup.ix.marks[Passed()]
      ensures levels[Leaf()].left + levels[Leaf()].step == setup.ix.count - Passed() * skip0 > 0
      ensures DeadRange(setup, from, Passed(), target, threshold)
    {
      FinishedLeaf(target, from);
      forall j | 0 <= j < setup.size
        ensures ks[j] > 0
      {
        NotLessMoved(j, target);
      }
      hide AllGood, Good, Setup.LevelOk, LessAt, Descending, DeadRange, Setup.At, Setup.Unit, IsLess, Setup.Valid, Index.Valid;
      StateIsFull(0);
    }

    lemma StateIsFull(j: nat)
      requires Basics() && j < setup.size && ks[j] > 0
      ensures setup.FullState(j, ks[j], states[j])
    {
      assert Good(setup, j, levels[j], states[j], ks[j]);
    }

    lemma NotLessMoved(j: nat, target: nat)
      requires Basics() && j < setup.size && !LessAt(setup, j, ks[j], target, threshold) && MIN <= target
      ensures ks[j] > 0
    {
      AtStep(setup.ix, setup.Depth(j), 0);
    }

    lemma FinishedLeaf(target: nat, from: nat)
      requires OnWalk(setup.size, target, from) && MIN <= target <= EOF && threshold < SCORE_MAX
      ensures Leaf() == setup.size - 1 && !IsLess(Leaf(), target)
      ensures ks[Leaf()] > 0 && Passed() < |setup.ix.marks|
      ensures levels[Leaf()].left + levels[Leaf()].step == setup.ix.count - Passed() * skip0 > 0
    {
      var leaf := Leaf();
      assert Good(setup, leaf, levels[leaf], states[leaf], ks[leaf]);
      assert setup.Scored(leaf, ks[leaf], scores[leaf]);
      LessIsLessAt(leaf, target);
      LeftPositive(setup.ix, Passed());
      Distribute(Passed(), 1, skip0);
    }

    /** Some level shows less than the target, so that a walk starts. */
    ghost predicate Due(target: nat)
      requires |states| == |scores|
      reads this`states, this`scores, this`threshold
    {
      exists id :: 0 <= id < |states| && IsLess(id, target)
    }

    /** Without scores only the finest level decides: no coarser one shows a smaller document. */
    lemma LeafDecides(target: nat)
      requires Ready() && MIN <= target <= EOF && threshold < SCORE_MAX
      ensures IsLess(Leaf(), target) ==> Due(target)
      ensures !wand && !IsLess(Leaf(), target) ==> !Due(target)
    {
      if !wand && !IsLess(Leaf(), target) {
        forall id | 0 <= id < setup.size
          ensures !IsLess(id, target)
        {
          LeafLowest(setup, ks, id);
          LessIsLessAt(Leaf(), target);
          LessIsLessAt(id, target);
        }
      }
    }

    /** A reader that stays has a current block, which ends at or after the target. */
    lemma Settled(target: nat)
      requires Ready() && MIN <= target <= EOF && threshold < SCORE_MAX && !IsLess(Leaf(), target)
      ensures ks[Leaf()] > 0 && Passed() < |setup.ix.marks|
      ensures levels[Leaf()].left + levels[Leaf()].step == setup.ix.count - Passed() * skip0 > 0
    {
      var leaf := Leaf();
      assert Good(setup, leaf, levels[leaf], states[leaf], ks[leaf]);
      LessIsLessAt(leaf, target);
      NotLessMoved(leaf, target);
      AtOrder(setup.ix, setup.Depth(leaf), ks[leaf] - 1, ks[leaf]);
      LeftPositive(setup.ix, Passed());
      Distribute(Passed(), 1, skip0);
    }

    lemma StaysFacts(target: nat)
      requires Ready()
      ensures DeadRange(setup, Passed(), Passed(), target, threshold) && Unmoved(ks, ks)
    {}

    /** Moves to the first block that may hold a document not less than `target`
        (with a high enough score), and tells how many documents are left from there.
        Nothing moves if no level shows less. */
    method Seek(target: nat) returns (left: int)
      requires Ready() && MIN <= target <= EOF && threshold < SCORE_MAX
      modifies this`levels, this`states, this`scores, this`prev, this`ks
      ensures Ready() && Unmoved(old(ks), ks)
      ensures !IsLess(Leaf(), target)
      ensures ks[Leaf()] > 0 && Passed() < |setup.ix.marks|
      ensures left == setup.ix.count - Passed() * skip0 > 0
      ensures DeadRange(setup, old(Passed()), Passed(), target, threshold)
      ensures old(Due(target)) ==> prev == setup.ix.marks[Passed()]
      ensures !old(Due(target)) ==> unchanged(this)
      ensures old(IsLess(setup.size - 1, target)) ==> old(Due(target)) && old(ks[Leaf()]) < ks[Leaf()]
      ensures !wand && old(IsLess(setup.size - 1, target)) ==> Passed() == Scan(setup.ix.marks, target, 0)
      ensures !wand && !old(IsLess(setup.size - 1, target)) ==> unchanged(this)
    {
      hide *;
      ReadyFacts();
      LeafDecides(target);
      ghost var from, before, less := Passed(), ks, IsLess(Leaf(), target);
      var id := TopLess(target);
      if id < |levels| {
        if less {
          ReadyLeaf(target);
        }
        Started(id, target);
        id := WalkAll(id, target, from);
        Finished(target, from);
        ReadyFacts();
        if less {
          LeafMoved(before, target);
          if !wand {
            ScanAgrees(before, target, from);
          }
        }
      } else {
        Settled(target);
        StaysFacts(target);
      }
      left := levels[|levels| - 1].left + levels[|levels| - 1].step;
    }

    /** The highest level with a value less than the target. */
    method TopLess(target: nat) returns (id: nat)
      requires 0 < |states| == |scores|
      ensures id <= |states| && (id < |states| ==> IsLess(id, target)) && forall j :: 0 <= j < id ==> !IsLess(j, target)
      ensures id < |states| <==> Due(target)
    {
      id := 0;
      while id != |states| && !IsLess(id, target)
        invariant id <= |states|
        invariant forall j :: 0 <= j < id ==> !IsLess(j, target)
        decreases |states| - id
      {
        id := id + 1;
      }
    }

    method WalkAll(start: nat, target: nat, ghost from: nat) returns (id: nat)
      requires OnWalk(start, target, from) && start < setup.size && MIN <= target <= EOF && threshold < SCORE_MAX
      modifies this`levels, this`states, this`scores, this`prev, this`ks
      ensures id == setup.size && OnWalk(setup.size, target, from) && Unmoved(old(ks), ks)
    {
      hide *;
      OnWalkFacts(start, target, from);
      UnmovedStep(ks, start, ks[start]);
      assert ks == ks[start := ks[start]];
      id := start;
      while id != |levels|
        invariant OnWalk(id, target, from) && Unmoved(old(ks), ks) && id <= |levels| == setup.size
        decreases Unread(setup, ks)
      {
        id := AdjustLevel(id, target, from);
        ghost var before := ks;
        id := Turn(id, target, from);
        UnmovedTrans(old(ks), before, ks);
      }
    }

    /** The state of a walk at level `id`. */
    ghost predicate OnWalk(id: nat, target: nat, from: nat)
      reads this
    {
      && Basics() && id <= setup.size
      && Walk(setup, ks, id, target, threshold, from) && ScoredAt(id)
      && (id < setup.size ==> setup.FullState(id, ks[id], states[id]))
      && (id == setup.size ==> prev == setup.ix.marks[ks[setup.size - 1] - 1])
    }

    /** One turn of the walk, from a level whose next entry lies before that of its parent. */
    method Turn(id: nat, target: nat, ghost from: nat) returns (next: nat)
      requires OnWalk(id, target, from) && id < setup.size && MIN <= target <= EOF && threshold < SCORE_MAX
      requires id > 0 ==> setup.At(id, ks[id]) < setup.At(id - 1, ks[id - 1])
      modifies this`levels, this`states, this`scores, this`prev, this`ks
      ensures OnWalk(next, target, from) && next <= setup.size == |levels|
      ensures Unmoved(old(ks), ks) && Unread(setup, ks) < old(Unread(setup, ks))
    {
      hide *;
      OnWalkFacts(id, target, from);
      var child := levels[id].child;
      ghost var k := ks[id];
      var more := Advance(id);
      BasicsFacts();
      UnreadShrinks(setup, old(ks), ks, id);
      ScoredStep(setup, old(scores), old(ks), id, scores[id]);
      LessIsLessAt(id, target);
      UnmovedStep(old(ks), id, k + 1);
      if more && IsLess(id, target) {
        WalkStay(setup, old(ks), id, target, threshold, from);
        ScoredWeaken(setup, scores, ks, id, 0);
        OnWalkAgain(id, target, from);
        return id;
      }
      if !more {
        SealedNotLess(setup, id, ks[id], target, threshold);
      }
      next := id + 1;
      if child != Undefined {
        ghost var stepped := ks;
        Descend(id, child.ptr);
        BasicsFacts();
        UnmovedStep(stepped, next, ks[next]);
        UnmovedTrans(old(ks), stepped, ks);
        ScoredWeaken(setup, scores, stepped, next, ks[next]);
        UnreadGrowsNot(setup, stepped, ks);
        WalkDown(setup, old(ks), id, ks[next], target, threshold, from);
        OnWalkAgain(next, target, from);
      } else {
        WalkEnd(setup, old(ks), id, target, threshold, from);
        OnWalkOver(target, from);
      }
    }

    /** The bound of level `id` may be stale right after moving down to it. */
    ghost predicate ScoredAt(id: nat)
      requires setup.Valid() && |scores| == |ks| == setup.size
      reads this
    {
      && ScoredBut(setup, scores, ks, id)
      && (0 < id < setup.size && setup.At(id, ks[id]) == setup.At(id - 1, ks[id - 1]) ==> ScoredBut(setup, scores, ks, setup.size))
    }
  }
}
