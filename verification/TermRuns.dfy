/** Whole runs over the terms of a field: write them all, encode their metadata in blocks, decode it, and read every term. */
module TermRuns {
  import opened Limits
  import opened SkipFormat
  import opened SkipWriting
  import opened PostingsFormat
  import opened Positions
  import opened DocBlocks
  import opened PostingsWriting
  import opened TermCodec
  import opened TermCodecRuns
  import opened PostingsRuns

  /** Documents without frequencies have none; others have at least one occurrence each. */
  ghost predicate Counted(p: seq<Posting>, f: Format) {
    forall i :: 0 <= i < |p| ==> if f.freq then p[i].freq >= 1 else p[i].freq == 0
  }

  ghost predicate ValidTerm(p: seq<Posting>, f: Format, total: nat) {
    1 <= |p| <= total && ValidList(p, f) && Counted(p, f)
  }

  function FeaturesOf(f: Format): Features { Features(f.freq, f.pos, false, false) }

  /** Metadata as it is encoded; where payloads would start is not part of it. */
  function StateOf(m: TermMeta): State { State(m.docsCount, m.freq, m.docStart, m.posStart, m.posEnd, 0, m.singleDoc, m.skipStart) }

  /** Metadata as a reader uses it. */
  function MetaOf(v: Visible): TermMeta { TermMeta(v.docsCount, v.freq, v.docStart, v.posStart, v.posEnd, v.skipStart, v.singleDoc) }

  /** The terms lie in the files, each behind the one before. */
  ghost predicate AllStored(lists: seq<seq<Posting>>, f: Format, metas: seq<TermMeta>, file: seq<Token>, posFile: seq<PosToken>, terms: seq<Term>) {
    && |terms| == |metas| == |lists|
    && (forall i :: 0 <= i < |terms| ==> StoredTerm(lists[i], f, metas[i], file, posFile, terms[i]))
    && forall i, j :: 0 <= i < j < |metas| ==> metas[i].docStart <= metas[j].docStart && metas[i].posStart <= metas[j].posStart
  }

  ghost predicate StoredTerm(p: seq<Posting>, f: Format, meta: TermMeta, file: seq<Token>, posFile: seq<PosToken>, t: Term) {
    && t.Valid() && t.p == p && t.f == f && t.meta == meta && t.file == file && t.posFile == posFile
    && MetaIs(p, f, meta, meta.docStart, meta.posStart) && meta.docStart <= |file| && meta.posStart <= |posFile|
    && (!f.pos ==> posFile == [])
  }

  /** A term stays in place when the files grow. */
  lemma TermGrown(t: Term, file: seq<Token>, posFile: seq<PosToken>)
    requires t.Valid() && t.file <= file && t.posFile <= posFile
    ensures t.(file := file, posFile := posFile).Valid()
  {
    hide Term.BlocksStored, Term.TailStored, Term.SkipStored, SortedDocs, ValidPositions, PosStored, PosStream;
    if |t.p| > 1 {
      BlocksGrown(t, file, posFile);
    }
    if BLOCK < |t.p| {
      SkipGrown(t, file, posFile);
    }
    if t.f.pos {
      PosGrown(t.posFile, posFile, t.meta.posStart, t.Stream(|t.p|));
    }
  }

  lemma Part<T>(a: seq<T>, b: seq<T>, i: nat, j: nat)
    requires a <= b && i <= j <= |a|
    ensures b[i..j] == a[i..j]
  {}

  lemma BlocksGrown(t: Term, file: seq<Token>, posFile: seq<PosToken>)
    requires SortedDocs(t.p) && t.BlocksStored() && t.TailStored() && t.file <= file
    ensures t.(file := file, posFile := posFile).BlocksStored() && t.(file := file, posFile := posFile).TailStored()
  {
    hide SortedDocs, Tail;
    var at := t.TailPos();
    Part(t.file, file, at, at + |Tail(t.p, t.f, |t.p| / BLOCK * BLOCK)|);
    forall b | 0 <= b < |t.p| / BLOCK
      ensures t.(file := file, posFile := posFile).BlockStored(b)
    {
      assert t.BlockStored(b);
    }
  }

  lemma SkipGrown(t: Term, file: seq<Token>, posFile: seq<PosToken>)
    requires SortedDocs(t.p) && BLOCK < |t.p| && t.SkipStored() && t.file <= file
    ensures t.(file := file, posFile := posFile).SkipStored()
  {
    hide SortedDocs, Complete, LevelsTokens, IndexOf;
    var at := t.meta.docStart + t.meta.skipStart + if t.f.wand then 1 else 0;
    Part(t.file, file, at, at + |[LevelCount(|t.written|)] + LevelsTokens(t.written, |t.written|)|);
  }

  lemma PosGrown(file: seq<PosToken>, grown: seq<PosToken>, start: nat, d: seq<int>)
    requires PosStored(file, start, d) && file <= grown
    ensures PosStored(grown, start, d)
  {
    hide PosImage;
    Part(file, grown, start, start + |PosImage(d)|);
  }

  /** Files that have grown, and one more term behind them. */
  lemma OneMore(lists: seq<seq<Posting>>, f: Format, metas: seq<TermMeta>, file: seq<Token>, posFile: seq<PosToken>, terms: seq<Term>, t: Term)
    returns (more: seq<Term>)
    requires AllStored(lists, f, metas, file, posFile, terms) && file <= t.file && posFile <= t.posFile
    requires StoredTerm(t.p, f, t.meta, t.file, t.posFile, t) && t.meta.docStart == |file| && t.meta.posStart == |posFile|
    ensures AllStored(lists + [t.p], f, metas + [t.meta], t.file, t.posFile, more)
  {
    hide Term.Valid, MetaIs;
    var n := |terms|;
    more := seq(n, i requires 0 <= i < n => terms[i].(file := t.file, posFile := t.posFile)) + [t];
    forall i | 0 <= i <= n
      ensures StoredTerm((lists + [t.p])[i], f, (metas + [t.meta])[i], t.file, t.posFile, more[i])
    {
      if i < n {
        assert StoredTerm(lists[i], f, metas[i], file, posFile, terms[i]);
        TermGrown(terms[i], t.file, t.posFile);
      }
    }
  }

  /** Writes all terms of a field, one behind the other. */
  method WriteTerms(lists: seq<seq<Posting>>, f: Format, total: nat, blockMax: (nat, nat, nat) -> real, rootScore: real)
    returns (metas: seq<TermMeta>, file: seq<Token>, posFile: seq<PosToken>, ghost terms: seq<Term>)
    requires forall i :: 0 <= i < |lists| ==> ValidTerm(lists[i], f, total)
    ensures AllStored(lists, f, metas, file, posFile, terms)
    ensures |metas| == |lists| && forall i :: 0 <= i < |lists| ==> MetaIs(lists[i], f, metas[i], metas[i].docStart, metas[i].posStart)
  {
    hide AllStored, PostingsWriter.Fixed, Term.Valid, MetaIs, ValidTerm;
    var writer := new PostingsWriter(f, total);
    metas, terms := [], [];
    NoneStored(f);
    while |metas| < |lists|
      invariant |metas| <= |lists| && writer.Fixed() && writer.docAt == 0 && writer.posSize == 0 && (!f.pos ==> writer.posOut == [])
      invariant AllStored(lists[..|metas|], f, metas, writer.docOut, writer.posOut, terms)
    {
      var n := |metas|;
      var p, bound := lists[n], (level: nat, count: nat) => blockMax(n, level, count);
      ghost var before, posBefore := writer.docOut, writer.posOut;
      TermReady(p, f, total);
      var meta, written := writer.Write(p, bound, rootScore);
      ghost var t := Term(p, f, meta.value, writer.docOut, writer.posOut, bound, written);
      TermStored(t, before, posBefore);
      terms := OneMore(lists[..n], f, metas, before, posBefore, terms, t);
      metas := metas + [meta.value];
      assert lists[..n + 1] == lists[..n] + [p];
    }
    assert lists[..|metas|] == lists;
    file, posFile := writer.docOut, writer.posOut;
    OnePerList(lists, f, metas, file, posFile, terms);
  }

  lemma NoneStored(f: Format)
    ensures AllStored([], f, [], [], [], [])
  {}

  lemma TermReady(p: seq<Posting>, f: Format, total: nat)
    requires ValidTerm(p, f, total)
    ensures 1 <= |p| <= total && ValidPositions(p, f) && (forall i :: 0 <= i < |p| ==> p[i].doc < EOF) && Ascending(p, |p|)
  {}

  lemma TermStored(t: Term, before: seq<Token>, posBefore: seq<PosToken>)
    requires t.Valid() && MetaIs(t.p, t.f, t.meta, |before|, |posBefore|) && before <= t.file && posBefore <= t.posFile && (!t.f.pos ==> t.posFile == [])
    ensures StoredTerm(t.p, t.f, t.meta, t.file, t.posFile, t) && t.meta.docStart == |before| && t.meta.posStart == |posBefore|
  {
    hide Term.Valid;
  }

  // ------------------------------------------------------------------ metadata

  lemma {:induction false} FreqTotalBounds(p: seq<Posting>, f: Format, n: nat)
    requires Counted(p, f) && n <= |p|
    ensures if f.freq then FreqTotal(p, n) >= n else FreqTotal(p, n) == 0
  {
    if n > 0 {
      FreqTotalBounds(p, f, n - 1);
    }
  }

  /** The metadata of a term is what the encoder expects behind that of any term before it. */
  lemma MetaFollows(p: seq<Posting>, f: Format, meta: TermMeta, last: State)
    requires ValidTerm(p, f, |p|) && MetaIs(p, f, meta, meta.docStart, meta.posStart)
    requires last.docStart <= meta.docStart && last.posStart <= meta.posStart && last.payStart == 0
    ensures TermCodec.Follows(FeaturesOf(f), last, StateOf(meta))
  {
    FreqTotalBounds(p, f, |p|);
  }

  /** A block has terms in the order in which they were written, not necessarily all of them. */
  ghost predicate Picked(block: seq<nat>, n: nat) {
    (forall k :: 0 <= k < |block| ==> block[k] < n) && forall k, l :: 0 <= k < l < |block| ==> block[k] < block[l]
  }

  function States(metas: seq<TermMeta>, block: seq<nat>): (s: seq<State>)
    requires Picked(block, |metas|)
    ensures |s| == |block| && forall k :: 0 <= k < |s| ==> s[k] == StateOf(metas[block[k]])
  {
    seq(|block|, k requires 0 <= k < |block| => StateOf(metas[block[k]]))
  }

  lemma {:induction false} StatesFollow(f: Features, last: State, states: seq<State>)
    requires forall k :: 0 <= k < |states| ==> TermCodec.Follows(f, last, states[k])
    requires forall k, l :: 0 <= k < l < |states| ==> TermCodec.Follows(f, states[k], states[l])
    ensures TermCodecRuns.Block(f, last, states)
    decreases |states|
  {
    hide TermCodec.Follows;
    if states != [] {
      assert forall k :: 0 <= k < |states| - 1 ==> states[1..][k] == states[k + 1];
      StatesFollow(f, states[0], states[1..]);
    }
  }

  lemma BlockFollows(lists: seq<seq<Posting>>, f: Format, total: nat, metas: seq<TermMeta>, file: seq<Token>, posFile: seq<PosToken>, terms: seq<Term>, block: seq<nat>)
    requires AllStored(lists, f, metas, file, posFile, terms) && (forall i :: 0 <= i < |lists| ==> ValidTerm(lists[i], f, total)) && Picked(block, |lists|)
    ensures TermCodecRuns.Block(FeaturesOf(f), CLEARED, States(metas, block))
  {
    hide Term.Valid, MetaIs, TermCodec.Follows, ValidTerm;
    var states := States(metas, block);
    forall k | 0 <= k < |states|
      ensures TermCodec.Follows(FeaturesOf(f), CLEARED, states[k]) && forall l :: 0 <= l < k ==> TermCodec.Follows(FeaturesOf(f), states[l], states[k])
    {
      var i := block[k];
      assert StoredTerm(lists[i], f, metas[i], file, posFile, terms[i]);
      OwnTotal(lists[i], f, total);
      MetaFollows(lists[i], f, metas[i], CLEARED);
      forall l | 0 <= l < k
        ensures TermCodec.Follows(FeaturesOf(f), states[l], states[k])
      {
        MetaFollows(lists[i], f, metas[i], states[l]);
      }
    }
    StatesFollow(FeaturesOf(f), CLEARED, states);
  }

  lemma OwnTotal(p: seq<Posting>, f: Format, total: nat)
    requires ValidTerm(p, f, total)
    ensures ValidTerm(p, f, |p|)
  {}

  lemma MetaDecoded(p: seq<Posting>, f: Format, meta: TermMeta, decoded: State)
    requires 1 <= |p| && MetaIs(p, f, meta, meta.docStart, meta.posStart) && (!f.pos ==> meta.posStart == 0)
    requires Counted(p, f) && View(decoded, FeaturesOf(f)) == View(StateOf(meta), FeaturesOf(f))
    ensures var back := MetaOf(View(decoded, FeaturesOf(f)));
            && back == meta.(singleDoc := back.singleDoc, skipStart := back.skipStart)
            && (|p| == 1 ==> back.singleDoc == meta.singleDoc) && (BLOCK < |p| ==> back.skipStart == meta.skipStart)
  {
    FreqTotalBounds(p, f, |p|);
  }

  /** A term does not depend on metadata that it does not have. */
  lemma TermUnused(t: Term, singleDoc: nat, skipStart: nat)
    requires t.Valid() && (|t.p| == 1 ==> singleDoc == t.meta.singleDoc) && (BLOCK < |t.p| ==> skipStart == t.meta.skipStart)
    ensures t.(meta := t.meta.(singleDoc := singleDoc, skipStart := skipStart)).Valid()
  {
    hide SortedDocs, ValidPositions, PosStored, PosStream, Term.BlocksStored, Term.TailStored, Term.SkipStored;
    if |t.p| > 1 {
      BlocksUnused(t, singleDoc, skipStart);
    }
    if BLOCK < |t.p| {
      assert t.meta.(singleDoc := singleDoc, skipStart := skipStart) == t.meta.(singleDoc := singleDoc);
      SkipUnused(t, singleDoc);
    }
  }

  lemma BlocksUnused(t: Term, singleDoc: nat, skipStart: nat)
    requires SortedDocs(t.p) && t.BlocksStored() && t.TailStored()
    ensures var u := t.(meta := t.meta.(singleDoc := singleDoc, skipStart := skipStart)); u.BlocksStored() && u.TailStored()
  {
    hide SortedDocs, Tail;
    forall b | 0 <= b < |t.p| / BLOCK
      ensures t.(meta := t.meta.(singleDoc := singleDoc, skipStart := skipStart)).BlockStored(b)
    {
      assert t.BlockStored(b);
    }
  }

  lemma SkipUnused(t: Term, singleDoc: nat)
    requires SortedDocs(t.p) && BLOCK < |t.p| && t.SkipStored()
    ensures t.(meta := t.meta.(singleDoc := singleDoc)).SkipStored()
  {
    hide SortedDocs, Complete, LevelsTokens, IndexOf;
  }

  /** Any number of terms are written, and their metadata is encoded block by block; decoded again, it opens every term, and any
      mix of steps shows what a linear walk over its list shows. */
  method WriteEncodeAndRun(lists: seq<seq<Posting>>, f: Format, total: nat, blockMax: (nat, nat, nat) -> real, rootScore: real,
                           blocks: seq<seq<nat>>, wantFreq: bool, wantPos: bool, steps: seq<Step>) returns (shown: seq<seq<seq<Seen>>>)
    requires forall i :: 0 <= i < |lists| ==> ValidTerm(lists[i], f, total)
    requires forall b :: 0 <= b < |blocks| ==> Picked(blocks[b], |lists|)
    requires (wantFreq ==> f.freq) && (wantPos ==> wantFreq && f.pos) && forall k :: 0 <= k < |steps| ==> Askable(wantPos, steps[k])
    ensures |shown| == |blocks|
    ensures forall b :: 0 <= b < |blocks| ==> AllShown(lists, blocks[b], wantFreq, steps, shown[b])
  {
    hide AllStored, ValidTerm, Picked, TermCodecRuns.Blocks, Back, AllShown, AllStates, States;
    var metas, file, posFile;
    ghost var terms;
    metas, file, posFile, terms := WriteTerms(lists, f, total, blockMax, rootScore);
    OnePerList(lists, f, metas, file, posFile, terms);
    BlocksFollow(lists, f, total, metas, file, posFile, terms, blocks);
    var states := AllStates(metas, blocks);
    var decoded := EncodeAndDecode(FeaturesOf(f), states);
    shown := [];
    while |shown| < |blocks|
      invariant |shown| <= |blocks| && forall b :: 0 <= b < |shown| ==> AllShown(lists, blocks[b], wantFreq, steps, shown[b])
    {
      var b := |shown|;
      var here := RunBlock(lists, f, total, metas, file, posFile, terms, blocks[b], decoded[b], wantFreq, wantPos, steps);
      shown := shown + [here];
    }
  }

  /** Every term of a block shows what its list shows. */
  ghost predicate AllShown(lists: seq<seq<Posting>>, block: seq<nat>, wantFreq: bool, steps: seq<Step>, shown: seq<seq<Seen>>) {
    |shown| == |block| && forall k :: 0 <= k < |block| ==> block[k] < |lists| && shown[k] == Shown(lists[block[k]], START, wantFreq, steps)
  }

  /** The metadata of all blocks. */
  function AllStates(metas: seq<TermMeta>, blocks: seq<seq<nat>>): (s: seq<seq<State>>)
    requires forall b :: 0 <= b < |blocks| ==> Picked(blocks[b], |metas|)
    ensures |s| == |blocks| && forall b :: 0 <= b < |s| ==> s[b] == States(metas, blocks[b])
  {
    seq(|blocks|, b requires 0 <= b < |blocks| => States(metas, blocks[b]))
  }

  lemma BlocksFollow(lists: seq<seq<Posting>>, f: Format, total: nat, metas: seq<TermMeta>, file: seq<Token>, posFile: seq<PosToken>, terms: seq<Term>, blocks: seq<seq<nat>>)
    requires AllStored(lists, f, metas, file, posFile, terms) && |metas| == |lists| && forall i :: 0 <= i < |lists| ==> ValidTerm(lists[i], f, total)
    requires forall b :: 0 <= b < |blocks| ==> Picked(blocks[b], |metas|)
    ensures TermCodecRuns.Blocks(FeaturesOf(f), AllStates(metas, blocks))
  {
    hide AllStored, ValidTerm, TermCodecRuns.Block, States, FeaturesOf, Picked, AllStates;
    forall b | 0 <= b < |blocks|
      ensures TermCodecRuns.Block(FeaturesOf(f), CLEARED, AllStates(metas, blocks)[b])
    {
      BlockFollows(lists, f, total, metas, file, posFile, terms, blocks[b]);
    }
  }

  lemma OnePerList(lists: seq<seq<Posting>>, f: Format, metas: seq<TermMeta>, file: seq<Token>, posFile: seq<PosToken>, terms: seq<Term>)
    requires AllStored(lists, f, metas, file, posFile, terms)
    ensures |metas| == |lists| == |terms|
    ensures forall i :: 0 <= i < |lists| ==> MetaIs(lists[i], f, metas[i], metas[i].docStart, metas[i].posStart)
  {
    hide Term.Valid, MetaIs;
    forall i | 0 <= i < |lists|
      ensures MetaIs(lists[i], f, metas[i], metas[i].docStart, metas[i].posStart)
    {
      assert StoredTerm(lists[i], f, metas[i], file, posFile, terms[i]);
    }
  }

  method RunBlock(ghost lists: seq<seq<Posting>>, f: Format, ghost total: nat, ghost metas: seq<TermMeta>, file: seq<Token>, posFile: seq<PosToken>,
                  ghost terms: seq<Term>, block: seq<nat>, decoded: seq<State>, wantFreq: bool, wantPos: bool, steps: seq<Step>) returns (shown: seq<seq<Seen>>)
    requires AllStored(lists, f, metas, file, posFile, terms) && (forall i :: 0 <= i < |lists| ==> ValidTerm(lists[i], f, total))
    requires |metas| == |lists| && Picked(block, |lists|) && Back(FeaturesOf(f), decoded, States(metas, block))
    requires (wantFreq ==> f.freq) && (wantPos ==> wantFreq && f.pos) && forall k :: 0 <= k < |steps| ==> Askable(wantPos, steps[k])
    ensures AllShown(lists, block, wantFreq, steps, shown)
  {
    hide StoredTerm, ValidTerm, View, Shown;
    shown := [];
    while |shown| < |block|
      invariant |shown| <= |block| && forall k :: 0 <= k < |shown| ==> shown[k] == Shown(lists[block[k]], START, wantFreq, steps)
    {
      var k := |shown|;
      ghost var i := block[k];
      var meta := MetaOf(View(decoded[k], FeaturesOf(f)));
      ghost var t := DecodedTerm(lists[i], f, total, metas[i], file, posFile, terms[i], decoded[k]);
      var seen := OpenAndRun(meta, file, posFile, f, wantFreq, wantPos, steps, t);
      shown := shown + [seen];
    }
  }

  lemma DecodedTerm(p: seq<Posting>, f: Format, total: nat, meta: TermMeta, file: seq<Token>, posFile: seq<PosToken>, was: Term, decoded: State) returns (t: Term)
    requires StoredTerm(p, f, meta, file, posFile, was) && ValidTerm(p, f, total) && View(decoded, FeaturesOf(f)) == View(StateOf(meta), FeaturesOf(f))
    ensures t.Valid() && t.p == p && t.meta == MetaOf(View(decoded, FeaturesOf(f))) && t.file == file && t.posFile == posFile && t.f == f
  {
    hide Term.Valid, View, MetaIs, ValidList;
    var back := MetaOf(View(decoded, FeaturesOf(f)));
    MetaDecoded(p, f, meta, decoded);
    TermUnused(was, back.singleDoc, back.skipStart);
    t := was.(meta := back);
  }
}
