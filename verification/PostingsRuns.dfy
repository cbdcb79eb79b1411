/** Whole runs over a term: write it, open it, move over its documents and their positions. */
module PostingsRuns {
  import opened Limits
  import opened SkipFormat
  import opened PostingsFormat
  import opened Positions
  import opened DocBlocks
  import opened DocIterators
  import opened SingleDocs
  import opened PostingsWriting

  /** Steps over the documents, and over the positions of the document the iterator stands at. */
  datatype Step = Next | Seek(target: nat) | NextPosition | SeekPosition(target: nat) | ResetPositions

  /** A plain list of postings of which `docs` have been taken (one more than all of them is the end);
      of the positions of the last one `taken` have been taken, and `position` is shown. */
  datatype Cursor = Cursor(docs: nat, taken: nat, position: nat)

  const START := Cursor(0, 0, INVALID)

  ghost predicate Inside(p: seq<Posting>, c: Cursor) {
    1 <= c.docs <= |p|
  }

  ghost predicate Ok(p: seq<Posting>, c: Cursor) {
    c.docs <= |p| + 1 && (Inside(p, c) ==> c.taken <= |p[c.docs - 1].positions|)
  }

  ghost function Value(p: seq<Posting>, n: nat): nat {
    if n == 0 then INVALID else if n <= |p| then p[n - 1].doc else EOF
  }

  ghost function AfterPosition(cur: seq<nat>, c: Cursor, step: Step): (d: Cursor)
    requires c.taken <= |cur|
    ensures d.docs == c.docs && d.taken <= |cur|
  {
    match step
    case Next => c
    case Seek(_) => c
    case NextPosition => if c.taken < |cur| then Cursor(c.docs, c.taken + 1, cur[c.taken]) else c.(position := EOF)
    case SeekPosition(target) =>
      if target <= c.position then c
      else
        FirstFromBound(cur, c.taken, target);
        var i := FirstFrom(cur, c.taken, target);
        if i < |cur| then Cursor(c.docs, i + 1, cur[i]) else Cursor(c.docs, |cur|, EOF)
    case ResetPositions => Cursor(c.docs, 0, INVALID)
  }

  lemma FirstFromBound(cur: seq<nat>, k: nat, target: nat)
    requires k <= |cur|
    ensures k <= FirstFrom(cur, k, target) <= |cur|
    decreases |cur| - k
  {}

  ghost function After(p: seq<Posting>, c: Cursor, step: Step): (d: Cursor)
    requires Ok(p, c)
    ensures Ok(p, d)
  {
    match step
    case Next => Cursor(if c.docs < |p| then c.docs + 1 else |p| + 1, 0, INVALID)
    case Seek(target) => if target <= Value(p, c.docs) then c else Cursor(LowerDoc(p, target, 0) + 1, 0, INVALID)
    case _ => if Inside(p, c) then AfterPosition(p[c.docs - 1].positions, c, step) else c
  }

  /** A document with its frequency and position; where there is no document, or nobody asked, they are 0. */
  datatype Seen = Seen(doc: nat, freq: nat, position: nat)

  ghost function SeenAt(p: seq<Posting>, c: Cursor, wantFreq: bool): Seen {
    Seen(Value(p, c.docs), if wantFreq && Inside(p, c) then p[c.docs - 1].freq else 0, if Inside(p, c) then c.position else 0)
  }

  /** What a linear walk over the list shows after each step. */
  ghost function Shown(p: seq<Posting>, c: Cursor, wantFreq: bool, steps: seq<Step>): seq<Seen>
    requires Ok(p, c)
    decreases |steps|
  {
    if steps == [] then [] else
      var d := After(p, c, steps[0]);
      [SeenAt(p, d, wantFreq)] + Shown(p, d, wantFreq, steps[1..])
  }

  ghost predicate At(it: DocIterator, n: nat)
    requires it.Fixed()
    reads it, it.base, it.base.docs, it.base.freqs, it.pos, it.pos.deltas, it.freq
  {
    if n == 0 then it.base.idx == 0 && it.value == INVALID
    else if n <= |it.t.p| then it.Showing(n)
    else n == |it.t.p| + 1 && it.Exhausted()
  }

  /** The iterator stands where the cursor does, also among the positions. */
  ghost predicate Stands(it: DocIterator, c: Cursor)
    requires it.Fixed()
    reads it, it.base, it.base.docs, it.base.freqs, it.pos, it.pos.deltas, it.freq
  {
    && At(it, c.docs) && Ok(it.t.p, c)
    && if it.wantPos && Inside(it.t.p, c) then Among(it.pos, |it.t.p[c.docs - 1].positions|, c) else c.position == INVALID
  }

  ghost predicate Among(pos: PositionIterator, n: nat, c: Cursor)
    reads pos
  {
    Taken(n, pos.pend) == c.taken && pos.value == c.position
  }

  lemma AtShows(it: DocIterator, n: nat)
    requires it.Valid() && At(it, n)
    ensures n <= |it.t.p| + 1 && it.value == Value(it.t.p, n) && it.base.idx == if n <= |it.t.p| then n else |it.t.p|
    ensures it.base.wantFreq && 1 <= n <= |it.t.p| ==> it.freq.value == it.t.p[n - 1].freq
    ensures 1 <= n <= |it.t.p| <==> INVALID < it.value < EOF
  {
    it.ValidFacts();
    hide DocIterator.Between;
    if 1 <= n <= |it.t.p| {
      DeltaAt(it.t.p, n - 1);
    }
  }

  lemma AtAgain(it: DocIterator, n: nat)
    requires it.Valid() && it.Fixed() && n <= |it.t.p| + 1 && it.value == Value(it.t.p, n)
    requires it.base.idx == if n <= |it.t.p| then n else |it.t.p|
    ensures At(it, n)
  {
    it.ValidFacts();
    hide DocIterator.Between;
  }

  lemma StartsAt(it: DocIterator)
    requires it.Valid() && it.base.idx == 0 && it.value == INVALID
    ensures it.Fixed() && Stands(it, START)
  {
    it.ValidFacts();
    hide DocIterator.Between;
  }

  /** A document none of whose positions has been taken. */
  lemma Landed(it: DocIterator, n: nat)
    requires it.Fixed() && it.Landing(n)
    ensures Stands(it, Cursor(n, 0, INVALID))
  {
    hide Follows, PositionIterator.Valid;
    if it.wantPos {
      NoneTaken(it.pos, it.t.p[n - 1].positions);
    }
  }

  lemma NoneTaken(pos: PositionIterator, cur: seq<nat>)
    requires pos.InStep(cur) && pos.value == INVALID
    ensures Taken(|cur|, pos.pend) == 0
  {
    assert forall i :: 0 <= i < |cur| ==> cur[i] in cur;
  }

  lemma Ended(it: DocIterator)
    requires it.Fixed() && it.Exhausted()
    ensures Stands(it, Cursor(|it.t.p| + 1, 0, INVALID))
  {}

  method TakeDocument(it: DocIterator, step: Step, ghost c: Cursor)
    requires it.Valid() && it.Fixed() && Stands(it, c) && (step.Next? || (step.Seek? && step.target <= EOF))
    modifies it, it.base, it.base.docs, it.base.freqs, it.skip, it.pos, it.pos.deltas, it.freq
    ensures it.Valid() && Stands(it, After(it.t.p, c, step))
  {
    hide DocIterator.Between, DocIterator.Showing, DocIterator.Exhausted, DocIterator.Landing, LowerDoc, DocIterator.Fixed;
    AtShows(it, c.docs);
    match step {
      case Next =>
        var more := it.Next();
        if more {
          Landed(it, c.docs + 1);
        } else {
          Ended(it);
        }
      case Seek(target) =>
        var found := it.Seek(target);
        if target <= Value(it.t.p, c.docs) {
          AtAgain(it, c.docs);
        } else {
          var i := LowerDoc(it.t.p, target, 0);
          if i < |it.t.p| {
            Landed(it, i + 1);
          } else {
            Ended(it);
          }
        }
    }
  }

  /** A step among the positions of the current document. */
  method TakePosition(pos: PositionIterator, step: Step, ghost cur: seq<nat>, ghost c: Cursor)
    requires pos.InStep(cur) && c.taken <= |cur| && Among(pos, |cur|, c)
    requires !step.Next? && !step.Seek? && (step.SeekPosition? ==> step.target <= EOF)
    modifies pos, pos.deltas
    ensures pos.InStep(cur) && pos.upTo == old(pos.upTo) && Among(pos, |cur|, AfterPosition(cur, c, step))
  {
    hide PositionIterator.InStep;
    match step {
      case NextPosition =>
        var more := pos.Next(cur);
      case SeekPosition(target) =>
        FirstFromBound(cur, c.taken, target);
        var found := pos.Seek(target, cur);
      case ResetPositions =>
        pos.Reset(cur);
        AtNone(pos, cur);
    }
  }

  lemma AtNone(pos: PositionIterator, cur: seq<nat>)
    requires pos.InStep(cur) && pos.pend >= |cur|
    ensures pos.value == INVALID
  {}

  /** Any step that is meant for the iterator: positions only where they are wanted. */
  method Take(it: DocIterator, step: Step, ghost c: Cursor)
    requires it.Valid() && it.Fixed() && Stands(it, c) && Askable(it.wantPos, step)
    modifies it, it.base, it.base.docs, it.base.freqs, it.skip, it.pos, it.pos.deltas, it.freq
    ensures it.Valid() && Stands(it, After(it.t.p, c, step))
  {
    hide DocIterator.Fixed, BlockReader.Buffered, DocIterator.SkipOk, Follows, PositionIterator.InStep, Term.Stream, SortedDocs, DocIterator.Valid,
      DocIterator.Between, At, AfterPosition;
    if step.Next? || step.Seek? {
      TakeDocument(it, step, c);
    } else {
      AtShows(it, c.docs);
      if INVALID < it.value < EOF {
        Parts(it, c.docs);
        FollowFacts(it.pos, it.t, c.docs);
        TakePosition(it.pos, step, it.t.p[c.docs - 1].positions, c);
        StillFollows(it.pos, it.t, c.docs, it.t.p[c.docs - 1].positions);
        it.BetweenAgain();
        AtWith(it, c.docs);
      }
    }
  }

  predicate Askable(wantPos: bool, step: Step) {
    match step
    case Next => true
    case Seek(target) => target <= EOF
    case SeekPosition(target) => wantPos && target <= EOF
    case _ => wantPos
  }

  lemma ShownNone(p: seq<Posting>, c: Cursor, wantFreq: bool)
    requires Ok(p, c)
    ensures Shown(p, c, wantFreq, []) == []
  {}

  lemma ShownNext(p: seq<Posting>, c: Cursor, wantFreq: bool, steps: seq<Step>, k: nat)
    requires k < |steps| && Ok(p, c)
    ensures var d := After(p, c, steps[k]); Shown(p, c, wantFreq, steps[k..]) == [SeenAt(p, d, wantFreq)] + Shown(p, d, wantFreq, steps[k + 1..])
  {
    assert steps[k..][1..] == steps[k + 1..];
  }

  /** Any mix of steps shows what the linear walk shows, whatever the iterator has been opened for. */
  method RunPostings(it: DocIterator, steps: seq<Step>) returns (shown: seq<Seen>)
    requires it.Valid() && it.base.idx == 0 && it.value == INVALID
    requires forall k :: 0 <= k < |steps| ==> Askable(it.wantPos, steps[k])
    modifies it, it.base, it.base.docs, it.base.freqs, it.skip, it.pos, it.pos.deltas, it.freq
    ensures it.Valid() && shown == Shown(it.t.p, START, it.base.wantFreq, steps)
  {
    hide DocIterator.Valid, DocIterator.Fixed, At, Shown, After, SortedDocs;
    StartsAt(it);
    shown := [];
    ghost var c := START;
    var k := 0;
    assert steps[0..] == steps;
    while k < |steps|
      invariant k <= |steps| && it.Valid() && it.Fixed() && Stands(it, c)
      invariant shown + Shown(it.t.p, c, it.base.wantFreq, steps[k..]) == Shown(it.t.p, START, it.base.wantFreq, steps)
    {
      ghost var d := After(it.t.p, c, steps[k]);
      Take(it, steps[k], c);
      AtShows(it, d.docs);
      ShownNext(it.t.p, c, it.base.wantFreq, steps, k);
      var inside := INVALID < it.value < EOF;
      shown := shown + [Seen(it.value, if inside && it.base.wantFreq then it.freq.value else 0, if inside && it.wantPos then it.pos.value else 0)];
      c, k := d, k + 1;
    }
    ShownNone(it.t.p, c, it.base.wantFreq);
    assert steps[k..] == [];
  }

  lemma StillFollows(pos: PositionIterator, t: Term, n: nat, cur: seq<nat>)
    requires n <= |t.p| && pos.InStep(cur) && pos.upTo == |t.Stream(n)|
    requires pos.d == t.Stream(|t.p|) && pos.start == t.meta.posStart && pos.oneBased == t.f.oneBased
    ensures Follows(pos, t, n)
  {}

  lemma FollowFacts(pos: PositionIterator, t: Term, n: nat)
    requires n <= |t.p| && Follows(pos, t, n)
    ensures pos.d == t.Stream(|t.p|) && pos.start == t.meta.posStart && pos.oneBased == t.f.oneBased && pos.upTo == |t.Stream(n)|
  {}

  /** The positions of the document the iterator stands at, from the first one on. */
  method ReadPositions(it: DocIterator, ghost n: nat) returns (positions: seq<nat>)
    requires it.Fixed() && it.Valid() && 0 < n <= |it.t.p| && At(it, n) && it.wantPos
    modifies it.pos, it.pos.deltas
    ensures it.Valid() && At(it, n) && positions == it.t.p[n - 1].positions
  {
    hide DocIterator.Fixed, BlockReader.Buffered, DocIterator.SkipOk, Follows, PositionIterator.InStep, Term.Stream, SortedDocs, DocIterator.Valid,
      DocIterator.Between, At;
    Parts(it, n);
    FollowFacts(it.pos, it.t, n);
    positions := AllPositions(it.pos, it.t.p[n - 1].positions);
    StillFollows(it.pos, it.t, n, it.t.p[n - 1].positions);
    it.BetweenAgain();
    AtWith(it, n);
  }

  /** What an iterator at a document consists of. */
  lemma Parts(it: DocIterator, n: nat)
    requires it.Fixed() && it.Valid() && 0 < n <= |it.t.p| && At(it, n) && it.wantPos
    ensures it.Between() && it.base.Buffered() && it.SkipOk() && (it.base.wantFreq && it.base.begin < BLOCK ==> it.base.freqAt == it.base.begin)
    ensures it.base.idx == n && it.value == it.t.p[n - 1].doc && it.freq.value == it.t.p[n - 1].freq && it.base.wantFreq
    ensures Follows(it.pos, it.t, n) && it.pos.InStep(it.t.p[n - 1].positions)
    ensures it.pos.deltas as object != it.base.docs && it.pos.deltas as object != it.base.freqs && it.pos.freq == it.freq
  {
    hide BlockReader.Buffered, DocIterator.SkipOk, Follows, PositionIterator.InStep, SortedDocs, Term.Valid;
  }

  lemma AtWith(it: DocIterator, n: nat)
    requires it.Fixed() && it.Between() && 0 < n <= |it.t.p| && it.wantPos && it.base.idx == n && it.value == it.t.p[n - 1].doc
    requires it.freq.value == it.t.p[n - 1].freq && Follows(it.pos, it.t, n) && it.pos.InStep(it.t.p[n - 1].positions)
    ensures it.Valid() && At(it, n)
  {
    hide DocIterator.Between, Follows, PositionIterator.InStep;
  }

  method AllPositions(pos: PositionIterator, ghost cur: seq<nat>) returns (positions: seq<nat>)
    requires pos.InStep(cur)
    modifies pos, pos.deltas
    ensures pos.InStep(cur) && pos.upTo == old(pos.upTo) && positions == cur
  {
    hide PositionIterator.InStep;
    pos.Reset(cur);
    positions := [];
    var more := pos.Next(cur);
    while more
      invariant pos.InStep(cur) && pos.upTo == old(pos.upTo)
      invariant if more then Taken(|cur|, pos.pend) == |positions| + 1 <= |cur| && pos.value == cur[|positions|] else |positions| == |cur|
      invariant |positions| <= |cur| && positions == cur[..|positions|]
      decreases |cur| - |positions|, more
    {
      positions := positions + [pos.value];
      more := pos.Next(cur);
    }
  }

  /** A posting as far as it is asked for. */
  function Asked(p: Posting, wantFreq: bool, wantPos: bool): Posting {
    Posting(p.doc, if wantFreq then p.freq else 0, if wantPos then p.positions else [])
  }

  /** Reads a term from beginning to end. */
  method ReadAll(it: DocIterator) returns (q: seq<Posting>)
    requires it.Valid() && it.base.idx == 0 && it.value == INVALID
    modifies it, it.base, it.base.docs, it.base.freqs, it.skip, it.pos, it.pos.deltas, it.freq
    ensures it.Valid() && |q| == |it.t.p| && forall i :: 0 <= i < |q| ==> q[i] == Asked(it.t.p[i], it.base.wantFreq, it.wantPos)
  {
    hide DocIterator.Valid, DocIterator.Fixed, At, SortedDocs;
    StartsAt(it);
    q := [];
    var more := NextDocument(it, 0);
    while more
      invariant it.Valid() && it.Fixed() && |q| <= |it.t.p|
      invariant forall i :: 0 <= i < |q| ==> q[i] == Asked(it.t.p[i], it.base.wantFreq, it.wantPos)
      invariant if more then |q| < |it.t.p| && At(it, |q| + 1) else |q| == |it.t.p|
      decreases |it.t.p| - |q|, more
    {
      ghost var n := |q| + 1;
      AtShows(it, n);
      var doc, freq, positions := it.value, if it.base.wantFreq then it.freq.value else 0, [];
      if it.wantPos {
        positions := ReadPositions(it, n);
      }
      q := q + [Posting(doc, freq, positions)];
      more := NextDocument(it, n);
    }
  }

  method NextDocument(it: DocIterator, ghost n: nat) returns (more: bool)
    requires it.Valid() && it.Fixed() && n <= |it.t.p| && At(it, n)
    modifies it, it.base, it.base.docs, it.base.freqs, it.skip, it.pos, it.pos.deltas, it.freq
    ensures it.Valid() && more == (n < |it.t.p|) && (more ==> At(it, n + 1))
  {
    hide DocIterator.Between, DocIterator.Showing, DocIterator.Exhausted, DocIterator.Fixed;
    AtShows(it, n);
    more := it.Next();
  }

  // ------------------------------------------------------------ a single document

  /** The iterator over a single document stands where the cursor does, also among its positions. */
  ghost predicate StandsSingle(it: SingleDocIterator, c: Cursor)
    reads it, it.freq, it.pos, it.pos.deltas
  {
    && it.Valid() && Ok(it.t.p, c) && it.value == Value(it.t.p, c.docs) && (it.next == EOF <==> c.docs > 0)
    && if it.wantPos && c.docs == 1 then it.pos.InStep(it.t.p[0].positions) && Among(it.pos, |it.t.p[0].positions|, c) else c.position == INVALID
  }

  method TakeSingle(it: SingleDocIterator, step: Step, ghost c: Cursor)
    requires StandsSingle(it, c) && Askable(it.wantPos, step)
    modifies it, it.pos, it.pos.deltas
    ensures StandsSingle(it, After(it.t.p, c, step))
  {
    hide PositionIterator.InStep, Follows, Term.PosOk, Term.BlocksStored, Term.TailStored, Term.SkipStored, PosStream;
    it.OneStream();
    match step {
      case Next =>
        var more := it.Next();
        if more && it.wantPos {
          NoneTaken(it.pos, it.t.p[0].positions);
        }
      case Seek(target) =>
        ghost var before := it.value;
        var found := it.Seek(target);
        LowerOfOne(it.t.p, target);
        if before < target && found != EOF && it.wantPos {
          NoneTaken(it.pos, it.t.p[0].positions);
        }
      case _ =>
        if INVALID < it.value < EOF {
          FollowFacts(it.pos, it.t, 1);
          TakePosition(it.pos, step, it.t.p[0].positions, c);
          StillFollows(it.pos, it.t, 1, it.t.p[0].positions);
        }
    }
  }

  lemma LowerOfOne(p: seq<Posting>, target: nat)
    requires |p| == 1
    ensures LowerDoc(p, target, 0) == if target <= p[0].doc then 0 else 1
  {}

  /** Any mix of steps over a single document shows what the linear walk shows. */
  method RunSingle(it: SingleDocIterator, steps: seq<Step>) returns (shown: seq<Seen>)
    requires it.Valid() && it.value == INVALID && it.next != EOF && forall k :: 0 <= k < |steps| ==> Askable(it.wantPos, steps[k])
    modifies it, it.pos, it.pos.deltas
    ensures it.Valid() && shown == Shown(it.t.p, START, it.wantFreq, steps)
  {
    hide Shown, After, SortedDocs, SingleDocIterator.Valid;
    shown := [];
    ghost var c := START;
    var k := 0;
    assert steps[0..] == steps;
    while k < |steps|
      invariant k <= |steps| && StandsSingle(it, c)
      invariant shown + Shown(it.t.p, c, it.wantFreq, steps[k..]) == Shown(it.t.p, START, it.wantFreq, steps)
    {
      ghost var d := After(it.t.p, c, steps[k]);
      TakeSingle(it, steps[k], c);
      SingleShows(it, d);
      ShownNext(it.t.p, c, it.wantFreq, steps, k);
      var inside := INVALID < it.value < EOF;
      shown := shown + [Seen(it.value, if inside && it.wantFreq then it.freq.value else 0, if inside && it.wantPos then it.pos.value else 0)];
      c, k := d, k + 1;
    }
    ShownNone(it.t.p, c, it.wantFreq);
    assert steps[k..] == [];
  }

  lemma SingleShows(it: SingleDocIterator, c: Cursor)
    requires StandsSingle(it, c)
    ensures it.value == Value(it.t.p, c.docs) && |it.t.p| == 1 && (INVALID < it.value < EOF <==> c.docs == 1)
    ensures c.docs == 1 && it.wantFreq ==> it.freq.value == it.t.p[0].freq
    ensures c.position == if it.wantPos && c.docs == 1 then it.pos.value else INVALID
  {
    hide PositionIterator.InStep, Follows, Term.PosOk;
    it.OneStream();
  }

  /** Reads a single document. */
  method ReadSingle(it: SingleDocIterator) returns (q: seq<Posting>)
    requires it.Valid() && it.next != EOF
    modifies it, it.pos, it.pos.deltas
    ensures |q| == |it.t.p| && forall i :: 0 <= i < |q| ==> q[i] == Asked(it.t.p[i], it.wantFreq, it.wantPos)
  {
    hide PositionIterator.InStep, Follows, Term.PosOk, Term.BlocksStored, Term.TailStored, Term.SkipStored;
    var more := it.Next();
    var freq, positions := if it.wantFreq then it.freq.value else 0, [];
    if it.wantPos {
      positions := AllPositions(it.pos, it.t.p[0].positions);
    }
    q := [Posting(it.value, freq, positions)];
  }

  // ------------------------------------------------------------------ whole runs

  /** Opens a term for what is asked of it, and takes any steps. */
  method OpenAndRun(meta: TermMeta, file: seq<Token>, posFile: seq<PosToken>, f: Format, wantFreq: bool, wantPos: bool, steps: seq<Step>, ghost t: Term)
    returns (shown: seq<Seen>)
    requires t.Valid() && t.meta == meta && t.file == file && t.posFile == posFile && t.f == f
    requires (wantFreq ==> f.freq) && (wantPos ==> wantFreq && f.pos) && forall k :: 0 <= k < |steps| ==> Askable(wantPos, steps[k])
    ensures shown == Shown(t.p, START, wantFreq, steps)
  {
    TermFacts(t);
    hide Term.Valid, DocIterator.Valid, SingleDocIterator.Valid, Shown;
    if meta.docsCount == 1 {
      var it := new SingleDocIterator(wantFreq, wantPos, meta, posFile, f, t);
      shown := RunSingle(it, steps);
    } else {
      var it := new DocIterator(wantFreq, wantPos, meta, file, posFile, f, t);
      shown := RunPostings(it, steps);
    }
  }

  /** Writes a term. */
  method WriteTerm(p: seq<Posting>, f: Format, blockMax: (nat, nat) -> real, rootScore: real)
    returns (meta: TermMeta, file: seq<Token>, posFile: seq<PosToken>, ghost t: Term)
    requires 1 <= |p| && ValidList(p, f)
    ensures t.Valid() && t.p == p && t.meta == meta && t.file == file && t.posFile == posFile && t.f == f
    ensures MetaIs(p, f, meta, 0, 0)
  {
    hide Term.Valid, Ascending, ValidPositions, MetaIs;
    var writer := new PostingsWriter(f, |p|);
    var m, written := writer.Write(p, blockMax, rootScore);
    AllAscending(p);
    meta, file, posFile := m.value, writer.docOut, writer.posOut;
    t := Term(p, f, meta, file, posFile, blockMax, written);
  }

  /** What is written for a term is what is read back: all documents, with frequencies and positions if they are asked for. */
  method WriteAndRead(p: seq<Posting>, f: Format, wantFreq: bool, wantPos: bool, blockMax: (nat, nat) -> real, rootScore: real) returns (q: seq<Posting>)
    requires 1 <= |p| && ValidList(p, f) && (wantFreq ==> f.freq) && (wantPos ==> wantFreq && f.pos)
    ensures |q| == |p| && forall i :: 0 <= i < |p| ==> q[i] == Asked(p[i], wantFreq, wantPos)
    ensures wantFreq && wantPos ==> q == p
  {
    hide DocIterator.Valid, SingleDocIterator.Valid, ValidList, Term.Valid;
    var meta, file, posFile;
    ghost var t;
    meta, file, posFile, t := WriteTerm(p, f, blockMax, rootScore);
    TermFacts(t);
    if meta.docsCount == 1 {
      var it := new SingleDocIterator(wantFreq, wantPos, meta, posFile, f, t);
      q := ReadSingle(it);
    } else {
      var it := new DocIterator(wantFreq, wantPos, meta, file, posFile, f, t);
      q := ReadAll(it);
    }
  }

  /** Any mix of steps over a term that has been written shows what a linear walk over the list itself shows. */
  method WriteAndRun(p: seq<Posting>, f: Format, wantFreq: bool, wantPos: bool, blockMax: (nat, nat) -> real, rootScore: real, steps: seq<Step>)
    returns (shown: seq<Seen>)
    requires 1 <= |p| && ValidList(p, f) && (wantFreq ==> f.freq) && (wantPos ==> wantFreq && f.pos)
    requires forall k :: 0 <= k < |steps| ==> Askable(wantPos, steps[k])
    ensures shown == Shown(p, START, wantFreq, steps)
  {
    hide ValidList, Shown, Term.Valid;
    var meta, file, posFile;
    ghost var t;
    meta, file, posFile, t := WriteTerm(p, f, blockMax, rootScore);
    shown := OpenAndRun(meta, file, posFile, f, wantFreq, wantPos, steps, t);
  }

  lemma AllAscending(p: seq<Posting>)
    requires SortedDocs(p)
    ensures Ascending(p, |p|)
  {}
}
