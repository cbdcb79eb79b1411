/** Document identifiers and scores: the limits every component shares. */
module Limits {
  const INVALID: nat := 0
  const MIN: nat := 1
  const EOF: nat := 0xFFFF_FFFF

  // The largest finite score (an IEEE single); it marks an exhausted skip level.
  const SCORE_MAX: real := 340282346638528859811704183484516925440.0

  function Last(docs: seq<nat>): nat {
    if docs == [] then INVALID else docs[|docs| - 1]
  }
}

/** The skip list as it is stored: what an entry holds, where a level keeps it,
    and the abstract list of block boundaries that all levels describe. */
module SkipFormat {
  import opened Arithmetic
  import opened Limits

  /** A boundary between two blocks of a posting list: the last document before
      it, where the next block starts, and where the positions of its first
      document start (a block of the position file plus positions to pass over). */
  datatype SkipState = SkipState(doc: nat, docPtr: nat, pend: nat, posPtr: nat)

  /** A stored entry. Pointers are differences from the previous entry of the same level. */
  datatype Entry = Entry(doc: nat, docDelta: nat, pend: nat, posDelta: nat, bound: real)

  /** One written value of the document file; a file pointer counts such values. */
  datatype Token =
    | DocBlock(deltas: seq<nat>)
    | FreqBlock(freqs: seq<nat>)
    | Vint(v: nat)
    | RootScore(score: real)
    | LevelCount(levels: nat)
    | LevelLength(length: nat)
    | Skip(entry: Entry)
    | Child(ptr: nat)

  /** The abstract skip list over `count` documents: `marks[j]` is the boundary after
      j blocks of `skip0` documents, `bound(level, k)` the score bound stored with
      the k-th entry of a level. Level 0 is the finest one. */
  datatype Index = Index(count: nat, skip0: nat, skipN: nat,
                         marks: seq<SkipState>, bound: (nat, nat) -> real)
  {
    /** Number of boundaries strictly inside the list. */
    function Inner(): int { |marks| - 1 }

    ghost predicate Valid() {
      && 1 <= skip0 && 2 <= skipN
      && 2 <= |marks|
      && Inner() * skip0 < count <= (Inner() + 1) * skip0
      && marks[0].doc == INVALID
      && (forall i, j :: 0 <= i < j < |marks| ==> marks[i].doc < marks[j].doc)
      && (forall i, j :: 0 <= i <= j < |marks| ==> marks[i].docPtr <= marks[j].docPtr)
      && (forall i, j :: 0 <= i <= j < |marks| ==> marks[i].posPtr <= marks[j].posPtr)
      && (forall j :: 0 <= j < |marks| ==> marks[j].doc < EOF)
    }

    /** Blocks that one entry of `level` passes over. */
    function Unit(level: nat): (u: nat)
      requires 1 <= skipN
      ensures 1 <= u
    {
      Power(skipN, level)
    }

    /** Blocks passed after `k` entries of `level`. */
    function At(level: nat, k: nat): nat
      requires 1 <= skipN
    {
      k * Unit(level)
    }

    /** The state the k-th entry of a level describes, as a difference. */
    function EntryAt(level: nat, k: nat): Entry
      requires 1 <= skipN && 1 <= k && At(level, k) < |marks|
      requires forall i, j :: 0 <= i <= j < |marks| ==> marks[i].docPtr <= marks[j].docPtr
      requires forall i, j :: 0 <= i <= j < |marks| ==> marks[i].posPtr <= marks[j].posPtr
    {
      AtStep(this, level, k - 1);
      var from, to := marks[At(level, k - 1)], marks[At(level, k)];
      Entry(to.doc, to.docPtr - from.docPtr, to.pend, to.posPtr - from.posPtr, bound(level, k))
    }
  }

  function Power(b: nat, e: nat): (p: nat)
    requires 1 <= b
    ensures 1 <= p
  {
    if e == 0 then 1 else MulPositive(b, Power(b, e - 1)); b * Power(b, e - 1)
  }

  lemma AtStep(ix: Index, level: nat, k: nat)
    requires 1 <= ix.skipN
    ensures ix.At(level, k + 1) == ix.At(level, k) + ix.Unit(level)
    ensures ix.At(level, 0) == 0
  {}

  lemma AtOrder(ix: Index, level: nat, k: nat, m: nat)
    requires 1 <= ix.skipN
    ensures ix.At(level, k) < ix.At(level, m) <==> k < m
    ensures k < m ==> ix.At(level, k + 1) <= ix.At(level, m)
    ensures k <= ix.At(level, k)
  {
    var u := ix.Unit(level);
    MulMonotone(1, u, k);
    AtStep(ix, level, k);
    if k < m {
      MulMonotone(k + 1, m, u);
    } else {
      MulMonotone(m, k, u);
    }
  }

  /** One entry of a level stands for skipN entries of the level below. */
  lemma AtDown(ix: Index, level: nat, k: nat)
    requires 1 <= ix.skipN
    ensures ix.At(level + 1, k) == ix.At(level, k * ix.skipN)
  {
    assert k * (ix.skipN * ix.Unit(level)) == (k * ix.skipN) * ix.Unit(level);
  }

  /** Documents remain after `at` blocks exactly when a boundary is stored there. */
  lemma LeftPositive(ix: Index, at: nat)
    requires ix.Valid()
    ensures 0 < ix.count - at * ix.skip0 <==> at < |ix.marks|
  {
    if at < |ix.marks| {
      MulMonotone(at, ix.Inner(), ix.skip0);
    } else {
      MulMonotone(ix.Inner() + 1, at, ix.skip0);
    }
  }

  /** Offset in a level's stream that a parent entry records: after the entry's
      data, before its own child pointer if it has one. */
  function ChildPtr(level: nat, k: nat): nat
    requires 1 <= k
  {
    if level == 0 then k else 2 * k - 1
  }

  /** Offset in a level's stream after `k` whole entries. */
  function EntryEnd(level: nat, k: nat): nat {
    if level == 0 then k else 2 * k
  }

  /** What one entry adds to the stream of its level. */
  function EntryTokens(level: nat, k: nat, skipN: nat, entry: Entry): seq<Token>
    requires 1 <= k && 1 <= skipN
  {
    if level == 0 then [Skip(entry)]
    else MulPositive(k, skipN); [Skip(entry), Child(ChildPtr(level - 1, k * skipN))]
  }

  /** The stream of a level holding its first `n` entries. */
  ghost function LevelTokens(ix: Index, level: nat, n: nat): (s: seq<Token>)
    requires ix.Valid() && ix.At(level, n) < |ix.marks|
    ensures |s| == EntryEnd(level, n)
  {
    if n == 0 then []
    else
      AtStep(ix, level, n - 1);
      LevelTokens(ix, level, n - 1) + EntryTokens(level, n, ix.skipN, ix.EntryAt(level, n))
  }

  /** The k-th entry of `level`, for a level whose stream starts at `begin`, is where a reader expects it. */
  ghost predicate EntryStored(ix: Index, file: seq<Token>, begin: nat, level: nat, k: nat)
    requires ix.Valid()
  {
    1 <= k && ix.At(level, k) < |ix.marks| ==>
      && begin + EntryEnd(level, k) <= |file|
      && file[begin + EntryEnd(level, k - 1)] == Skip(ix.EntryAt(level, k))
      && (level > 0 ==>
            && 1 <= k * ix.skipN
            && file[begin + EntryEnd(level, k) - 1] == Child(ChildPtr(level - 1, k * ix.skipN)))
  }

  ghost predicate LevelStored(ix: Index, file: seq<Token>, begin: nat, level: nat)
    requires ix.Valid()
  {
    forall k :: EntryStored(ix, file, begin, level, k)
  }
}
