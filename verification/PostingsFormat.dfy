/** A posting list and the two streams it is written to. */
module PostingsFormat {
  import opened Arithmetic
  import opened Limits
  import opened SkipFormat

  const BLOCK: nat := 128
  const SKIP_N: nat := 8
  const MAX_SKIP_LEVELS: nat := 9

  /** A document of a term, how often the term occurs in it, and where. */
  datatype Posting = Posting(doc: nat, freq: nat, positions: seq<nat>)

  /** What a field stores. `oneBased` formats count the first position from 1. */
  datatype Format = Format(freq: bool, pos: bool, wand: bool, oneBased: bool) {
    /** Values written for a full block of documents. */
    function Width(): (w: nat)
      ensures 1 <= w <= 2
    {
      if freq then 2 else 1
    }

    function PosMin(): nat { if oneBased then 1 else 0 }
  }

  /** Position deltas are 32-bit differences; a wrapped one is kept as the integer it stands for. */
  datatype PosToken = PosBlock(deltas: seq<int>) | PosVint(delta: int)

  datatype Option<T> = None | Some(value: T)

  datatype TermMeta = TermMeta(docsCount: nat, freq: nat, docStart: nat, posStart: nat, posEnd: Option<nat>,
                               skipStart: nat, singleDoc: nat)

  ghost predicate SortedDocs(p: seq<Posting>) {
    && (forall i :: 0 <= i < |p| ==> MIN <= p[i].doc < EOF)
    && (forall i, j :: 0 <= i < j < |p| ==> p[i].doc < p[j].doc)
  }

  ghost predicate ValidPositions(p: seq<Posting>, f: Format) {
    f.pos ==>
      && f.freq
      && forall i :: 0 <= i < |p| ==> 1 <= |p[i].positions| == p[i].freq && forall x :: x in p[i].positions ==> 1 <= x < EOF
  }

  ghost predicate ValidList(p: seq<Posting>, f: Format) {
    SortedDocs(p) && ValidPositions(p, f)
  }

  /** The document that the delta of the i-th one counts from. */
  function Prev(p: seq<Posting>, i: nat): nat
    requires i <= |p|
  {
    if i == 0 then MIN else p[i - 1].doc
  }

  ghost function DocDelta(p: seq<Posting>, i: nat): nat
    requires i < |p|
  {
    Minus(p[i].doc, Prev(p, i))
  }

  function Minus(a: nat, b: nat): nat { if b <= a then a - b else 0 }

  ghost function DocDeltas(p: seq<Posting>, from: nat, n: nat): (s: seq<nat>)
    requires from + n <= |p|
    ensures |s| == n && forall k :: 0 <= k < n ==> s[k] == DocDelta(p, from + k)
  {
    seq<nat>(n, k requires 0 <= k < n => DocDelta(p, from + k))
  }

  ghost function Freqs(p: seq<Posting>, from: nat, n: nat): (s: seq<nat>)
    requires from + n <= |p|
    ensures |s| == n && forall k :: 0 <= k < n ==> s[k] == p[from + k].freq
  {
    seq<nat>(n, k requires 0 <= k < n => p[from + k].freq)
  }

  ghost function BlockTokens(p: seq<Posting>, f: Format, b: nat): (s: seq<Token>)
    requires BLOCK * (b + 1) <= |p|
    ensures |s| == f.Width()
  {
    [DocBlock(DocDeltas(p, BLOCK * b, BLOCK))] + if f.freq then [FreqBlock(Freqs(p, BLOCK * b, BLOCK))] else []
  }

  /** The first n full blocks of the document stream. */
  ghost function Blocks(p: seq<Posting>, f: Format, n: nat): (s: seq<Token>)
    requires BLOCK * n <= |p|
    ensures |s| == n * f.Width()
  {
    if n == 0 then [] else Blocks(p, f, n - 1) + BlockTokens(p, f, n - 1)
  }

  lemma {:induction false} BlockAt(p: seq<Posting>, f: Format, n: nat, b: nat)
    requires BLOCK * n <= |p| && b < n
    ensures b * f.Width() + f.Width() <= n * f.Width()
    ensures Blocks(p, f, n)[b * f.Width()..b * f.Width() + f.Width()] == BlockTokens(p, f, b)
  {
    var w := f.Width();
    MulMonotone(b + 1, n, w);
    assert (b + 1) * w == b * w + w;
    if b < n - 1 {
      BlockAt(p, f, n - 1, b);
      assert Blocks(p, f, n)[b * w..b * w + w] == Blocks(p, f, n - 1)[b * w..b * w + w];
    }
  }

  /** One document of the part that does not fill a block. */
  ghost function TailEntry(p: seq<Posting>, f: Format, i: nat): seq<Token>
    requires i < |p|
  {
    if !f.freq then [Vint(DocDelta(p, i))]
    else if p[i].freq == 1 then [Vint(2 * DocDelta(p, i) + 1)]
    else [Vint(2 * DocDelta(p, i)), Vint(p[i].freq)]
  }

  ghost function Tail(p: seq<Posting>, f: Format, i: nat): seq<Token>
    requires i <= |p|
    decreases |p| - i
  {
    if i == |p| then [] else TailEntry(p, f, i) + Tail(p, f, i + 1)
  }

  /** Differences between the positions of one document. */
  function PosDeltas(positions: seq<nat>, base: int): (s: seq<int>)
    ensures |s| == |positions|
  {
    seq(|positions|, k requires 0 <= k < |positions| => positions[k] - if k == 0 then base else positions[k - 1])
  }

  /** The positions of the first n documents as one stream of differences. */
  ghost function PosStream(p: seq<Posting>, f: Format, n: nat): seq<int>
    requires n <= |p|
  {
    if n == 0 then [] else PosStream(p, f, n - 1) + PosDeltas(p[n - 1].positions, f.PosMin())
  }

  lemma {:induction false} PosStreamPrefix(p: seq<Posting>, f: Format, n: nat, m: nat)
    requires n <= m <= |p|
    ensures |PosStream(p, f, n)| <= |PosStream(p, f, m)|
    ensures PosStream(p, f, m)[..|PosStream(p, f, n)|] == PosStream(p, f, n)
    decreases m
  {
    if n < m {
      PosStreamPrefix(p, f, n, m - 1);
      var a, b := PosStream(p, f, m - 1), PosStream(p, f, m);
      assert b[..|PosStream(p, f, n)|] == a[..|PosStream(p, f, n)|];
    } else {
      assert PosStream(p, f, m)[..|PosStream(p, f, m)|] == PosStream(p, f, m);
    }
  }

  /** The first n full blocks of a position stream. */
  ghost function PosBlocks(d: seq<int>, n: nat): (s: seq<PosToken>)
    requires BLOCK * n <= |d|
    ensures |s| == n && forall b :: 0 <= b < n ==> s[b] == PosBlock(d[BLOCK * b..BLOCK * b + BLOCK])
  {
    if n == 0 then [] else PosBlocks(d, n - 1) + [PosBlock(d[BLOCK * (n - 1)..BLOCK * (n - 1) + BLOCK])]
  }

  ghost function PosTail(d: seq<int>): (s: seq<PosToken>)
    ensures |s| == |d| % BLOCK && forall k :: 0 <= k < |s| ==> s[k] == PosVint(d[|d| - |d| % BLOCK + k])
  {
    seq(|d| % BLOCK, k requires 0 <= k < |d| % BLOCK => PosVint(d[|d| - |d| % BLOCK + k]))
  }

  /** The position file of a term: full blocks, then single values. */
  ghost function PosImage(d: seq<int>): seq<PosToken> {
    PosBlocks(d, |d| / BLOCK) + PosTail(d)
  }

  /** The boundary after j blocks. */
  ghost function Mark(p: seq<Posting>, f: Format, docStart: nat, posStart: nat, j: nat): SkipState
    requires BLOCK * j <= |p|
  {
    var done := if f.pos then |PosStream(p, f, BLOCK * j)| else 0;
    SkipState(if j == 0 then INVALID else p[BLOCK * j - 1].doc, docStart + j * f.Width(), done % BLOCK, posStart + done / BLOCK)
  }

  /** The document count at which a level stores its k-th entry. */
  function CountAt(level: nat, k: nat): nat {
    MulMonotone(0, k, Power(SKIP_N, level));
    k * Power(SKIP_N, level) * BLOCK
  }

  /** The skip list of a posting list; `bound` is what a level stores at a document count. */
  ghost function IndexOf(p: seq<Posting>, f: Format, docStart: nat, posStart: nat, bound: (nat, nat) -> real): (ix: Index)
    requires 1 <= |p|
    ensures ix.skip0 == BLOCK && ix.skipN == SKIP_N && ix.count == |p| && |ix.marks| == (|p| - 1) / BLOCK + 1
    ensures forall j :: 0 <= j < |ix.marks| ==> ix.marks[j] == Mark(p, f, docStart, posStart, j)
  {
    Index(|p|, BLOCK, SKIP_N,
          seq((|p| - 1) / BLOCK + 1, j requires 0 <= j < (|p| - 1) / BLOCK + 1 => Mark(p, f, docStart, posStart, j)),
          (level: nat, k: nat) => bound(level, CountAt(level, k)))
  }

  lemma MarkOrder(p: seq<Posting>, f: Format, docStart: nat, posStart: nat, i: nat, j: nat)
    requires SortedDocs(p) && i < j && BLOCK * j <= |p|
    ensures var a, b := Mark(p, f, docStart, posStart, i), Mark(p, f, docStart, posStart, j);
            a.doc < b.doc < EOF && a.docPtr <= b.docPtr && a.posPtr <= b.posPtr
  {
    MulMonotone(i, j, f.Width());
    PosStreamPrefix(p, f, BLOCK * i, BLOCK * j);
  }

  lemma IndexValid(p: seq<Posting>, f: Format, docStart: nat, posStart: nat, bound: (nat, nat) -> real)
    requires SortedDocs(p) && BLOCK < |p|
    ensures IndexOf(p, f, docStart, posStart, bound).Valid()
  {
    var ix := IndexOf(p, f, docStart, posStart, bound);
    forall i, j | 0 <= i < j < |ix.marks|
      ensures ix.marks[i].doc < ix.marks[j].doc && ix.marks[i].docPtr <= ix.marks[j].docPtr && ix.marks[i].posPtr <= ix.marks[j].posPtr
    {
      MarkOrder(p, f, docStart, posStart, i, j);
    }
    forall j | 0 <= j < |ix.marks|
      ensures ix.marks[j].doc < EOF
    {
      if j > 0 {
        MarkOrder(p, f, docStart, posStart, 0, j);
      }
    }
  }
}
