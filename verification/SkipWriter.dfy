/** Writing a skip list: the levels grow in memory and are flushed coarsest first. */
module SkipWriting {
  import opened Arithmetic
  import opened Limits
  import opened SkipFormat

  function Log(x: nat, base: nat): nat
    requires 2 <= base
  {
    if x < base then 0 else DivSmaller(x, base); 1 + Log(x / base, base)
  }

  lemma DivSmaller(x: nat, base: nat)
    requires 2 <= base <= x
    ensures x / base < x
  {
    MulMonotone(2, base, x / base);
    assert x == base * (x / base) + x % base;
  }

  /** Levels needed for `count` documents. */
  function CountMaxLevels(skip0: nat, skipN: nat, count: nat): nat
    requires 1 <= skip0 && 2 <= skipN
  {
    if skip0 < count then 1 + Log(count / skip0, skipN) else 0
  }

  lemma Bracket(x: nat, d: nat, low: nat, high: nat)
    requires 1 <= d && low <= x / d < high
    ensures d * low <= x < d * high
  {
    var q := x / d;
    assert x == q * d + x % d;
    MulMonotone(low, q, d);
    MulMonotone(q + 1, high, d);
    assert (q + 1) * d == q * d + d;
  }

  /** The logarithm rounded down. */
  lemma {:induction false} LogExact(x: nat, base: nat)
    requires 2 <= base
    ensures x < Power(base, Log(x, base) + 1) && (1 <= x ==> Power(base, Log(x, base)) <= x)
  {
    if x >= base {
      DivSmaller(x, base);
      DivAtLeast(x, base, 1);
      LogExact(x / base, base);
      var n := Log(x / base, base);
      assert Log(x, base) == n + 1;
      Bracket(x, base, Power(base, n), Power(base, n + 1));
      assert Power(base, n + 2) == base * Power(base, n + 1);
    }
  }

  /** The unit of the coarsest level is the largest that does not exceed the number of documents. */
  lemma LevelsExact(skip0: nat, skipN: nat, count: nat)
    requires 1 <= skip0 && 2 <= skipN
    ensures var n := CountMaxLevels(skip0, skipN, count);
            if skip0 < count then 1 <= n && skip0 * Power(skipN, n - 1) <= count < skip0 * Power(skipN, n) else n == 0
  {
    if skip0 < count {
      DivAtLeast(count, skip0, 1);
      LogExact(count / skip0, skipN);
      var n := Log(count / skip0, skipN);
      hide Log, Power;
      Bracket(count, skip0, Power(skipN, n), Power(skipN, n + 1));
    }
  }

  /** Entries a level holds after n calls. */
  function Entries(ix: Index, level: nat, n: nat): nat
    requires 1 <= ix.skipN
  {
    n / ix.Unit(level)
  }

  lemma EntriesBound(ix: Index, level: nat, n: nat)
    requires 1 <= ix.skipN
    ensures ix.At(level, Entries(ix, level, n)) <= n < ix.At(level, Entries(ix, level, n)) + ix.Unit(level)
  {
    var u := ix.Unit(level);
    assert n == (n / u) * u + n % u;
  }

  lemma EntriesExact(ix: Index, level: nat, n: nat, q: nat)
    requires 1 <= ix.skipN && ix.At(level, q) <= n < ix.At(level, q) + ix.Unit(level)
    ensures Entries(ix, level, n) == q
  {
    EntriesBound(ix, level, n);
    var e := Entries(ix, level, n);
    AtStep(ix, level, q);
    AtStep(ix, level, e);
    if e < q {
      AtOrder(ix, level, e, q);
    } else if q < e {
      AtOrder(ix, level, q, e);
    }
  }

  /** n is the count of an entry of this level. */
  ghost predicate OnLevel(ix: Index, level: nat, n: nat)
    requires 1 <= ix.skipN
  {
    ix.At(level, Entries(ix, level, n)) == n
  }

  /** A call adds an entry to exactly the levels its count belongs to. */
  lemma EntriesStep(ix: Index, level: nat, n: nat)
    requires 1 <= ix.skipN && 1 <= n
    ensures Entries(ix, level, n) == Entries(ix, level, n - 1) + if OnLevel(ix, level, n) then 1 else 0
  {
    EntriesBound(ix, level, n);
    var e := Entries(ix, level, n);
    if OnLevel(ix, level, n) {
      if e == 0 {
        AtStep(ix, level, 0);
      } else {
        AtStep(ix, level, e - 1);
        EntriesExact(ix, level, n - 1, e - 1);
      }
    } else {
      EntriesExact(ix, level, n - 1, e);
    }
  }

  /** Belonging to a level, read off the count of the level below. */
  lemma OnLevelUp(ix: Index, level: nat, n: nat)
    requires 1 <= ix.skipN
    ensures OnLevel(ix, level + 1, n) <==> OnLevel(ix, level, n) && Entries(ix, level, n) % ix.skipN == 0
    ensures OnLevel(ix, level + 1, n) ==> Entries(ix, level + 1, n) == Entries(ix, level, n) / ix.skipN
  {
    var e, f := Entries(ix, level, n), Entries(ix, level + 1, n);
    if OnLevel(ix, level + 1, n) {
      AtDown(ix, level, f);
      EntriesExact(ix, level, n, f * ix.skipN);
      MultipleOf(f, ix.skipN);
    }
    if OnLevel(ix, level, n) && e % ix.skipN == 0 {
      var q := e / ix.skipN;
      assert e == q * ix.skipN;
      AtDown(ix, level, q);
      EntriesExact(ix, level + 1, n, q);
    }
  }

  lemma MultipleOf(f: nat, m: nat)
    requires 1 <= m
    ensures (f * m) % m == 0 && (f * m) / m == f
  {
    var q, r := (f * m) / m, (f * m) % m;
    assert f * m == q * m + r;
    assert (f + 1) * m == f * m + m && (q + 1) * m == q * m + m;
    if f < q {
      MulMonotone(f + 1, q, m);
      assert false;
    } else if q < f {
      MulMonotone(q + 1, f, m);
    }
  }

  lemma {:induction false} OffLevelUp(ix: Index, level: nat, above: nat, n: nat)
    requires 1 <= ix.skipN && level <= above && !OnLevel(ix, level, n)
    ensures !OnLevel(ix, above, n)
  {
    if level < above {
      OffLevelUp(ix, level, above - 1, n);
      OnLevelUp(ix, above - 1, n);
    }
  }

  /** The levels of a writer hold the first n boundaries of the list. */
  ghost predicate Holds(ix: Index, levels: seq<seq<Token>>, n: nat) {
    && ix.Valid() && n < |ix.marks|
    && forall i :: 0 <= i < |levels| ==> HoldsAt(ix, levels[i], i, n)
  }

  ghost predicate HoldsAt(ix: Index, level: seq<Token>, i: nat, n: nat)
    requires ix.Valid() && n < |ix.marks|
  {
    EntriesBound(ix, i, n);
    level == LevelTokens(ix, i, Entries(ix, i, n))
  }

  /** The entry that a call with count n leaves in level i. */
  lemma HoldsNext(ix: Index, level: seq<Token>, i: nat, n: nat)
    requires ix.Valid() && 1 <= n < |ix.marks| && OnLevel(ix, i, n) && HoldsAt(ix, level, i, n - 1)
    ensures var e := Entries(ix, i, n);
            && 1 <= e && ix.At(i, e) < |ix.marks| && 1 <= ix.skipN
            && HoldsAt(ix, level + EntryTokens(i, e, ix.skipN, ix.EntryAt(i, e)), i, n)
            && |level| + 1 == ChildPtr(i, e)
  {
    EntriesStep(ix, i, n);
    AtStep(ix, i, n);
  }

  lemma HoldsNextLeaf(ix: Index, level: seq<Token>, n: nat)
    requires ix.Valid() && 1 <= n < |ix.marks| && HoldsAt(ix, level, 0, n - 1)
    ensures OnLevel(ix, 0, n) && Entries(ix, 0, n) == n && ix.At(0, n) < |ix.marks|
    ensures HoldsAt(ix, level + [Skip(ix.EntryAt(0, n))], 0, n)
    ensures |level| + 1 == ChildPtr(0, Entries(ix, 0, n))
  {
    EntriesExact(ix, 0, n, n);
    HoldsNext(ix, level, 0, n);
  }

  lemma HoldsNextUpper(ix: Index, level: seq<Token>, i: nat, n: nat)
    requires ix.Valid() && 1 <= n < |ix.marks| && 0 < i && OnLevel(ix, i, n) && HoldsAt(ix, level, i, n - 1)
    ensures var e := Entries(ix, i, n);
            && 1 <= e && ix.At(i, e) < |ix.marks| && 1 <= Entries(ix, i - 1, n)
            && HoldsAt(ix, level + [Skip(ix.EntryAt(i, e)), Child(ChildPtr(i - 1, Entries(ix, i - 1, n)))], i, n)
            && |level| + 1 == ChildPtr(i, e)
  {
    hide LevelTokens, HoldsAt, OnLevel, Entries, Index.At, Index.Unit;
    HoldsNext(ix, level, i, n);
    OnLevelUp(ix, i - 1, n);
    var e, d := Entries(ix, i, n), Entries(ix, i - 1, n);
    assert d == d / ix.skipN * ix.skipN + d % ix.skipN;
  }

  lemma HoldsFacts(ix: Index, levels: seq<seq<Token>>, top: nat, n: nat)
    requires top <= |levels| && Holds(ix, levels[..top], n)
    ensures ix.Valid() && n < |ix.marks| && 1 <= ix.skipN
    ensures forall j :: 0 <= j < top ==> HoldsAt(ix, levels[j], j, n)
  {
    forall j | 0 <= j < top
      ensures HoldsAt(ix, levels[j], j, n)
    {
      assert levels[..top][j] == levels[j];
    }
  }

  lemma HoldsStill(ix: Index, level: seq<Token>, i: nat, n: nat)
    requires ix.Valid() && 1 <= n < |ix.marks| && !OnLevel(ix, i, n) && HoldsAt(ix, level, i, n - 1)
    ensures HoldsAt(ix, level, i, n)
  {
    EntriesStep(ix, i, n);
  }

  /** What the caller writes for level i is the entry the list has there. */
  ghost predicate Writes(ix: Index, write: nat -> Entry, i: nat, n: nat)
    requires ix.Valid()
  {
    1 <= Entries(ix, i, n) && ix.At(i, Entries(ix, i, n)) < |ix.marks| && write(i) == ix.EntryAt(i, Entries(ix, i, n))
  }

  lemma WritesFacts(ix: Index, write: nat -> Entry, i: nat, n: nat)
    requires ix.Valid() && Writes(ix, write, i, n)
    ensures 1 <= Entries(ix, i, n) && ix.At(i, Entries(ix, i, n)) < |ix.marks| && write(i) == ix.EntryAt(i, Entries(ix, i, n))
  {}

  lemma NoneAbove(ix: Index, levels: seq<seq<Token>>, i: nat, top: nat, n: nat)
    requires ix.Valid() && 1 <= n < |ix.marks| && 1 <= i <= top <= |levels|
    requires OnLevel(ix, i - 1, n) && (Entries(ix, i - 1, n) % ix.skipN != 0 || i == top)
    requires forall j :: 0 <= j < i ==> HoldsAt(ix, levels[j], j, n)
    requires forall j :: i <= j < top ==> HoldsAt(ix, levels[j], j, n - 1)
    ensures Holds(ix, levels[..top], n) && forall j :: i <= j < top ==> !OnLevel(ix, j, n)
  {
    forall j | i <= j < top
      ensures HoldsAt(ix, levels[j], j, n) && !OnLevel(ix, j, n)
    {
      OnLevelUp(ix, i - 1, n);
      OffLevelUp(ix, i, j, n);
      HoldsStill(ix, levels[j], j, n);
    }
  }

  class SkipWriter {
    const skip0: nat
    const skipN: nat
    var levels: seq<seq<Token>>
    var maxLevels: nat

    predicate Valid()
      reads this
    {
      1 <= skip0 && 2 <= skipN && maxLevels <= |levels|
    }

    constructor (skip0: nat, skipN: nat)
      requires 1 <= skip0 && 2 <= skipN
      ensures Valid() && this.skip0 == skip0 && this.skipN == skipN && maxLevels == 0
    {
      this.skip0, this.skipN := skip0, skipN;
      levels, maxLevels := [], 0;
    }

    method Prepare(max: nat, count: nat)
      requires Valid()
      modifies this
      ensures Valid()
      ensures maxLevels == var needed := CountMaxLevels(skip0, skipN, count); if max <= needed then max else needed
      ensures forall i :: 0 <= i < |levels| ==> levels[i] == []
    {
      var needed := CountMaxLevels(skip0, skipN, count);
      maxLevels := if max <= needed then max else needed;
      Reset();
      while |levels| < maxLevels
        invariant maxLevels == if max <= needed then max else needed
        invariant forall i :: 0 <= i < |levels| ==> levels[i] == []
        decreases maxLevels - |levels|
      {
        levels := levels + [[]];
      }
    }

    method Reset()
      modifies this`levels
      ensures |levels| == |old(levels)| && forall i :: 0 <= i < |levels| ==> levels[i] == []
    {
      levels := seq(|levels|, i => []);
    }

    /** Adds the boundary after `count` documents to every level it belongs to, and tells how
        many levels that were. `live` is off for a list that will turn out to be out of order. */
    method Skip(count: nat, write: nat -> Entry, ghost ix: Index, ghost n: nat, ghost live: bool) returns (top: nat)
      requires Valid() && 1 <= maxLevels && (live ==> count == n * skip0 && 1 <= n)
      requires live ==> ix.skip0 == skip0 && ix.skipN == skipN && n < |ix.marks| && Holds(ix, levels[..maxLevels], n - 1)
      requires live ==> forall i :: 0 <= i < maxLevels && OnLevel(ix, i, n) ==> Writes(ix, write, i, n)
      modifies this`levels
      ensures Valid() && |levels| == |old(levels)| && top <= maxLevels
      ensures count % skip0 != 0 ==> top == 0 && levels == old(levels)
      ensures live ==> Holds(ix, levels[..maxLevels], n) && forall i :: 0 <= i < maxLevels ==> (OnLevel(ix, i, n) <==> i < top)
    {
      hide *;
      ValidFacts();
      if live {
        MultipleOf(n, skip0);
        HoldsFacts(ix, levels, maxLevels, n - 1);
        HoldsNextLeaf(ix, levels[0], n);
        WritesFacts(ix, write, 0, n);
      }
      top := 0;
      if count % skip0 == 0 {
        var left := count / skip0;
        levels := levels[0 := levels[0] + [SkipFormat.Skip(write(0))]];
        var child: nat := |levels[0]|;
        top := 1;
        while left % skipN == 0 && top < maxLevels
          invariant 1 <= top <= maxLevels <= |levels| == |old(levels)|
          invariant live ==> OnLevel(ix, top - 1, n) && left == Entries(ix, top - 1, n)
          invariant live ==> left >= 1 && child == ChildPtr(top - 1, left)
          invariant live ==> forall j :: 0 <= j < top ==> HoldsAt(ix, levels[j], j, n) && OnLevel(ix, j, n)
          invariant live ==> forall j :: top <= j < maxLevels ==> HoldsAt(ix, levels[j], j, n - 1)
          decreases maxLevels - top
        {
          if live {
            OnLevelUp(ix, top - 1, n);
            WritesFacts(ix, write, top, n);
          }
          left := left / skipN;
          child := AddEntry(top, write(top), child, ix, n, live);
          top := top + 1;
        }
        if live {
          NoneAbove(ix, levels, top, maxLevels, n);
        }
      }
      StillValid();
    }

    lemma ValidFacts()
      requires Valid()
      ensures 1 <= skip0 && 2 <= skipN && maxLevels <= |levels|
    {}

    lemma StillValid()
      requires 1 <= skip0 && 2 <= skipN && maxLevels <= |levels|
      ensures Valid()
    {}

    /** Appends an entry and its child pointer to a level; the result addresses the entry. */
    method AddEntry(i: nat, entry: Entry, child: nat, ghost ix: Index, ghost n: nat, ghost live: bool) returns (next: nat)
      requires 0 < i < |levels|
      requires live ==>
                 && ix.Valid() && 1 <= n < |ix.marks| && OnLevel(ix, i, n) && HoldsAt(ix, levels[i], i, n - 1)
                 && Entries(ix, i, n) >= 1 && ix.At(i, Entries(ix, i, n)) < |ix.marks| && entry == ix.EntryAt(i, Entries(ix, i, n))
                 && Entries(ix, i - 1, n) >= 1 && child == ChildPtr(i - 1, Entries(ix, i - 1, n))
      modifies this`levels
      ensures |levels| == |old(levels)| && levels == old(levels)[i := levels[i]]
      ensures live ==> HoldsAt(ix, levels[i], i, n) && next == ChildPtr(i, Entries(ix, i, n))
    {
      hide *;
      if live {
        HoldsNextUpper(ix, levels[i], i, n);
      }
      levels := levels[i := levels[i] + [SkipFormat.Skip(entry)]];
      next := |levels[i]|;
      levels := levels[i := levels[i] + [Child(child)]];
      assert levels[i] == old(levels[i]) + [SkipFormat.Skip(entry), Child(child)];
    }

    /** Number of levels up to the highest one that holds something. */
    method CountLevels() returns (n: nat)
      requires Valid()
      ensures n <= maxLevels && (n > 0 ==> levels[n - 1] != [])
      ensures forall i :: n <= i < maxLevels ==> levels[i] == []
    {
      n := maxLevels;
      while n > 0 && levels[n - 1] == []
        invariant n <= maxLevels
        invariant forall i :: n <= i < maxLevels ==> levels[i] == []
      {
        n := n - 1;
      }
    }

    /** Writes the number of levels and every level, coarsest first, with its length. */
    method FlushLevels(n: nat, out: seq<Token>) returns (out': seq<Token>)
      requires n <= |levels|
      ensures out' == out + [LevelCount(n)] + LevelsTokens(levels, n)
    {
      out' := out + [LevelCount(n)];
      var i: nat := n;
      while i > 0
        invariant i <= n <= |levels|
        invariant out' + LevelsTokens(levels, i) == out + [LevelCount(n)] + LevelsTokens(levels, n)
      {
        i := i - 1;
        ghost var rest := LevelsTokens(levels, i);
        assert out' + ([LevelLength(|levels[i]|)] + levels[i] + rest) == out' + [LevelLength(|levels[i]|)] + levels[i] + rest;
        out' := out' + [LevelLength(|levels[i]|)] + levels[i];
      }
      assert out' + [] == out';
    }
  }

  /** The first n levels as they are flushed. */
  ghost function LevelsTokens(levels: seq<seq<Token>>, n: nat): seq<Token>
    requires n <= |levels|
  {
    if n == 0 then [] else [LevelLength(|levels[n - 1]|)] + levels[n - 1] + LevelsTokens(levels, n - 1)
  }

  lemma {:induction false} LevelsTokensPrefix(a: seq<seq<Token>>, b: seq<seq<Token>>, n: nat)
    requires n <= |a| && n <= |b| && forall i :: 0 <= i < n ==> a[i] == b[i]
    ensures LevelsTokens(a, n) == LevelsTokens(b, n)
  {
    if n > 0 {
      LevelsTokensPrefix(a, b, n - 1);
    }
  }

  lemma CompletePrefix(ix: Index, levels: seq<seq<Token>>, n: nat)
    requires Complete(ix, levels, n)
    ensures Complete(ix, levels[..n], n)
  {
    forall i | 0 <= i < n
      ensures HoldsAt(ix, levels[..n][i], i, ix.Inner())
    {
      assert HoldsAt(ix, levels[i], i, ix.Inner());
    }
  }

  lemma HoldsNone(ix: Index, levels: seq<seq<Token>>)
    requires ix.Valid() && forall i :: 0 <= i < |levels| ==> levels[i] == []
    ensures Holds(ix, levels, 0)
  {
    forall i | 0 <= i < |levels|
      ensures HoldsAt(ix, levels[i], i, 0)
    {
      AtStep(ix, i, 0);
      EntriesExact(ix, i, 0, 0);
    }
  }

  /** All boundaries of the list are in. */
  ghost predicate Complete(ix: Index, levels: seq<seq<Token>>, n: nat) {
    && ix.Valid() && 1 <= n <= |levels| && Holds(ix, levels, ix.Inner())
    && (forall i :: 0 <= i < n ==> levels[i] != [])
  }

  lemma {:induction false} LevelTokensPrefix(ix: Index, level: nat, k: nat, n: nat)
    requires ix.Valid() && k <= n && ix.At(level, n) < |ix.marks|
    ensures ix.At(level, k) < |ix.marks|
    ensures EntryEnd(level, k) <= EntryEnd(level, n) && LevelTokens(ix, level, n)[..EntryEnd(level, k)] == LevelTokens(ix, level, k)
    decreases n - k
  {
    if k < n {
      AtStep(ix, level, n - 1);
      LevelTokensPrefix(ix, level, k, n - 1);
    } else {
      assert LevelTokens(ix, level, n)[..EntryEnd(level, n)] == LevelTokens(ix, level, n);
    }
  }

  /** A level's complete stream, wherever it is placed, is what a reader of the level expects. */
  lemma StoredFromTokens(ix: Index, file: seq<Token>, begin: nat, level: nat)
    requires ix.Valid() && ix.At(level, Entries(ix, level, ix.Inner())) < |ix.marks|
    requires var t := LevelTokens(ix, level, Entries(ix, level, ix.Inner())); begin + |t| <= |file| && file[begin..begin + |t|] == t
    ensures LevelStored(ix, file, begin, level)
  {
    var n := Entries(ix, level, ix.Inner());
    var t := LevelTokens(ix, level, n);
    EntriesBound(ix, level, ix.Inner());
    forall k | 1 <= k && ix.At(level, k) < |ix.marks|
      ensures EntryStored(ix, file, begin, level, k)
    {
      if n < k {
        AtOrder(ix, level, n, k);
        AtStep(ix, level, n);
      }
      EntryFromTokens(ix, file, begin, level, n, k);
    }
  }

  lemma EntryFromTokens(ix: Index, file: seq<Token>, begin: nat, level: nat, n: nat, k: nat)
    requires ix.Valid() && 1 <= k <= n && ix.At(level, n) < |ix.marks|
    requires var t := LevelTokens(ix, level, n); begin + |t| <= |file| && file[begin..begin + |t|] == t
    ensures EntryStored(ix, file, begin, level, k)
  {
    hide LevelTokens, Index.At, Index.EntryAt, LevelStored;
    var t := LevelTokens(ix, level, n);
    LevelTokensPrefix(ix, level, k, n);
    var last := EntryTokens(level, k, ix.skipN, ix.EntryAt(level, k));
    var from := EntryEnd(level, k - 1);
    LastTokens(ix, level, k);
    forall i | 0 <= i < |last|
      ensures file[begin + from + i] == last[i]
    {
      assert t[..EntryEnd(level, k)][from + i] == LevelTokens(ix, level, k)[from + i];
      assert file[begin..begin + |t|][from + i] == t[from + i];
    }
    assert file[begin + from] == last[0];
    if level > 0 {
      MulPositive(k, ix.skipN);
      assert file[begin + from + 1] == last[1];
    }
  }

  lemma LastTokens(ix: Index, level: nat, k: nat)
    requires ix.Valid() && 1 <= k && ix.At(level, k) < |ix.marks|
    ensures var last := EntryTokens(level, k, ix.skipN, ix.EntryAt(level, k));
            && EntryEnd(level, k - 1) + |last| == EntryEnd(level, k)
            && forall i :: 0 <= i < |last| ==> LevelTokens(ix, level, k)[EntryEnd(level, k - 1) + i] == last[i]
  {
    AtStep(ix, level, k - 1);
  }

  lemma LeafCount(ix: Index, n: nat)
    requires 1 <= ix.skipN
    ensures Entries(ix, 0, n) == n
  {
    EntriesExact(ix, 0, n, n);
  }

  lemma Filled(ix: Index, level: seq<Token>, i: nat)
    requires ix.Valid() && HoldsAt(ix, level, i, ix.Inner())
    ensures level != [] <==> 1 <= Entries(ix, i, ix.Inner())
  {}

  /** No flushed level of a list with an inner boundary is empty. */
  lemma CompleteLevels(ix: Index, levels: seq<seq<Token>>, n: nat, top: nat)
    requires ix.Valid() && 1 <= top <= |levels| && n <= top && Holds(ix, levels[..top], ix.Inner())
    requires n > 0 ==> levels[n - 1] != []
    requires forall i :: n <= i < top ==> levels[i] == []
    ensures Complete(ix, levels[..top], n)
  {
    hide LevelTokens, Index.At, HoldsAt, Entries;
    HoldsFacts(ix, levels, top, ix.Inner());
    Filled(ix, levels[0], 0);
    LeafCount(ix, ix.Inner());
    var i: nat := n;
    while i > 0
      invariant i <= n <= |levels| && (i > 0 ==> levels[i - 1] != [])
      invariant forall j :: i <= j < n ==> levels[j] != []
    {
      i := i - 1;
      if i > 0 {
        Filled(ix, levels[i], i);
        Filled(ix, levels[i - 1], i - 1);
        EntriesShrink(ix, i - 1, ix.Inner());
      }
    }
  }

  /** Every entry of a level has entries below it. */
  lemma EntriesShrink(ix: Index, level: nat, n: nat)
    requires 1 <= ix.skipN && 1 <= Entries(ix, level + 1, n)
    ensures 1 <= Entries(ix, level, n)
  {
    EntriesBound(ix, level + 1, n);
    EntriesBound(ix, level, n);
    var e := Entries(ix, level + 1, n);
    AtDown(ix, level, e);
    MulPositive(e, ix.skipN);
    if Entries(ix, level, n) == 0 {
      AtStep(ix, level, 0);
      AtOrder(ix, level, 0, e * ix.skipN);
    }
  }

  lemma EntryReaches(ix: Index, level: nat, n: nat)
    requires 1 <= ix.skipN && 1 <= Entries(ix, level, n)
    ensures ix.Unit(level) <= n
  {
    EntriesBound(ix, level, n);
    MulMonotone(1, Entries(ix, level, n), ix.Unit(level));
  }

  /** The number of levels a writer prepares for a segment of `total` documents leaves
      out no level that a list of at most that many documents could fill. */
  lemma LevelsSuffice(ix: Index, level: nat, total: nat)
    requires ix.Valid() && ix.count <= total && 1 <= Entries(ix, level, ix.Inner())
    ensures level < CountMaxLevels(ix.skip0, ix.skipN, total)
  {
    var s0, inner := ix.skip0, ix.Inner();
    EntryReaches(ix, level, inner);
    MulMonotone(1, inner, s0);
    DivAtLeast(total, s0, inner);
    LogUnit(ix, level, total / s0);
  }

  lemma {:induction false} LogUnit(ix: Index, level: nat, x: nat)
    requires 2 <= ix.skipN && ix.Unit(level) <= x
    ensures level <= Log(x, ix.skipN)
    decreases level
  {
    if level > 0 {
      MulMonotone(1, ix.Unit(level - 1), ix.skipN);
      DivAtLeast(x, ix.skipN, ix.Unit(level - 1));
      LogUnit(ix, level - 1, x / ix.skipN);
    }
  }
}
