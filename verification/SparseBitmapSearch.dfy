/** Searching a chain of blocks: where a search ends, block by block, and when that is the successor. */
module SparseBitmapSearch {
  import opened Limits
  import opened SparseBitmapFormat

  /** A stored set. The blocks hold the identifiers and the sentinel in ascending order; blocks with
      the same number are possible. */
  datatype Bitmap = Bitmap(file: seq<Token>, ids: seq<nat>, blocks: seq<BlockRef>, written: bool) {
    ghost predicate Valid() {
      |blocks| >= 1 && Stored(file, blocks[0].at, ids, blocks, written)
    }

    ghost function All(): seq<nat> { ids + [EOF] }

    ghost predicate Has(j: nat) {
      j < |blocks| && blocks[j].lo < blocks[j].hi <= |ids| + 1
    }

    /** The identifiers of block j. */
    ghost function Own(j: nat): seq<nat>
      requires Has(j)
    {
      All()[blocks[j].lo..blocks[j].hi]
    }

    ghost predicate Covers(j: nat, target: nat)
      requires Has(j)
    {
      blocks[j].Base() <= target < blocks[j].Base() + BLOCK_SIZE
    }
  }

  lemma HasBlock(s: Bitmap, j: nat)
    requires s.Valid() && j < |s.blocks|
    ensures s.Has(j) && BlockStored(s.file, s.All(), s.blocks[j], s.written) && s.blocks[j].id < BLOCK_SIZE
    ensures s.blocks[j].hi - s.blocks[j].lo <= BLOCK_SIZE
    ensures j + 1 < |s.blocks| ==> s.blocks[j].hi == s.blocks[j + 1].lo && s.blocks[j].End(s.written) == s.blocks[j + 1].at
    ensures j + 1 == |s.blocks| ==> s.blocks[j].id == BLOCK_SIZE - 1 && s.blocks[j].lo == |s.ids| && s.blocks[j].hi == |s.ids| + 1
    ensures s.blocks[0].lo == 0
  {}

  lemma SomeBlock(s: Bitmap)
    requires s.Valid()
    ensures |s.blocks| >= 1
  {}

  /** The identifiers of a block are sorted and lie in it. */
  lemma OwnFacts(s: Bitmap, j: nat)
    requires s.Valid() && j < |s.blocks|
    ensures s.Has(j) && Sorted(s.Own(j))
    ensures forall i :: 0 <= i < |s.Own(j)| ==> s.blocks[j].Base() <= s.Own(j)[i] < s.blocks[j].Base() + BLOCK_SIZE
    ensures forall i :: 0 <= i < |s.Own(j)| ==> s.Own(j)[i] == s.All()[s.blocks[j].lo + i]
    ensures Rank(s.Own(j), s.blocks[j].Base()) == 0 && Rank(s.Own(j), s.blocks[j].Base() + BLOCK_SIZE) == |s.Own(j)|
  {
    hide SparseStored, DenseStored, Chained, Stored, Rank, Bitmap.Valid, BlockRef.End;
    HasBlock(s, j);
    AllSorted(s);
    forall i | 0 <= i < |s.Own(j)|
      ensures s.blocks[j].Base() <= s.Own(j)[i] < s.blocks[j].Base() + BLOCK_SIZE
    {
      assert s.All()[s.blocks[j].lo + i] / BLOCK_SIZE == s.blocks[j].id;
    }
    RankEnds(s.Own(j), s.blocks[j].Base());
  }

  /** Ranks in a slice, when everything before it is smaller and everything after it is not. */
  lemma RankSlice(all: seq<nat>, lo: nat, hi: nat, target: nat)
    requires Sorted(all) && lo < hi <= |all| && (lo > 0 ==> all[lo - 1] < target) && (hi < |all| ==> target <= all[hi])
    ensures Rank(all, target) == lo + Rank(all[lo..hi], target)
    ensures target <= all[hi - 1] ==> Rank(all[lo..hi], target) < hi - lo
  {
    hide Rank, Sorted;
    var own := all[lo..hi];
    SortedSlice(all, lo, hi);
    RankSplits(own, target);
    var r := Rank(own, target);
    if r > 0 {
      assert own[r - 1] < target;
    }
    if r < |own| {
      assert target <= own[r];
    }
    RankIs(all, target, lo + r);
  }

  lemma SortedSlice(all: seq<nat>, lo: nat, hi: nat)
    requires Sorted(all) && lo <= hi <= |all|
    ensures Sorted(all[lo..hi])
  {}

  lemma AllSorted(s: Bitmap)
    requires s.Valid()
    ensures Sorted(s.All()) && forall i :: 0 <= i < |s.ids| ==> MIN <= s.ids[i] < EOF
  {
    assert forall i :: 0 <= i < |s.ids| ==> s.All()[i] == s.ids[i];
    assert s.All()[|s.ids|] == EOF;
  }

  /** The first block from the j-th on whose number is at least b. */
  ghost function NextFrom(s: Bitmap, b: nat, j: nat): (n: nat)
    requires s.Valid() && j < |s.blocks| && b < BLOCK_SIZE
    ensures j <= n < |s.blocks| && b <= s.blocks[n].id && forall i :: j <= i < n ==> s.blocks[i].id < b
    decreases |s.blocks| - j
  {
    HasBlock(s, j);
    if b <= s.blocks[j].id then j else NextFrom(s, b, j + 1)
  }

  /** The block that the jump table names for number b. */
  ghost function Jumped(s: Bitmap, table: seq<Jump>, b: nat): (n: nat)
    requires s.Valid() && table != [] && TableStarts(table, s.blocks, s.blocks[0].at) && b < BLOCK_SIZE
    ensures Starts(s.blocks, s.blocks[0].at, table[if b < |table| then b else |table| - 1], n)
  {
    var jump := table[if b < |table| then b else |table| - 1];
    assert StartOk(s.blocks, s.blocks[0].at, jump);
    var n: nat :| Starts(s.blocks, s.blocks[0].at, jump, n);
    n
  }

  /** The block that a search for number b goes to: the table is used for numbers far from `here`,
      otherwise the headers are read from block `next` on. */
  ghost function Place(s: Bitmap, table: seq<Jump>, here: nat, next: nat, b: nat): (n: nat)
    requires s.Valid() && TableStarts(table, s.blocks, s.blocks[0].at) && next < |s.blocks| && b < BLOCK_SIZE
    ensures n < |s.blocks|
  {
    if table != [] && b >= here + SCAN_THRESHOLD then Jumped(s, table, b) else NextFrom(s, b, next)
  }

  /** The rank that a search in block n ends with: the successor in the block of the target's number,
      or else the first identifier of the next block; and the first one of a block with another number. */
  ghost function InBlock(s: Bitmap, n: nat, target: nat): nat
    requires s.Valid() && n < |s.blocks|
  {
    HasBlock(s, n);
    if s.blocks[n].id == target / BLOCK_SIZE then s.blocks[n].lo + Rank(s.Own(n), target) else s.blocks[n].lo
  }

  /** The block that a search goes to. `from` is 0 before the first block is read, otherwise block
      from - 1 is the current one. */
  ghost function Heading(s: Bitmap, table: seq<Jump>, from: nat, target: nat): (n: nat)
    requires s.Valid() && TableStarts(table, s.blocks, s.blocks[0].at) && from <= |s.blocks| && target <= EOF
    ensures n < |s.blocks|
  {
    var b := target / BLOCK_SIZE;
    if from == 0 then Place(s, table, 0, 0, b)
    else
      HasBlock(s, from - 1);
      if s.blocks[from - 1].id < b then Place(s, table, s.blocks[from - 1].id, from, b) else from - 1
  }

  /** The rank that a search ends with. */
  ghost function Landing(s: Bitmap, table: seq<Jump>, from: nat, target: nat): nat
    requires s.Valid() && TableStarts(table, s.blocks, s.blocks[0].at) && from <= |s.blocks| && target <= EOF
  {
    InBlock(s, Heading(s, table, from, target), target)
  }

  lemma NextFromHere(s: Bitmap, table: seq<Jump>)
    requires s.Valid() && TableStarts(table, s.blocks, s.blocks[0].at)
    ensures Place(s, table, 0, 0, 0) == 0
  {}

  /** The first search finds the first identifier, whatever the blocks are like. */
  lemma FirstLanding(s: Bitmap)
    requires s.Valid() && TableStarts([], s.blocks, s.blocks[0].at)
    ensures Landing(s, [], 0, MIN) == 0
  {
    hide Bitmap.Valid, SparseStored, DenseStored, Rank, Sorted;
    SomeBlock(s);
    HasBlock(s, 0);
    OwnFacts(s, 0);
    AllSorted(s);
    NextFromHere(s, []);
    forall i | 0 <= i < |s.Own(0)|
      ensures MIN <= s.Own(0)[i]
    {
      assert s.Own(0)[i] == s.All()[i];
    }
    RankIs(s.Own(0), MIN, 0);
  }

  lemma NoTable(blocks: seq<BlockRef>, origin: nat)
    ensures TableOk([], blocks, origin) && TableNames([], blocks, origin) && TableStarts([], blocks, origin)
  {}

  lemma StoredIsBitmap(s: Bitmap, origin: nat)
    requires Stored(s.file, origin, s.ids, s.blocks, s.written)
    ensures s.Valid() && s.blocks[0].at == origin
  {}

  /** The identifier before block n, if any, lies before the target. */
  ghost predicate Behind(s: Bitmap, n: nat, target: nat)
    requires s.Valid() && n < |s.blocks|
  {
    HasBlock(s, n);
    s.blocks[n].lo == 0 || s.All()[s.blocks[n].lo - 1] < target
  }

  lemma BehindNext(s: Bitmap, n: nat, target: nat)
    requires s.Valid() && n + 1 < |s.blocks| && s.blocks[n].id < target / BLOCK_SIZE
    ensures Behind(s, n + 1, target)
  {
    hide Bitmap.Valid, Rank, Sorted;
    OwnFacts(s, n);
    HasBlock(s, n);
    assert s.Own(n)[|s.Own(n)| - 1] == s.All()[s.blocks[n + 1].lo - 1];
  }

  lemma BehindFrom(s: Bitmap, j: nat, target: nat)
    requires s.Valid() && j < |s.blocks| && target <= EOF && Behind(s, j, target)
    ensures Behind(s, NextFrom(s, target / BLOCK_SIZE, j), target)
  {
    var n := NextFrom(s, target / BLOCK_SIZE, j);
    if j < n {
      BehindNext(s, n - 1, target);
    }
  }

  lemma StartsOnce(s: Bitmap, jump: Jump, i: nat, j: nat)
    requires s.Valid() && Starts(s.blocks, s.blocks[0].at, jump, i) && Starts(s.blocks, s.blocks[0].at, jump, j)
    ensures i == j
  {
    if i < j {
      LoGrows(s, i, j);
    } else if j < i {
      LoGrows(s, j, i);
    }
  }

  lemma {:induction false} LoGrows(s: Bitmap, i: nat, j: nat)
    requires s.Valid() && i < j < |s.blocks|
    ensures s.blocks[i].hi <= s.blocks[j].lo
    decreases j
  {
    HasBlock(s, j - 1);
    if i < j - 1 {
      LoGrows(s, i, j - 1);
    }
  }

  /** With a proper table, a jump goes where reading all headers would. */
  lemma JumpIsProper(s: Bitmap, table: seq<Jump>, b: nat)
    requires s.Valid() && table != [] && TableOk(table, s.blocks, s.blocks[0].at) && TableStarts(table, s.blocks, s.blocks[0].at) && b < BLOCK_SIZE
    ensures Jumped(s, table, b) == NextFrom(s, b, 0)
  {
    hide Bitmap.Valid, Chained;
    SomeBlock(s);
    var at := if b < |table| then b else |table| - 1;
    assert TableNames(table, s.blocks, s.blocks[0].at);
    assert JumpOk(s.blocks, s.blocks[0].at, at, table[at]);
    var n: nat :| FirstFrom(s.blocks, at, n) && s.blocks[0].at <= s.blocks[n].at && table[at] == Jump(s.blocks[n].lo, s.blocks[n].at - s.blocks[0].at);
    HasBlock(s, |s.blocks| - 1);
    HasBlock(s, n);
    StartsOnce(s, table[at], n, Jumped(s, table, b));
  }

  lemma {:induction false} NextFromSkips(s: Bitmap, b: nat, i: nat, j: nat)
    requires s.Valid() && i <= j < |s.blocks| && b < BLOCK_SIZE && forall k :: i <= k < j ==> s.blocks[k].id < b
    ensures NextFrom(s, b, i) == NextFrom(s, b, j)
    decreases j - i
  {
    if i < j {
      NextFromSkips(s, b, i + 1, j);
    }
  }

  lemma IdsGrow(s: Bitmap, i: nat, j: nat)
    requires s.Valid() && i <= j < |s.blocks|
    ensures s.blocks[i].id <= s.blocks[j].id < BLOCK_SIZE
  {
    HasBlock(s, i);
  }

  /** With a proper table, the place is the first block from the target's number on. */
  lemma PlaceIsNext(s: Bitmap, table: seq<Jump>, from: nat, target: nat)
    requires s.Valid() && TableOk(table, s.blocks, s.blocks[0].at) && TableStarts(table, s.blocks, s.blocks[0].at)
    requires from < |s.blocks| && target <= EOF && (from > 0 ==> s.blocks[from - 1].id < target / BLOCK_SIZE)
    ensures var b, here := target / BLOCK_SIZE, if from == 0 then 0 else s.blocks[from - 1].id;
            Place(s, table, here, from, b) == NextFrom(s, b, from) && Behind(s, NextFrom(s, b, from), target)
  {
    hide Bitmap.Valid, TableOk, TableStarts;
    var b := target / BLOCK_SIZE;
    HasBlock(s, 0);
    forall k | 0 <= k < from
      ensures s.blocks[k].id < b
    {
      IdsGrow(s, k, from - 1);
    }
    NextFromSkips(s, b, 0, from);
    if table != [] {
      JumpIsProper(s, table, b);
    }
    BehindFrom(s, 0, target);
  }

  /** What a block says about the rank of a target, if everything before it lies before the target. */
  lemma RankInBlock(s: Bitmap, n: nat, target: nat)
    requires s.Valid() && n < |s.blocks| && target <= EOF && target / BLOCK_SIZE <= s.blocks[n].id && Behind(s, n, target)
    requires Apart(s.All(), s.blocks)
    ensures InBlock(s, n, target) == Rank(s.All(), target)
  {
    hide Bitmap.Valid, Rank, Sorted, Apart;
    OwnFacts(s, n);
    HasBlock(s, n);
    AllSorted(s);
    var own, lo := s.Own(n), s.blocks[n].lo;
    if s.blocks[n].id == target / BLOCK_SIZE {
      RankSplits(own, target);
      if Rank(own, target) == |own| {
        AfterBlock(s, n, target);
      } else {
        FoundBefore(s, n, target);
      }
      RankSlice(s.All(), lo, s.blocks[n].hi, target);
    } else {
      assert s.All()[lo] == own[0];
      RankIs(s.All(), target, lo);
    }
  }

  lemma FoundBefore(s: Bitmap, n: nat, target: nat)
    requires s.Valid() && n < |s.blocks| && s.Has(n) && Rank(s.Own(n), target) < |s.Own(n)|
    ensures s.blocks[n].hi < |s.All()| ==> target <= s.All()[s.blocks[n].hi]
  {
    OwnFacts(s, n);
    AllSorted(s);
    RankSplits(s.Own(n), target);
    assert target <= s.Own(n)[Rank(s.Own(n), target)] == s.All()[s.blocks[n].lo + Rank(s.Own(n), target)];
  }

  /** Behind the block of a target's number there are only larger identifiers. */
  lemma AfterBlock(s: Bitmap, n: nat, target: nat)
    requires s.Valid() && n < |s.blocks| && s.blocks[n].id == target / BLOCK_SIZE && target <= EOF && Apart(s.All(), s.blocks)
    ensures s.blocks[n].hi < |s.All()| ==> target <= s.All()[s.blocks[n].hi]
  {
    hide Bitmap.Valid, Rank, Sorted;
    HasBlock(s, n);
    if n + 1 < |s.blocks| {
      HasBlock(s, n + 1);
      OwnFacts(s, n + 1);
      IdsGrow(s, n, n + 1);
      assert s.Own(n + 1)[0] == s.All()[s.blocks[n].hi];
      assert ApartAt(s.All(), s.blocks, n + 1);
    }
  }

  /** With a proper table and blocks that are apart, a search that comes from before its target ends at the successor. */
  lemma LandingIsRank(s: Bitmap, table: seq<Jump>, from: nat, target: nat)
    requires s.Valid() && TableOk(table, s.blocks, s.blocks[0].at) && TableStarts(table, s.blocks, s.blocks[0].at) && Apart(s.All(), s.blocks)
    requires from <= |s.blocks| && target <= EOF && (from > 0 ==> Behind(s, from - 1, target))
    ensures Landing(s, table, from, target) == Rank(s.All(), target)
  {
    hide Bitmap.Valid, TableOk, TableStarts, Apart, InBlock, Rank;
    var b := target / BLOCK_SIZE;
    if from > 0 && b <= s.blocks[from - 1].id {
      RankInBlock(s, from - 1, target);
    } else {
      if from > 0 {
        HasBlock(s, from - 1);
      } else {
        SomeBlock(s);
      }
      PlaceIsNext(s, table, from, target);
      RankInBlock(s, NextFrom(s, b, from), target);
    }
  }

  /** A table with one entry sends every search for a number from 2 on back to the first block. */
  lemma OneEntryMisleads(s: Bitmap, table: seq<Jump>, target: nat)
    requires s.Valid() && |table| == 1 && TableNames(table, s.blocks, s.blocks[0].at) && TableStarts(table, s.blocks, s.blocks[0].at)
    requires s.ids != [] && s.blocks[0].id != target / BLOCK_SIZE && SCAN_THRESHOLD * BLOCK_SIZE <= target <= EOF
    ensures Landing(s, table, 0, target) == 0 && s.All()[0] == s.ids[0]
  {
    hide Bitmap.Valid, Chained;
    SomeBlock(s);
    HasBlock(s, 0);
    assert JumpOk(s.blocks, s.blocks[0].at, 0, table[0]);
    var n: nat :| FirstFrom(s.blocks, 0, n) && s.blocks[0].at <= s.blocks[n].at && table[0] == Jump(s.blocks[n].lo, s.blocks[n].at - s.blocks[0].at);
    StartsOnce(s, table[0], n, Jumped(s, table, target / BLOCK_SIZE));
  }

  /** Where blocks are not apart, the first search for some target misses an identifier. */
  lemma Missed(s: Bitmap, j: nat) returns (target: nat)
    requires s.Valid() && 0 < j < |s.blocks| && !ApartAt(s.All(), s.blocks, j) && TableStarts([], s.blocks, s.blocks[0].at)
    ensures MIN <= target <= EOF && Landing(s, [], 0, target) < Rank(s.All(), target)
  {
    hide Bitmap.Valid, Rank, Sorted, TableStarts, ApartAt, NextFrom, InBlock, Bitmap.Own;
    HasBlock(s, 0);
    FirstOfNumber(s, j);
    var n := NextFrom(s, s.blocks[j].id, 0);
    HasBlock(s, n);
    target := s.All()[s.blocks[n].hi] + 1;
    PassedOver(s, n);
    BeyondBlock(s, n);
  }

  /** Behind all its identifiers, a block leads to the first one of the next block. */
  lemma PassedOver(s: Bitmap, n: nat)
    requires s.Valid() && n + 1 < |s.blocks| && s.Has(n) && s.Has(n + 1) && s.blocks[n].id == s.blocks[n + 1].id
    requires s.All()[s.blocks[n].hi] < s.blocks[n].id * BLOCK_SIZE + (BLOCK_SIZE - 1)
    ensures var target := s.All()[s.blocks[n].hi] + 1;
            target / BLOCK_SIZE == s.blocks[n].id && InBlock(s, n, target) == s.blocks[n].hi
  {
    hide Bitmap.Valid, Rank, Sorted;
    HasBlock(s, n);
    OwnFacts(s, n);
    OwnFacts(s, n + 1);
    var target := s.All()[s.blocks[n].hi] + 1;
    assert s.All()[s.blocks[n].hi] == s.Own(n + 1)[0];
    forall i | 0 <= i < |s.Own(n)|
      ensures s.Own(n)[i] < target
    {
      Ascending(s, s.blocks[n].lo + i, s.blocks[n].hi);
    }
    RankIs(s.Own(n), target, |s.Own(n)|);
  }

  lemma BeyondBlock(s: Bitmap, n: nat)
    requires s.Valid() && n + 1 < |s.blocks| && s.Has(n) && s.Has(n + 1)
    requires s.All()[s.blocks[n].hi] < EOF
    ensures MIN <= s.All()[s.blocks[n].hi] + 1 <= EOF && s.blocks[n].hi < Rank(s.All(), s.All()[s.blocks[n].hi] + 1)
  {
    hide Bitmap.Valid, Rank, Sorted;
    HasBlock(s, n);
    AllSorted(s);
    RankSplits(s.All(), s.All()[s.blocks[n].hi] + 1);
  }

  lemma Ascending(s: Bitmap, i: nat, j: nat)
    requires s.Valid() && i < j < |s.All()|
    ensures s.All()[i] < s.All()[j]
  {
    AllSorted(s);
  }

  /** The first two blocks of a number shared by blocks that are not apart: the second one does not
      start with the last identifier of the range. */
  lemma FirstOfNumber(s: Bitmap, j: nat)
    requires s.Valid() && 0 < j < |s.blocks| && !ApartAt(s.All(), s.blocks, j)
    ensures s.blocks[j].id < BLOCK_SIZE
    ensures var b := s.blocks[j].id;
            var n := NextFrom(s, b, 0);
            && n + 1 < |s.blocks| && s.Has(n) && s.Has(n + 1) && s.blocks[n].id == s.blocks[n + 1].id == b
            && s.All()[s.blocks[n].hi] < b * BLOCK_SIZE + (BLOCK_SIZE - 1)
  {
    hide Bitmap.Valid, Rank, Sorted, BlockStored, BlockRef.End;
    HasBlock(s, 0);
    HasBlock(s, j);
    var b := s.blocks[j].id;
    var n := NextFrom(s, b, 0);
    IdsGrow(s, n, j);
    if n == j {
      assert false;
    }
    IdsGrow(s, n + 1, j);
    IdsGrow(s, n, n + 1);
    HasBlock(s, n);
    HasBlock(s, n + 1);
    OwnFacts(s, n + 1);
    OwnFacts(s, j);
    var y := s.All()[s.blocks[n].hi];
    assert y == s.Own(n + 1)[0];
    if n + 1 < j {
      LoGrows(s, n + 1, j);
      Ascending(s, s.blocks[n].hi, s.blocks[j].lo);
      assert s.Own(j)[0] == s.All()[s.blocks[j].lo];
    } else if |s.Own(j)| > 1 {
      Ascending(s, s.blocks[j].lo, s.blocks[j].lo + 1);
      assert s.Own(j)[1] == s.All()[s.blocks[j].lo + 1];
    }
  }

  /** Reading headers from the start finds every successor exactly if the blocks are apart. */
  lemma FoundIffApart(s: Bitmap)
    requires s.Valid() && TableStarts([], s.blocks, s.blocks[0].at)
    ensures Apart(s.All(), s.blocks) <==> forall target :: MIN <= target <= EOF ==> Landing(s, [], 0, target) == Rank(s.All(), target)
  {
    hide Bitmap.Valid, Landing, Rank;
    if Apart(s.All(), s.blocks) {
      forall target | MIN <= target <= EOF
        ensures Landing(s, [], 0, target) == Rank(s.All(), target)
      {
        LandingIsRank(s, [], 0, target);
      }
    } else {
      var j :| 0 < j < |s.blocks| && !ApartAt(s.All(), s.blocks, j);
      var target := Missed(s, j);
    }
  }
}
