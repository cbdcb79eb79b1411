/** Whole runs over a skip list: write it, open it, seek in it. */
module SkipRuns {
  import opened Arithmetic
  import opened Limits
  import opened SkipFormat
  import opened SkipWriting
  import opened SkipReading

  /** The entry that a level stores for the n-th boundary, if the boundary belongs to the level. */
  function EntryOf(ix: Index, n: nat, level: nat): Entry
    requires ix.Valid()
  {
    var e := n / ix.Unit(level);
    if 1 <= e && ix.At(level, e) < |ix.marks| then ix.EntryAt(level, e) else Entry(0, 0, 0, 0, 0.0)
  }

  lemma EntryIsOf(ix: Index, write: nat -> Entry, level: nat, n: nat)
    requires ix.Valid() && 1 <= n < |ix.marks| && OnLevel(ix, level, n) && write(level) == EntryOf(ix, n, level)
    ensures Writes(ix, write, level, n)
  {
    if Entries(ix, level, n) == 0 {
      AtStep(ix, level, 0);
    }
  }

  lemma OneLevel(ix: Index)
    requires ix.Valid()
    ensures 1 <= CountMaxLevels(ix.skip0, ix.skipN, ix.count)
  {
    MulMonotone(1, ix.Inner(), ix.skip0);
  }

  /** A level with all the boundaries that belong to it. */
  ghost function FullLevel(ix: Index, level: nat): seq<Token>
    requires ix.Valid()
  {
    EntriesBound(ix, level, ix.Inner());
    LevelTokens(ix, level, Entries(ix, level, ix.Inner()))
  }

  ghost function FullLevels(ix: Index, n: nat): (s: seq<seq<Token>>)
    requires ix.Valid()
    ensures |s| == n && forall level :: 0 <= level < n ==> s[level] == FullLevel(ix, level)
  {
    seq(n, level requires 0 <= level < n => FullLevel(ix, level))
  }

  /** A level below the cap is written exactly if it has an entry. */
  ghost predicate Needed(ix: Index, max: nat, level: nat)
    requires ix.Valid()
  {
    level < max && 1 <= Entries(ix, level, ix.Inner())
  }

  /** Writes all boundaries of a list and flushes the levels behind what the file holds already. */
  method WriteList(ix: Index, max: nat, before: seq<Token>) returns (out: seq<Token>, count: nat)
    requires ix.Valid() && 1 <= max
    ensures forall level: nat :: level < count <==> Needed(ix, max, level)
    ensures out == before + ([LevelCount(count)] + LevelsTokens(FullLevels(ix, count), count))
    ensures Complete(ix, FullLevels(ix, count), count)
  {
    hide Holds, Complete, LevelsTokens, CountMaxLevels, OnLevel, FullLevel, Needed;
    var writer := new SkipWriter(ix.skip0, ix.skipN);
    writer.Prepare(max, ix.count);
    OneLevel(ix);
    HoldsNone(ix, writer.levels[..writer.maxLevels]);
    ghost var top := writer.maxLevels;
    var n := 1;
    while n < |ix.marks|
      invariant 1 <= n <= |ix.marks| && writer.Valid() && fresh(writer) && writer.maxLevels == top
      invariant Holds(ix, writer.levels[..top], n - 1)
    {
      var write := (level: nat) => EntryOf(ix, n, level);
      forall level | 0 <= level < top && OnLevel(ix, level, n)
        ensures Writes(ix, write, level, n)
      {
        EntryIsOf(ix, write, level, n);
      }
      var levels := writer.Skip(n * ix.skip0, write, ix, n, true);
      n := n + 1;
    }
    count := writer.CountLevels();
    CompleteLevels(ix, writer.levels, count, top);
    out := writer.FlushLevels(count, before);
    AllLevels(ix, writer.levels, count, top, max);
  }

  /** The first `count` of `top` filled levels are the needed ones. */
  lemma AllLevels(ix: Index, levels: seq<seq<Token>>, count: nat, top: nat, max: nat)
    requires ix.Valid() && count <= top <= |levels| && Holds(ix, levels[..top], ix.Inner()) && Complete(ix, levels[..top], count)
    requires forall level :: count <= level < top ==> levels[level] == []
    requires var needed := CountMaxLevels(ix.skip0, ix.skipN, ix.count); top == if max <= needed then max else needed
    ensures Complete(ix, FullLevels(ix, count), count)
    ensures LevelsTokens(levels, count) == LevelsTokens(FullLevels(ix, count), count)
    ensures forall level: nat :: level < count <==> Needed(ix, max, level)
  {
    assert 1 <= ix.Inner();
    hide LevelsTokens, Complete, CountMaxLevels, LevelTokens, Holds, Index.Valid, Entries;
    HoldsFacts(ix, levels, top, ix.Inner());
    CompleteFacts(ix, levels[..top], count);
    CompletePrefix(ix, levels[..top], count);
    assert levels[..top][..count] == FullLevels(ix, count);
    LevelsTokensPrefix(levels, FullLevels(ix, count), count);
    forall level: nat
      ensures level < count <==> Needed(ix, max, level)
    {
      if level < top {
        Filled(ix, levels[level], level);
        assert level < count ==> levels[..top][level] != [];
      } else if Needed(ix, max, level) {
        LevelsSuffice(ix, level, ix.count);
      }
    }
  }

  lemma CompleteFacts(ix: Index, levels: seq<seq<Token>>, n: nat)
    requires Complete(ix, levels, n)
    ensures 1 <= n <= |levels| && forall i :: 0 <= i < n ==> levels[i] != []
  {}

  /** Where a seek ends: the boundary in front of the target, and the documents behind it. */
  datatype Stop = Stop(state: SkipState, left: int)

  /** The end of the block behind a boundary; the last block has none. */
  ghost function BlockEnd(ix: Index, b: nat): nat {
    if b + 1 < |ix.marks| then ix.marks[b + 1].doc else EOF
  }

  /** What scanning the finest level finds for each target past the end of the current block. */
  ghost function Stops(ix: Index, end: nat, targets: seq<nat>): seq<Stop>
    requires ix.Valid()
    decreases |targets|
  {
    if targets == [] then []
    else if targets[0] <= end then Stops(ix, end, targets[1..])
    else
      var b := Scan(ix.marks, targets[0], 0);
      [Stop(ix.marks[b], ix.count - b * ix.skip0)] + Stops(ix, BlockEnd(ix, b), targets[1..])
  }

  lemma StopsNext(ix: Index, end: nat, targets: seq<nat>, k: nat)
    requires ix.Valid() && k < |targets|
    ensures Stops(ix, end, targets[k..]) ==
              if targets[k] <= end then Stops(ix, end, targets[k + 1..])
              else
                var b := Scan(ix.marks, targets[k], 0);
                [Stop(ix.marks[b], ix.count - b * ix.skip0)] + Stops(ix, BlockEnd(ix, b), targets[k + 1..])
  {
    assert targets[k..][1..] == targets[k + 1..];
  }

  lemma StopsNone(ix: Index, end: nat)
    requires ix.Valid()
    ensures Stops(ix, end, []) == []
  {}

  ghost function LeafEnd(reader: SkipReader): nat
    requires reader.Ready()
    reads reader
  {
    reader.states[reader.Leaf()].doc
  }

  /** One seek over the levels. */
  method Visit(reader: SkipReader, target: nat) returns (stop: Stop)
    requires reader.Ready() && !reader.wand && MIN <= target <= EOF && reader.threshold < SCORE_MAX && LeafEnd(reader) < target
    modifies reader
    ensures reader.Ready() && reader.setup == old(reader.setup) && reader.threshold == old(reader.threshold)
    ensures var ix := reader.setup.ix;
            var b := Scan(ix.marks, target, 0);
            b < |ix.marks| && stop == Stop(ix.marks[b], ix.count - b * ix.skip0) && LeafEnd(reader) == BlockEnd(ix, b)
  {
    hide SkipReader.Ready, SkipReader.Basics;
    reader.ReadyFacts();
    var left := reader.Seek(target);
    reader.LeafShows();
    stop := Stop(reader.prev, left);
    SameStep(reader);
  }

  lemma SameStep(reader: SkipReader)
    requires reader.Ready()
    ensures reader.setup.ix.skip0 == reader.skip0
  {}

  /** Writes a list and opens it. */
  method WriteAndOpen(ix: Index, max: nat, before: seq<Token>) returns (reader: SkipReader)
    requires ix.Valid() && 1 <= max && ix.marks[0].pend == 0
    ensures fresh(reader) && reader.Ready() && !reader.wand && reader.setup.ix == ix && reader.threshold == 0.0
    ensures LeafEnd(reader) == INVALID
  {
    hide SkipReader.Ready, SkipReader.Basics, Index.Valid, Complete, LoadedLevels, LevelsTokens, FullLevel, Needed;
    ListFacts(ix);
    var out, count := WriteList(ix, max, before);
    ghost var written := FullLevels(ix, count);
    CompleteFacts(ix, written, count);
    reader := new SkipReader(out, ix.skip0, ix.skipN, false);
    reader.Enable(ix.marks[0].docPtr, ix.marks[0].posPtr);
    var ok := reader.Prepare(|before|, ix.count, written);
    assert ok;
    reader.Init(|reader.levels|, ix, written);
    reader.ReadyFacts();
  }

  method VisitAll(reader: SkipReader, targets: seq<nat>) returns (stops: seq<Stop>)
    requires reader.Ready() && !reader.wand && reader.threshold < SCORE_MAX && forall k :: 0 <= k < |targets| ==> targets[k] <= EOF
    modifies reader
    ensures reader.Ready() && reader.setup == old(reader.setup) && stops == Stops(old(reader.setup.ix), old(LeafEnd(reader)), targets)
  {
    hide SkipReader.Ready, SkipReader.Basics, Index.Valid, Stops, Scan, BlockEnd;
    reader.ReadyFacts();
    ghost var ix := reader.setup.ix;
    ReadyIndex(reader);
    stops := [];
    var k := 0;
    assert targets[0..] == targets;
    while k < |targets|
      invariant k <= |targets| && reader.Ready() && reader.setup == old(reader.setup) && reader.threshold < SCORE_MAX
      invariant stops + Stops(ix, LeafEnd(reader), targets[k..]) == Stops(ix, old(LeafEnd(reader)), targets)
    {
      reader.ReadyFacts();
      StopsNext(ix, LeafEnd(reader), targets, k);
      if reader.states[|reader.states| - 1].doc < targets[k] {
        var stop := Visit(reader, targets[k]);
        stops := stops + [stop];
      }
      k := k + 1;
    }
    StopsNone(ix, LeafEnd(reader));
    assert targets[k..] == [];
  }

  lemma ReadyIndex(reader: SkipReader)
    requires reader.Ready()
    ensures reader.setup.ix.Valid()
  {}

  /** Any run of seeks over a written list stops where scanning the finest level stops. */
  method WriteAndVisit(ix: Index, max: nat, before: seq<Token>, targets: seq<nat>) returns (stops: seq<Stop>)
    requires ix.Valid() && 1 <= max && ix.marks[0].pend == 0 && forall k :: 0 <= k < |targets| ==> targets[k] <= EOF
    ensures stops == Stops(ix, INVALID, targets)
  {
    hide SkipReader.Ready, Index.Valid, Stops;
    var reader := WriteAndOpen(ix, max, before);
    stops := VisitAll(reader, targets);
  }

  lemma ListFacts(ix: Index)
    requires ix.Valid()
    ensures 1 <= ix.skip0 && 2 <= ix.skipN && 2 <= |ix.marks| && ix.marks[0].doc == INVALID
  {}
}
