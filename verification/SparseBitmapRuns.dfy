/** Whole runs over a sparse set. */
module SparseBitmapRuns {
  import opened Limits
  import opened SparseBitmapFormat
  import opened SparseBitmapWriting
  import opened SparseBitmapReading
  import opened SparseBitmapSearch

  /** A value, how many identifiers lie before it, and the one directly before it. */
  datatype Seen = Seen(value: nat, rank: nat, prev: nat)

  ghost function SeenAt(ids: seq<nat>, r: nat): Seen
    requires r <= |ids|
  {
    Seen(if r < |ids| then ids[r] else EOF, r, if r == 0 then INVALID else ids[r - 1])
  }

  datatype Step = Next | Seek(target: nat)

  /** Where a step wants to go; there is nothing after the end. */
  function Goal(value: nat, step: Step): nat {
    match step
    case Next => if value == EOF then 0 else value + 1
    case Seek(target) => target
  }

  /** What searching the plain list shows for each step that goes past the current value:
      successor, rank and predecessor. */
  ghost function Answers(ids: seq<nat>, value: nat, steps: seq<Step>): seq<Seen>
    decreases |steps|
  {
    if steps == [] then []
    else if Goal(value, steps[0]) <= value then Answers(ids, value, steps[1..])
    else
      var seen := SeenAt(ids, Rank(ids, Goal(value, steps[0])));
      [seen] + Answers(ids, seen.value, steps[1..])
  }

  ghost predicate Storable(ids: seq<nat>) {
    Sorted(ids) && forall i :: 0 <= i < |ids| ==> MIN <= ids[i] < EOF
  }

  method WriteSet(ids: seq<nat>, before: seq<Token>, track: bool) returns (writer: SparseBitmapWriter)
    requires Storable(ids)
    ensures Stored(writer.out, writer.origin, ids, writer.blocks, track) && writer.track == track && writer.origin == |before|
    ensures Apart(ids + [EOF], writer.blocks) && (track ==> PrevStored(ids, writer.blocks))
    ensures TableNames(writer.blockIndex, writer.blocks, writer.origin)
    ensures TableOk(writer.blockIndex, writer.blocks, writer.origin) <==> |writer.blockIndex| > 2 || ids == []
    ensures ids == [] || ids[|ids| - 1] < BLOCK_SIZE ==> |writer.blockIndex| == 1
  {
    hide SparseBitmapWriter.Valid, Stored, TableOk, TableNames, PrevStored, Apart, Ascended;
    writer := new SparseBitmapWriter(before, track);
    NothingPushed(writer);
    var n := 0;
    while n < |ids|
      invariant n <= |ids| && writer.Valid() && fresh(writer) && fresh(writer.bits) && writer.track == track && writer.origin == |before|
      invariant Ascended(writer, ids[..n])
    {
      PushNext(writer, ids[n], ids[..n]);
      assert ids[..n + 1] == ids[..n] + [ids[n]];
      n := n + 1;
    }
    assert ids[..n] == ids;
    AscendedFacts(writer, ids);
    writer.Finish();
  }

  method PushNext(writer: SparseBitmapWriter, id: nat, ghost ids: seq<nat>)
    requires writer.Valid() && Ascended(writer, ids) && MIN <= id < EOF && (ids != [] ==> ids[|ids| - 1] < id)
    modifies writer, writer.bits
    ensures writer.Valid() && Ascended(writer, ids + [id])
  {
    hide SparseBitmapWriter.Valid;
    AscendedFacts(writer, ids);
    writer.PushBack(id);
  }

  /** A writer that has been given exactly these identifiers, in order. */
  ghost predicate Ascended(writer: SparseBitmapWriter, ids: seq<nat>)
    reads writer
  {
    && writer.Contents() == ids && writer.exact && writer.apart
    && (if ids == [] then writer.block == 0 else writer.prevValue == ids[|ids| - 1] && writer.block == ids[|ids| - 1] / BLOCK_SIZE)
    && (writer.flushed != [] ==> Last(writer.flushed) / BLOCK_SIZE < writer.block)
  }

  lemma NothingPushed(writer: SparseBitmapWriter)
    requires writer.Contents() == [] && writer.exact && writer.apart && writer.block == 0
    ensures Ascended(writer, [])
  {
    NothingFlushed(writer);
  }

  lemma AscendedFacts(writer: SparseBitmapWriter, ids: seq<nat>)
    requires Ascended(writer, ids)
    ensures writer.Contents() == ids && writer.Readable() && writer.Faithful() && (ids != [] ==> Last(writer.Contents()) == ids[|ids| - 1])
    ensures ids == [] || ids[|ids| - 1] < BLOCK_SIZE ==> writer.block == 0
  {}

  /** A writer that has not flushed anything. */
  lemma Buffering(writer: SparseBitmapWriter, ids: seq<nat>)
    requires writer.flushed == [] && (writer.pending == ids || writer.Contents() == ids)
    ensures writer.pending == ids == writer.Contents()
    ensures ids != [] ==> Last(writer.Contents()) == ids[|ids| - 1]
    ensures writer.Faithful() <==> writer.exact && (ids == [] || writer.prevValue == ids[|ids| - 1])
  {
    assert [] + writer.pending == writer.pending;
  }

  lemma NothingFlushed(writer: SparseBitmapWriter)
    requires writer.Contents() == []
    ensures writer.flushed == []
  {
    assert |writer.Contents()| == |writer.flushed| + |writer.pending|;
  }

  lemma Erased(first: nat, last: nat)
    requires first != last
    ensures Without([first] + [last], last) == [first]
  {
    assert ([first] + [last])[..1] == [first] && [first][..0] == [];
    assert Without([], last) + [first] == [first];
    assert Without([first], last) == [first];
  }

  /** Erasing the last identifier of a block and going on in another one: the set is right,
      but the identifier kept in front of the second block is the erased one. */
  method EraseLast(before: seq<Token>) returns (writer: SparseBitmapWriter)
    ensures Stored(writer.out, |before|, [1] + [BLOCK_SIZE], writer.blocks, true)
    ensures !PrevStored([1] + [BLOCK_SIZE], writer.blocks)
  {
    hide SparseBitmapWriter.Valid, SparseBitmapWriter.Contents, SparseBitmapWriter.Faithful, Stored, TableOk, PrevStored, Without, Last;
    writer := new SparseBitmapWriter(before, true);
    NothingFlushed(writer);
    Buffering(writer, []);
    writer.PushBack(1);
    assert [] + [1] == [1];
    Buffering(writer, [1]);
    writer.PushBack(2);
    Buffering(writer, [1] + [2]);
    Erased(1, 2);
    var done := writer.Erase(2);
    Buffering(writer, [1]);
    writer.PushBack(BLOCK_SIZE);
    Spoiled(writer);
    writer.Finish();
  }

  lemma Spoiled(writer: SparseBitmapWriter)
    requires !writer.exact
    ensures !writer.Faithful()
  {}

  /** Writes a set after whatever the file holds, and searches it, with the jump table if it is large enough to be kept. */
  method WriteAndSearch(ids: seq<nat>, before: seq<Token>, useTable: bool, useBlockIndex: bool, steps: seq<Step>) returns (shown: seq<Seen>)
    requires Storable(ids) && forall k :: 0 <= k < |steps| && steps[k].Seek? ==> steps[k].target <= EOF
    ensures shown == Answers(ids, INVALID, steps)
  {
    hide Stored, PrevStored, TableOk, TableNames, TableStarts, Apart;
    var writer := WriteSet(ids, before, true);
    var table := if useTable && |writer.blockIndex| > 2 then writer.blockIndex else [];
    ghost var s := Bitmap(writer.out, ids, writer.blocks, true);
    NoTable(writer.blocks, writer.origin);
    NamesAreStarts(table, writer.blocks, writer.origin);
    StoredIsBitmap(s, writer.origin);
    var it := new SparseBitmapIterator(writer.out, writer.origin, table, useBlockIndex, true, true, s);
    shown := Search(it, steps);
  }

  /** A set inside the first block gets a table with one entry. With it, every search for a number
      from 131072 on goes back to the first identifier. */
  method Misled(ids: seq<nat>, before: seq<Token>, target: nat) returns (found: nat)
    requires Storable(ids) && ids != [] && ids[|ids| - 1] < BLOCK_SIZE && SCAN_THRESHOLD * BLOCK_SIZE <= target <= EOF
    ensures found == ids[0] < target
  {
    hide Stored, PrevStored, TableOk, TableNames, TableStarts, Apart, SparseBitmapIterator.Valid, Landing, Bitmap.Valid;
    var writer := WriteSet(ids, before, false);
    ghost var s := Bitmap(writer.out, ids, writer.blocks, false);
    NamesAreStarts(writer.blockIndex, writer.blocks, writer.origin);
    StoredIsBitmap(s, writer.origin);
    FirstBlock(s);
    var it := new SparseBitmapIterator(writer.out, writer.origin, writer.blockIndex, false, false, false, s);
    OneEntryMisleads(s, writer.blockIndex, target);
    found := it.Seek(target);
    it.Shown();
  }

  lemma FirstBlock(s: Bitmap)
    requires s.Valid() && Storable(s.ids) && s.ids != [] && s.ids[|s.ids| - 1] < BLOCK_SIZE
    ensures s.blocks[0].id == 0 && s.ids[0] < BLOCK_SIZE
  {
    hide Bitmap.Valid, SparseStored, DenseStored, Rank;
    SomeBlock(s);
    HasBlock(s, 0);
    OwnFacts(s, 0);
    assert s.Own(0)[0] == s.All()[0] == s.ids[0];
  }

  method Search(it: SparseBitmapIterator, steps: seq<Step>) returns (shown: seq<Seen>)
    requires it.Valid() && it.Proper() && it.value == INVALID && it.trackPrev && PrevStored(it.s.ids, it.s.blocks)
    requires forall k :: 0 <= k < |steps| && steps[k].Seek? ==> steps[k].target <= EOF
    modifies it
    ensures shown == Answers(it.s.ids, INVALID, steps)
  {
    hide SparseBitmapIterator.Valid, SparseBitmapIterator.Proper, PrevStored, Rank, Answers, SeenAt;
    shown := [];
    var k := 0;
    assert steps[0..] == steps;
    while k < |steps|
      invariant k <= |steps| && it.Valid()
      invariant shown + Answers(it.s.ids, it.value, steps[k..]) == Answers(it.s.ids, INVALID, steps)
    {
      it.ValueBound();
      AnswersNext(it.s.ids, it.value, steps, k);
      var moved := Goal(it.value, steps[k]) > it.value;
      var seen := TakeStep(it, steps[k]);
      if moved {
        shown := shown + [seen];
      }
      k := k + 1;
    }
    AnswersNone(it.s.ids, it.value);
    assert steps[k..] == [];
  }

  /** One step, and what is seen if it goes past the current value. */
  method TakeStep(it: SparseBitmapIterator, step: Step) returns (seen: Seen)
    requires it.Valid() && it.Proper() && it.trackPrev && PrevStored(it.s.ids, it.s.blocks) && it.value <= EOF
    requires step.Seek? ==> step.target <= EOF
    modifies it
    ensures it.Valid() && (Goal(old(it.value), step) <= old(it.value) ==> it.value == old(it.value))
    ensures Goal(old(it.value), step) > old(it.value) ==>
              seen == SeenAt(it.s.ids, Rank(it.s.ids, Goal(old(it.value), step))) && it.value == seen.value
  {
    hide SparseBitmapIterator.Valid, SparseBitmapIterator.Standing, SparseBitmapIterator.Proper, PrevStored, Rank, Landing, TableStarts, Bitmap.Valid, Bitmap.All;
    var goal := Goal(it.value, step);
    var moved := goal > it.value;
    match step {
      case Next =>
        var more := it.Next();
      case Seek(target) =>
        var found := it.Seek(target);
    }
    seen := Seen(it.value, it.index, 0);
    if moved {
      var prev := it.PrevDoc();
      RankOfAll(it.s, goal);
      seen := Seen(it.value, it.index, prev);
    }
  }

  lemma AnswersNext(ids: seq<nat>, value: nat, steps: seq<Step>, k: nat)
    requires k < |steps|
    ensures Answers(ids, value, steps[k..]) ==
              if Goal(value, steps[k]) <= value then Answers(ids, value, steps[k + 1..])
              else var seen := SeenAt(ids, Rank(ids, Goal(value, steps[k]))); [seen] + Answers(ids, seen.value, steps[k + 1..])
  {
    assert steps[k..][1..] == steps[k + 1..];
  }

  lemma AnswersNone(ids: seq<nat>, value: nat)
    ensures Answers(ids, value, []) == []
  {}

  lemma RankOfAll(s: Bitmap, target: nat)
    requires target <= EOF
    ensures Rank(s.All(), target) == Rank(s.ids, target)
  {
    assert s.All()[..|s.All()| - 1] == s.ids;
  }
}
