/** Whole runs over a column. */
module ColumnRuns {
  import opened Limits
  import opened ColumnFormat
  import opened ColumnWriting
  import opened ColumnReading
  import opened FixedColumns
  import opened ColumnIterating
  import SparseBitmapFormat
  import SparseBitmapReading
  import SparseBitmapSearch
  import SparseBitmapWriting

  /** A document and its payload. */
  datatype Entry = Entry(doc: nat, value: Bytes)

  /** What a client of a column does: name the next document, write to it, or take it back. Between two steps
      another column may write to the same file. */
  datatype Step = Prepare(key: nat) | Write(bytes: Bytes) | Reset | Elsewhere(cells: seq<Cell>)

  /** The documents a column is about. It takes `pend` for the last one and `prev` for the one before. The payloads of
      the last `count` documents are in the block being filled; `stray` says that bytes of no document lie in front of
      them, and `moved` that such bytes lie between two blocks that have been written. The first `flushed` documents have
      left the buffer of the bitmap, which is about block `block` now; `apart` says that whenever the buffer was written,
      no block with its number was there yet. `shared` says that the file is not the column's own. */
  datatype Sheet = Sheet(entries: seq<Entry>, prev: nat, pend: nat, count: nat, stray: bool, moved: bool,
                         flushed: nat, block: nat, apart: bool, shared: bool)

  /** Columns are written one after the other when segments are merged, and side by side otherwise. */
  function Blank(consolidation: bool): Sheet {
    Sheet([], INVALID, INVALID, 0, false, false, 0, 0, true, !consolidation)
  }

  ghost function LastDoc(entries: seq<Entry>): nat {
    if entries == [] then INVALID else entries[|entries| - 1].doc
  }

  ghost function Docs(entries: seq<Entry>): (s: seq<nat>)
    ensures |s| == |entries| && forall i :: 0 <= i < |s| ==> s[i] == entries[i].doc
  {
    seq<nat>(|entries|, i requires 0 <= i < |entries| => entries[i].doc)
  }

  ghost function Payloads(entries: seq<Entry>): (s: seq<Bytes>)
    ensures |s| == |entries| && forall i :: 0 <= i < |s| ==> s[i] == entries[i].value
  {
    seq(|entries|, i requires 0 <= i < |entries| => entries[i].value)
  }

  /** Writing the buffer of the bitmap now leaves the documents readable. */
  ghost predicate Intact(sheet: Sheet) {
    && sheet.apart && sheet.flushed <= |sheet.entries|
    && SparseBitmapWriting.Fits(Docs(sheet.entries)[..sheet.flushed], Docs(sheet.entries)[sheet.flushed..], sheet.block)
  }

  /** The document that the column takes for the last one is the last one, and is in the buffer of the bitmap. */
  ghost predicate Topped(sheet: Sheet) {
    sheet.flushed < |sheet.entries| && LastDoc(sheet.entries) == sheet.pend
  }

  /** Bytes can be written at any time. A document can be taken back if there is none in the block being filled, and
      nothing happens, or if the bitmap still has the last one in its buffer. */
  ghost predicate Allowed(sheet: Sheet, step: Step) {
    match step
    case Prepare(key) => MIN <= key < EOF
    case Write(_) => true
    case Reset => sheet.count == 0 || Topped(sheet)
    case Elsewhere(_) => sheet.shared
  }

  ghost function After(sheet: Sheet, step: Step): (next: Sheet)
    requires Allowed(sheet, step)
    ensures next.shared == sheet.shared
  {
    match step
    case Prepare(key) => if key <= sheet.pend then sheet else Begun(sheet, key)
    case Write(bytes) => Written(sheet, bytes)
    case Reset =>
      var s := sheet.entries;
      if sheet.count == 0 then sheet else sheet.(entries := s[..|s| - 1], pend := sheet.prev, count := sheet.count - 1)
    case Elsewhere(_) => sheet
  }

  /** A new document; a full block is written before. */
  ghost function Begun(sheet: Sheet, key: nat): (next: Sheet)
    ensures next.shared == sheet.shared
  {
    var s, full := sheet.entries, sheet.count == BLOCK;
    var listed :=
      if key / BLOCK == sheet.block then sheet.(entries := s + [Entry(key, [])])
      else sheet.(entries := s + [Entry(key, [])], flushed := |s|, block := key / BLOCK, apart := Intact(sheet));
    listed.(prev := sheet.pend, pend := key, count := if full then 1 else sheet.count + 1,
            stray := sheet.stray && !full, moved := sheet.moved || (full && sheet.stray && sheet.count < |s|))
  }

  /** Bytes go to the last document if its payload is in the block being filled, and to no document otherwise. */
  ghost function Written(sheet: Sheet, bytes: Bytes): (next: Sheet)
    ensures next.shared == sheet.shared
  {
    var s := sheet.entries;
    if sheet.count == 0 || s == [] then sheet.(stray := sheet.stray || bytes != [])
    else sheet.(entries := s[|s| - 1 := Entry(s[|s| - 1].doc, s[|s| - 1].value + bytes)])
  }

  /** Bytes of no document do not part two blocks, also not once the last one is written. */
  ghost predicate InPlace(sheet: Sheet) {
    !sheet.moved && !(sheet.stray && 0 < sheet.count < |sheet.entries|)
  }

  /** All payloads can be found: a column of one length that is read as one run has no bytes of no document in it. */
  ghost predicate Sound(sheet: Sheet) {
    sheet.shared || InPlace(sheet) || !OneLength(Payloads(sheet.entries))
  }

  ghost predicate AllAllowed(sheet: Sheet, steps: seq<Step>)
    decreases |steps|
  {
    steps == [] || (Allowed(sheet, steps[0]) && AllAllowed(After(sheet, steps[0]), steps[1..]))
  }

  ghost function AfterAll(sheet: Sheet, steps: seq<Step>): (last: Sheet)
    requires AllAllowed(sheet, steps)
    ensures last.shared == sheet.shared
    decreases |steps|
  {
    if steps == [] then sheet else AfterAll(After(sheet, steps[0]), steps[1..])
  }

  lemma StepTaken(sheet: Sheet, steps: seq<Step>, k: nat)
    requires k < |steps| && AllAllowed(sheet, steps[k..])
    ensures Allowed(sheet, steps[k]) && AllAllowed(After(sheet, steps[k]), steps[k + 1..])
    ensures AfterAll(sheet, steps[k..]) == AfterAll(After(sheet, steps[k]), steps[k + 1..])
  {
    assert steps[k..][1..] == steps[k + 1..];
  }

  lemma FirstTaken(sheet: Sheet, steps: seq<Step>)
    requires steps != [] && Allowed(sheet, steps[0]) && AllAllowed(After(sheet, steps[0]), steps[1..])
    ensures AllAllowed(sheet, steps) && AfterAll(sheet, steps) == AfterAll(After(sheet, steps[0]), steps[1..])
  {}

  lemma NoSteps(sheet: Sheet)
    ensures AllAllowed(sheet, []) && AfterAll(sheet, []) == sheet
  {}

  /** The writer holds the documents and payloads of the sheet. */
  ghost predicate Holds(writer: ColumnWriter, sheet: Sheet)
    reads writer, writer.offsets, writer.docsWriter, writer.docsWriter.bits
  {
    && writer.Valid() && writer.Tracked() && writer.Paired()
    && writer.docs == Docs(sheet.entries) && writer.Values() == Payloads(sheet.entries)
    && writer.prev == sheet.prev && writer.pend == sheet.pend && writer.count == sheet.count
    && Filed(writer, sheet) && Bitmapped(writer, sheet)
  }

  /** What lies in front of and between the blocks. */
  ghost predicate Filed(writer: ColumnWriter, sheet: Sheet)
    reads writer
  {
    (writer.stray != [] <==> sheet.stray) && (sheet.shared || (writer.Tight() && (writer.alone <==> !sheet.moved)))
  }

  ghost predicate Bitmapped(writer: ColumnWriter, sheet: Sheet)
    reads writer, writer.docsWriter
  {
    && sheet.flushed <= |sheet.entries| && writer.docsWriter.flushed == Docs(sheet.entries)[..sheet.flushed]
    && writer.docsWriter.block == sheet.block && writer.docsWriter.apart == sheet.apart
  }

  lemma HeldFacts(writer: ColumnWriter, sheet: Sheet)
    requires Holds(writer, sheet)
    ensures writer.Valid() && writer.Tracked() && writer.Paired() && Filed(writer, sheet) && Bitmapped(writer, sheet)
    ensures writer.docs == Docs(sheet.entries) && writer.Values() == Payloads(sheet.entries) && |writer.docs| == |sheet.entries|
    ensures writer.prev == sheet.prev && writer.pend == sheet.pend && writer.count == sheet.count <= |sheet.entries| && sheet.count <= BLOCK
    ensures writer.blocks == [] <==> sheet.count == |sheet.entries|
    ensures writer.docsWriter.pending == Docs(sheet.entries)[sheet.flushed..]
    ensures writer.Topped() <==> Topped(sheet)
    ensures writer.docsWriter.Readable() <==> Intact(sheet)
  {
    hide ColumnWriter.Archived, Concat, Table, Increasing, SparseBitmapWriting.SparseBitmapWriter.Valid, SparseBitmapWriting.Fits, EndsAt;
    SplitAgain(writer.docsWriter.flushed, writer.docsWriter.pending);
  }

  lemma SplitAgain(a: seq<nat>, b: seq<nat>)
    ensures (a + b)[..|a|] == a && (a + b)[|a|..] == b && |a + b| == |a| + |b|
  {}

  method TakeStep(writer: ColumnWriter, step: Step, ghost sheet: Sheet)
    requires Holds(writer, sheet) && Allowed(sheet, step)
    modifies writer, writer.offsets, writer.docsWriter, writer.docsWriter.bits
    ensures Holds(writer, After(sheet, step))
  {
    hide Holds, After;
    match step {
      case Prepare(key) =>
        PrepareNext(writer, key, sheet);
      case Write(bytes) =>
        WriteNext(writer, bytes, sheet);
      case Reset =>
        TakeBack(writer, sheet);
      case Elsewhere(cells) =>
        WriteElsewhere(writer, cells, sheet);
    }
  }

  method PrepareNext(writer: ColumnWriter, key: nat, ghost sheet: Sheet)
    requires Holds(writer, sheet) && Allowed(sheet, Prepare(key))
    modifies writer, writer.offsets, writer.docsWriter, writer.docsWriter.bits
    ensures Holds(writer, After(sheet, Prepare(key)))
  {
    hide ColumnWriter.Valid, ColumnWriter.Tracked, ColumnWriter.Paired, ColumnWriter.Listed, ColumnWriter.Tight, ColumnWriter.Values,
      SparseBitmapWriting.SparseBitmapWriter.Readable, Holds, Intact, Last, Docs, Payloads;
    HeldFacts(writer, sheet);
    writer.Prepare(key);
    Prepared(sheet, key);
    HoldsAgain(writer, After(sheet, Prepare(key)));
  }

  method WriteNext(writer: ColumnWriter, bytes: Bytes, ghost sheet: Sheet)
    requires Holds(writer, sheet)
    modifies writer
    ensures Holds(writer, After(sheet, Write(bytes)))
  {
    hide ColumnWriter.Valid, ColumnWriter.Tracked, ColumnWriter.Paired, ColumnWriter.Listed, ColumnWriter.Tight, ColumnWriter.Values,
      SparseBitmapWriting.SparseBitmapWriter.Readable, Holds, Intact, Last, Docs, Payloads;
    HeldFacts(writer, sheet);
    if sheet.count > 0 {
      Extended(sheet, bytes);
    }
    writer.WriteBytes(bytes);
    HoldsAgain(writer, After(sheet, Write(bytes)));
  }

  method TakeBack(writer: ColumnWriter, ghost sheet: Sheet)
    requires Holds(writer, sheet) && Allowed(sheet, Reset)
    modifies writer, writer.docsWriter, writer.docsWriter.bits
    ensures Holds(writer, After(sheet, Reset))
  {
    hide ColumnWriter.Valid, ColumnWriter.Tracked, ColumnWriter.Paired, ColumnWriter.Listed, ColumnWriter.Tight, ColumnWriter.Topped, ColumnWriter.Values,
      SparseBitmapWriting.SparseBitmapWriter.Readable, Holds, Intact, Last, Docs, Payloads;
    HeldFacts(writer, sheet);
    writer.Reset();
    TakenBack(sheet);
    HoldsAgain(writer, After(sheet, Reset));
  }

  method WriteElsewhere(writer: ColumnWriter, cells: seq<Cell>, ghost sheet: Sheet)
    requires Holds(writer, sheet) && sheet.shared
    modifies writer
    ensures Holds(writer, After(sheet, Elsewhere(cells)))
  {
    hide ColumnWriter.Valid, ColumnWriter.Tracked, ColumnWriter.Paired, ColumnWriter.Listed, ColumnWriter.Tight, ColumnWriter.Values,
      SparseBitmapWriting.SparseBitmapWriter.Readable, Holds, Intact, Last, Docs, Payloads;
    HeldFacts(writer, sheet);
    writer.Interleave(cells);
    HoldsAgain(writer, sheet);
  }

  lemma Prepared(sheet: Sheet, key: nat)
    requires sheet.flushed <= |sheet.entries|
    ensures var s, more := sheet.entries, sheet.entries + [Entry(key, [])];
            && Docs(more) == Docs(s) + [key] && Payloads(more) == Payloads(s) + [[]]
            && Docs(more)[..sheet.flushed] == Docs(s)[..sheet.flushed] && Docs(more)[..|s|] == Docs(s)
  {}

  lemma Extended(sheet: Sheet, bytes: Bytes)
    requires sheet.entries != []
    ensures var s := sheet.entries;
            var n := |s| - 1;
            var more := s[n := Entry(s[n].doc, s[n].value + bytes)];
            Docs(more) == Docs(s) && |Payloads(s)| == n + 1 && Payloads(more) == Payloads(s)[n := Payloads(s)[n] + bytes]
  {}

  lemma TakenBack(sheet: Sheet)
    requires sheet.count > 0 ==> sheet.flushed < |sheet.entries|
    ensures sheet.count > 0 ==>
              var s := sheet.entries;
              var less := s[..|s| - 1];
              && |Docs(s)| == |Payloads(s)| == |s| && Docs(less) == Docs(s)[..|s| - 1] && Payloads(less) == Payloads(s)[..|s| - 1]
              && Docs(less)[..sheet.flushed] == Docs(s)[..sheet.flushed]
  {}

  lemma HoldsAgain(writer: ColumnWriter, sheet: Sheet)
    requires writer.Valid() && writer.Tracked() && writer.Paired() && Filed(writer, sheet) && Bitmapped(writer, sheet)
    requires writer.docs == Docs(sheet.entries) && writer.Values() == Payloads(sheet.entries)
    requires writer.prev == sheet.prev && writer.pend == sheet.pend && writer.count == sheet.count
    ensures Holds(writer, sheet)
  {}

  lemma NothingHeld(writer: ColumnWriter, sheet: Sheet)
    requires writer.Valid() && writer.Tracked() && writer.Listed() && writer.Tight() && writer.alone && writer.stray == [] && writer.docs == [] && writer.Values() == []
    requires writer.docsWriter.block == 0 && writer.docsWriter.flushed == [] && writer.docsWriter.apart
    requires writer.prev == writer.pend == INVALID && writer.count == 0 && sheet == Blank(!sheet.shared)
    ensures Holds(writer, sheet)
  {
    hide ColumnWriter.Valid, ColumnWriter.Tracked;
  }

  /** Takes all steps, behind what the data file holds already. */
  method WriteColumn(steps: seq<Step>, before: seq<Cell>, consolidation: bool, trackPrev: bool) returns (writer: ColumnWriter)
    requires AllAllowed(Blank(consolidation), steps)
    ensures fresh(writer) && fresh(writer.offsets) && fresh(writer.docsWriter) && fresh(writer.docsWriter.bits)
    ensures writer.consolidation == consolidation && writer.docsWriter.track == trackPrev
    ensures Holds(writer, AfterAll(Blank(consolidation), steps))
  {
    hide Holds, AllAllowed, AfterAll, After, ColumnWriter.Valid, ColumnWriter.Tracked, ColumnWriter.Listed, ColumnWriter.Tight, ColumnWriter.Values;
    writer := new ColumnWriter(before, consolidation, trackPrev);
    ghost var sheet := Blank(consolidation);
    NothingHeld(writer, sheet);
    var n := 0;
    assert steps[0..] == steps;
    while n < |steps|
      invariant n <= |steps| && fresh(writer) && fresh(writer.offsets) && fresh(writer.docsWriter) && fresh(writer.docsWriter.bits)
      invariant Holds(writer, sheet) && AllAllowed(sheet, steps[n..]) && AfterAll(sheet, steps[n..]) == AfterAll(Blank(consolidation), steps)
    {
      StepTaken(sheet, steps, n);
      TakeStep(writer, steps[n], sheet);
      sheet := After(sheet, steps[n]);
      n := n + 1;
    }
    NoSteps(sheet);
    assert steps[n..] == [];
  }

  /** A column opened as what its header says it is. */
  datatype Reader = MaskReader(count: nat) | SparseReader(sparse: SparseColumn) | FixedReader(fixed: FixedColumn) | DenseReader(dense: DenseFixedColumn)

  ghost function Parts(reader: Reader): set<object> {
    match reader
    case MaskReader(_) => {}
    case SparseReader(c) => {c}
    case FixedReader(c) => {c}
    case DenseReader(c) => {c}
  }

  /** The reader gives these payloads. */
  ghost predicate Gives(reader: Reader, vals: seq<Bytes>)
    reads Parts(reader)
  {
    match reader
    case MaskReader(n) => n == |vals| && Uniform(vals, 0)
    case SparseReader(c) => c.Valid() && c.vals == vals
    case FixedReader(c) => c.Valid() && c.vals == vals
    case DenseReader(c) => c.Valid() && c.vals == vals
  }

  method PayloadOf(reader: Reader, i: nat, ghost vals: seq<Bytes>) returns (value: Bytes)
    requires Gives(reader, vals) && i < |vals|
    ensures value == vals[i]
  {
    hide SparseColumn.Valid, FixedColumn.Valid, DenseFixedColumn.Valid;
    match reader {
      case MaskReader(_) =>
        value := [];
      case SparseReader(c) =>
        value := c.Payload(i);
      case FixedReader(c) =>
        value := c.Payload(i);
      case DenseReader(c) =>
        value := c.Payload(i);
    }
  }

  /** Opens a column and moves it to a cache if asked to; with it comes the part of the file that
      holds the bitmap of documents. */
  method OpenColumn(file: seq<Cell>, blocks: seq<Block>, header: Header, cached: bool, ghost vals: seq<Bytes>)
    returns (reader: Reader, bitmap: seq<Cell>)
    requires ColumnStored(file, blocks, vals) && header.docsCount == |vals| > 0 && (if header.hasBitmap then header.docsIndex < |file| else header.docsIndex == 0)
    requires header.kind == Mask ==> Uniform(vals, 0)
    requires header.kind == Fixed || header.kind == DenseFixed ==> blocks != [] && Uniform(vals, blocks[0].avg)
    requires header.kind == Fixed ==> forall b :: 0 <= b < |blocks| - 1 ==> blocks[b].data < blocks[|blocks| - 1].data
    requires header.kind == DenseFixed ==> Adjacent(blocks, vals)
    ensures fresh(Parts(reader)) && Gives(reader, vals)
    ensures header.hasBitmap ==> bitmap == file[header.docsIndex..]
  {
    hide ColumnStored, Uniform, Adjacent, SparseColumn.Valid, FixedColumn.Valid, DenseFixedColumn.Valid;
    var size := if header.hasBitmap then |file| - header.docsIndex else 0;
    assert header.hasBitmap ==> file[header.docsIndex..header.docsIndex + size] == file[header.docsIndex..];
    match header.kind {
      case Mask =>
        reader, bitmap := MaskReader(header.docsCount), if header.hasBitmap then file[header.docsIndex..] else [];
      case Sparse =>
        var column := new SparseColumn(file, blocks, header.docsCount, header.docsIndex, vals);
        column.MakeBuffered(size, cached);
        reader, bitmap := SparseReader(column), if header.hasBitmap then column.file[column.docsIndex..] else [];
      case Fixed =>
        var column := new FixedColumn(file, blocks, blocks[0].avg, header.docsCount, header.docsIndex, vals);
        column.MakeBuffered(size, cached);
        reader, bitmap := FixedReader(column), if header.hasBitmap then column.file[column.docsIndex..] else [];
      case DenseFixed =>
        var column := new DenseFixedColumn(file, blocks, blocks[0].avg, header.docsCount, header.docsIndex, vals);
        column.MakeBuffered(size, cached);
        reader, bitmap := DenseReader(column), if header.hasBitmap then column.file[column.docsIndex..] else [];
    }
  }

  /** The document at or after the target with its payload, or the end. Without a bitmap, an iterator that has
      not visited a document yet answers a target past the last document with the first one. */
  ghost function Answer(entries: seq<Entry>, ranged: bool, value: nat, target: nat): Entry {
    if value == INVALID && ranged && entries != [] && LastDoc(entries) < target then entries[0]
    else
      var r := SparseBitmapFormat.Rank(Docs(entries), target);
      if r < |entries| then entries[r] else Entry(EOF, [])
  }

  /** What is found for each target past the current document. */
  ghost function Answers(entries: seq<Entry>, ranged: bool, value: nat, targets: seq<nat>): seq<Entry>
    decreases |targets|
  {
    if targets == [] then []
    else if targets[0] <= value then Answers(entries, ranged, value, targets[1..])
    else
      var found := Answer(entries, ranged, value, targets[0]);
      [found] + Answers(entries, ranged, found.doc, targets[1..])
  }

  lemma AnswersNext(entries: seq<Entry>, ranged: bool, value: nat, targets: seq<nat>, k: nat)
    requires k < |targets|
    ensures Answers(entries, ranged, value, targets[k..]) ==
              if targets[k] <= value then Answers(entries, ranged, value, targets[k + 1..])
              else var found := Answer(entries, ranged, value, targets[k]); [found] + Answers(entries, ranged, found.doc, targets[k + 1..])
  {
    assert targets[k..][1..] == targets[k + 1..];
  }

  lemma AnswersNone(entries: seq<Entry>, ranged: bool, value: nat)
    ensures Answers(entries, ranged, value, []) == []
  {}

  lemma RangeAnswer(entries: seq<Entry>, value: nat, target: nat)
    requires Increasing(Docs(entries)) && Consecutive(Docs(entries)) && value < target
    requires value == INVALID || entries[0].doc <= value
    ensures var first, last := entries[0].doc, LastDoc(entries);
            && last == first + |entries| - 1 < EOF && MIN <= first
            && Answer(entries, true, value, target) ==
               if target > last then if value == INVALID then entries[0] else Entry(EOF, [])
               else if target < first then entries[0] else entries[target - first]
  {
    var docs := Docs(entries);
    assert docs[|docs| - 1] == docs[0] + (|docs| - 1);
    if target <= docs[0] {
      SparseBitmapFormat.RankIs(docs, target, 0);
    } else if target <= docs[|docs| - 1] {
      assert docs[target - docs[0]] == target;
      SparseBitmapFormat.RankIs(docs, target, target - docs[0]);
    } else {
      SparseBitmapFormat.RankIs(docs, target, |docs|);
    }
  }

  /** Searches documents that are consecutive. */
  method SearchRange(it: RangeColumnIterator, reader: Reader, targets: seq<nat>, ghost entries: seq<Entry>) returns (seen: seq<Entry>)
    requires it.Valid() && it.value == INVALID && Gives(reader, Payloads(entries)) && it !in Parts(reader)
    requires Increasing(Docs(entries)) && Consecutive(Docs(entries)) && it.minBase == entries[0].doc && it.count == |entries|
    requires forall k :: 0 <= k < |targets| ==> targets[k] <= EOF
    modifies it
    ensures seen == Answers(entries, true, INVALID, targets)
  {
    hide Answer, Answers, Gives, Increasing, Consecutive, RangeColumnIterator.Valid;
    seen := [];
    var k := 0;
    assert targets[0..] == targets;
    while k < |targets|
      invariant k <= |targets| && it.Valid() && Gives(reader, Payloads(entries))
      invariant seen + Answers(entries, true, it.value, targets[k..]) == Answers(entries, true, INVALID, targets)
    {
      AnswersNext(entries, true, it.value, targets, k);
      if it.value < targets[k] {
        var found := FindInRange(it, reader, targets[k], entries);
        seen := seen + [found];
      }
      k := k + 1;
    }
    AnswersNone(entries, true, it.value);
    assert targets[k..] == [];
  }

  method FindInRange(it: RangeColumnIterator, reader: Reader, target: nat, ghost entries: seq<Entry>) returns (entry: Entry)
    requires it.Valid() && it.value < target <= EOF && Gives(reader, Payloads(entries)) && it !in Parts(reader)
    requires Increasing(Docs(entries)) && Consecutive(Docs(entries)) && it.minBase == entries[0].doc && it.count == |entries|
    modifies it
    ensures it.Valid() && Gives(reader, Payloads(entries))
    ensures entry == Answer(entries, true, old(it.value), target) && it.value == entry.doc
  {
    hide Answer, Gives, Increasing, Consecutive;
    RangeAnswer(entries, it.value, target);
    var found := it.Seek(target);
    var value := [];
    if found < EOF {
      value := PayloadOf(reader, found - it.minBase, Payloads(entries));
      RangeEntry(entries, found);
    }
    entry := Entry(found, value);
  }

  lemma RangeEntry(entries: seq<Entry>, doc: nat)
    requires Consecutive(Docs(entries)) && entries[0].doc <= doc <= LastDoc(entries)
    ensures doc - entries[0].doc < |entries| && entries[doc - entries[0].doc] == Entry(doc, Payloads(entries)[doc - entries[0].doc])
  {
    var docs := Docs(entries);
    assert docs[|docs| - 1] == docs[0] + (|docs| - 1);
    assert docs[doc - docs[0]] == doc;
  }

  /** Searches the bitmap of documents. */
  method SearchBitmap(it: SparseBitmapReading.SparseBitmapIterator, reader: Reader, targets: seq<nat>, ghost entries: seq<Entry>)
    returns (seen: seq<Entry>)
    requires it.Valid() && it.Proper() && it.value == INVALID && it.s.ids == Docs(entries) && it !in Parts(reader)
    requires Gives(reader, Payloads(entries)) && Increasing(Docs(entries))
    requires forall k :: 0 <= k < |targets| ==> targets[k] <= EOF
    modifies it
    ensures seen == Answers(entries, false, INVALID, targets)
  {
    hide Answers, Gives, Increasing, Consecutive, SparseBitmapFormat.Rank, SparseBitmapReading.SparseBitmapIterator.Valid,
      SparseBitmapReading.SparseBitmapIterator.Proper, SparseBitmapReading.SparseBitmapIterator.Standing, SparseBitmapSearch.Landing,
      SparseBitmapSearch.Bitmap.Valid, SparseBitmapFormat.TableStarts;
    seen := [];
    var k := 0;
    assert targets[0..] == targets;
    while k < |targets|
      invariant k <= |targets| && it.Valid() && Gives(reader, Payloads(entries))
      invariant seen + Answers(entries, false, it.value, targets[k..]) == Answers(entries, false, INVALID, targets)
    {
      AnswersNext(entries, false, it.value, targets, k);
      if it.value < targets[k] {
        var found := it.Seek(targets[k]);
        var value := [];
        DocsBelow(entries);
        if found < EOF {
          value := PayloadOf(reader, it.index, Payloads(entries));
        }
        seen := seen + [Entry(found, value)];
      }
      k := k + 1;
    }
    AnswersNone(entries, false, it.value);
    assert targets[k..] == [];
  }

  lemma DocsBelow(entries: seq<Entry>)
    requires Increasing(Docs(entries))
    ensures forall i :: 0 <= i < |entries| ==> MIN <= entries[i].doc < EOF && Docs(entries)[i] == entries[i].doc
  {
    assert forall i :: 0 <= i < |entries| ==> Docs(entries)[i] == entries[i].doc;
  }

  /** Takes all steps, opens the column, moves it to a cache if asked to, and reads the payload of every document
      that was not taken back. */
  method WriteAndRead(steps: seq<Step>, before: seq<Cell>, consolidation: bool, trackPrev: bool, cached: bool) returns (header: Header, values: seq<Bytes>)
    requires AllAllowed(Blank(consolidation), steps) && Sound(AfterAll(Blank(consolidation), steps))
    ensures var sheet := AfterAll(Blank(consolidation), steps);
            && values == Payloads(sheet.entries)
            && (values != [] ==> header.min == sheet.entries[0].doc && (header.hasBitmap <==> !Ranged(sheet)))
  {
    hide AllAllowed, AfterAll, Gives, Indexed, Increasing, Ranged, Intact, Sound;
    ghost var entries := AfterAll(Blank(consolidation), steps).entries;
    var reader, bitmap, table;
    ghost var written;
    header, reader, bitmap, table, written := WriteAndOpen(steps, before, consolidation, trackPrev, cached);
    values := [];
    while |values| < header.docsCount
      invariant |values| <= |entries| && values == Payloads(entries)[..|values|] && (entries != [] ==> Gives(reader, Payloads(entries)))
    {
      var value := PayloadOf(reader, |values|, Payloads(entries));
      values := values + [value];
    }
  }

  /** The documents are told by the first one and their number. */
  ghost predicate Ranged(sheet: Sheet) {
    Consecutive(Docs(sheet.entries)) && sheet.pend == LastDoc(sheet.entries)
  }

  /** What is known of a column's bitmap and jump table, as far as its header has it. */
  ghost predicate Indexed(sheet: Sheet, bitmap: seq<Cell>, table: seq<SparseBitmapFormat.Jump>, trackPrev: bool, blocks: seq<SparseBitmapFormat.BlockRef>) {
    && (forall i :: 0 <= i < |bitmap| ==> bitmap[i].Doc?)
    && SparseBitmapFormat.Stored(Tokens(bitmap), 0, Docs(sheet.entries), blocks, trackPrev)
    && SparseBitmapFormat.TableOk(table, blocks, 0)
    && (SparseBitmapFormat.Apart(Docs(sheet.entries) + [EOF], blocks) <==> Intact(sheet))
  }

  /** Takes all steps, and writes what is left. The blocks of a column of one length that is to be read as one run follow
      each other exactly if there are no bytes of no document between them. */
  method WriteAndFinish(steps: seq<Step>, before: seq<Cell>, consolidation: bool, trackPrev: bool) returns (writer: ColumnWriter, header: Header)
    requires AllAllowed(Blank(consolidation), steps)
    ensures var sheet := AfterAll(Blank(consolidation), steps);
            && writer.docs == Docs(sheet.entries) && writer.stored == Payloads(sheet.entries) && ColumnStored(writer.out, writer.blocks, writer.stored)
            && Increasing(writer.docs) && header.docsCount == |sheet.entries| && KindIs(header.kind, writer.blocks, writer.stored)
            && (sheet.entries != [] ==> header.min == sheet.entries[0].doc && (header.hasBitmap <==> !Ranged(sheet)))
            && (header.kind == DenseFixed ==> (Adjacent(writer.blocks, writer.stored) <==> InPlace(sheet)))
            && (header.kind == DenseFixed <==> consolidation && OneLength(writer.stored))
    ensures if header.hasBitmap then header.docsIndex + |writer.docsWriter.out| == |writer.out| && writer.out[header.docsIndex..] == Embedded(writer.docsWriter.out)
            else header.docsIndex == 0
    ensures SparseBitmapFormat.Stored(writer.docsWriter.out, 0, writer.docs, writer.docsWriter.blocks, trackPrev)
    ensures SparseBitmapFormat.Apart(writer.docs + [EOF], writer.docsWriter.blocks) <==> Intact(AfterAll(Blank(consolidation), steps))
    ensures |writer.docsWriter.blockIndex| > 2 ==> SparseBitmapFormat.TableOk(writer.docsWriter.blockIndex, writer.docsWriter.blocks, 0)
    ensures var sheet, n := AfterAll(Blank(consolidation), steps), |writer.docsWriter.blocks|;
            sheet.flushed < |sheet.entries| ==> n >= 2 && writer.docsWriter.blocks[n - 2].lo == sheet.flushed && writer.docsWriter.blocks[n - 2].id == sheet.block
  {
    hide ColumnWriter.Valid, ColumnWriter.Tracked, ColumnWriter.Paired, ColumnWriter.Tight, ColumnWriter.Listed, ColumnStored, Uniform, Adjacent, Consecutive, Holds,
      AllAllowed, AfterAll, Intact, Increasing, Embedded, SparseBitmapFormat.Stored, SparseBitmapFormat.TableOk, SparseBitmapFormat.TableNames,
      SparseBitmapFormat.Apart, SparseBitmapWriting.SparseBitmapWriter.Readable, OneLength;
    writer := WriteColumn(steps, before, consolidation, trackPrev);
    ghost var sheet := AfterAll(Blank(consolidation), steps);
    HeldFacts(writer, sheet);
    DocsIncrease(writer);
    header := writer.Finish();
  }

  /** Takes all steps, and opens the column as its header says. The jump table is kept if it has more than two entries. */
  method WriteAndOpen(steps: seq<Step>, before: seq<Cell>, consolidation: bool, trackPrev: bool, cached: bool)
    returns (header: Header, reader: Reader, bitmap: seq<Cell>, table: seq<SparseBitmapFormat.Jump>, ghost written: seq<SparseBitmapFormat.BlockRef>)
    requires AllAllowed(Blank(consolidation), steps) && Sound(AfterAll(Blank(consolidation), steps))
    ensures var sheet := AfterAll(Blank(consolidation), steps);
            && header.docsCount == |sheet.entries| && Increasing(Docs(sheet.entries))
            && (sheet.entries != [] ==>
                  && fresh(Parts(reader)) && Gives(reader, Payloads(sheet.entries)) && header.min == sheet.entries[0].doc
                  && (header.hasBitmap <==> !Ranged(sheet))
                  && (header.hasBitmap ==> Indexed(sheet, bitmap, table, trackPrev, written)))
  {
    hide ColumnStored, Uniform, Adjacent, Ranged, AllAllowed, AfterAll, InPlace, OneLength,
      Intact, Gives, Increasing, Embedded, Tokens, SparseBitmapFormat.Stored, SparseBitmapFormat.TableOk, SparseBitmapFormat.Apart;
    var writer;
    writer, header := WriteAndFinish(steps, before, consolidation, trackPrev);
    ghost var sheet := AfterAll(Blank(consolidation), steps);
    table, bitmap, written := [], [], writer.docsWriter.blocks;
    if header.docsCount == 0 {
      reader := MaskReader(0);
      return;
    }
    StoredSomething(writer.docsWriter.out, writer.docs, written, trackPrev);
    reader, bitmap := OpenColumn(writer.out, writer.blocks, header, cached, writer.stored);
    if header.hasBitmap {
      TokensBack(writer.docsWriter.out);
      table := if |writer.docsWriter.blockIndex| > 2 then writer.docsWriter.blockIndex else [];
      SparseBitmapSearch.NoTable(written, 0);
    }
  }

  /** In a column of one length written for a merged segment, the address computed for every payload is the one where it is
      stored exactly if there are no bytes of no document between the blocks. */
  method WriteDense(steps: seq<Step>, before: seq<Cell>, trackPrev: bool) returns (writer: ColumnWriter)
    requires AllAllowed(Blank(true), steps) && OneLength(Payloads(AfterAll(Blank(true), steps).entries))
    ensures var sheet, len := AfterAll(Blank(true), steps), if writer.blocks == [] then 0 else writer.blocks[0].avg;
            && (forall i :: 0 <= i < |sheet.entries| ==>
                  i / BLOCK < |writer.blocks| && ValueStored(writer.out, PlaceIn(writer.blocks, len, i), sheet.entries[i].value))
            && (InPlace(sheet) <==> forall i :: 0 <= i < |sheet.entries| ==> PlaceIn(writer.blocks, len, i) == Place(writer.blocks[0].data, len, i))
  {
    hide ColumnStored, Adjacent, Ranged, AllAllowed, AfterAll, InPlace, ValueStored, PlaceIn, Uniform, Intact, Increasing, Embedded,
      SparseBitmapFormat.Stored, SparseBitmapFormat.TableOk, SparseBitmapFormat.Apart, OneLength;
    var header;
    writer, header := WriteAndFinish(steps, before, true, trackPrev);
    OneLengthSome(writer.stored);
    DensePlacesIff(writer.out, writer.blocks, writer.blocks[0].avg, writer.stored);
  }

  lemma OneLengthSome(vals: seq<Bytes>)
    requires OneLength(vals)
    ensures vals != []
  {}

  lemma DocsIncrease(writer: ColumnWriter)
    requires writer.Valid()
    ensures Increasing(writer.docs)
  {
    hide ColumnWriter.Buffered, ColumnWriter.Archived;
  }

  lemma StoredSomething(file: seq<SparseBitmapFormat.Token>, docs: seq<nat>, blocks: seq<SparseBitmapFormat.BlockRef>, track: bool)
    requires SparseBitmapFormat.Stored(file, 0, docs, blocks, track)
    ensures file != []
  {
    assert SparseBitmapFormat.BlockStored(file, docs + [EOF], blocks[0], track);
  }

  /** Whole run: if writing the bitmap has left the documents readable, every search for a document finds the least one
      at or after it, with the bytes written to it. */
  method WriteAndSearch(steps: seq<Step>, before: seq<Cell>, consolidation: bool, trackPrev: bool, cached: bool, useBlockIndex: bool, targets: seq<nat>)
    returns (seen: seq<Entry>)
    requires AllAllowed(Blank(consolidation), steps) && forall k :: 0 <= k < |targets| ==> targets[k] <= EOF
    requires Sound(AfterAll(Blank(consolidation), steps)) && Intact(AfterAll(Blank(consolidation), steps))
    ensures var sheet := AfterAll(Blank(consolidation), steps);
            sheet.entries != [] ==> seen == Answers(sheet.entries, Ranged(sheet), INVALID, targets)
  {
    hide AllAllowed, AfterAll, Answers, Gives, Indexed, Increasing, Consecutive, SparseBitmapReading.SparseBitmapIterator.Valid, Sound;
    var header, reader, bitmap, table;
    ghost var written;
    header, reader, bitmap, table, written := WriteAndOpen(steps, before, consolidation, trackPrev, cached);
    ghost var sheet := AfterAll(Blank(consolidation), steps);
    ghost var entries := sheet.entries;
    if header.docsCount == 0 {
      return [];
    }
    if header.hasBitmap {
      IndexedFacts(sheet, bitmap, table, trackPrev, written);
      ghost var s := SparseBitmapSearch.Bitmap(Tokens(bitmap), Docs(entries), written, trackPrev);
      var it := new SparseBitmapReading.SparseBitmapIterator(Tokens(bitmap), 0, table, useBlockIndex, trackPrev, false, s);
      seen := SearchBitmap(it, reader, targets, entries);
    } else {
      RangeAnswer(entries, INVALID, MIN);
      var it := new RangeColumnIterator(header.min, header.docsCount);
      seen := SearchRange(it, reader, targets, entries);
    }
  }

  lemma IndexedFacts(sheet: Sheet, bitmap: seq<Cell>, table: seq<SparseBitmapFormat.Jump>, trackPrev: bool, blocks: seq<SparseBitmapFormat.BlockRef>)
    requires Indexed(sheet, bitmap, table, trackPrev, blocks) && Intact(sheet)
    ensures forall i :: 0 <= i < |bitmap| ==> bitmap[i].Doc?
    ensures var s := SparseBitmapSearch.Bitmap(Tokens(bitmap), Docs(sheet.entries), blocks, trackPrev);
            && s.Valid() && s.blocks[0].at == 0 && SparseBitmapFormat.TableStarts(table, blocks, 0)
            && SparseBitmapFormat.Apart(s.All(), blocks) && SparseBitmapFormat.TableOk(table, blocks, 0)
  {
    hide SparseBitmapFormat.Stored, SparseBitmapFormat.TableNames, SparseBitmapFormat.TableStarts, SparseBitmapFormat.Apart, Intact;
    SparseBitmapFormat.NamesAreStarts(table, blocks, 0);
    SparseBitmapSearch.StoredIsBitmap(SparseBitmapSearch.Bitmap(Tokens(bitmap), Docs(sheet.entries), blocks, trackPrev), 0);
  }

  /** The steps leave the documents readable exactly if the first search of every iterator that reads headers
      ends at the successor of its target. */
  lemma FoundIffIntact(sheet: Sheet, bitmap: seq<Cell>, table: seq<SparseBitmapFormat.Jump>, trackPrev: bool, blocks: seq<SparseBitmapFormat.BlockRef>)
    requires Indexed(sheet, bitmap, table, trackPrev, blocks)
    ensures forall i :: 0 <= i < |bitmap| ==> bitmap[i].Doc?
    ensures var s := SparseBitmapSearch.Bitmap(Tokens(bitmap), Docs(sheet.entries), blocks, trackPrev);
            && s.Valid() && SparseBitmapFormat.TableStarts([], blocks, blocks[0].at)
            && (Intact(sheet) <==> forall target :: MIN <= target <= EOF ==> SparseBitmapSearch.Landing(s, [], 0, target) == SparseBitmapFormat.Rank(s.All(), target))
  {
    hide SparseBitmapFormat.Stored, SparseBitmapFormat.TableOk, SparseBitmapFormat.Apart, Intact, SparseBitmapSearch.Landing, SparseBitmapSearch.Bitmap.Valid;
    var s := SparseBitmapSearch.Bitmap(Tokens(bitmap), Docs(sheet.entries), blocks, trackPrev);
    SparseBitmapSearch.StoredIsBitmap(s, 0);
    SparseBitmapSearch.NoTable(blocks, 0);
    SparseBitmapSearch.FoundIffApart(s);
  }

  const BACK: seq<Step> := [Prepare(1), Prepare(70000), Reset, Prepare(2), Prepare(5)]

  /** Preparing 1 and 70000, and taking that back; then 2 and 5, whose block has been written by then. All
      three documents are in the bitmap, but it is not readable, and a search for 5 ends at 2. */
  method GoBack(before: seq<Cell>) returns (writer: ColumnWriter, found: nat)
    ensures AllAllowed(Blank(false), BACK) && !Intact(AfterAll(Blank(false), BACK))
    ensures writer.docs == Docs(AfterAll(Blank(false), BACK).entries) == [1, 2, 5] && found == 2
  {
    hide ColumnStored, Adjacent, Ranged, AllAllowed, AfterAll, InPlace, Uniform, Intact, Increasing, Embedded, KindIs, OneLength,
      SparseBitmapFormat.Stored, SparseBitmapFormat.TableOk, SparseBitmapFormat.Apart;
    WentBack();
    var header;
    writer, header := WriteAndFinish(BACK, before, false, false);
    found := SearchDocs(writer.docsWriter.out, writer.docsWriter.blocks, 5);
  }

  lemma WentBack()
    ensures AllAllowed(Blank(false), BACK)
    ensures var sheet := AfterAll(Blank(false), BACK);
            Docs(sheet.entries) == [1, 2, 5] && sheet.flushed == 1 && sheet.block == 0 && !Intact(sheet)
  {
    var a := After(Blank(false), BACK[0]);
    var b := After(a, BACK[1]);
    var c := After(b, BACK[2]);
    var d := After(c, BACK[3]);
    var e := After(d, BACK[4]);
    assert a.entries == [Entry(1, [])] && b.entries == [Entry(1, []), Entry(70000, [])] && b.flushed == 1;
    assert c.entries == [Entry(1, [])] && d.entries == [Entry(1, []), Entry(2, [])] && e.entries == [Entry(1, []), Entry(2, []), Entry(5, [])];
    assert Docs(e.entries)[..1] == [1] && Docs(e.entries)[1..] == [2, 5];
    hide After, Intact;
    NoSteps(e);
    assert BACK[4..] == [BACK[4]] && BACK[3..][1..] == BACK[4..] && BACK[2..][1..] == BACK[3..] && BACK[1..][1..] == BACK[2..];
    FirstTaken(d, BACK[4..]);
    FirstTaken(c, BACK[3..]);
    FirstTaken(b, BACK[2..]);
    FirstTaken(a, BACK[1..]);
    FirstTaken(Blank(false), BACK);
  }

  /** Searches three documents of which the first one is in a block of its own. */
  method SearchDocs(file: seq<SparseBitmapFormat.Token>, ghost blocks: seq<SparseBitmapFormat.BlockRef>, target: nat) returns (found: nat)
    requires SparseBitmapFormat.Stored(file, 0, [1, 2, 5], blocks, false) && target == 5
    requires |blocks| >= 2 && blocks[|blocks| - 2].lo == 1 && blocks[|blocks| - 2].id == 0
    ensures found == 2
  {
    hide SparseBitmapFormat.Stored, SparseBitmapFormat.TableOk, SparseBitmapFormat.TableNames, SparseBitmapFormat.TableStarts, SparseBitmapFormat.Apart,
      SparseBitmapSearch.Bitmap.Valid, SparseBitmapSearch.Landing, SparseBitmapReading.SparseBitmapIterator.Valid;
    ghost var s := SparseBitmapSearch.Bitmap(file, [1, 2, 5], blocks, false);
    SparseBitmapSearch.StoredIsBitmap(s, 0);
    SparseBitmapSearch.NoTable(blocks, 0);
    var it := new SparseBitmapReading.SparseBitmapIterator(file, 0, [], false, false, false, s);
    SecondFound(s);
    found := it.Seek(target);
    it.Shown();
  }

  lemma SecondFound(s: SparseBitmapSearch.Bitmap)
    requires s.Valid() && s.ids == [1, 2, 5] && SparseBitmapFormat.TableStarts([], s.blocks, s.blocks[0].at)
    requires |s.blocks| >= 2 && s.blocks[|s.blocks| - 2].lo == 1 && s.blocks[|s.blocks| - 2].id == 0
    ensures SparseBitmapSearch.Landing(s, [], 0, 5) == 1 && s.All()[1] == 2
  {
    hide SparseBitmapSearch.Bitmap.Valid, SparseBitmapFormat.SparseStored, SparseBitmapFormat.DenseStored, SparseBitmapFormat.Rank;
    var n := |s.blocks| - 2;
    SparseBitmapSearch.HasBlock(s, 0);
    if n == 0 {
      assert false;
    }
    SparseBitmapSearch.HasBlock(s, n - 1);
    if n > 1 {
      SparseBitmapSearch.LoGrows(s, 0, n - 1);
    }
    SparseBitmapSearch.IdsGrow(s, 0, n);
    SparseBitmapSearch.OwnFacts(s, 0);
    assert s.Own(0)[0] == s.All()[0] == 1;
    SparseBitmapFormat.RankIs(s.Own(0), 5, 1);
    SparseBitmapSearch.NextFromHere(s, []);
  }

  // ------------------------------------------------- taking back more than was just prepared

  const TWICE: seq<Step> := [Prepare(1), Prepare(2), Prepare(3), Reset, Reset]

  lemma TwoTakenBack()
    ensures AllAllowed(Blank(false), TWICE)
    ensures AfterAll(Blank(false), TWICE) == Sheet([Entry(1, [])], 2, 2, 1, false, false, 0, 0, true, true)
  {
    var a := After(Blank(false), TWICE[0]);
    var b := After(a, TWICE[1]);
    var c := After(b, TWICE[2]);
    var d := After(c, TWICE[3]);
    var e := After(d, TWICE[4]);
    assert a.entries == [Entry(1, [])] && b.entries == [Entry(1, []), Entry(2, [])] && c.entries == [Entry(1, []), Entry(2, []), Entry(3, [])];
    assert d.entries == [Entry(1, []), Entry(2, [])] && e.entries == [Entry(1, [])];
    hide After;
    NoSteps(e);
    assert TWICE[4..] == [TWICE[4]] && TWICE[3..][1..] == TWICE[4..] && TWICE[2..][1..] == TWICE[3..] && TWICE[1..][1..] == TWICE[2..];
    FirstTaken(d, TWICE[4..]);
    FirstTaken(c, TWICE[3..]);
    FirstTaken(b, TWICE[2..]);
    FirstTaken(a, TWICE[1..]);
    FirstTaken(Blank(false), TWICE);
  }

  /** Steps after other steps. */
  lemma {:induction false} MoreTaken(sheet: Sheet, a: seq<Step>, b: seq<Step>)
    requires AllAllowed(sheet, a) && AllAllowed(AfterAll(sheet, a), b)
    ensures AllAllowed(sheet, a + b) && AfterAll(sheet, a + b) == AfterAll(AfterAll(sheet, a), b)
    decreases |a|
  {
    if a == [] {
      assert a + b == b;
    } else {
      MoreTaken(After(sheet, a[0]), a[1..], b);
      assert (a + b)[1..] == a[1..] + b;
    }
  }

  lemma OneTaken(sheet: Sheet, step: Step)
    requires Allowed(sheet, step)
    ensures AllAllowed(sheet, [step]) && AfterAll(sheet, [step]) == After(sheet, step)
  {
    assert [step][1..] == [];
  }

  /** Taking back two documents in a row: the column still takes 2 for its last document. When 2 is prepared again, its
      bytes go to document 1. */
  method ResetTwice(before: seq<Cell>, bytes: Bytes) returns (values: seq<Bytes>)
    ensures var steps := TWICE + [Prepare(2)] + [Write(bytes)];
            AllAllowed(Blank(false), steps) && AfterAll(Blank(false), steps).entries == [Entry(1, bytes)] && values == [bytes]
  {
    var steps := TWICE + [Prepare(2)] + [Write(bytes)];
    WrittenToOne(bytes);
    hide AllAllowed, AfterAll;
    var header;
    header, values := WriteAndRead(steps, before, false, false, false);
    assert values == Payloads([Entry(1, bytes)]) == [bytes];
  }

  lemma WrittenToOne(bytes: Bytes)
    ensures var steps := TWICE + [Prepare(2)] + [Write(bytes)];
            AllAllowed(Blank(false), steps) && AfterAll(Blank(false), steps).entries == [Entry(1, bytes)] && AfterAll(Blank(false), steps).shared
  {
    TwoTakenBack();
    var two := AfterAll(Blank(false), TWICE);
    OneTaken(two, Prepare(2));
    OneTaken(two, Write(bytes));
    assert After(two, Write(bytes)).entries == [Entry(1, bytes)] by {
      assert [] + bytes == bytes;
    }
    hide After, TWICE;
    MoreTaken(Blank(false), TWICE, [Prepare(2)]);
    MoreTaken(Blank(false), TWICE + [Prepare(2)], [Write(bytes)]);
  }

  /** Taking back three documents in a row: the payload of document 1 is gone, but the document is still there. */
  method ResetThrice(before: seq<Cell>) returns (writer: ColumnWriter)
    ensures AllAllowed(Blank(false), TWICE) && !Allowed(AfterAll(Blank(false), TWICE), Reset)
    ensures writer.docs == [1] && writer.Values() == []
  {
    hide ColumnWriter.Valid, ColumnWriter.Tracked, ColumnWriter.Paired, ColumnWriter.Listed, ColumnWriter.Tight, ColumnWriter.Values, ColumnWriter.Topped,
      Holds, Intact, AllAllowed, AfterAll;
    TwoTakenBack();
    writer := WriteColumn(TWICE, before, false, false);
    HeldFacts(writer, AfterAll(Blank(false), TWICE));
    assert writer.docs == [1] && writer.Values() == [[]];
    writer.Reset();
  }

  // ------------------------------------------------- bytes of no document

  /** Documents 1 to n, each with the same payload. */
  function Fill(n: nat, value: Bytes): seq<Step> {
    if n == 0 then [] else Fill(n - 1, value) + [Prepare(n), Write(value)]
  }

  ghost function Same(n: nat, value: Bytes): (s: seq<Entry>)
    ensures |s| == n && forall i :: 0 <= i < n ==> s[i] == Entry(i + 1, value)
  {
    seq(n, i requires 0 <= i < n => Entry(i + 1, value))
  }

  ghost function Full(n: nat, value: Bytes, consolidation: bool): Sheet {
    Sheet(Same(n, value), if n == 0 then 0 else n - 1, n, n, false, false, if n < BLOCK then 0 else BLOCK - 1, n / BLOCK, true, !consolidation)
  }

  lemma {:induction false} Filled(n: nat, value: Bytes, consolidation: bool)
    requires n <= BLOCK
    ensures AllAllowed(Blank(consolidation), Fill(n, value)) && AfterAll(Blank(consolidation), Fill(n, value)) == Full(n, value, consolidation)
  {
    if n == 0 {
      assert Same(0, value) == [];
    } else {
      Filled(n - 1, value, consolidation);
      FillOne(n, value, consolidation);
      MoreTaken(Blank(consolidation), Fill(n - 1, value), [Prepare(n), Write(value)]);
    }
  }

  lemma FillOne(n: nat, value: Bytes, consolidation: bool)
    requires 1 <= n <= BLOCK
    ensures AllAllowed(Full(n - 1, value, consolidation), [Prepare(n), Write(value)])
    ensures AfterAll(Full(n - 1, value, consolidation), [Prepare(n), Write(value)]) == Full(n, value, consolidation)
  {
    var was := Full(n - 1, value, consolidation);
    assert Docs(was.entries)[..0] == [];
    var next := After(was, Prepare(n));
    assert After(next, Write(value)).entries == Same(n, value) by {
      assert [] + value == value;
    }
    assert After(next, Write(value)) == Full(n, value, consolidation);
    NextTwo(was, Prepare(n), Write(value));
  }

  lemma NextTwo(sheet: Sheet, a: Step, b: Step)
    requires Allowed(sheet, a) && Allowed(After(sheet, a), b)
    ensures AllAllowed(sheet, [a, b]) && AfterAll(sheet, [a, b]) == After(After(sheet, a), b)
  {
    OneTaken(sheet, a);
    OneTaken(After(sheet, a), b);
    MoreTaken(sheet, [a], [b]);
    assert [a] + [b] == [a, b];
  }

  /** A block of documents, one document more, which is taken back, and then bytes. */
  function Boundary(value: Bytes, bytes: Bytes): seq<Step> {
    Fill(BLOCK, value) + [Prepare(BLOCK + 1), Reset] + [Write(bytes)]
  }

  /** One document has been taken back since it was prepared, and the column knows its last document; but the bytes
      belong to no document. */
  lemma Unaddressed(value: Bytes, bytes: Bytes, consolidation: bool)
    ensures AllAllowed(Blank(consolidation), Boundary(value, bytes))
    ensures AfterAll(Blank(consolidation), Boundary(value, bytes))
         == Full(BLOCK, value, consolidation).(prev := BLOCK, count := 0, stray := bytes != [])
  {
    Filled(BLOCK, value, consolidation);
    var full := Full(BLOCK, value, consolidation);
    var next := After(full, Prepare(BLOCK + 1));
    assert next.entries[..BLOCK] == full.entries;
    var back := After(next, Reset);
    assert back == full.(prev := BLOCK, count := 0);
    hide Fill;
    NextTwo(full, Prepare(BLOCK + 1), Reset);
    OneTaken(back, Write(bytes));
    MoreTaken(Blank(consolidation), Fill(BLOCK, value), [Prepare(BLOCK + 1), Reset]);
    MoreTaken(Blank(consolidation), Fill(BLOCK, value) + [Prepare(BLOCK + 1), Reset], [Write(bytes)]);
  }

  /** With two more documents of the same payload, the bytes of no document part the two blocks of a column of one length. */
  lemma Parted(value: Bytes, bytes: Bytes)
    requires value != [] && bytes != []
    ensures var steps := Boundary(value, bytes) + [Prepare(BLOCK + 1), Write(value)] + [Prepare(BLOCK + 2), Write(value)];
            && AllAllowed(Blank(true), steps) && AfterAll(Blank(true), steps).entries == Same(BLOCK + 2, value)
            && OneLength(Payloads(AfterAll(Blank(true), steps).entries)) && !InPlace(AfterAll(Blank(true), steps))
  {
    Unaddressed(value, bytes, true);
    var sheet := AfterAll(Blank(true), Boundary(value, bytes));
    var one := After(After(sheet, Prepare(BLOCK + 1)), Write(value));
    assert [] + value == value;
    assert one.entries == Same(BLOCK + 1, value) && one.count == 1 && one.pend == BLOCK + 1 && one.stray;
    var two := After(After(one, Prepare(BLOCK + 2)), Write(value));
    assert two.entries == Same(BLOCK + 2, value) && two.count == 2 && two.stray;
    assert Uniform(Payloads(two.entries), |value|);
    hide After, Boundary;
    NextTwo(sheet, Prepare(BLOCK + 1), Write(value));
    NextTwo(one, Prepare(BLOCK + 2), Write(value));
    MoreTaken(Blank(true), Boundary(value, bytes), [Prepare(BLOCK + 1), Write(value)]);
    MoreTaken(Blank(true), Boundary(value, bytes) + [Prepare(BLOCK + 1), Write(value)], [Prepare(BLOCK + 2), Write(value)]);
  }
}
