/** Whole runs over columns kept in memory. */
module BufferedRuns {
  import opened Limits
  import opened BufferedColumns
  import opened BufferedIterating

  /** What a client of a column does: name a document, write to it, or drop what it has written. */
  datatype Step = Prepare(key: nat) | Write(bytes: Bytes) | Reset

  /** The values a column is about, and the one being written. */
  datatype Sheet = Sheet(stored: seq<Written>, pending: Option<Written>)

  const BLANK: Sheet := Sheet([], None)

  ghost function Contents(sheet: Sheet): seq<Written> {
    sheet.stored + if sheet.pending.Some? then [sheet.pending.value] else []
  }

  /** Documents come in order. */
  ghost predicate Allowed(sheet: Sheet, step: Step) {
    step.Prepare? ==> MIN <= step.key < EOF && if sheet.pending.Some? then sheet.pending.value.doc <= step.key else Behind(sheet.stored, step.key)
  }

  ghost predicate Behind(values: seq<Written>, key: nat) {
    forall i :: 0 <= i < |values| ==> values[i].doc < key
  }

  ghost function After(sheet: Sheet, step: Step): Sheet {
    match step
    case Prepare(key) => if sheet.pending.Some? && sheet.pending.value.doc == key then sheet else Sheet(Contents(sheet), Some(Written(key, [])))
    case Write(bytes) => if sheet.pending.None? then sheet else sheet.(pending := Some(Written(sheet.pending.value.doc, sheet.pending.value.value + bytes)))
    case Reset => sheet.(pending := None)
  }

  ghost predicate AllAllowed(sheet: Sheet, steps: seq<Step>)
    decreases |steps|
  {
    steps == [] || (Allowed(sheet, steps[0]) && AllAllowed(After(sheet, steps[0]), steps[1..]))
  }

  ghost function AfterAll(sheet: Sheet, steps: seq<Step>): Sheet
    decreases |steps|
  {
    if steps == [] then sheet else AfterAll(After(sheet, steps[0]), steps[1..])
  }

  lemma StepTaken(sheet: Sheet, steps: seq<Step>, k: nat)
    requires k < |steps| && AllAllowed(sheet, steps[k..])
    ensures Allowed(sheet, steps[k]) && AllAllowed(After(sheet, steps[k]), steps[k + 1..])
    ensures AfterAll(sheet, steps[k..]) == AfterAll(After(sheet, steps[k]), steps[k + 1..])
  {
    assert steps[k..][1..] == steps[k + 1..];
  }

  /** The column has the values of the sheet. */
  ghost predicate Holds(column: BufferedColumn, sheet: Sheet)
    reads column
  {
    && column.Valid() && column.Ascending() && column.Stored() == sheet.stored
    && column.pendingKey == (if sheet.pending.Some? then sheet.pending.value.doc else INVALID) < EOF
    && column.Pending() == (if sheet.pending.Some? then [sheet.pending.value] else [])
    && forall i :: 0 <= i < |column.index| ==> column.index[i].key < EOF
  }

  method TakeStep(column: BufferedColumn, step: Step, ghost sheet: Sheet)
    requires Holds(column, sheet) && Allowed(sheet, step)
    modifies column
    ensures Holds(column, After(sheet, step))
  {
    DocsAre(column);
    match step {
      case Prepare(key) =>
        column.Prepare(key);
      case Write(bytes) =>
        column.WriteBytes(bytes);
      case Reset =>
        column.Reset();
    }
    DocsAre(column);
  }

  lemma DocsAre(column: BufferedColumn)
    requires column.Valid()
    ensures forall i :: 0 <= i < |column.index| ==> column.Stored()[i].doc == column.index[i].key
  {}

  /** Takes all steps. */
  method WriteBuffered(steps: seq<Step>) returns (column: BufferedColumn)
    requires AllAllowed(BLANK, steps)
    ensures fresh(column) && Holds(column, AfterAll(BLANK, steps))
  {
    hide Holds, AllAllowed, AfterAll, Allowed, After;
    column := new BufferedColumn();
    ghost var sheet := BLANK;
    NothingHeld(column);
    var n := 0;
    assert steps[0..] == steps;
    while n < |steps|
      invariant n <= |steps| && fresh(column) && Holds(column, sheet)
      invariant AllAllowed(sheet, steps[n..]) && AfterAll(sheet, steps[n..]) == AfterAll(BLANK, steps)
    {
      StepTaken(sheet, steps, n);
      TakeStep(column, steps[n], sheet);
      sheet := After(sheet, steps[n]);
      n := n + 1;
    }
    NoSteps(sheet);
    assert steps[n..] == [];
  }

  lemma NothingHeld(column: BufferedColumn)
    requires column.Valid() && column.Ascending() && column.Stored() == [] && column.Pending() == [] && column.pendingKey == INVALID
    ensures Holds(column, BLANK)
  {}

  lemma NoSteps(sheet: Sheet)
    ensures AfterAll(sheet, []) == sheet
  {}

  // ------------------------------------------------------------ moving through it

  datatype Move = Seek(target: nat) | Next

  /** How many values have been taken after a move; an iterator may be moved back. */
  ghost function Place(values: seq<Written>, at: nat, move: Move): (r: nat)
    requires at <= |values|
    ensures r <= |values|
  {
    var i := if move.Seek? then FirstFrom(values, move.target, 0) else at;
    if i < |values| then i + 1 else i
  }

  /** What a linear search answers: a value, or that there is none. */
  ghost function Answer(values: seq<Written>, at: nat, move: Move): Option<Written>
    requires at <= |values|
  {
    var i := if move.Seek? then FirstFrom(values, move.target, 0) else at;
    if i < |values| then Some(values[i]) else None
  }

  ghost function Answers(values: seq<Written>, at: nat, moves: seq<Move>): seq<Option<Written>>
    requires at <= |values|
    decreases |moves|
  {
    if moves == [] then [] else [Answer(values, at, moves[0])] + Answers(values, Place(values, at, moves[0]), moves[1..])
  }

  lemma AnswersNext(values: seq<Written>, at: nat, moves: seq<Move>, k: nat)
    requires at <= |values| && k < |moves|
    ensures Answers(values, at, moves[k..]) == [Answer(values, at, moves[k])] + Answers(values, Place(values, at, moves[k]), moves[k + 1..])
  {
    assert moves[k..][1..] == moves[k + 1..];
  }

  lemma NoMoves(values: seq<Written>, at: nat)
    requires at <= |values|
    ensures Answers(values, at, []) == []
  {}

  method TakeMove(it: BufferedColumnIterator, move: Move) returns (shown: Option<Written>)
    requires it.Valid() && it.values != []
    modifies it
    ensures it.Valid() && it.next == Place(it.All(), old(it.next), move) && shown == Answer(it.All(), old(it.next), move)
  {
    shown := None;
    match move {
      case Seek(target) =>
        var doc := it.Seek(target);
        if doc < EOF {
          shown := Some(Written(doc, it.payload));
        }
      case Next =>
        var more := it.Next();
        if more {
          shown := Some(Written(it.value, it.payload));
        }
    }
  }

  /** Any run of moves shows what a linear search shows. */
  method RunBuffered(it: BufferedColumnIterator, moves: seq<Move>) returns (shown: seq<Option<Written>>)
    requires it.Valid() && it.values != []
    modifies it
    ensures it.Valid() && shown == Answers(it.All(), old(it.next), moves)
  {
    hide Answers, Answer, Place;
    shown := [];
    var k := 0;
    assert moves[0..] == moves;
    while k < |moves|
      invariant k <= |moves| && it.Valid()
      invariant shown + Answers(it.All(), it.next, moves[k..]) == Answers(it.All(), old(it.next), moves)
    {
      AnswersNext(it.All(), it.next, moves, k);
      var next := TakeMove(it, moves[k]);
      shown := shown + [next];
      k := k + 1;
    }
    NoMoves(it.All(), it.next);
    assert moves[k..] == [];
  }

  // ------------------------------------------------------------------ whole runs

  ghost predicate UpTo(values: seq<Written>, n: nat) {
    forall i :: 0 <= i < |values| ==> MIN <= values[i].doc <= n
  }

  ghost predicate Ascend(values: seq<Written>) {
    forall i, j :: 0 <= i < j < |values| ==> values[i].doc < values[j].doc
  }

  /** New numbers for the documents 1 to n, from the same range. */
  ghost predicate Permutes(docmap: seq<nat>, n: nat) {
    && |docmap| == n + MIN && (forall d :: 1 <= d <= n ==> 1 <= docmap[d] <= n)
    && forall d, e :: 1 <= d < e <= n ==> docmap[d] != docmap[e]
  }

  /** The same values, as they are if there are no new numbers, and otherwise by and under these. */
  ghost predicate Numbered(values: seq<Written>, docmap: seq<nat>, out: seq<Written>) {
    if docmap == [] then out == values else Relocated(values, docmap, out)
  }

  lemma ContentsAscend(column: BufferedColumn, sheet: Sheet)
    requires Holds(column, sheet)
    ensures Ascend(Contents(sheet)) && column.Stored() + column.Pending() == Contents(sheet)
  {
    DocsAre(column);
  }

  lemma PermutedMaps(values: seq<Written>, docmap: seq<nat>, n: nat)
    requires Ascend(values) && UpTo(values, n) && Permutes(docmap, n)
    ensures MapsAll(docmap, values)
  {}

  /** Values written in a shuffled order are all there. */
  lemma EmittedRelocated(data: Bytes, index: seq<BufferedValue>, order: seq<nat>, docmap: seq<nat>, out: seq<Written>)
    requires Fits(data, index) && Shuffled(order, |index|) && Emitted(data, index, order, docmap, out, |index|) && MapsAll(docmap, Values(data, index))
    ensures Relocated(Values(data, index), docmap, out)
  {
    var c := Values(data, index);
    hide Emitted, Values, MapsAll, Relocated;
    forall q | 0 <= q < |out|
      ensures order[q] < |c| && IsMoved(c[order[q]], docmap, out[q]) && forall r :: 0 <= r < q ==> out[r].doc < out[q].doc
    {
      EmittedAt(data, index, order, docmap, out, q);
    }
    AllMoved(c, order, docmap, out);
  }

  ghost predicate IsMoved(was: Written, docmap: seq<nat>, now: Written) {
    was.doc < |docmap| && now == Written(docmap[was.doc], was.value)
  }

  lemma AllMoved(c: seq<Written>, order: seq<nat>, docmap: seq<nat>, out: seq<Written>)
    requires MapsAll(docmap, c) && Shuffled(order, |c|) && |out| == |c|
    requires forall q :: 0 <= q < |out| ==> order[q] < |c| && IsMoved(c[order[q]], docmap, out[q]) && forall r :: 0 <= r < q ==> out[r].doc < out[q].doc
    ensures Relocated(c, docmap, out)
  {
    forall i | 0 <= i < |c|
      ensures Written(docmap[c[i].doc], c[i].value) in out
    {
      assert i in order;
      var q :| 0 <= q < |order| && order[q] == i;
      assert IsMoved(c[order[q]], docmap, out[q]);
    }
    forall k | 0 <= k < |out|
      ensures exists i :: 0 <= i < |c| && out[k] == Written(docmap[c[i].doc], c[i].value)
    {
      assert IsMoved(c[order[k]], docmap, out[k]);
    }
  }

  lemma EmittedAt(data: Bytes, index: seq<BufferedValue>, order: seq<nat>, docmap: seq<nat>, out: seq<Written>, q: nat)
    requires Fits(data, index) && Emitted(data, index, order, docmap, out, |index|) && q < |index|
    ensures |out| == |index| && order[q] < |Values(data, index)| && IsMoved(Values(data, index)[order[q]], docmap, out[q])
    ensures forall r :: 0 <= r < q ==> out[r].doc < out[q].doc
  {}

  ghost predicate ByValues(cmp: (Bytes, Bytes) -> int, values: seq<Written>) {
    forall i :: 0 < i < |values| ==> cmp(values[i].value, values[i - 1].value) >= 0
  }

  lemma OrderedByValues(cmp: (Bytes, Bytes) -> int, data: Bytes, index: seq<BufferedValue>)
    requires Fits(data, index)
    ensures ByValues(cmp, Values(data, index)) <==> InOrder(cmp, BufferedColumns.Payloads(data, index))
  {
    var values, payloads := Values(data, index), BufferedColumns.Payloads(data, index);
    assert forall i :: 0 <= i < |values| ==> values[i].value == payloads[i];
  }

  lemma WrittenByValues(cmp: (Bytes, Bytes) -> int, order: seq<nat>, out: seq<Written>)
    requires Compares(cmp) && ByValue(cmp, order, out)
    ensures ByValues(cmp, out)
  {
    forall i | 0 < i < |out|
      ensures cmp(out[i].value, out[i - 1].value) >= 0
    {
      assert cmp(out[i - 1].value, out[i].value) <= 0;
    }
  }

  /** Flushes the column that the segment is sorted by. */
  method FlushSorted(column: BufferedColumn, docsCount: nat, cmp: (Bytes, Bytes) -> int, ghost sheet: Sheet) returns (docmap: seq<nat>, sorted: seq<Written>)
    requires Holds(column, sheet) && Compares(cmp) && docsCount + MIN < EOF && UpTo(Contents(sheet), docsCount)
    modifies column
    ensures if ByValues(cmp, Contents(sheet)) then docmap == [] else Permutes(docmap, docsCount)
    ensures Numbered(Contents(sheet), docmap, sorted) && ByValues(cmp, sorted)
  {
    hide Shuffled, Emitted, ByValue, ByValues, InOrder, MapsAll, BufferedColumns.Relocated, Ascend, Compares, Values, BufferedColumns.Payloads, Fits;
    ContentsAscend(column, sheet);
    var renumbered;
    ghost var order;
    renumbered, sorted, order := column.FlushOrdered(docsCount, cmp);
    docmap := renumbered[..];
    FitsIndex(column);
    OrderedByValues(cmp, column.dataBuf, column.index);
    if docmap != [] {
      PermutedMaps(Contents(sheet), docmap, docsCount);
      EmittedRelocated(column.dataBuf, column.index, order, docmap, sorted);
      WrittenByValues(cmp, order, sorted);
    }
  }

  lemma FitsIndex(column: BufferedColumn)
    requires column.Valid()
    ensures Fits(column.dataBuf, column.index) && column.Stored() == Values(column.dataBuf, column.index)
  {}

  /** Flushes another column of the segment. */
  method FlushOther(column: BufferedColumn, docmap: seq<nat>, docsCount: nat, worthWhile: bool, ghost sheet: Sheet) returns (out: seq<Written>)
    requires Holds(column, sheet) && docsCount + MIN < EOF && UpTo(Contents(sheet), docsCount) && (docmap != [] ==> Permutes(docmap, docsCount))
    modifies column
    ensures Numbered(Contents(sheet), docmap, out)
    ensures ByKey(column.index) && Fits(column.dataBuf, column.index) && out == Values(column.dataBuf, column.index)
    ensures forall i :: 0 <= i < |column.index| ==> column.index[i].key < EOF
  {
    hide MapsAll, BufferedColumns.Relocated, Ascend, Values, Fits, Numbered, Permutes;
    ContentsAscend(column, sheet);
    if docmap != [] {
      PermutedMaps(Contents(sheet), docmap, docsCount);
    }
    out := column.Flush(docmap, worthWhile);
    NumberedUpTo(Contents(sheet), docmap, docsCount, out);
    IndexAscends(column, out);
  }

  lemma NumberedUpTo(values: seq<Written>, docmap: seq<nat>, n: nat, out: seq<Written>)
    requires if docmap == [] then out == values else Relocated(values, docmap, out)
    requires Ascend(values) && UpTo(values, n) && (docmap != [] ==> Permutes(docmap, n))
    ensures Numbered(values, docmap, out) && Ascend(out) && UpTo(out, n)
  {
    if docmap != [] {
      forall k | 0 <= k < |out|
        ensures MIN <= out[k].doc <= n
      {
        var i :| 0 <= i < |values| && out[k] == Written(docmap[values[i].doc], values[i].value);
        assert MIN <= values[i].doc <= n;
      }
    }
  }

  lemma IndexAscends(column: BufferedColumn, out: seq<Written>)
    requires Fits(column.dataBuf, column.index) && out == Values(column.dataBuf, column.index) && Ascend(out)
    ensures ByKey(column.index)
    ensures forall i :: 0 <= i < |column.index| ==> column.index[i].key == out[i].doc
  {
    assert forall i :: 0 <= i < |out| ==> out[i].doc == column.index[i].key;
  }

  /** Whole run: a segment is sorted by one column, and another one follows. Both are written under the same new numbers, unless
      the first one is in order already; that one by its values; and afterwards the second one is read from memory under these numbers. */
  method SortAndRead(sortSteps: seq<Step>, steps: seq<Step>, docsCount: nat, cmp: (Bytes, Bytes) -> int, worthWhile: bool, moves: seq<Move>)
    returns (docmap: seq<nat>, sorted: seq<Written>, out: seq<Written>, shown: seq<Option<Written>>)
    requires AllAllowed(BLANK, sortSteps) && AllAllowed(BLANK, steps) && Compares(cmp) && docsCount + MIN < EOF
    requires UpTo(Contents(AfterAll(BLANK, sortSteps)), docsCount) && UpTo(Contents(AfterAll(BLANK, steps)), docsCount)
    ensures if ByValues(cmp, Contents(AfterAll(BLANK, sortSteps))) then docmap == [] else Permutes(docmap, docsCount)
    ensures Numbered(Contents(AfterAll(BLANK, sortSteps)), docmap, sorted) && ByValues(cmp, sorted)
    ensures Numbered(Contents(AfterAll(BLANK, steps)), docmap, out)
    ensures out != [] ==> shown == Answers(out, 0, moves)
  {
    hide Holds, AllAllowed, AfterAll, Contents, Numbered, Permutes, ByValues, Compares, UpTo, Values, Fits, ByKey, Answers;
    var primary := WriteBuffered(sortSteps);
    docmap, sorted := FlushSorted(primary, docsCount, cmp, AfterAll(BLANK, sortSteps));
    var other := WriteBuffered(steps);
    out := FlushOther(other, docmap, docsCount, worthWhile, AfterAll(BLANK, steps));
    shown := [];
    if |other.index| > 0 {
      var it := new BufferedColumnIterator(other.index, other.dataBuf);
      shown := RunBuffered(it, moves);
    }
  }
}
