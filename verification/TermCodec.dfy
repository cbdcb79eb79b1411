/** The metadata of a term in the term dictionary: differences from the term before it in the same block. */
module TermCodec {
  import opened PostingsFormat

  /** What a field stores, as far as term metadata depends on it. */
  datatype Features = Features(freq: bool, pos: bool, offs: bool, pay: bool) {
    predicate HasOffsetOrPayload() { offs || pay }
  }

  datatype State = State(docsCount: nat, freq: nat, docStart: nat, posStart: nat, posEnd: Option<nat>, payStart: nat,
                         singleDoc: nat, skipStart: nat)

  const CLEARED: State := State(0, 0, 0, 0, None, 0, 0, 0)

  /** The metadata a reader gets back: fields that the term does not have are not among it. */
  datatype Visible = Visible(docsCount: nat, freq: nat, docStart: nat, posStart: nat, posEnd: Option<nat>, payStart: nat,
                             singleDoc: nat, skipStart: nat)

  function View(s: State, f: Features): Visible {
    Visible(s.docsCount, if f.freq then s.freq else 0, s.docStart,
            if f.pos then s.posStart else 0, if f.pos then s.posEnd else None,
            if f.pos && f.HasOffsetOrPayload() then s.payStart else 0,
            if s.docsCount == 1 then s.singleDoc else 0, if s.docsCount > BLOCK then s.skipStart else 0)
  }

  /** Metadata as the writer produces it after `last`: pointers do not go back, a frequency is
      there exactly if the field stores frequencies, and the position file has a tail to point
      to exactly if a full block of positions lies before it. */
  ghost predicate Follows(f: Features, last: State, s: State) {
    && (f.pos ==> f.freq)
    && (s.freq != 0 <==> f.freq) && (f.freq ==> s.docsCount <= s.freq)
    && last.docStart <= s.docStart && last.posStart <= s.posStart && last.payStart <= s.payStart
    && (f.pos ==> (s.posEnd.Some? <==> s.freq > BLOCK))
  }

  /** The values written for one term. */
  function Encoded(f: Features, last: State, s: State): seq<nat>
    requires s.docsCount <= s.freq || s.freq == 0
    requires last.docStart <= s.docStart && last.posStart <= s.posStart && last.payStart <= s.payStart
  {
    Counts(last, s) + (if f.pos then Positions(f, last, s) else []) + Extra(s)
  }

  function Counts(last: State, s: State): seq<nat>
    requires s.docsCount <= s.freq || s.freq == 0
    requires last.docStart <= s.docStart
  {
    if s.freq != 0 then [s.docsCount, s.freq - s.docsCount, s.docStart - last.docStart] else [s.docsCount, s.docStart - last.docStart]
  }

  function Positions(f: Features, last: State, s: State): seq<nat>
    requires last.posStart <= s.posStart && last.payStart <= s.payStart
  {
    [s.posStart - last.posStart] + (if s.posEnd.Some? then [s.posEnd.value] else [])
    + (if f.HasOffsetOrPayload() then [s.payStart - last.payStart] else [])
  }

  function Extra(s: State): seq<nat> {
    if s.docsCount == 1 then [s.singleDoc] else if BLOCK < s.docsCount then [s.skipStart] else []
  }

  class TermEncoder {
    const features: Features
    var out: seq<nat>
    var last: State

    constructor (features: Features)
      ensures this.features == features && out == [] && last == CLEARED
    {
      this.features, out, last := features, [], CLEARED;
    }

    /** The first entry of a block is written in full. */
    method BeginBlock()
      modifies this`last
      ensures last == CLEARED
    {
      last := CLEARED;
    }

    method Encode(meta: State)
      requires Follows(features, last, meta)
      modifies this`out, this`last
      ensures out == old(out) + Encoded(features, old(last), meta) && last == meta
    {
      ghost var was, e := out, [meta.docsCount];
      out := out + [meta.docsCount];
      if meta.freq != 0 {
        out := out + [meta.freq - meta.docsCount];
        e := e + [meta.freq - meta.docsCount];
      }
      out := out + [meta.docStart - last.docStart];
      e := e + [meta.docStart - last.docStart];
      assert out == was + e;
      if features.pos {
        EncodePositions(meta);
        e := e + Positions(features, last, meta);
        assert out == was + e;
      }
      if meta.docsCount == 1 {
        out := out + [meta.singleDoc];
        e := e + [meta.singleDoc];
      } else if BLOCK < meta.docsCount {
        out := out + [meta.skipStart];
        e := e + [meta.skipStart];
      }
      assert out == was + e;
      assert e == Encoded(features, last, meta);
      last := meta;
    }

    method EncodePositions(meta: State)
      requires Follows(features, last, meta) && features.pos
      modifies this`out
      ensures out == old(out) + Positions(features, last, meta)
    {
      out := out + [meta.posStart - last.posStart];
      if meta.posEnd.Some? {
        out := out + [meta.posEnd.value];
      }
      if features.HasOffsetOrPayload() {
        out := out + [meta.payStart - last.payStart];
      }
    }
  }

  /** A decoder's state has the pointers that the next term's differences count from. */
  ghost predicate Agrees(f: Features, state: State, last: State) {
    && state.docStart == last.docStart
    && (f.pos ==> state.posStart == last.posStart)
    && (f.pos && f.HasOffsetOrPayload() ==> state.payStart == last.payStart)
    && (!f.freq ==> state.freq == 0)
  }

  class TermDecoder {
    const features: Features
    const input: seq<nat>
    var at: nat
    var meta: State

    constructor (features: Features, input: seq<nat>)
      ensures this.features == features && this.input == input && at == 0 && meta == CLEARED
    {
      this.features, this.input, at, meta := features, input, 0, CLEARED;
    }

    method BeginBlock()
      modifies this`meta
      ensures meta == CLEARED
    {
      meta := CLEARED;
    }

    /** Decodes one term in place: pointers are added up, and what the term does not have is left as it was. */
    method Decode(ghost last: State, ghost written: State)
      requires Follows(features, last, written) && Agrees(features, meta, last)
      requires At(input, at, Encoded(features, last, written))
      modifies this`at, this`meta
      ensures at == old(at) + |Encoded(features, last, written)|
      ensures View(meta, features) == View(written, features) && Agrees(features, meta, written)
    {
      ghost var counts, extra := Counts(last, written), Extra(written);
      ghost var positions := if features.pos then Positions(features, last, written) else [];
      ghost var start := at;
      AtSplit(input, at, counts + positions, extra);
      AtSplit(input, at, counts, positions);
      DecodeCounts(last, written);
      if features.freq && meta.freq != 0 && features.pos {
        DecodePositions(last, written);
      }
      assert at == start + |counts + positions| && At(input, at, extra);
      if meta.docsCount == 1 {
        assert extra[0] == written.singleDoc;
        meta := meta.(singleDoc := input[at]);
        at := at + 1;
      } else if BLOCK < meta.docsCount {
        assert extra[0] == written.skipStart;
        meta := meta.(skipStart := input[at]);
        at := at + 1;
      }
    }

    method DecodeCounts(ghost last: State, ghost written: State)
      requires Follows(features, last, written) && Agrees(features, meta, last)
      requires At(input, at, Counts(last, written))
      modifies this`at, this`meta
      ensures at == old(at) + |Counts(last, written)|
      ensures meta == old(meta).(docsCount := written.docsCount, freq := written.freq, docStart := written.docStart)
    {
      ghost var e := Counts(last, written);
      assert e[0] == input[at] && e[1] == input[at + 1] && (features.freq ==> e[2] == input[at + 2]);
      meta := meta.(docsCount := input[at]);
      at := at + 1;
      if features.freq {
        meta := meta.(freq := meta.docsCount + input[at]);
        at := at + 1;
      }
      meta := meta.(docStart := meta.docStart + input[at]);
      at := at + 1;
    }

    method DecodePositions(ghost last: State, ghost written: State)
      requires Follows(features, last, written) && features.pos && meta.freq == written.freq
      requires meta.posStart == last.posStart && (features.HasOffsetOrPayload() ==> meta.payStart == last.payStart)
      requires At(input, at, Positions(features, last, written))
      modifies this`at, this`meta
      ensures at == old(at) + |Positions(features, last, written)|
      ensures meta == old(meta).(posStart := written.posStart, posEnd := written.posEnd,
                                 payStart := if features.HasOffsetOrPayload() then written.payStart else old(meta).payStart)
    {
      ghost var e, start := Positions(features, last, written), at;
      assert e[0] == input[start] == written.posStart - last.posStart;
      meta := meta.(posStart := meta.posStart + input[at]);
      at := at + 1;
      if meta.freq > BLOCK {
        assert e[1] == input[start + 1] == written.posEnd.value;
        meta := meta.(posEnd := Some(input[at]));
        at := at + 1;
      } else {
        meta := meta.(posEnd := None);
      }
      if features.HasOffsetOrPayload() {
        assert e[|e| - 1] == input[start + |e| - 1] == written.payStart - last.payStart;
        meta := meta.(payStart := meta.payStart + input[at]);
        at := at + 1;
      }
    }
  }

  /** These values come next. */
  ghost predicate At(input: seq<nat>, at: nat, e: seq<nat>) {
    at + |e| <= |input| && forall k :: 0 <= k < |e| ==> e[k] == input[at + k]
  }

  lemma AtSplit(input: seq<nat>, at: nat, a: seq<nat>, b: seq<nat>)
    requires At(input, at, a + b)
    ensures At(input, at, a) && At(input, at + |a|, b)
  {
    assert forall k :: 0 <= k < |a| ==> a[k] == (a + b)[k];
    assert forall k :: 0 <= k < |b| ==> b[k] == (a + b)[|a| + k];
  }
}
