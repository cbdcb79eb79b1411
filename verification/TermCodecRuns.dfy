/** Whole runs over blocks of term metadata. */
module TermCodecRuns {
  import opened PostingsFormat
  import opened TermCodec

  /** A block of terms as the writer produces them. */
  ghost predicate Block(f: Features, last: State, terms: seq<State>)
    decreases |terms|
  {
    terms == [] || (Follows(f, last, terms[0]) && Block(f, terms[0], terms[1..]))
  }

  ghost function BlockImage(f: Features, last: State, terms: seq<State>): seq<nat>
    requires Block(f, last, terms)
    decreases |terms|
  {
    if terms == [] then [] else Encoded(f, last, terms[0]) + BlockImage(f, terms[0], terms[1..])
  }

  /** Encodes a block of terms. */
  method EncodeBlock(encoder: TermEncoder, terms: seq<State>)
    requires Block(encoder.features, CLEARED, terms)
    modifies encoder
    ensures encoder.out == old(encoder.out) + BlockImage(encoder.features, CLEARED, terms)
  {
    hide Encoded, Follows;
    encoder.BeginBlock();
    assert terms[0..] == terms;
    var k := 0;
    while k < |terms|
      invariant k <= |terms| && Block(encoder.features, encoder.last, terms[k..])
      invariant encoder.out + BlockImage(encoder.features, encoder.last, terms[k..]) == old(encoder.out) + BlockImage(encoder.features, CLEARED, terms)
    {
      assert terms[k..][1..] == terms[k + 1..];
      encoder.Encode(terms[k]);
      k := k + 1;
    }
  }

  /** Decoding gives back what was encoded, as far as a reader sees it. */
  ghost predicate Back(f: Features, decoded: seq<State>, terms: seq<State>) {
    |decoded| == |terms| && forall k :: 0 <= k < |terms| ==> View(decoded[k], f) == View(terms[k], f)
  }

  /** Decodes a block of terms: what each term has is what was encoded for it. */
  method DecodeBlock(decoder: TermDecoder, n: nat, ghost terms: seq<State>) returns (decoded: seq<State>)
    requires n == |terms| && Block(decoder.features, CLEARED, terms) && At(decoder.input, decoder.at, BlockImage(decoder.features, CLEARED, terms))
    modifies decoder
    ensures Back(decoder.features, decoded, terms)
    ensures decoder.at == old(decoder.at) + |BlockImage(decoder.features, CLEARED, terms)|
  {
    hide Encoded, Follows, View, TermCodec.At, Block, BlockImage;
    AgreesAtStart(decoder.features);
    decoder.BeginBlock();
    decoded := [];
    ghost var last := CLEARED;
    assert terms[0..] == terms;
    while |decoded| < n
      invariant |decoded| <= n && Block(decoder.features, last, terms[|decoded|..]) && Agrees(decoder.features, decoder.meta, last)
      invariant At(decoder.input, decoder.at, BlockImage(decoder.features, last, terms[|decoded|..]))
      invariant decoder.at + |BlockImage(decoder.features, last, terms[|decoded|..])| == old(decoder.at) + |BlockImage(decoder.features, CLEARED, terms)|
      invariant forall k :: 0 <= k < |decoded| ==> View(decoded[k], decoder.features) == View(terms[k], decoder.features)
    {
      ghost var k := |decoded|;
      BlockNext(decoder.features, last, terms, k);
      AtSplit(decoder.input, decoder.at, Encoded(decoder.features, last, terms[k]), BlockImage(decoder.features, terms[k], terms[k + 1..]));
      decoder.Decode(last, terms[k]);
      last := terms[k];
      decoded := decoded + [decoder.meta];
    }
    BlockEnds(decoder.features, last);
    assert terms[n..] == [];
  }

  lemma AgreesAtStart(f: Features)
    ensures Agrees(f, CLEARED, CLEARED)
  {}

  lemma BlockNext(f: Features, last: State, terms: seq<State>, k: nat)
    requires k < |terms| && Block(f, last, terms[k..])
    ensures Follows(f, last, terms[k]) && Block(f, terms[k], terms[k + 1..])
    ensures BlockImage(f, last, terms[k..]) == Encoded(f, last, terms[k]) + BlockImage(f, terms[k], terms[k + 1..])
  {
    assert terms[k..][1..] == terms[k + 1..];
  }

  lemma BlockEnds(f: Features, last: State)
    ensures Block(f, last, []) && BlockImage(f, last, []) == []
  {}

  ghost predicate Blocks(f: Features, blocks: seq<seq<State>>) {
    forall b :: 0 <= b < |blocks| ==> Block(f, CLEARED, blocks[b])
  }

  ghost function Image(f: Features, blocks: seq<seq<State>>): seq<nat>
    requires Blocks(f, blocks)
  {
    if blocks == [] then [] else BlockImage(f, CLEARED, blocks[0]) + Image(f, blocks[1..])
  }

  lemma ImageNext(f: Features, blocks: seq<seq<State>>, b: nat)
    requires Blocks(f, blocks) && b < |blocks|
    ensures Block(f, CLEARED, blocks[b])
    ensures Image(f, blocks[b..]) == BlockImage(f, CLEARED, blocks[b]) + Image(f, blocks[b + 1..])
  {
    assert blocks[b..][1..] == blocks[b + 1..];
  }

  /** Any number of blocks one after the other come back as they were written. */
  method EncodeAndDecode(f: Features, blocks: seq<seq<State>>) returns (decoded: seq<seq<State>>)
    requires Blocks(f, blocks)
    ensures |decoded| == |blocks| && forall b :: 0 <= b < |blocks| ==> Back(f, decoded[b], blocks[b])
  {
    var out := EncodeAll(f, blocks);
    hide Blocks, Block, BlockImage, Image, Back, TermCodec.At;
    var decoder := new TermDecoder(f, out);
    AtAll(out);
    decoded := [];
    while |decoded| < |blocks|
      invariant |decoded| <= |blocks| && Blocks(f, blocks[|decoded|..]) && At(decoder.input, decoder.at, Image(f, blocks[|decoded|..]))
      invariant forall b :: 0 <= b < |decoded| ==> Back(f, decoded[b], blocks[b])
    {
      var terms := DecodeNext(decoder, blocks, |decoded|);
      decoded := decoded + [terms];
    }
  }

  method DecodeNext(decoder: TermDecoder, blocks: seq<seq<State>>, b: nat) returns (terms: seq<State>)
    requires b < |blocks| && Blocks(decoder.features, blocks) && At(decoder.input, decoder.at, Image(decoder.features, blocks[b..]))
    modifies decoder
    ensures Back(decoder.features, terms, blocks[b]) && Blocks(decoder.features, blocks[b + 1..])
    ensures At(decoder.input, decoder.at, Image(decoder.features, blocks[b + 1..]))
  {
    hide Blocks, Block, BlockImage, Image, Back, TermCodec.At;
    NextAt(decoder.features, blocks, b, decoder.input, decoder.at);
    terms := DecodeBlock(decoder, |blocks[b]|, blocks[b]);
  }

  /** The image of a block, and behind it that of the blocks after it. */
  lemma NextAt(f: Features, blocks: seq<seq<State>>, b: nat, input: seq<nat>, at: nat)
    requires Blocks(f, blocks) && b < |blocks| && At(input, at, Image(f, blocks[b..]))
    ensures Block(f, CLEARED, blocks[b]) && At(input, at, BlockImage(f, CLEARED, blocks[b]))
    ensures At(input, at + |BlockImage(f, CLEARED, blocks[b])|, Image(f, blocks[b + 1..]))
    ensures Blocks(f, blocks[b + 1..])
  {
    hide Block, BlockImage;
    ImageNext(f, blocks, b);
    AtSplit(input, at, BlockImage(f, CLEARED, blocks[b]), Image(f, blocks[b + 1..]));
  }

  lemma AtAll(input: seq<nat>)
    ensures At(input, 0, input)
  {}

  method EncodeAll(f: Features, blocks: seq<seq<State>>) returns (out: seq<nat>)
    requires Blocks(f, blocks)
    ensures out == Image(f, blocks) == Image(f, blocks[0..])
  {
    hide Block, BlockImage;
    var encoder := new TermEncoder(f);
    var b := 0;
    assert blocks[0..] == blocks;
    while b < |blocks|
      invariant b <= |blocks| && encoder.out + Image(f, blocks[b..]) == Image(f, blocks)
    {
      ImageNext(f, blocks, b);
      EncodeBlock(encoder, blocks[b]);
      b := b + 1;
    }
    assert blocks[b..] == [];
    out := encoder.out;
  }
}
