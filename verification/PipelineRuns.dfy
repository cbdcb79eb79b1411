/** Whole runs of a tokenizer pipeline. */
module PipelineRuns {
  import opened Pipelines
  import opened PipelinePositions

  /** A pipeline that refuses nothing starts with the composition of its members. */
  lemma StartedIsComposition(members: seq<Member>, data: string, deep: seq<int>)
    requires members != [] && Total(members) && |deep| == |members| - 1
    ensures var f, c := Started(members, data, deep), Analyzed(members, data, deep);
            f.Flow? && f.tokens == Shown(c.events, false) && |f.pos| == |members| && f.pos[1..] == c.pos
  {
    RunAllIsComposition(members[1..], Own(members[0](data).value, Token(data, 0, |data|, 0)), deep, false);
  }

  /** Everything a stream still produces, until there is no more. */
  method Drain(stream: PipelineTokenStream) returns (tokens: seq<Token>)
    requires stream.Valid()
    modifies stream
    ensures stream.Valid() && tokens == old(stream.Rest()).tokens
    ensures old(stream.Rest()).Flow? ==> stream.Deep() == old(stream.Rest()).pos[1..]
  {
    hide PipelineTokenStream.Valid, PipelineTokenStream.Rest;
    tokens := [];
    stream.SameMembers();
    ghost var all := stream.Rest();
    var more := stream.Next();
    while more
      invariant stream.Valid()
      invariant more ==> all == Prefixed(tokens + [Token(stream.term, stream.start, stream.end, stream.inc)], stream.Rest())
      invariant !more ==> tokens == all.tokens && (all.Flow? ==> stream.Deep() == all.pos[1..])
      decreases |all.tokens| - |tokens|, more
    {
      ghost var taken := tokens + [Token(stream.term, stream.start, stream.end, stream.inc)];
      ghost var rest := stream.Rest();
      tokens := tokens + [Token(stream.term, stream.start, stream.end, stream.inc)];
      more := stream.Next();
      if more {
        PrefixedTwice(taken, [Token(stream.term, stream.start, stream.end, stream.inc)], stream.Rest());
      }
    }
  }

  /** Any number of inputs given to one pipeline whose members refuse nothing: the terms and their places are those of plain
      function composition, input by input; with their moves they are those of the composition of the members from where the
      input before has left them. The places are true: a token of members that split their input is the part of the original
      input that it says it is, and other places add up along the tokens that a token comes of. */
  method Analyze(analyzers: seq<Member>, inputs: seq<string>) returns (outputs: seq<seq<Token>>)
    requires analyzers != [] && Total(analyzers)
    ensures outputs == Analyses(analyzers, inputs, Fresh(|analyzers| - 1))
    ensures forall k :: 0 <= k < |inputs| ==> Bares(outputs[k]) == Plain(analyzers, Whole(inputs[k]))
    ensures forall k :: 0 <= k < |inputs| ==> AllRooted(analyzers, inputs[k], outputs[k]) && (AllSlicing(analyzers) ==> AllSlices(outputs[k], inputs[k]))
  {
    hide PipelineTokenStream.Valid, PipelineTokenStream.Rest, Analyzed, Analyses, Started, Plain, Bares, AllRooted, AllSlicing, AllSlices;
    var stream := new PipelineTokenStream(analyzers);
    stream.SameMembers();
    outputs := [];
    var k := 0;
    assert inputs[0..] == inputs;
    ghost var all := Analyses(analyzers, inputs, stream.Deep());
    while k < |inputs|
      invariant k <= |inputs| && stream.Valid()
      invariant outputs + Analyses(analyzers, inputs[k..], stream.Deep()) == all
    {
      ghost var deep := stream.Deep();
      AnalysesNext(analyzers, inputs, deep, k);
      StartedIsComposition(analyzers, inputs[k], deep);
      stream.SameMembers();
      var ok := stream.Reset(inputs[k]);
      var tokens := Drain(stream);
      outputs := outputs + [tokens];
      k := k + 1;
    }
    assert inputs[k..] == [];
    AnalysesNone(analyzers, stream.Deep());
    AnalysesPlain(analyzers, inputs, Fresh(|analyzers| - 1));
    forall j | 0 <= j < |inputs|
      ensures AllRooted(analyzers, inputs[j], outputs[j]) && (AllSlicing(analyzers) ==> AllSlices(outputs[j], inputs[j]))
    {
      PlacesAreTrue(analyzers, inputs[j], outputs[j]);
    }
  }
}
