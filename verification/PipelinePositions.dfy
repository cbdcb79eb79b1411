/** What a pipeline says about terms, about positions, and about inputs it has seen before. */
module PipelinePositions {
  import opened Pipelines

  // ------------------------------------------------- several inputs in a row

  /** What the members make of an input together, when those below the top one stand at `deep`. */
  ghost function Analyzed(members: seq<Member>, data: string, deep: seq<int>): (c: Composition)
    requires members != [] && Total(members) && |deep| == |members| - 1
    ensures |c.pos| == |deep|
  {
    Composed(members[1..], Own(members[0](data).value, Token(data, 0, |data|, 0)), deep)
  }

  /** The tokens of several inputs in a row; each one finds the members where the one before has left them. */
  ghost function Analyses(members: seq<Member>, inputs: seq<string>, deep: seq<int>): (s: seq<seq<Token>>)
    requires members != [] && Total(members) && |deep| == |members| - 1
    ensures |s| == |inputs|
    decreases |inputs|
  {
    if inputs == [] then []
    else
      var first := Analyzed(members, inputs[0], deep);
      [Shown(first.events, false)] + Analyses(members, inputs[1..], first.pos)
  }

  lemma AnalysesNext(members: seq<Member>, inputs: seq<string>, deep: seq<int>, k: nat)
    requires members != [] && Total(members) && |deep| == |members| - 1 && k < |inputs|
    ensures var next := Analyzed(members, inputs[k], deep);
            Analyses(members, inputs[k..], deep) == [Shown(next.events, false)] + Analyses(members, inputs[k + 1..], next.pos)
  {
    assert inputs[k..][1..] == inputs[k + 1..];
  }

  lemma AnalysesNone(members: seq<Member>, deep: seq<int>)
    requires members != [] && Total(members) && |deep| == |members| - 1
    ensures Analyses(members, [], deep) == []
  {}

  // ------------------------------------------------- terms and places

  function Bare(token: Token): Token { token.(inc := 0) }

  function Bares(tokens: seq<Token>): seq<Token> {
    if tokens == [] then [] else [Bare(tokens[0])] + Bares(tokens[1..])
  }

  /** The tokens handed down, without their moves. */
  function Terms(es: seq<Event>): seq<Token> {
    if es == [] then [] else (if es[0].Back? then [] else [Bare(es[0].token)]) + Terms(es[1..])
  }

  function Placed(tokens: seq<Token>, input: Token): (s: seq<Token>)
    ensures |s| == |tokens| && forall k :: 0 <= k < |s| ==> s[k] == Bare(Absolute(tokens[k], input))
  {
    seq(|tokens|, k requires 0 <= k < |tokens| => Bare(Absolute(tokens[k], input)))
  }

  /** All tokens of one member, for all its inputs in order. */
  ghost function FlatMap(member: Member, inputs: seq<Token>): seq<Token>
    requires forall s :: member(s).Some?
  {
    if inputs == [] then [] else Placed(member(inputs[0].term).value, inputs[0]) + FlatMap(member, inputs[1..])
  }

  /** Function composition: the whole output of each member is the input of the next. */
  ghost function Plain(members: seq<Member>, inputs: seq<Token>): seq<Token>
    requires Total(members)
    decreases |members|
  {
    if members == [] then inputs else Plain(members[1..], FlatMap(members[0], inputs))
  }

  lemma {:induction false} TermsJoin(a: seq<Event>, b: seq<Event>)
    ensures Terms(a + b) == Terms(a) + Terms(b)
  {
    if a == [] {
      assert a + b == b;
    } else {
      assert (a + b)[1..] == a[1..] + b;
      TermsJoin(a[1..], b);
    }
  }

  lemma {:induction false} TermsAre(es: seq<Event>, tokens: seq<Token>)
    requires |es| == |tokens| && forall k :: 0 <= k < |es| ==> es[k].Step? && Bare(es[k].token) == tokens[k]
    ensures Terms(es) == tokens
  {
    if es != [] {
      TermsAre(es[1..], tokens[1..]);
      assert tokens == [tokens[0]] + tokens[1..];
    }
  }

  lemma TermsMade(member: Member, e: Event, pos: int)
    requires forall s :: member(s).Some?
    ensures Terms(Made(member, e, pos).events) == FlatMap(member, Terms([e]))
  {
    assert [e][1..] == [];
    if e.Step? {
      var tokens := member(e.token.term).value;
      var children := Children(tokens, e.token, e.holds);
      forall k | 0 <= k < |children|
        ensures children[k].Step? && Bare(children[k].token) == Placed(tokens, Bare(e.token))[k]
      {
        assert k > 0 ==> children[k] == Own(tokens, e.token)[k];
      }
      TermsAre(children, Placed(tokens, Bare(e.token)));
      TermsJoin(GoesBack(e, pos), children);
      assert Terms([e]) == [Bare(e.token)] && [Bare(e.token)][1..] == [];
      assert Terms(GoesBack(e, pos)) == [];
    }
  }

  lemma {:induction false} FlatMapJoin(member: Member, a: seq<Token>, b: seq<Token>)
    requires forall s :: member(s).Some?
    ensures FlatMap(member, a + b) == FlatMap(member, a) + FlatMap(member, b)
  {
    if a == [] {
      assert a + b == b;
    } else {
      assert (a + b)[1..] == a[1..] + b;
      FlatMapJoin(member, a[1..], b);
    }
  }

  lemma {:induction false} TermsMapped(member: Member, es: seq<Event>, pos: int)
    requires forall s :: member(s).Some?
    ensures Terms(Mapped(member, es, pos).events) == FlatMap(member, Terms(es))
  {
    if es != [] {
      hide Made;
      var here := Made(member, es[0], pos);
      TermsMade(member, es[0], pos);
      TermsMapped(member, es[1..], here.pos);
      TermsJoin(here.events, Mapped(member, es[1..], here.pos).events);
      TermsJoin([es[0]], es[1..]);
      FlatMapJoin(member, Terms([es[0]]), Terms(es[1..]));
      assert es == [es[0]] + es[1..];
    }
  }

  lemma {:induction false} TermsComposed(members: seq<Member>, es: seq<Event>, pos: seq<int>)
    requires Total(members) && |pos| == |members|
    ensures Terms(Composed(members, es, pos).events) == Plain(members, Terms(es))
    decreases |members|
  {
    if members != [] {
      TermsMapped(members[0], es, pos[0]);
      TermsComposed(members[1..], Mapped(members[0], es, pos[0]).events, pos[1..]);
    }
  }

  lemma {:induction false} ShownTerms(es: seq<Event>, back: bool)
    ensures Bares(Shown(es, back)) == Terms(es)
  {
    if es != [] {
      ShownTerms(es[1..], es[0].Back?);
      if es[0].Step? {
        assert Shown(es, back)[1..] == Shown(es[1..], false);
      }
    }
  }

  /** An input as the one token it is. */
  function Whole(data: string): seq<Token> { [Token(data, 0, |data|, 0)] }

  /** The terms and their places are the function composition of the members, whatever the pipeline has seen before. */
  lemma TermsAreComposition(members: seq<Member>, data: string, deep: seq<int>)
    requires members != [] && Total(members) && |deep| == |members| - 1
    ensures Terms(Analyzed(members, data, deep).events) == Plain(members, Whole(data))
    ensures Bares(Shown(Analyzed(members, data, deep).events, false)) == Plain(members, Whole(data))
  {
    var input := Token(data, 0, |data|, 0);
    var own := Own(members[0](data).value, input);
    TermsComposed(members[1..], own, deep);
    ShownTerms(Analyzed(members, data, deep).events, false);
    TermsAre(own, Placed(members[0](data).value, input));
    assert [input][1..] == [];
    assert FlatMap(members[0], [input]) == Placed(members[0](data).value, input);
  }

  /** The same for all inputs in a row. */
  lemma {:induction false} AnalysesPlain(members: seq<Member>, inputs: seq<string>, deep: seq<int>)
    requires members != [] && Total(members) && |deep| == |members| - 1
    ensures forall k :: 0 <= k < |inputs| ==> Bares(Analyses(members, inputs, deep)[k]) == Plain(members, Whole(inputs[k]))
    decreases |inputs|
  {
    if inputs != [] {
      hide Analyzed, Plain, Bares, Shown;
      var first := Analyzed(members, inputs[0], deep);
      TermsAreComposition(members, inputs[0], deep);
      AnalysesPlain(members, inputs[1..], first.pos);
      var all, rest := Analyses(members, inputs, deep), Analyses(members, inputs[1..], first.pos);
      forall k | 0 <= k < |inputs|
        ensures Bares(all[k]) == Plain(members, Whole(inputs[k]))
      {
        assert k > 0 ==> all[k] == rest[k - 1] && inputs[1..][k - 1] == inputs[k];
      }
    }
  }

  // ------------------------------------------------- places in the original input

  ghost predicate IsSlice(t: Token, s: string) {
    0 <= t.start <= t.end <= |s| && s[t.start..t.end] == t.term
  }

  /** All tokens of the member are parts of its input. */
  ghost predicate Slicing(member: Member)
    requires forall s :: member(s).Some?
  {
    forall s, k :: 0 <= k < |member(s).value| ==> IsSlice(member(s).value[k], s)
  }

  ghost predicate AllSlicing(members: seq<Member>)
    requires Total(members)
  {
    forall i :: 0 <= i < |members| ==> Slicing(members[i])
  }

  ghost predicate AllSlices(tokens: seq<Token>, s: string) {
    forall k :: 0 <= k < |tokens| ==> IsSlice(tokens[k], s)
  }

  /** A part of a part. */
  lemma SliceOfSlice(t: Token, input: Token, data: string)
    requires IsSlice(input, data) && IsSlice(t, input.term)
    ensures IsSlice(Bare(Absolute(t, input)), data)
  {
    PartOfPart(data, input.start, input.end, t.start, t.end);
    assert Absolute(t, input).end == input.start + t.end;
  }

  lemma PartOfPart(s: string, i: int, j: int, k: int, l: int)
    requires 0 <= i <= j <= |s| && 0 <= k <= l <= j - i
    ensures s[i..j][k..l] == s[i + k..i + l]
  {
    var a, b := s[i..j][k..l], s[i + k..i + l];
    assert |a| == |b|;
    assert forall x :: 0 <= x < |a| ==> a[x] == s[i..j][k + x] == b[x];
  }

  lemma {:induction false} FlatMapSlices(member: Member, inputs: seq<Token>, data: string)
    requires (forall s :: member(s).Some?) && Slicing(member) && AllSlices(inputs, data)
    ensures AllSlices(FlatMap(member, inputs), data)
  {
    if inputs != [] {
      var tokens := member(inputs[0].term).value;
      forall k | 0 <= k < |tokens|
        ensures IsSlice(Placed(tokens, inputs[0])[k], data)
      {
        SliceOfSlice(tokens[k], inputs[0], data);
      }
      FlatMapSlices(member, inputs[1..], data);
    }
  }

  lemma {:induction false} PlainSlices(members: seq<Member>, inputs: seq<Token>, data: string)
    requires Total(members) && AllSlicing(members) && AllSlices(inputs, data)
    ensures AllSlices(Plain(members, inputs), data)
    decreases |members|
  {
    if members != [] {
      FlatMapSlices(members[0], inputs, data);
      assert forall i :: 0 <= i < |members| - 1 ==> members[1..][i] == members[i + 1];
      PlainSlices(members[1..], FlatMap(members[0], inputs), data);
    }
  }

  /** One token of each member, each of them made of the term of the one before. */
  ghost predicate IsChain(members: seq<Member>, data: string, chain: seq<Token>)
    requires Total(members)
  {
    |chain| == |members| && forall i :: 0 <= i < |chain| ==> chain[i] in members[i](TermAt(data, chain, i)).value
  }

  /** What the i-th member of a chain is given. */
  function TermAt(data: string, chain: seq<Token>, i: nat): string
    requires i <= |chain|
  {
    if i == 0 then data else chain[i - 1].term
  }

  /** All starts of a chain together. */
  function StartAt(chain: seq<Token>): int {
    if chain == [] then 0 else StartAt(chain[..|chain| - 1]) + chain[|chain| - 1].start
  }

  /** A token that ends where its input ends, ends where the token that was its input ends. */
  function EndAt(data: string, chain: seq<Token>): int {
    if chain == [] then |data|
    else
      var n := |chain| - 1;
      if chain[n].end == |TermAt(data, chain, n)| then EndAt(data, chain[..n]) else StartAt(chain[..n]) + chain[n].end
  }

  /** The token comes of a chain, and lies where the starts and ends of that say. */
  ghost predicate Rooted(members: seq<Member>, data: string, token: Token)
    requires Total(members)
  {
    exists chain :: IsChain(members, data, chain) && token.term == TermAt(data, chain, |chain|) && token.start == StartAt(chain) && token.end == EndAt(data, chain)
  }

  ghost predicate AllRooted(members: seq<Member>, data: string, tokens: seq<Token>)
    requires Total(members)
  {
    forall k :: 0 <= k < |tokens| ==> Rooted(members, data, tokens[k])
  }

  lemma ChainLonger(members: seq<Member>, member: Member, data: string, chain: seq<Token>, t: Token)
    requires Total(members + [member]) && Total(members) && IsChain(members, data, chain)
    requires (forall s :: member(s).Some?) && t in member(TermAt(data, chain, |chain|)).value
    ensures IsChain(members + [member], data, chain + [t])
  {
    var longer, all := chain + [t], members + [member];
    forall i | 0 <= i < |longer|
      ensures longer[i] in all[i](TermAt(data, longer, i)).value
    {
      assert TermAt(data, longer, i) == TermAt(data, chain, i);
      assert i < |chain| ==> all[i] == members[i] && longer[i] == chain[i];
    }
  }

  lemma PlacesLonger(data: string, chain: seq<Token>, t: Token)
    ensures var longer := chain + [t];
            && StartAt(longer) == StartAt(chain) + t.start && TermAt(data, longer, |longer|) == t.term
            && EndAt(data, longer) == if t.end == |TermAt(data, chain, |chain|)| then EndAt(data, chain) else StartAt(chain) + t.end
  {
    var longer := chain + [t];
    assert longer[..|chain|] == chain && TermAt(data, longer, |chain|) == TermAt(data, chain, |chain|);
  }

  lemma OneLonger(members: seq<Member>, member: Member, data: string, input: Token, t: Token)
    requires Total(members + [member]) && Total(members) && Rooted(members, data, input)
    requires (forall s :: member(s).Some?) && t in member(input.term).value
    ensures Rooted(members + [member], data, Bare(Absolute(t, input)))
  {
    hide IsChain, StartAt, EndAt, TermAt;
    var chain :| IsChain(members, data, chain) && input.term == TermAt(data, chain, |chain|) && input.start == StartAt(chain) && input.end == EndAt(data, chain);
    ChainLonger(members, member, data, chain, t);
    PlacesLonger(data, chain, t);
  }

  lemma {:induction false} FlatMapRooted(members: seq<Member>, member: Member, data: string, inputs: seq<Token>)
    requires Total(members + [member]) && Total(members) && AllRooted(members, data, inputs)
    requires forall s :: member(s).Some?
    ensures AllRooted(members + [member], data, FlatMap(member, inputs))
  {
    hide Rooted;
    if inputs != [] {
      var tokens := member(inputs[0].term).value;
      forall k | 0 <= k < |tokens|
        ensures Rooted(members + [member], data, Placed(tokens, inputs[0])[k])
      {
        OneLonger(members, member, data, inputs[0], tokens[k]);
      }
      FlatMapRooted(members, member, data, inputs[1..]);
    }
  }

  lemma {:induction false} PlainRooted(done: seq<Member>, members: seq<Member>, data: string, inputs: seq<Token>)
    requires Total(done + members) && Total(done) && Total(members) && AllRooted(done, data, inputs)
    ensures AllRooted(done + members, data, Plain(members, inputs))
    decreases |members|
  {
    if members == [] {
      assert done + members == done;
    } else {
      hide Rooted;
      assert done + members == (done + [members[0]]) + members[1..];
      assert forall i :: 0 <= i < |done| + 1 ==> (done + [members[0]])[i] == (done + members)[i];
      FlatMapRooted(done, members[0], data, inputs);
      PlainRooted(done + [members[0]], members[1..], data, FlatMap(members[0], inputs));
    }
  }

  lemma {:induction false} BaresAt(tokens: seq<Token>, k: nat)
    requires k < |tokens|
    ensures |Bares(tokens)| == |tokens| && Bares(tokens)[k] == Bare(tokens[k])
  {
    if k > 0 {
      BaresAt(tokens[1..], k - 1);
    } else if |tokens| > 1 {
      BaresAt(tokens[1..], 0);
    }
  }

  /** Where tokens lie: if every member gives parts of its input, the tokens are the parts of the original input that their
      places name; and in any case the places add up along the chain of tokens that each one comes of. */
  lemma PlacesAreTrue(members: seq<Member>, data: string, tokens: seq<Token>)
    requires Total(members) && Bares(tokens) == Plain(members, Whole(data))
    ensures AllSlicing(members) ==> AllSlices(tokens, data)
    ensures AllRooted(members, data, tokens)
  {
    hide Rooted;
    var whole := Whole(data);
    assert data[..] == data;
    if AllSlicing(members) {
      PlainSlices(members, whole, data);
    }
    WholeRooted(data);
    assert [] + members == members;
    PlainRooted([], members, data, whole);
    forall k | 0 <= k < |tokens|
      ensures (AllSlicing(members) ==> IsSlice(tokens[k], data)) && Rooted(members, data, tokens[k])
    {
      BaresAt(tokens, k);
      BareRooted(members, data, tokens[k]);
    }
  }

  lemma BareRooted(members: seq<Member>, data: string, token: Token)
    requires Total(members)
    ensures Rooted(members, data, token) <==> Rooted(members, data, Bare(token))
  {}

  lemma WholeRooted(data: string)
    ensures Total([]) && AllRooted([], data, Whole(data))
  {
    assert IsChain([], data, []);
  }

  // ------------------------------------------------- gaps

  /** How far some events move together. */
  function EventMoves(es: seq<Event>): int {
    if es == [] then 0 else (if es[0].Back? then 0 else es[0].token.inc) + EventMoves(es[1..])
  }

  /** How often a member goes back in front of a token. */
  function Turns(es: seq<Event>, back: bool): nat {
    if es == [] then 0 else if es[0].Back? then Turns(es[1..], true) else (if back then 1 else 0) + Turns(es[1..], false)
  }

  function TokenMoves(tokens: seq<Token>): int {
    if tokens == [] then 0 else tokens[0].inc + TokenMoves(tokens[1..])
  }

  lemma {:induction false} ShownMoves(es: seq<Event>, back: bool)
    ensures TokenMoves(Shown(es, back)) == EventMoves(es) + Turns(es, back)
  {
    if es != [] {
      ShownMoves(es[1..], es[0].Back?);
      if es[0].Step? {
        assert Shown(es, back)[1..] == Shown(es[1..], false);
      }
    }
  }

  /** What a member moves beyond the first step, over all inputs of which it makes something. */
  ghost function Gaps(member: Member, es: seq<Event>): int
    requires forall s :: member(s).Some?
  {
    if es == [] then 0
    else (if es[0].Step? && member(es[0].token.term).value != [] then Moves(member(es[0].token.term).value) - 1 else 0) + Gaps(member, es[1..])
  }

  /** What the inputs move of which a member makes nothing. */
  ghost function Lost(member: Member, es: seq<Event>): int
    requires forall s :: member(s).Some?
  {
    if es == [] then 0
    else (if es[0].Step? && member(es[0].token.term).value == [] then es[0].token.inc else 0) + Lost(member, es[1..])
  }

  lemma {:induction false} EventMovesJoin(a: seq<Event>, b: seq<Event>)
    ensures EventMoves(a + b) == EventMoves(a) + EventMoves(b)
  {
    if a == [] {
      assert a + b == b;
    } else {
      assert (a + b)[1..] == a[1..] + b;
      EventMovesJoin(a[1..], b);
    }
  }

  lemma {:induction false} OwnMoves(tokens: seq<Token>, input: Token)
    ensures EventMoves(Own(tokens, input)) == Moves(tokens)
  {
    if tokens != [] {
      var n := |tokens| - 1;
      OwnMoves(tokens[..n], input);
      assert Own(tokens, input) == Own(tokens[..n], input) + [Own(tokens, input)[n]];
      assert [Own(tokens, input)[n]][1..] == [];
      EventMovesJoin(Own(tokens[..n], input), [Own(tokens, input)[n]]);
    }
  }

  lemma ChildrenMove(tokens: seq<Token>, input: Token, holds: bool)
    ensures EventMoves(Children(tokens, input, holds)) == if tokens == [] then 0 else input.inc + Moves(tokens) - 1
  {
    if tokens != [] {
      OwnMoves(tokens, input);
      assert Children(tokens, input, holds)[1..] == Own(tokens, input)[1..];
      assert Own(tokens, input)[0] == Step(Absolute(tokens[0], input), tokens[0].inc == 0);
    }
  }

  lemma {:induction false} MappedMoves(member: Member, es: seq<Event>, pos: int)
    requires forall s :: member(s).Some?
    ensures EventMoves(Mapped(member, es, pos).events) == EventMoves(es) + Gaps(member, es) - Lost(member, es)
  {
    if es != [] {
      var here := Made(member, es[0], pos);
      MappedMoves(member, es[1..], here.pos);
      EventMovesJoin(here.events, Mapped(member, es[1..], here.pos).events);
      if es[0].Step? {
        var tokens := member(es[0].token.term).value;
        ChildrenMove(tokens, es[0].token, es[0].holds);
        EventMovesJoin(GoesBack(es[0], pos), Children(tokens, es[0].token, es[0].holds));
        assert EventMoves(GoesBack(es[0], pos)) == 0;
      } else {
        assert [Back][1..] == [] && EventMoves([Back]) == 0;
      }
    }
  }

  ghost function AllGaps(members: seq<Member>, es: seq<Event>, pos: seq<int>): int
    requires Total(members) && |pos| == |members|
    decreases |members|
  {
    if members == [] then 0 else Gaps(members[0], es) + AllGaps(members[1..], Mapped(members[0], es, pos[0]).events, pos[1..])
  }

  ghost function AllLost(members: seq<Member>, es: seq<Event>, pos: seq<int>): int
    requires Total(members) && |pos| == |members|
    decreases |members|
  {
    if members == [] then 0 else Lost(members[0], es) + AllLost(members[1..], Mapped(members[0], es, pos[0]).events, pos[1..])
  }

  lemma {:induction false} ComposedMoves(members: seq<Member>, es: seq<Event>, pos: seq<int>)
    requires Total(members) && |pos| == |members|
    ensures EventMoves(Composed(members, es, pos).events) == EventMoves(es) + AllGaps(members, es, pos) - AllLost(members, es, pos)
    decreases |members|
  {
    if members != [] {
      MappedMoves(members[0], es, pos[0]);
      ComposedMoves(members[1..], Mapped(members[0], es, pos[0]).events, pos[1..]);
    }
  }

  /** The first token of an input steps onto a position, and no token steps back. */
  ghost predicate Forward(member: Member)
    requires forall s :: member(s).Some?
  {
    forall s, k :: 0 <= k < |member(s).value| ==> member(s).value[k].inc >= if k == 0 then 1 else 0
  }

  ghost predicate NoneNegative(es: seq<Event>) {
    forall k :: 0 <= k < |es| ==> es[k].Step? ==> es[k].token.inc >= 0
  }

  lemma {:induction false} MappedForward(member: Member, es: seq<Event>, pos: int)
    requires (forall s :: member(s).Some?) && Forward(member) && NoneNegative(es)
    ensures NoneNegative(Mapped(member, es, pos).events)
  {
    if es != [] {
      MadeForward(member, es[0], pos);
      MappedForward(member, es[1..], Made(member, es[0], pos).pos);
    }
  }

  lemma MadeForward(member: Member, e: Event, pos: int)
    requires (forall s :: member(s).Some?) && Forward(member) && (e.Step? ==> e.token.inc >= 0)
    ensures NoneNegative(Made(member, e, pos).events)
  {
    if e.Step? {
      var tokens := member(e.token.term).value;
      var children := Children(tokens, e.token, e.holds);
      forall k | 0 <= k < |children|
        ensures children[k].Step? && children[k].token.inc >= 0
      {
        assert tokens[k].inc >= if k == 0 then 1 else 0;
        assert k > 0 ==> children[k] == Own(tokens, e.token)[k];
      }
    }
  }

  /** Every token of which a member makes nothing holds its position. */
  ghost predicate DropsHold(member: Member, es: seq<Event>)
    requires forall s :: member(s).Some?
  {
    forall k :: 0 <= k < |es| ==> es[k].Step? ==> member(es[k].token.term).value == [] ==> es[k].token.inc == 0
  }

  ghost predicate AllDropsHold(members: seq<Member>, es: seq<Event>, pos: seq<int>)
    requires Total(members) && |pos| == |members|
    decreases |members|
  {
    members == [] || (DropsHold(members[0], es) && AllDropsHold(members[1..], Mapped(members[0], es, pos[0]).events, pos[1..]))
  }

  lemma {:induction false} LostIffDropped(member: Member, es: seq<Event>)
    requires (forall s :: member(s).Some?) && NoneNegative(es)
    ensures Lost(member, es) >= 0 && (Lost(member, es) == 0 <==> DropsHold(member, es))
  {
    if es != [] {
      LostIffDropped(member, es[1..]);
      assert forall k :: 0 <= k < |es| - 1 ==> es[1..][k] == es[k + 1];
      assert DropsHold(member, es) ==> DropsHold(member, es[1..]);
    }
  }

  lemma {:induction false} AllLostIffDropped(members: seq<Member>, es: seq<Event>, pos: seq<int>)
    requires Total(members) && |pos| == |members| && NoneNegative(es) && forall i :: 0 <= i < |members| ==> Forward(members[i])
    ensures AllLost(members, es, pos) >= 0 && (AllLost(members, es, pos) == 0 <==> AllDropsHold(members, es, pos))
    decreases |members|
  {
    if members != [] {
      assert Forward(members[0]);
      LostIffDropped(members[0], es);
      MappedForward(members[0], es, pos[0]);
      AllLostIffDropped(members[1..], Mapped(members[0], es, pos[0]).events, pos[1..]);
    }
  }

  /** The whole stream moves as far as its first member, all gaps of the members below it, and one step for each time a member
      has gone back before a token, exactly if every token of which a member makes nothing holds its position; else it moves less.
      The first member may hold its position at once, but does not step back. */
  lemma GapsKeptIff(members: seq<Member>, data: string, deep: seq<int>)
    requires members != [] && Total(members) && |deep| == |members| - 1 && forall i :: 0 < i < |members| ==> Forward(members[i])
    requires forall k :: 0 <= k < |members[0](data).value| ==> members[0](data).value[k].inc >= 0
    ensures var own := Own(members[0](data).value, Token(data, 0, |data|, 0));
            var events := Analyzed(members, data, deep).events;
            var whole := Moves(members[0](data).value) + AllGaps(members[1..], own, deep) + Turns(events, false);
            && TokenMoves(Shown(events, false)) <= whole
            && (TokenMoves(Shown(events, false)) == whole <==> AllDropsHold(members[1..], own, deep))
  {
    var input := Token(data, 0, |data|, 0);
    var own := Own(members[0](data).value, input);
    assert forall k :: 0 <= k < |own| ==> own[k].token.inc == members[0](data).value[k].inc;
    assert forall i :: 0 <= i < |members| - 1 ==> members[1..][i] == members[i + 1];
    OwnMoves(members[0](data).value, input);
    ComposedMoves(members[1..], own, deep);
    AllLostIffDropped(members[1..], own, deep);
    ShownMoves(Analyzed(members, data, deep).events, false);
  }

  // ------------------------------------------------- what has been seen before

  function Backs(n: nat): seq<Event> {
    if n == 0 then [] else [Back] + Backs(n - 1)
  }

  lemma {:induction false} BacksTurn(n: nat)
    ensures [Back] + Backs(n) == Backs(n) + [Back]
  {
    if n > 0 {
      BacksTurn(n - 1);
    }
  }

  /** The first token there is was reached without a move. */
  function FirstHolds(es: seq<Event>): bool {
    es != [] && if es[0].Back? then FirstHolds(es[1..]) else es[0].holds
  }

  lemma MappedNext(member: Member, e: Event, rest: seq<Event>, pos: int)
    requires forall s :: member(s).Some?
    ensures var here := Made(member, e, pos);
            var more := Mapped(member, rest, here.pos);
            Mapped(member, [e] + rest, pos) == Level(here.events + more.events, more.pos)
  {
    assert ([e] + rest)[1..] == rest;
  }

  /** A position from an earlier input shows only as going back once before the first token. */
  lemma {:induction false} MappedStale(member: Member, es: seq<Event>, pos: int)
    requires forall s :: member(s).Some?
    ensures Mapped(member, es, pos).events == Backs(if FirstHolds(es) && pos > 0 then 1 else 0) + Mapped(member, es, NOWHERE).events
  {
    if es != [] {
      var e, rest, n := es[0], es[1..], if FirstHolds(es) && pos > 0 then 1 else 0;
      assert es == [e] + rest && FirstHolds(es) == if e.Back? then FirstHolds(rest) else e.holds;
      hide Made, Mapped, FirstHolds, Backs;
      MadeStale(member, e, pos);
      MappedNext(member, e, rest, pos);
      MappedNext(member, e, rest, NOWHERE);
      if e.Back? {
        MappedStale(member, rest, pos);
        BacksTurn(n);
        Associate([Back], Backs(n), Mapped(member, rest, NOWHERE).events);
        Associate(Backs(n), [Back], Mapped(member, rest, NOWHERE).events);
      } else {
        Associate(Backs(n), Made(member, e, NOWHERE).events, Mapped(member, rest, Made(member, e, NOWHERE).pos).events);
      }
    } else {
      assert Backs(0) == [];
    }
  }

  lemma Associate(a: seq<Event>, b: seq<Event>, c: seq<Event>)
    ensures (a + b) + c == a + (b + c)
  {}

  lemma MadeStale(member: Member, e: Event, pos: int)
    requires forall s :: member(s).Some?
    ensures e.Back? ==> forall p :: Made(member, e, p) == Level([Back], p)
    ensures e.Step? ==> Made(member, e, pos).pos == Made(member, e, NOWHERE).pos
    ensures e.Step? ==> Made(member, e, pos).events == Backs(if e.holds && pos > 0 then 1 else 0) + Made(member, e, NOWHERE).events
  {
    assert Backs(1) == [Back];
  }

  lemma {:induction false} ComposedBacks(members: seq<Member>, n: nat, es: seq<Event>, pos: seq<int>)
    requires Total(members) && |pos| == |members|
    ensures Composed(members, Backs(n) + es, pos).events == Backs(n) + Composed(members, es, pos).events
  {
    hide Composed;
    if n == 0 {
      assert Backs(0) + es == es;
    } else {
      ComposedBacks(members, n - 1, es, pos);
      ComposedBack(members, pos);
      ComposedJoin(members, [Back], Backs(n - 1) + es, pos);
      assert Backs(n) + es == [Back] + (Backs(n - 1) + es);
    }
  }

  function Fresh(n: nat): (s: seq<int>)
    ensures |s| == n && forall i :: 0 <= i < n ==> s[i] == NOWHERE
  {
    seq(n, _ => NOWHERE)
  }

  /** Members that have moved on in an earlier input and are reached for the first time without a move. */
  ghost function Stale(members: seq<Member>, es: seq<Event>, pos: seq<int>): nat
    requires Total(members) && |pos| == |members|
    decreases |members|
  {
    if members == [] then 0
    else (if FirstHolds(es) && pos[0] > 0 then 1 else 0) + Stale(members[1..], Mapped(members[0], es, NOWHERE).events, pos[1..])
  }

  lemma {:induction false} BacksJoin(a: nat, b: nat)
    ensures Backs(a + b) == Backs(a) + Backs(b)
  {
    if a > 0 {
      BacksJoin(a - 1, b);
    }
  }

  lemma BacksAssociate(a: nat, b: nat, es: seq<Event>)
    ensures Backs(a) + (Backs(b) + es) == Backs(a + b) + es
  {
    BacksJoin(a, b);
  }

  lemma Unfolded(members: seq<Member>, es: seq<Event>, pos: seq<int>)
    requires members != [] && Total(members) && |pos| == |members|
    ensures Composed(members, es, pos).events == Composed(members[1..], Mapped(members[0], es, pos[0]).events, pos[1..]).events
  {}

  lemma {:induction false} ComposedStale(members: seq<Member>, es: seq<Event>, pos: seq<int>)
    requires Total(members) && |pos| == |members|
    ensures Composed(members, es, pos).events == Backs(Stale(members, es, pos)) + Composed(members, es, Fresh(|members|)).events
    decreases |members|
  {
    if members != [] {
      var n, level := if FirstHolds(es) && pos[0] > 0 then 1 else 0, Mapped(members[0], es, NOWHERE).events;
      var m, anew := Stale(members[1..], level, pos[1..]), Composed(members[1..], level, Fresh(|members| - 1)).events;
      assert Fresh(|members|)[1..] == Fresh(|members| - 1);
      assert Stale(members, es, pos) == n + m && Composed(members, es, Fresh(|members|)).events == anew;
      hide Mapped, Backs, Made, FirstHolds, Fresh, Composed, Stale;
      Unfolded(members, es, pos);
      MappedStale(members[0], es, pos[0]);
      ComposedBacks(members[1..], n, level, pos[1..]);
      ComposedStale(members[1..], level, pos[1..]);
      BacksAssociate(n, m, anew);
    }
  }

  lemma {:induction false} ShownBacks(n: nat, es: seq<Event>, back: bool)
    ensures Shown(Backs(n) + es, back) == Shown(es, back || n > 0)
  {
    if n == 0 {
      assert Backs(0) + es == es;
    } else {
      assert (Backs(n) + es)[1..] == Backs(n - 1) + es;
      ShownBacks(n - 1, es, true);
    }
  }

  /** A member that makes nothing of the first tokens it is given is told of a going back before it makes something. */
  ghost predicate TurnsBefore(member: Member, es: seq<Event>)
    requires forall s :: member(s).Some?
  {
    exists j :: 0 <= j < |es| && es[j].Back? && forall k :: 0 <= k < j ==> es[k].Step? && member(es[k].token.term).value == []
  }

  /** Some member of a new pipeline is. */
  ghost predicate TurnsFirst(members: seq<Member>, es: seq<Event>)
    requires Total(members)
    decreases |members|
  {
    members != [] && (TurnsBefore(members[0], es) || TurnsFirst(members[1..], Mapped(members[0], es, NOWHERE).events))
  }

  ghost predicate StartsBack(es: seq<Event>) { es != [] && es[0].Back? }

  lemma {:induction false} MappedStart(member: Member, es: seq<Event>)
    requires forall s :: member(s).Some?
    ensures StartsBack(Mapped(member, es, NOWHERE).events) <==> TurnsBefore(member, es)
  {
    if es != [] {
      var here := Made(member, es[0], NOWHERE);
      assert Mapped(member, es, NOWHERE).events == here.events + Mapped(member, es[1..], here.pos).events;
      if es[0].Step? && member(es[0].token.term).value == [] {
        assert here == Level([], NOWHERE);
        MappedStart(member, es[1..]);
        LaterTurn(member, es);
      }
    }
  }

  lemma LaterTurn(member: Member, es: seq<Event>)
    requires (forall s :: member(s).Some?) && es != [] && es[0].Step? && member(es[0].token.term).value == []
    ensures TurnsBefore(member, es[1..]) <==> TurnsBefore(member, es)
  {
    assert forall k :: 0 <= k < |es| - 1 ==> es[1..][k] == es[k + 1];
    if TurnsBefore(member, es[1..]) {
      var j :| 0 <= j < |es| - 1 && es[1..][j].Back? && forall k :: 0 <= k < j ==> es[1..][k].Step? && member(es[1..][k].token.term).value == [];
      forall k | 0 <= k < j + 1
        ensures es[k].Step? && member(es[k].token.term).value == []
      {
        assert k > 0 ==> es[k] == es[1..][k - 1];
      }
      assert es[j + 1].Back?;
    }
    if TurnsBefore(member, es) {
      var j :| 0 <= j < |es| && es[j].Back? && forall k :: 0 <= k < j ==> es[k].Step? && member(es[k].token.term).value == [];
      assert es[1..][j - 1].Back?;
    }
  }

  lemma {:induction false} ComposedStart(members: seq<Member>, es: seq<Event>)
    requires Total(members)
    ensures StartsBack(Composed(members, es, Fresh(|members|)).events) <==> StartsBack(es) || TurnsFirst(members, es)
    decreases |members|
  {
    if members != [] {
      var level := Mapped(members[0], es, NOWHERE).events;
      assert Fresh(|members|)[1..] == Fresh(|members| - 1);
      MappedStart(members[0], es);
      ComposedStart(members[1..], level);
      assert StartsBack(es) ==> TurnsBefore(members[0], es);
    }
  }

  lemma {:induction false} NothingShown(es: seq<Event>, back: bool)
    ensures Shown(es, back) == [] <==> Terms(es) == []
  {
    ShownTerms(es, back);
  }

  /** One step more in front shows, unless nothing does or there has been one anyway. */
  lemma OneStepMore(es: seq<Event>)
    ensures Shown(es, true) == Shown(es, false) <==> Terms(es) == [] || StartsBack(es)
  {
    NothingShown(es, true);
    NothingShown(es, false);
    if es != [] && es[0].Step? {
      assert Shown(es, true)[0].inc == Shown(es, false)[0].inc + 1;
    }
  }

  /** An input gives the same tokens as in a new pipeline exactly if no member that has moved on in an earlier input is reached
      for the first time without a move, or the composition of the members is empty, or a member is told of a going back before
      it makes something in any case. */
  lemma ForgetsIff(members: seq<Member>, data: string, deep: seq<int>)
    requires members != [] && Total(members) && |deep| == |members| - 1
    ensures var own := Own(members[0](data).value, Token(data, 0, |data|, 0));
            Shown(Analyzed(members, data, deep).events, false) == Shown(Analyzed(members, data, Fresh(|members| - 1)).events, false)
            <==> Stale(members[1..], own, deep) == 0 || Plain(members, Whole(data)) == [] || TurnsFirst(members[1..], own)
  {
    var own := Own(members[0](data).value, Token(data, 0, |data|, 0));
    var anew := Analyzed(members, data, Fresh(|members| - 1)).events;
    ComposedStale(members[1..], own, deep);
    ShownBacks(Stale(members[1..], own, deep), anew, false);
    TermsAreComposition(members, data, Fresh(|members| - 1));
    ComposedStart(members[1..], own);
    OneStepMore(anew);
  }

  /** Every member makes something of the first term that reaches it. */
  ghost predicate FirstKept(members: seq<Member>, term: string)
    requires Total(members)
    decreases |members|
  {
    members == [] || (members[0](term).value != [] && FirstKept(members[1..], members[0](term).value[0].term))
  }

  /** Then all of them are reached for the first time as the uppermost one is. */
  lemma {:induction false} KeptStale(members: seq<Member>, es: seq<Event>, pos: seq<int>)
    requires Total(members) && |pos| == |members| && es != [] && es[0].Step? && FirstKept(members, es[0].token.term)
    ensures Stale(members, es, pos) == 0 <==> !es[0].holds || forall i :: 0 <= i < |pos| ==> pos[i] <= 0
    ensures var out := Composed(members, es, Fresh(|members|)).events; out != [] && out[0].Step?
    decreases |members|
  {
    if members != [] {
      var e, tokens, level := es[0], members[0](es[0].token.term).value, Mapped(members[0], es, NOWHERE).events;
      assert Fresh(|members|)[1..] == Fresh(|members| - 1);
      assert Made(members[0], e, NOWHERE).events == Children(tokens, e.token, e.holds);
      assert level[0] == Children(tokens, e.token, e.holds)[0];
      KeptStale(members[1..], level, pos[1..]);
      assert forall i :: 0 <= i < |pos| - 1 ==> pos[1..][i] == pos[i + 1];
      assert (forall i :: 0 <= i < |pos| ==> pos[i] <= 0) ==> pos[0] <= 0;
    }
  }

  /** If every member makes something of the first term that reaches it, earlier inputs are forgotten exactly if the first token
      of the first member moves, or no other member stands behind its first position. */
  lemma KeptForgetsIff(members: seq<Member>, data: string, deep: seq<int>)
    requires members != [] && Total(members) && |deep| == |members| - 1 && FirstKept(members, data)
    ensures Shown(Analyzed(members, data, deep).events, false) == Shown(Analyzed(members, data, Fresh(|members| - 1)).events, false)
            <==> members[0](data).value[0].inc != 0 || forall i :: 0 <= i < |deep| ==> deep[i] <= 0
  {
    var own := Own(members[0](data).value, Token(data, 0, |data|, 0));
    var anew := Analyzed(members, data, Fresh(|members| - 1)).events;
    KeptStale(members[1..], own, deep);
    ForgetsIff(members, data, deep);
    TermsAreComposition(members, data, Fresh(|members| - 1));
    ComposedStart(members[1..], own);
  }

  // ------------------------------------------------- two inputs

  lemma ComposedNext(member: Member, members: seq<Member>, es: seq<Event>, pos: int, deep: seq<int>)
    requires Total([member] + members) && |deep| == |members|
    ensures (forall s :: member(s).Some?) && Total(members)
    ensures var level := Mapped(member, es, pos);
            var below := Composed(members, level.events, deep);
            Composed([member] + members, es, [pos] + deep) == Composition(below.events, [level.pos] + below.pos)
  {
    assert ([member] + members)[0] == member && ([member] + members)[1..] == members && ([pos] + deep)[1..] == deep;
    forall i, s | 0 <= i < |members|
      ensures members[i](s).Some?
    {
      assert ([member] + members)[i + 1](s).Some?;
    }
  }

  lemma AtEnd(es: seq<Event>)
    ensures Total([]) && Composed([], es, []) == Composition(es, [])
  {}

  /** What a member makes of an input of which it makes one token. */
  lemma OneChild(member: Member, e: Event, pos: int, x: Token)
    requires (forall s :: member(s).Some?) && e.Step? && member(e.token.term) == Some([x])
    ensures var child := Step(Absolute(x, e.token).(inc := e.token.inc + x.inc - 1), e.holds);
            Made(member, e, pos) == Level(GoesBack(e, pos) + [child], NOWHERE + x.inc)
  {
    var tokens := [x];
    assert tokens[..0] == [] && Moves(tokens) == x.inc;
    assert Children(tokens, e.token, e.holds) == [Step(Absolute(x, e.token).(inc := e.token.inc + x.inc - 1), e.holds)];
  }

  /** What it makes of an input of which it makes two. */
  lemma TwoChildren(member: Member, e: Event, pos: int, x: Token, y: Token)
    requires (forall s :: member(s).Some?) && e.Step? && member(e.token.term) == Some([x, y])
    ensures var child := Step(Absolute(x, e.token).(inc := e.token.inc + x.inc - 1), e.holds);
            Made(member, e, pos) == Level(GoesBack(e, pos) + ([child] + [Step(Absolute(y, e.token), y.inc == 0)]), NOWHERE + x.inc + y.inc)
  {
    var one, tokens := [x], [x, y];
    assert one[..0] == [] && tokens[..1] == one && Moves(one) == x.inc;
    var children := Children(tokens, e.token, e.holds);
    assert children[1] == Own(tokens, e.token)[1];
    assert children == [Step(Absolute(x, e.token).(inc := e.token.inc + x.inc - 1), e.holds)] + [Step(Absolute(y, e.token), y.inc == 0)];
  }

  lemma ShownTwo(a: Event, b: Event, back: bool)
    requires a.Step? && b.Step?
    ensures Shown([a] + [b], back) == [a.token.(inc := a.token.inc + if back then 1 else 0), b.token]
  {
    ShownOne(a, back);
    ShownOne(b, false);
    ShownJoin([a], [b], back);
  }

  /** A gap that is lost. Three tokens, one step apart each, come to a member that drops the second one and keeps the
      others: the third one is shown one step from the first, and not two. */
  lemma GapLost(top: Member, filter: Member, data: string, a: Token, b: Token, c: Token, x: Token, z: Token)
    requires Total([top, filter]) && top(data) == Some([a, b, c]) && a.inc == b.inc == c.inc == 1
    requires filter(a.term) == Some([x]) && filter(b.term) == Some([]) && filter(c.term) == Some([z]) && x.inc == z.inc == 1
    ensures var shown := Shown(Analyzed([top, filter], data, [NOWHERE]).events, false);
            |shown| == 2 && shown[0].term == x.term && shown[0].inc == 1 && shown[1].term == z.term && shown[1].inc == 1
  {
    var input := Token(data, 0, |data|, 0);
    var own := Own([a, b, c], input);
    var p, q, r := Step(Absolute(a, input), false), Step(Absolute(b, input), false), Step(Absolute(c, input), false);
    assert own == [p] + ([q] + [r]);
    assert [top, filter][0] == top && [top, filter][1..] == [filter] + [] && ([filter] + [])[0] == filter && [NOWHERE] == [NOWHERE] + [];
    assert Total([filter] + []) && forall s :: filter(s) == [top, filter][1](s);
    OneChild(filter, p, NOWHERE, x);
    assert Made(filter, q, NOWHERE + x.inc) == Level([], NOWHERE);
    OneChild(filter, r, NOWHERE, z);
    var p', r' := Step(Absolute(x, p.token).(inc := 1), false), Step(Absolute(z, r.token).(inc := 1), false);
    hide Made, Mapped, Composed, Shown, Own;
    MappedNext(filter, p, [q] + [r], NOWHERE);
    MappedNext(filter, q, [r], NOWHERE + x.inc);
    MappedOne(filter, r, NOWHERE);
    assert Mapped(filter, own, NOWHERE).events == [p'] + [r'];
    ComposedNext(filter, [], own, NOWHERE, []);
    AtEnd([p'] + [r']);
    ShownTwo(p', r', false);
  }

  /** One input for three members: the second token of the first member holds its position, the second member drops the
      first token, and the third member makes two tokens of the other one. */
  lemma OneInput(top: Member, mid: Member, low: Member, data: string, a: Token, b: Token, x: Token, y: Token, z: Token, midAt: int, lowAt: int)
    requires Total([top, mid, low]) && top(data) == Some([a, b]) && a.inc == 1 && b.inc == 0
    requires mid(a.term) == Some([]) && mid(b.term) == Some([x]) && low(x.term) == Some([y, z]) && x.inc == y.inc == z.inc == 1
    ensures var c := Analyzed([top, mid, low], data, [midAt, lowAt]);
            var shown := Shown(c.events, false);
            && c.pos == [0, 1] && |shown| == 2 && shown[0].term == y.term && shown[1].term == z.term
            && shown[0].inc == (if lowAt > 0 then 1 else 0) && shown[1].inc == 1
  {
    var input := Token(data, 0, |data|, 0);
    var own := Own([a, b], input);
    var p, q := Step(Absolute(a, input), false), Step(Absolute(b, input), true);
    assert own == [p] + [q];
    assert [top, mid, low][0] == top && [top, mid, low][1..] == [mid] + ([low] + []) && [midAt, lowAt] == [midAt] + ([lowAt] + []);
    assert forall s :: mid(s) == [top, mid, low][1](s) && low(s) == [top, mid, low][2](s);
    assert Made(mid, p, midAt) == Level([], NOWHERE);
    OneChild(mid, q, NOWHERE, x);
    var q' := Step(Absolute(x, q.token).(inc := 0), true);
    assert Made(mid, q, NOWHERE) == Level([q'], 0);
    TwoChildren(low, q', lowAt, y, z);
    var r, r' := Step(Absolute(y, q'.token).(inc := 0), true), Step(Absolute(z, q'.token), false);
    hide Made, Mapped, Composed, Shown, Own, GoesBack;
    MappedNext(mid, p, [q], midAt);
    MappedOne(mid, q, NOWHERE);
    assert Mapped(mid, own, midAt) == Level([q'], 0);
    ComposedNext(mid, [low] + [], own, midAt, [lowAt] + []);
    MappedOne(low, q', lowAt);
    ComposedNext(low, [], [q'], lowAt, []);
    AtEnd(GoesBack(q', lowAt) + ([r] + [r']));
    ShownAfter(q', lowAt, [r] + [r']);
    ShownTwo(r, r', lowAt > 0);
  }

  lemma ShownAfter(e: Event, pos: int, es: seq<Event>)
    requires e.Step? && e.holds
    ensures Shown(GoesBack(e, pos) + es, false) == Shown(es, pos > 0)
  {
    if pos > 0 {
      ShownBack(es, false);
    } else {
      assert GoesBack(e, pos) + es == es;
    }
  }

  /** The same input twice: the second time the first token moves, because the last member still stands where the first
      input has left it, and is reached without a move. */
  lemma Remembered(top: Member, mid: Member, low: Member, data: string, a: Token, b: Token, x: Token, y: Token, z: Token)
    requires Total([top, mid, low]) && top(data) == Some([a, b]) && a.inc == 1 && b.inc == 0
    requires mid(a.term) == Some([]) && mid(b.term) == Some([x]) && low(x.term) == Some([y, z]) && x.inc == y.inc == z.inc == 1
    ensures var outputs := Analyses([top, mid, low], [data, data], Fresh(2));
            && |outputs[0]| == |outputs[1]| == 2 && outputs[0][0].inc == 0 && outputs[1][0].inc == 1
            && outputs[0][1].inc == outputs[1][1].inc == 1
  {
    var members := [top, mid, low];
    hide Analyzed, Shown;
    OneInput(top, mid, low, data, a, b, x, y, z, NOWHERE, NOWHERE);
    OneInput(top, mid, low, data, a, b, x, y, z, 0, 1);
    assert Fresh(2) == [NOWHERE, NOWHERE];
    AnalysesNext(members, [data, data], Fresh(2), 0);
    AnalysesNext(members, [data, data], [0, 1], 1);
    assert [data, data][0..] == [data, data];
  }
}
