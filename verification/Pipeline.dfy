/** Chaining analyzers: every token of one is the input of the next. */
module Pipelines {
  datatype Option<T> = None | Some(value: T)

  /** A term, its place in the original input, and how far it has moved from the token before it. */
  datatype Token = Token(term: string, start: int, end: int, inc: int)

  /** What an analyzer makes of an input: nothing if it refuses it, else its tokens,
      with places relative to the input. */
  type Member = string -> Option<seq<Token>>

  // Where a member stands before its first token
  const NOWHERE: int := -1

  /** How far some tokens have moved together. */
  function Moves(tokens: seq<Token>): int {
    if tokens == [] then 0 else Moves(tokens[..|tokens| - 1]) + tokens[|tokens| - 1].inc
  }

  /** Where a member stands after some tokens. */
  function Position(tokens: seq<Token>): int {
    NOWHERE + Moves(tokens)
  }

  /** What a member hands down: a token, and whether the move that led to it began by holding its position;
      or the fact that a member has gone back to its first position under a held one. */
  datatype Event = Back | Step(token: Token, holds: bool)

  /** Tokens produced, and the positions of the members at the end, unless an input was refused;
      `back` says that a member has gone back since the last token. */
  datatype Flow = Flow(tokens: seq<Token>, pos: seq<int>, back: bool) | Refused(tokens: seq<Token>)

  function Prefixed(tokens: seq<Token>, f: Flow): Flow {
    f.(tokens := tokens + f.tokens)
  }

  /** The place of a token of `input` in the original input; a token that reaches the end of its
      input ends where the input ends. */
  function Absolute(token: Token, input: Token): Token {
    Token(token.term, input.start + token.start,
          if token.end == |input.term| then input.end else input.start + token.start + token.end - token.start, token.inc)
  }

  /** The tokens of an input; each one moves by itself. */
  function Own(tokens: seq<Token>, input: Token): (s: seq<Event>)
    ensures |s| == |tokens| && forall k :: 0 <= k < |s| ==> s[k] == Step(Absolute(tokens[k], input), tokens[k].inc == 0)
  {
    seq(|tokens|, k requires 0 <= k < |tokens| => Step(Absolute(tokens[k], input), tokens[k].inc == 0))
  }

  /** The tokens of a token that has just been handed down: the first one moves with it. */
  function Children(tokens: seq<Token>, input: Token, holds: bool): (s: seq<Event>)
    ensures |s| == |tokens| && (forall k :: 0 < k < |s| ==> s[k] == Own(tokens, input)[k])
    ensures tokens != [] ==> s[0] == Step(Absolute(tokens[0], input).(inc := input.inc + tokens[0].inc - 1), holds)
  {
    if tokens == [] then [] else Own(tokens, input)[0 := Step(Absolute(tokens[0], input).(inc := input.inc + tokens[0].inc - 1), holds)]
  }

  /** Everything that comes of one event: depth first, through all members. `pos` has where the members stand. */
  ghost function Run(members: seq<Member>, e: Event, pos: seq<int>, back: bool): (f: Flow)
    requires |pos| == |members|
    ensures f.Flow? ==> |f.pos| == |members|
    decreases |members|, 0, 0
  {
    if e.Back? then Flow([], pos, true)
    else if members == [] then Flow([e.token.(inc := e.token.inc + if back then 1 else 0)], [], false)
    else
      match members[0](e.token.term)
      case None => Refused([])
      case Some(tokens) =>
        Above(Position(tokens), RunAll(members[1..], Children(tokens, e.token, e.holds), pos[1..], back || (e.holds && pos[0] > 0)))
  }

  /** The same, with the position of one more member in front. */
  function Above(p: int, f: Flow): Flow {
    if f.Flow? then f.(pos := [p] + f.pos) else f
  }

  ghost function RunAll(members: seq<Member>, es: seq<Event>, pos: seq<int>, back: bool): (f: Flow)
    requires |pos| == |members|
    ensures f.Flow? ==> |f.pos| == |members|
    decreases |members|, 1, |es|
  {
    if es == [] then Flow([], pos, back)
    else
      var a := Run(members, es[0], pos, back);
      if a.Flow? then Prefixed(a.tokens, RunAll(members, es[1..], a.pos, a.back)) else a
  }

  /** How many tokens all members together still produce. */
  ghost function Work(members: seq<Member>, e: Event): (n: nat)
    ensures n >= 1
    decreases |members|, 0, 0
  {
    if members != [] && e.Step? && members[0](e.token.term).Some?
    then 1 + WorkAll(members[1..], Children(members[0](e.token.term).value, e.token, e.holds))
    else 1
  }

  ghost function WorkAll(members: seq<Member>, es: seq<Event>): nat
    decreases |members|, 1, |es|
  {
    if es == [] then 0 else Work(members, es[0]) + WorkAll(members, es[1..])
  }

  // ------------------------------------------------- composition, member by member

  ghost predicate Total(members: seq<Member>) {
    forall i, s :: 0 <= i < |members| ==> members[i](s).Some?
  }

  datatype Level = Level(events: seq<Event>, pos: int)

  /** Whether a member that stands at `pos` goes back when it is given the event. */
  function GoesBack(e: Event, pos: int): seq<Event> {
    if e.Step? && e.holds && pos > 0 then [Back] else []
  }

  /** What one member makes of one event. It goes back if it has moved on since its last input,
      and the next input is reached without a move. */
  function Made(member: Member, e: Event, pos: int): Level
    requires forall s :: member(s).Some?
  {
    if e.Back? then Level([Back], pos)
    else
      var tokens := member(e.token.term).value;
      Level(GoesBack(e, pos) + Children(tokens, e.token, e.holds), Position(tokens))
  }

  /** All that one member makes of its inputs in order. */
  ghost function Mapped(member: Member, es: seq<Event>, pos: int): Level
    requires forall s :: member(s).Some?
  {
    if es == [] then Level([], pos)
    else
      var here := Made(member, es[0], pos);
      var rest := Mapped(member, es[1..], here.pos);
      Level(here.events + rest.events, rest.pos)
  }

  datatype Composition = Composition(events: seq<Event>, pos: seq<int>)

  /** The composition of the members: the whole output of each is the input of the next. */
  ghost function Composed(members: seq<Member>, es: seq<Event>, pos: seq<int>): (c: Composition)
    requires Total(members) && |pos| == |members|
    ensures |c.pos| == |members|
  {
    if members == [] then Composition(es, [])
    else
      var level := Mapped(members[0], es, pos[0]);
      var deep := Composed(members[1..], level.events, pos[1..]);
      Composition(deep.events, [level.pos] + deep.pos)
  }

  /** The tokens shown at the end: going back before a token is one more step. */
  function Shown(es: seq<Event>, back: bool): seq<Token> {
    if es == [] then []
    else if es[0].Back? then Shown(es[1..], true)
    else [es[0].token.(inc := es[0].token.inc + if back then 1 else 0)] + Shown(es[1..], false)
  }

  function BackAfter(es: seq<Event>, back: bool): bool {
    if es == [] then back else BackAfter(es[1..], es[0].Back?)
  }

  lemma {:induction false} ShownJoin(a: seq<Event>, b: seq<Event>, back: bool)
    ensures Shown(a + b, back) == Shown(a, back) + Shown(b, BackAfter(a, back))
    ensures BackAfter(a + b, back) == BackAfter(b, BackAfter(a, back))
  {
    if a == [] {
      assert a + b == b;
    } else {
      assert (a + b)[1..] == a[1..] + b;
      ShownJoin(a[1..], b, a[0].Back?);
    }
  }

  lemma {:induction false} MappedJoin(member: Member, a: seq<Event>, b: seq<Event>, pos: int)
    requires forall s :: member(s).Some?
    ensures var x := Mapped(member, a, pos);
            var y := Mapped(member, b, x.pos);
            Mapped(member, a + b, pos) == Level(x.events + y.events, y.pos)
  {
    hide Made;
    if a == [] {
      assert a + b == b;
    } else {
      assert (a + b)[1..] == a[1..] + b;
      MappedJoin(member, a[1..], b, Made(member, a[0], pos).pos);
    }
  }

  lemma {:induction false} ComposedJoin(members: seq<Member>, a: seq<Event>, b: seq<Event>, pos: seq<int>)
    requires Total(members) && |pos| == |members|
    ensures var x := Composed(members, a, pos);
            var y := Composed(members, b, x.pos);
            Composed(members, a + b, pos) == Composition(x.events + y.events, y.pos)
    decreases |members|
  {
    if members != [] {
      MappedJoin(members[0], a, b, pos[0]);
      var x := Mapped(members[0], a, pos[0]);
      ComposedJoin(members[1..], x.events, Mapped(members[0], b, x.pos).events, pos[1..]);
    }
  }

  lemma {:induction false} ComposedNone(members: seq<Member>, pos: seq<int>)
    requires Total(members) && |pos| == |members|
    ensures Composed(members, [], pos) == Composition([], pos)
    decreases |members|
  {
    if members != [] {
      ComposedNone(members[1..], pos[1..]);
    }
  }

  lemma {:induction false} ComposedBack(members: seq<Member>, pos: seq<int>)
    requires Total(members) && |pos| == |members|
    ensures Composed(members, [Back], pos) == Composition([Back], pos)
    decreases |members|
  {
    if members != [] {
      assert Mapped(members[0], [Back], pos[0]) == Level([Back], pos[0]);
      ComposedBack(members[1..], pos[1..]);
    }
  }

  /** The flow that a composition gives. */
  ghost function Result(c: Composition, back: bool): Flow {
    Flow(Shown(c.events, back), c.pos, BackAfter(c.events, back))
  }

  lemma MappedOne(member: Member, e: Event, pos: int)
    requires forall s :: member(s).Some?
    ensures Mapped(member, [e], pos) == Made(member, e, pos)
  {
    hide Made;
    assert [e][1..] == [];
  }

  lemma ShownBack(es: seq<Event>, back: bool)
    ensures Shown([Back] + es, back) == Shown(es, true) && BackAfter([Back] + es, back) == BackAfter(es, true)
  {
    assert ([Back] + es)[1..] == es;
  }

  /** Going back before some events is the same as having gone back already. */
  lemma FirstBack(members: seq<Member>, first: seq<Event>, es: seq<Event>, pos: seq<int>, back: bool)
    requires Total(members) && |pos| == |members| && (first == [] || first == [Back])
    ensures Result(Composed(members, first + es, pos), back) == Result(Composed(members, es, pos), back || first != [])
  {
    hide Composed, Shown, BackAfter;
    if first == [] {
      assert first + es == es;
    } else {
      ComposedBack(members, pos);
      ComposedJoin(members, first, es, pos);
      ShownBack(Composed(members, es, pos).events, back);
    }
  }

  lemma ShownOne(e: Event, back: bool)
    requires e.Step?
    ensures Shown([e], back) == [e.token.(inc := e.token.inc + if back then 1 else 0)] && !BackAfter([e], back)
  {
    assert [e][0] == e && [e][1..] == [];
  }

  /** The depth-first walk produces the composition, in order, with the same moves. */
  lemma {:induction false} RunIsComposition(members: seq<Member>, e: Event, pos: seq<int>, back: bool)
    requires Total(members) && |pos| == |members|
    ensures Run(members, e, pos, back) == Result(Composed(members, [e], pos), back)
    decreases |members|, 0, 0
  {
    if e.Back? {
      ComposedBack(members, pos);
    } else if members != [] {
      var tokens := members[0](e.token.term).value;
      var children, first := Children(tokens, e.token, e.holds), GoesBack(e, pos[0]);
      RunAllIsComposition(members[1..], children, pos[1..], back || first != []);
      FirstBack(members[1..], first, children, pos[1..], back);
      MappedOne(members[0], e, pos[0]);
      var deep := Composed(members[1..], first + children, pos[1..]);
      assert Composed(members, [e], pos) == Composition(deep.events, [Position(tokens)] + deep.pos);
      assert Run(members, e, pos, back) == Above(Position(tokens), Result(deep, back));
    } else {
      ShownOne(e, back);
    }
  }

  lemma {:induction false} RunAllIsComposition(members: seq<Member>, es: seq<Event>, pos: seq<int>, back: bool)
    requires Total(members) && |pos| == |members|
    ensures RunAll(members, es, pos, back) == Result(Composed(members, es, pos), back)
    decreases |members|, 1, |es|
  {
    if es == [] {
      ComposedNone(members, pos);
    } else {
      RunIsComposition(members, es[0], pos, back);
      var a := Run(members, es[0], pos, back);
      RunAllIsComposition(members, es[1..], a.pos, a.back);
      ComposedJoin(members, [es[0]], es[1..], pos);
      ShownJoin(Composed(members, [es[0]], pos).events, Composed(members, es[1..], a.pos).events, back);
      assert es == [es[0]] + es[1..];
    }
  }

  // ------------------------------------------------------------------ the walk

  /** One member with the input it was reset to, the tokens it makes of it, and where it stands; `taken` of them have been taken. */
  datatype Sub = Sub(member: Member, input: Token, tokens: seq<Token>, taken: nat, pos: int) {
    ghost predicate Valid() {
      taken <= |tokens| && pos == Position(tokens[..taken])
    }

    /** The token the member stands at, placed in the original input. */
    function Current(): Token
      requires 0 < taken <= |tokens|
    {
      Absolute(tokens[taken - 1], input)
    }

    ghost function Left(): seq<Event>
      requires Valid()
    {
      Own(tokens, input)[taken..]
    }

    /** Where the member stands after its last token. */
    ghost function Final(): int { Position(tokens) }
  }

  ghost function Members(subs: seq<Sub>): (s: seq<Member>)
    ensures |s| == |subs| && forall i :: 0 <= i < |s| ==> s[i] == subs[i].member
  {
    seq(|subs|, i requires 0 <= i < |subs| => subs[i].member)
  }

  /** Where the members from i on stand. */
  ghost function Positions(subs: seq<Sub>, i: nat): (s: seq<int>)
    requires i <= |subs|
    ensures |s| == |subs| - i && forall j :: 0 <= j < |s| ==> s[j] == subs[i + j].pos
  {
    seq(|subs| - i, j requires 0 <= j < |subs| - i => subs[i + j].pos)
  }

  ghost predicate ValidUpTo(subs: seq<Sub>, k: nat) {
    k < |subs| && forall i :: 0 <= i <= k ==> subs[i].Valid()
  }

  /** What is still to come of members 0 to k, the deepest one first, when the members below them stand at `deep`. */
  ghost function Pending(members: seq<Member>, subs: seq<Sub>, k: nat, deep: seq<int>, back: bool): (f: Flow)
    requires ValidUpTo(subs, k) && |members| == |subs| && |deep| == |subs| - k - 1
    ensures f.Flow? ==> |f.pos| == |members|
    decreases k, 1
  {
    Under(members, subs, k, Above(subs[k].Final(), RunAll(members[k + 1..], subs[k].Left(), deep, back)))
  }

  /** A flow, and behind it what is still to come of the members above the k-th. */
  ghost function Under(members: seq<Member>, subs: seq<Sub>, k: nat, f: Flow): (g: Flow)
    requires (k > 0 ==> ValidUpTo(subs, k - 1)) && |members| == |subs| && k < |subs| && (f.Flow? ==> |f.pos| == |subs| - k)
    ensures g.Flow? ==> |g.pos| == |members|
    decreases k, 0
  {
    if k == 0 || f.Refused? then f else Prefixed(f.tokens, Pending(members, subs, k - 1, f.pos, f.back))
  }

  /** What is still to come when something deeper comes first. */
  ghost function Onward(members: seq<Member>, subs: seq<Sub>, k: nat, first: Flow): (f: Flow)
    requires ValidUpTo(subs, k) && |members| == |subs| && (first.Flow? ==> |first.pos| == |subs| - k - 1)
  {
    if first.Flow? then Prefixed(first.tokens, Pending(members, subs, k, first.pos, first.back)) else first
  }

  ghost function Effort(members: seq<Member>, subs: seq<Sub>, k: nat): nat
    requires ValidUpTo(subs, k) && |members| == |subs|
  {
    WorkAll(members[k + 1..], subs[k].Left()) + if k == 0 then 0 else Effort(members, subs, k - 1)
  }

  /** Deeper members do not matter, except for where they stand. */
  lemma {:induction false} PendingSame(members: seq<Member>, subs: seq<Sub>, other: seq<Sub>, k: nat, deep: seq<int>, back: bool)
    requires ValidUpTo(subs, k) && ValidUpTo(other, k) && |members| == |subs| == |other| && |deep| == |subs| - k - 1
    requires forall i :: 0 <= i <= k ==> subs[i] == other[i]
    ensures Pending(members, subs, k, deep, back) == Pending(members, other, k, deep, back)
    decreases k, 1
  {
    UnderSame(members, subs, other, k, Above(subs[k].Final(), RunAll(members[k + 1..], subs[k].Left(), deep, back)));
  }

  lemma {:induction false} UnderSame(members: seq<Member>, subs: seq<Sub>, other: seq<Sub>, k: nat, f: Flow)
    requires (k > 0 ==> ValidUpTo(subs, k - 1) && ValidUpTo(other, k - 1)) && |members| == |subs| == |other| && k < |subs|
    requires (f.Flow? ==> |f.pos| == |subs| - k) && forall i :: 0 <= i < k ==> subs[i] == other[i]
    ensures Under(members, subs, k, f) == Under(members, other, k, f)
    decreases k, 0
  {
    if k > 0 && f.Flow? {
      PendingSame(members, subs, other, k - 1, f.pos, f.back);
    }
  }

  lemma {:induction false} EffortSame(members: seq<Member>, subs: seq<Sub>, other: seq<Sub>, k: nat)
    requires ValidUpTo(subs, k) && ValidUpTo(other, k) && |members| == |subs| == |other|
    requires forall i :: 0 <= i <= k ==> subs[i] == other[i]
    ensures Effort(members, subs, k) == Effort(members, other, k)
  {
    if k > 0 {
      EffortSame(members, subs, other, k - 1);
    }
  }

  lemma PrefixedTwice(a: seq<Token>, b: seq<Token>, f: Flow)
    ensures Prefixed(a + b, f) == Prefixed(a, Prefixed(b, f)) && Prefixed([], f) == f
  {
    assert (a + b) + f.tokens == a + (b + f.tokens);
  }

  lemma RunAllFirst(members: seq<Member>, es: seq<Event>, pos: seq<int>, back: bool, p: int)
    requires |pos| == |members| && es != []
    ensures var a := Run(members, es[0], pos, back);
            Above(p, RunAll(members, es, pos, back)) == if a.Flow? then Prefixed(a.tokens, Above(p, RunAll(members, es[1..], a.pos, a.back))) else a
  {}

  lemma Ahead(members: seq<Member>, subs: seq<Sub>, k: nat, tokens: seq<Token>, f: Flow)
    requires (k > 0 ==> ValidUpTo(subs, k - 1)) && |members| == |subs| && k < |subs| && (f.Flow? ==> |f.pos| == |subs| - k)
    ensures Under(members, subs, k, Prefixed(tokens, f)) == Prefixed(tokens, Under(members, subs, k, f))
  {
    hide Pending;
    if k > 0 && f.Flow? {
      PrefixedTwice(tokens, f.tokens, Pending(members, subs, k - 1, f.pos, f.back));
    }
  }

  /** What a member still hands down splits into what comes of the first of it and the rest. */
  lemma FirstOfMany(members: seq<Member>, subs: seq<Sub>, next: seq<Sub>, k: nat, es: seq<Event>, deep: seq<int>, back: bool)
    requires ValidUpTo(next, k) && |members| == |subs| == |next| && |deep| == |subs| - k - 1
    requires (forall i :: 0 <= i < k ==> subs[i] == next[i]) && es != [] && es[1..] == next[k].Left()
    ensures Under(members, subs, k, Above(next[k].Final(), RunAll(members[k + 1..], es, deep, back)))
         == Onward(members, next, k, Run(members[k + 1..], es[0], deep, back))
  {
    UnderSame(members, subs, next, k, Above(next[k].Final(), RunAll(members[k + 1..], es, deep, back)));
    RunAllFirst(members[k + 1..], es, deep, back, next[k].Final());
    hide Run, RunAll, Own;
    var a := Run(members[k + 1..], es[0], deep, back);
    if a.Flow? {
      Ahead(members, next, k, a.tokens, Above(next[k].Final(), RunAll(members[k + 1..], es[1..], a.pos, a.back)));
    }
  }

  /** The member after its next token. */
  function Advanced(sub: Sub): Sub
    requires sub.taken < |sub.tokens|
  {
    sub.(taken := sub.taken + 1, pos := sub.pos + sub.tokens[sub.taken].inc)
  }

  lemma AdvancedValid(sub: Sub)
    requires sub.Valid() && sub.taken < |sub.tokens|
    ensures Advanced(sub).Valid() && Advanced(sub).Final() == sub.Final()
    ensures sub.Left() != [] && sub.Left()[1..] == Advanced(sub).Left()
    ensures sub.Left()[0] == Step(Advanced(sub).Current(), sub.tokens[sub.taken].inc == 0)
  {
    var some := sub.tokens[..sub.taken + 1];
    assert some[..|some| - 1] == sub.tokens[..sub.taken];
  }

  /** Taking a token of member k splits what is still to come. */
  lemma TokenTaken(members: seq<Member>, subs: seq<Sub>, k: nat, deep: seq<int>, back: bool)
    requires ValidUpTo(subs, k) && |members| == |subs| && |deep| == |subs| - k - 1 && subs[k].taken < |subs[k].tokens|
    ensures var next, e := subs[k := Advanced(subs[k])], Step(Advanced(subs[k]).Current(), subs[k].tokens[subs[k].taken].inc == 0);
            && ValidUpTo(next, k)
            && Pending(members, subs, k, deep, back) == Onward(members, next, k, Run(members[k + 1..], e, deep, back))
            && Effort(members, subs, k) == Work(members[k + 1..], e) + Effort(members, next, k)
  {
    hide Run, RunAll, Work, Above, Prefixed;
    AdvancedValid(subs[k]);
    var next := subs[k := Advanced(subs[k])];
    FirstOfMany(members, subs, next, k, subs[k].Left(), deep, back);
    if k > 0 {
      EffortSame(members, subs, next, k - 1);
    }
  }

  /** A member whose tokens are all taken adds nothing. */
  lemma NothingLeft(members: seq<Member>, subs: seq<Sub>, k: nat, back: bool)
    requires ValidUpTo(subs, k) && |members| == |subs| && subs[k].taken == |subs[k].tokens|
    ensures var deep := Positions(subs, k + 1);
            Pending(members, subs, k, deep, back) == if k == 0 then Flow([], Positions(subs, 0), back) else Pending(members, subs, k - 1, Positions(subs, k), back)
    ensures k > 0 ==> Effort(members, subs, k) == Effort(members, subs, k - 1)
  {
    assert subs[k].Left() == [] && subs[k].tokens[..subs[k].taken] == subs[k].tokens;
    assert Positions(subs, k) == [subs[k].pos] + Positions(subs, k + 1);
    if k > 0 {
      PrefixedTwice([], [], Pending(members, subs, k - 1, Positions(subs, k), back));
    }
  }

  lemma OwnSame(tokens: seq<Token>, a: Token, b: Token)
    requires a.term == b.term && a.start == b.start && a.end == b.end
    ensures Own(tokens, a) == Own(tokens, b)
  {}

  /** A member that makes nothing of its input: it stands nowhere, and may have gone back. */
  lemma MemberEmpty(members: seq<Member>, subs: seq<Sub>, k: nat, e: Event, back: bool, sub: Sub)
    requires ValidUpTo(subs, k) && |members| == |subs| && k + 1 < |subs| && e.Step? && members[k + 1](e.token.term) == Some([])
    requires sub.pos == NOWHERE
    ensures var next := subs[k + 1 := sub];
            && ValidUpTo(next, k)
            && Onward(members, subs, k, Run(members[k + 1..], e, Positions(subs, k + 1), back))
               == Pending(members, next, k, Positions(next, k + 1), back || (e.holds && subs[k + 1].pos > 0))
            && Effort(members, next, k) < Work(members[k + 1..], e) + Effort(members, subs, k)
  {
    var next := subs[k + 1 := sub];
    assert members[k + 1..][0] == members[k + 1];
    var deep := Positions(next, k + 1);
    assert deep == [NOWHERE] + Positions(subs, k + 1)[1..];
    PendingSame(members, subs, next, k, deep, back || (e.holds && subs[k + 1].pos > 0));
    EffortSame(members, subs, next, k);
    PrefixedTwice([], [], Pending(members, next, k, deep, back || (e.holds && subs[k + 1].pos > 0)));
  }

  lemma Entered(members: seq<Member>, e: Event, tokens: seq<Token>, pos: seq<int>, back: bool)
    requires members != [] && e.Step? && members[0](e.token.term) == Some(tokens) && |pos| == |members|
    ensures Run(members, e, pos, back)
         == Above(Position(tokens), RunAll(members[1..], Children(tokens, e.token, e.holds), pos[1..], back || (e.holds && pos[0] > 0)))
    ensures Work(members, e) == 1 + WorkAll(members[1..], Children(tokens, e.token, e.holds))
  {}

  lemma WorkFirst(members: seq<Member>, es: seq<Event>)
    requires es != []
    ensures WorkAll(members, es) == Work(members, es[0]) + WorkAll(members, es[1..])
  {}

  lemma FirstChild(tokens: seq<Token>, e: Event, sub: Sub)
    requires e.Step? && tokens != [] && sub.Valid() && sub.tokens == tokens && sub.taken == 1 && Own(tokens, sub.input) == Own(tokens, e.token)
    ensures var children := Children(tokens, e.token, e.holds);
            && children != [] && children[0] == Step(sub.Current().(inc := e.token.inc + tokens[0].inc - 1), e.holds)
            && children[1..] == sub.Left()
  {
    assert Own(tokens, e.token)[0] == Step(Absolute(tokens[0], e.token), tokens[0].inc == 0);
    assert Own(tokens, sub.input)[0] == Step(Absolute(tokens[0], sub.input), tokens[0].inc == 0);
  }

  /** A member reset to a token and standing at the first token it makes of it. */
  lemma MemberEntered(members: seq<Member>, subs: seq<Sub>, k: nat, e: Event, back: bool, sub: Sub, tokens: seq<Token>)
    requires ValidUpTo(subs, k) && |members| == |subs| && k + 1 < |subs| && e.Step? && members[k + 1](e.token.term) == Some(tokens) && tokens != []
    requires sub.Valid() && sub.tokens == tokens && sub.taken == 1 && Own(tokens, sub.input) == Own(tokens, e.token)
    ensures var next, child := subs[k + 1 := sub], Step(sub.Current().(inc := e.token.inc + tokens[0].inc - 1), e.holds);
            && ValidUpTo(next, k + 1)
            && Onward(members, subs, k, Run(members[k + 1..], e, Positions(subs, k + 1), back))
               == Onward(members, next, k + 1, Run(members[k + 2..], child, Positions(next, k + 2), back || (e.holds && subs[k + 1].pos > 0)))
  {
    var next, child := subs[k + 1 := sub], Step(sub.Current().(inc := e.token.inc + tokens[0].inc - 1), e.holds);
    hide Run, RunAll, Work, WorkAll, Prefixed, Above, Own, Children, Position, Pending, Under, Onward, Positions;
    var below, deep, again := members[k + 2..], Positions(next, k + 2), back || (e.holds && subs[k + 1].pos > 0);
    assert members[k + 1..][0] == members[k + 1] && members[k + 1..][1..] == below;
    assert Positions(subs, k + 1)[1..] == deep;
    var children := Children(tokens, e.token, e.holds);
    FirstChild(tokens, e, sub);
    FirstOfMany(members, subs, next, k + 1, children, deep, again);
    Entered(members[k + 1..], e, tokens, Positions(subs, k + 1), back);
    OnwardIsUnder(members, subs, k, Run(members[k + 1..], e, Positions(subs, k + 1), back));
  }

  lemma OnwardIsUnder(members: seq<Member>, subs: seq<Sub>, k: nat, f: Flow)
    requires ValidUpTo(subs, k) && |members| == |subs| && k + 1 < |subs| && (f.Flow? ==> |f.pos| == |subs| - k - 1)
    ensures Onward(members, subs, k, f) == Under(members, subs, k + 1, f)
  {}

  /** Entering a member uses up some of the work. */
  lemma WorkUsed(members: seq<Member>, subs: seq<Sub>, k: nat, e: Event, sub: Sub, tokens: seq<Token>)
    requires ValidUpTo(subs, k) && |members| == |subs| && k + 1 < |subs| && e.Step? && members[k + 1](e.token.term) == Some(tokens) && tokens != []
    requires sub.Valid() && sub.tokens == tokens && sub.taken == 1 && Own(tokens, sub.input) == Own(tokens, e.token)
    ensures var next, child := subs[k + 1 := sub], Step(sub.Current().(inc := e.token.inc + tokens[0].inc - 1), e.holds);
            Work(members[k + 2..], child) + Effort(members, next, k + 1) < Work(members[k + 1..], e) + Effort(members, subs, k)
  {
    hide Work, WorkAll, Own, Children, Position;
    assert members[k + 1..][0] == members[k + 1] && members[k + 1..][1..] == members[k + 2..];
    FirstChild(tokens, e, sub);
    EffortSame(members, subs, subs[k + 1 := sub], k);
    Entered(members[k + 1..], e, tokens, Positions(subs, k + 1), false);
    WorkFirst(members[k + 2..], Children(tokens, e.token, e.holds));
  }

  /** One member further down: it has been reset to the token, and has moved to the first token it makes of it, if any. */
  lemma Down(members: seq<Member>, subs: seq<Sub>, k: nat, e: Event, back: bool, input: Token, sub: Sub)
    requires ValidUpTo(subs, k) && |members| == |subs| && k + 1 < |subs| && e.Step? && members[k + 1](e.token.term).Some?
    requires e.token == input.(inc := e.token.inc)
    requires var blank := Sub(sub.member, input, members[k + 1](e.token.term).value, 0, NOWHERE);
             sub == if blank.tokens == [] then blank else Advanced(blank)
    ensures var next, again := subs[k + 1 := sub], back || (e.holds && subs[k + 1].pos > 0);
            var was, work := Onward(members, subs, k, Run(members[k + 1..], e, Positions(subs, k + 1), back)), Work(members[k + 1..], e) + Effort(members, subs, k);
            if sub.tokens == [] then
              && ValidUpTo(next, k) && was == Pending(members, next, k, Positions(next, k + 1), again) && Effort(members, next, k) < work
            else
              var child := Step(sub.Current().(inc := e.token.inc + sub.tokens[0].inc - 1), e.holds);
              && ValidUpTo(next, k + 1) && was == Onward(members, next, k + 1, Run(members[k + 2..], child, Positions(next, k + 2), again))
              && Work(members[k + 2..], child) + Effort(members, next, k + 1) < work
  {
    hide Pending, Onward, Effort, Run, RunAll, Work, WorkAll, Sub.Left, Absolute, Positions;
    if sub.tokens == [] {
      MemberEmpty(members, subs, k, e, back, sub);
    } else {
      AdvancedValid(Sub(sub.member, input, sub.tokens, 0, NOWHERE));
      OwnSame(sub.tokens, input, e.token);
      MemberEntered(members, subs, k, e, back, sub, sub.tokens);
      WorkUsed(members, subs, k, e, sub, sub.tokens);
    }
  }

  // What stands in for a pipeline without members
  const NOTHING: Member := s => None

  class PipelineTokenStream {
    var subs: seq<Sub>
    var current: nat
    var term: string       // of the token the stream stands at
    var start: int
    var end: int
    var inc: int
    ghost const members: seq<Member>

    ghost predicate Valid()
      reads this
    {
      Members(subs) == members && ValidUpTo(subs, current)
    }

    /** Where the members below the top one stand. */
    ghost function Deep(): (s: seq<int>)
      requires Valid()
      ensures |s| == |members| - 1
      reads this
    {
      Positions(subs, 1)
    }

    /** Tokens still to come. */
    ghost function Rest(): (f: Flow)
      requires Valid()
      ensures f.Flow? ==> |f.pos| == |members| >= 1
      reads this
    {
      Ahead(false)
    }

    ghost function Ahead(back: bool): (f: Flow)
      requires Valid()
      reads this
    {
      Pending(members, subs, current, Positions(subs, current + 1), back)
    }

    constructor (analyzers: seq<Member>)
      ensures Valid() && members == (if analyzers == [] then [NOTHING] else analyzers)
      ensures Deep() == seq(|members| - 1, _ => NOWHERE) && Rest().Flow? && Rest().tokens == []
    {
      var list := if analyzers == [] then [NOTHING] else analyzers;
      members := list;
      subs := seq(|list|, i requires 0 <= i < |list| => Sub(list[i], Token("", 0, 0, 0), [], 0, NOWHERE));
      current, term, start, end, inc := 0, "", 0, 0, 0;
      new;
      NothingLeft(members, subs, 0, false);
    }

    /** Resets one member; a refused input leaves it without tokens. */
    method ResetSub(i: nat, input: Token) returns (ok: bool)
      requires i < |subs|
      modifies this`subs
      ensures |subs| == |old(subs)| && ok == old(subs)[i].member(input.term).Some?
      ensures subs == old(subs)[i := Sub(old(subs)[i].member, input, if ok then old(subs)[i].member(input.term).value else [], 0, NOWHERE)]
    {
      var result := subs[i].member(input.term);
      ok := result.Some?;
      subs := subs[i := Sub(subs[i].member, input, if ok then result.value else [], 0, NOWHERE)];
    }

    /** Moves one member to its next token. */
    method NextOf(i: nat) returns (more: bool)
      requires i < |subs| && subs[i].taken <= |subs[i].tokens|
      modifies this`subs
      ensures more == (old(subs)[i].taken < |old(subs)[i].tokens|) && |subs| == |old(subs)|
      ensures subs == if more then old(subs)[i := Advanced(old(subs)[i])] else old(subs)
    {
      more := subs[i].taken < |subs[i].tokens|;
      if more {
        subs := subs[i := subs[i].(taken := subs[i].taken + 1, pos := subs[i].pos + subs[i].tokens[subs[i].taken].inc)];
      }
    }

    /** Starts over with an input. Only the first member is reset: the others stay where they stand until their turn comes. */
    method Reset(data: string) returns (ok: bool)
      requires Valid()
      modifies this
      ensures Valid() && ok == members[0](data).Some?
      ensures ok ==> Rest() == Started(members, data, old(Deep()))
    {
      current := 0;
      ok := ResetSub(0, Token(data, 0, |data|, 0));
      assert Positions(subs, 1) == old(Positions(subs, 1));
      if ok {
        var own := Own(subs[0].tokens, subs[0].input);
        assert own[0..] == own;
      }
    }

    /** The next token of the last member: tokens go down through all members; a member that has
        none left, or makes nothing of its input, gives way to the one above it. The move of the stream is that of the
        member the last descent began with, and what the members below it move beyond their first step, and one step
        more if a member has gone back. */
    method Next() returns (more: bool)
      requires Valid()
      modifies this
      ensures Valid()
      ensures more == (old(Rest()).tokens != [])
      ensures more ==> Token(term, start, end, inc) == old(Rest()).tokens[0] && old(Rest()) == Prefixed([Token(term, start, end, inc)], Rest())
      ensures !more && old(Rest()).Flow? ==> Deep() == old(Rest()).pos[1..]
    {
      hide Pending, Onward, Effort, Run, RunAll, Work, WorkAll, Sub.Left, Members, Positions, Advanced, Sub.Valid;
      ghost var goal := Rest();
      SameMembers();
      var bottom := |subs| - 1;
      var pipelineInc, stepForRollback := 0, false;
      var again := true;
      while again
        invariant Valid() && bottom == |subs| - 1
        invariant again ==> Ahead(stepForRollback) == goal
        invariant !again ==> current == bottom && subs[bottom].taken > 0 && subs[bottom].taken <= |subs[bottom].tokens|
        invariant !again ==> goal == Prefixed([Moved(subs[bottom].Current(), pipelineInc, stepForRollback)], Rest())
        decreases again, if again then Effort(members, subs, current) else 0
      {
        more := Climb(stepForRollback);
        if !more {
          return false;
        }
        pipelineInc := subs[current].tokens[subs[current].taken - 1].inc;
        again, more, pipelineInc, stepForRollback := Dive(goal, pipelineInc, pipelineInc == 0, stepForRollback);
        if !more {
          return false;
        }
      }
      var token := subs[bottom].Current();
      term, start, end := token.term, token.start, token.end;
      inc := pipelineInc + if stepForRollback then 1 else 0;
      assert goal.tokens == [Token(term, start, end, inc)] + Rest().tokens;
      more := true;
    }

    lemma SameMembers()
      requires Valid()
      ensures |subs| == |members| && forall i :: 0 <= i < |subs| ==> subs[i].member == members[i]
    {}

    /** Up to the deepest member that has a token left, and onto that token. */
    method Climb(ghost back: bool) returns (more: bool)
      requires Valid()
      modifies this`subs, this`current
      ensures Valid() && |subs| == |old(subs)| && Members(subs) == Members(old(subs))
      ensures !more ==> old(Ahead(back)).Flow? && old(Ahead(back)).tokens == [] && Deep() == old(Ahead(back)).pos[1..]
      ensures more ==> 0 < subs[current].taken <= |subs[current].tokens|
      ensures more ==> old(Ahead(back)) == After(Taken(), back)
      ensures more ==> old(Effort(members, subs, current)) == Work(members[current + 1..], Taken()) + Effort(members, subs, current)
    {
      hide Pending, Onward, Effort, Run, RunAll, Work, WorkAll, Sub.Left, Absolute, Members, Positions, Position, Moves, Advanced;
      more := false;
      while !more
        invariant Valid() && |subs| == |old(subs)| && Members(subs) == Members(old(subs))
        invariant !more ==> Ahead(back) == old(Ahead(back)) && Effort(members, subs, current) == old(Effort(members, subs, current))
        invariant more ==> 0 < subs[current].taken <= |subs[current].tokens| && old(Ahead(back)) == After(Taken(), back)
        invariant more ==> old(Effort(members, subs, current)) == Work(members[current + 1..], Taken()) + Effort(members, subs, current)
        decreases current, !more
      {
        more := TakeHere(back);
        if !more {
          if current == 0 {
            return false;
          }
          current := current - 1;
        }
      }
    }

    /** Onto the next token of the current member; without one, all that is left comes from the members above it. */
    method TakeHere(ghost back: bool) returns (more: bool)
      requires Valid()
      modifies this`subs
      ensures Valid() && |subs| == |old(subs)| && Members(subs) == Members(old(subs))
      ensures more ==> 0 < subs[current].taken <= |subs[current].tokens| && old(Ahead(back)) == After(Taken(), back)
      ensures more ==> old(Effort(members, subs, current)) == Work(members[current + 1..], Taken()) + Effort(members, subs, current)
      ensures !more ==> subs == old(subs)
      ensures !more && current == 0 ==> old(Ahead(back)) == Flow([], Positions(subs, 0), back)
      ensures !more && current > 0 ==>
                && old(Ahead(back)) == Pending(members, subs, current - 1, Positions(subs, current), back)
                && old(Effort(members, subs, current)) == Effort(members, subs, current - 1)
    {
      hide Pending, Onward, Effort, Run, RunAll, Work, WorkAll, Sub.Left, Absolute, Members, Positions, Position, Moves;
      if subs[current].taken < |subs[current].tokens| {
        TokenTaken(members, subs, current, Positions(subs, current + 1), back);
      } else {
        NothingLeft(members, subs, current, back);
      }
      ghost var before := subs;
      more := NextOf(current);
      PositionsBelow(before, subs, current);
    }

    /** The token the current member has just moved to. */
    ghost function Taken(): Event
      requires current < |subs| && 0 < subs[current].taken <= |subs[current].tokens|
      reads this
    {
      Step(subs[current].Current(), subs[current].tokens[subs[current].taken - 1].inc == 0)
    }

    /** What comes of an event below the current member, and then everything else. */
    ghost function After(e: Event, back: bool): Flow
      requires Valid()
      reads this
    {
      Onward(members, subs, current, Run(members[current + 1..], e, Positions(subs, current + 1), back))
    }

    /** Down from the current token; an input that gives nothing ends the descent early, a refused one ends it all. */
    method Dive(ghost goal: Flow, lead: int, topHolds: bool, back: bool) returns (again: bool, more: bool, pipelineInc: int, stepForRollback: bool)
      requires Valid() && 0 < subs[current].taken <= |subs[current].tokens|
      requires goal == After(Step(subs[current].Current().(inc := lead), topHolds), back)
      modifies this`subs, this`current
      ensures Valid() && |subs| == |old(subs)| && Members(subs) == Members(old(subs))
      ensures !more ==> goal == Refused([])
      ensures more && again ==> goal == Ahead(stepForRollback)
      ensures more && !again ==> current == |subs| - 1 && 0 < subs[current].taken <= |subs[current].tokens|
      ensures more && !again ==> goal == Prefixed([Moved(subs[current].Current(), pipelineInc, stepForRollback)], Rest())
      ensures more ==>
                Effort(members, subs, current) < old(Work(members[current + 1..], Step(subs[current].Current().(inc := lead), topHolds)) + Effort(members, subs, current))
    {
      hide Pending, Effort, Run, RunAll, Work, WorkAll, Sub.Left, Absolute, Members, Advanced, Sub.Valid;
      again, more, pipelineInc, stepForRollback := false, true, lead, back;
      SameMembers();
      ghost var budget := Work(members[current + 1..], Step(subs[current].Current().(inc := lead), topHolds)) + Effort(members, subs, current);
      var bottom := |subs| - 1;
      while current != bottom && !again && more
        invariant Valid() && |subs| == |old(subs)| && Members(subs) == members && current <= bottom
        invariant !again && more ==> Standing(goal, budget, pipelineInc, topHolds, stepForRollback)
        invariant again && more ==> goal == Ahead(stepForRollback) && Effort(members, subs, current) < budget
        invariant !more ==> !again && goal == Refused([])
        decreases |subs| - current, !again, more
      {
        again, more, pipelineInc, stepForRollback := Descend(goal, budget, pipelineInc, topHolds, stepForRollback);
      }
      if !again && more {
        assert members[current + 1..] == [] && Positions(subs, current + 1) == [];
        AtBottom(subs[current].Current().(inc := pipelineInc), topHolds, stepForRollback);
      }
    }

    /** The walk stands at a token of the current member, whose own tokens come first. */
    ghost predicate Standing(goal: Flow, budget: nat, lead: int, holds: bool, back: bool)
      requires Valid()
      reads this
    {
      && Members(subs) == members && |subs| == |members| && 0 < subs[current].taken <= |subs[current].tokens|
      && var e := Step(subs[current].Current().(inc := lead), holds);
         goal == After(e, back) && Work(members[current + 1..], e) + Effort(members, subs, current) <= budget
    }

    /** One member further down. */
    method Descend(ghost goal: Flow, ghost budget: nat, lead: int, topHolds: bool, back: bool)
      returns (again: bool, more: bool, pipelineInc: int, stepForRollback: bool)
      requires Valid() && Standing(goal, budget, lead, topHolds, back) && current + 1 < |subs|
      modifies this`subs, this`current
      ensures Valid() && |subs| == |old(subs)| && Members(subs) == members
      ensures !more ==> goal == Refused([]) && !again && current == old(current) + 1
      ensures more && again ==> goal == Ahead(stepForRollback) && Effort(members, subs, current) < budget && current == old(current)
      ensures more && !again ==> Standing(goal, budget, pipelineInc, topHolds, stepForRollback) && current == old(current) + 1
    {
      hide Pending, Onward, Effort, Run, RunAll, Work, WorkAll, Sub.Left, Absolute, Members, Positions, Position, Moves, Advanced;
      SameMembers();
      again, more, pipelineInc := false, true, lead;
      var input := subs[current].Current();
      ghost var before, e, k := subs, Step(input.(inc := lead), topHolds), current;
      stepForRollback := back || (topHolds && subs[current + 1].pos > 0);
      var ok, some := Enter(input);
      ghost var sub := subs[current];
      MembersKept(before, subs);
      if !ok {
        RefusedHere(members[k + 1..], e, Positions(before, k + 1), back);
        NothingAfter(members, before, k);
        ResetValid(before, subs, k + 1);
        return false, false, lead, stepForRollback;
      }
      Down(members, before, k, e, back, input, sub);
      if !some {
        current := current - 1;
        again := true;
      } else {
        pipelineInc := pipelineInc + subs[current].tokens[0].inc - 1;
      }
    }

    /** To the next member, reset to a token, and onto the first token it makes of it. */
    method Enter(input: Token) returns (ok: bool, some: bool)
      requires current + 1 < |subs|
      modifies this`subs, this`current
      ensures current == old(current) + 1 && |subs| == |old(subs)| && subs == old(subs)[current := subs[current]]
      ensures var result := old(subs)[current].member(input.term);
              var blank := Sub(old(subs)[current].member, input, if result.Some? then result.value else [], 0, NOWHERE);
              && ok == result.Some? && some == (blank.tokens != [])
              && subs[current].member == blank.member && subs[current].tokens == blank.tokens && subs[current].taken == (if some then 1 else 0)
              && subs[current] == if some then Advanced(blank) else blank
    {
      current := current + 1;
      some := false;
      ok := ResetSub(current, input);
      if ok {
        some := NextOf(current);
      }
    }

    lemma MembersKept(a: seq<Sub>, b: seq<Sub>)
      requires |a| == |b| && forall i :: 0 <= i < |a| ==> a[i].member == b[i].member
      ensures Members(a) == Members(b)
    {}
  }

  /** Everything that comes of the input of the first member. */
  ghost function Started(members: seq<Member>, data: string, deep: seq<int>): Flow
    requires members != [] && |deep| == |members| - 1
  {
    match members[0](data)
    case None => Refused([])
    case Some(tokens) => Above(Position(tokens), RunAll(members[1..], Own(tokens, Token(data, 0, |data|, 0)), deep, false))
  }

  /** A token with the move of the whole stream. */
  function Moved(token: Token, lead: int, back: bool): Token {
    token.(inc := lead + if back then 1 else 0)
  }

  lemma PositionsBelow(a: seq<Sub>, b: seq<Sub>, k: nat)
    requires |a| == |b| && k < |a| && forall i :: k < i < |a| ==> a[i] == b[i]
    ensures Positions(a, k + 1) == Positions(b, k + 1)
  {}

  lemma RefusedHere(members: seq<Member>, e: Event, pos: seq<int>, back: bool)
    requires members != [] && |pos| == |members| && e.Step?
    ensures members[0](e.token.term).None? ==> Run(members, e, pos, back) == Refused([])
  {}

  lemma NothingAfter(members: seq<Member>, subs: seq<Sub>, k: nat)
    requires ValidUpTo(subs, k) && |members| == |subs|
    ensures Onward(members, subs, k, Refused([])) == Refused([])
  {}

  lemma ResetValid(before: seq<Sub>, after: seq<Sub>, k: nat)
    requires 0 < k < |before| == |after| && ValidUpTo(before, k - 1) && after[k].taken == 0 && after[k].pos == NOWHERE && forall i :: 0 <= i < k ==> after[i] == before[i]
    ensures ValidUpTo(after, k)
  {}

  lemma AtBottom(token: Token, holds: bool, back: bool)
    ensures Run([], Step(token, holds), [], back) == Flow([token.(inc := token.inc + if back then 1 else 0)], [], false)
    ensures Work([], Step(token, holds)) == 1
  {}
}
