/** Iterating over the positions of the current document. */
module Positions {
  import opened Limits
  import opened SkipFormat
  import opened PostingsFormat

  /** The frequency attribute of a document iterator; its position iterator reads it too. */
  class Frequency {
    var value: nat
    constructor ()
      ensures value == 0
    {
      value := 0;
    }
  }

  /** The file holds the position image of stream `d` at `start`. */
  ghost predicate PosStored(file: seq<PosToken>, start: nat, d: seq<int>) {
    start + |PosImage(d)| <= |file| && file[start..start + |PosImage(d)|] == PosImage(d)
  }

  lemma EmptyPosStored()
    ensures PosStored([], 0, [])
  {}

  lemma PosBlockAt(file: seq<PosToken>, start: nat, d: seq<int>, b: nat)
    requires PosStored(file, start, d) && BLOCK * (b + 1) <= |d|
    ensures start + b < |file| && file[start + b] == PosBlock(d[BLOCK * b..BLOCK * b + BLOCK])
  {
    assert file[start + b] == file[start..start + |PosImage(d)|][b];
  }

  lemma PosTailAt(file: seq<PosToken>, start: nat, d: seq<int>, k: nat)
    requires PosStored(file, start, d) && k < |d| % BLOCK
    ensures start + |d| / BLOCK + k < |file| && file[start + |d| / BLOCK + k] == PosVint(d[|d| / BLOCK * BLOCK + k])
  {
    assert file[start + |d| / BLOCK + k] == file[start..start + |PosImage(d)|][|d| / BLOCK + k];
  }

  /** Where the tail of a position stream starts, as a reader derives it from the term's metadata. */
  function TailStart(meta: TermMeta): Option<nat> {
    if meta.freq < BLOCK then Some(meta.posStart)
    else if meta.freq == BLOCK then None
    else if meta.posEnd.Some? then Some(meta.posStart + meta.posEnd.value)
    else None
  }

  /** A skip state that stands at a point of the stream: `done` values lie before it. */
  ghost predicate AtPoint(state: SkipState, start: nat, done: nat) {
    state.pend == done % BLOCK && state.posPtr == start + done / BLOCK
  }

  /** Positions of the current document already taken when `pend` are still to come. */
  function Taken(n: nat, pend: nat): nat {
    if pend >= n then 0 else n - pend
  }

  /** The first place from k on whose position is not less than the target. */
  ghost function FirstFrom(cur: seq<nat>, k: nat, target: nat): nat
    requires k <= |cur|
    decreases |cur| - k
  {
    if k == |cur| || target <= cur[k] then k else FirstFrom(cur, k + 1, target)
  }

  class PositionIterator {
    const posIn: seq<PosToken>
    const oneBased: bool
    const start: nat
    const tailStart: Option<nat>
    const tailLength: nat
    const freq: Frequency
    const deltas: array<int>
    var pos: nat        // place in the position file
    var pend: nat       // how many positions behind we are
    var bufPos: nat     // current place in `deltas`
    var cookiePend: nat
    var cookiePos: nat
    var value: nat

    ghost const d: seq<int>   // every position delta of the term
    ghost var at: nat         // index in d of the value under bufPos
    ghost var upTo: nat       // positions of all documents up to the current one

    /** The file, and where its tail is. */
    ghost predicate Stored() {
      && deltas.Length == BLOCK
      && PosStored(posIn, start, d)
      && tailLength == |d| % BLOCK
      && tailStart == if |d| < BLOCK then Some(start) else if |d| == BLOCK then None else Some(start + |d| / BLOCK)
    }

    /** The buffer and the file position agree on what comes next. */
    ghost predicate Buffered()
      reads this`pos, this`bufPos, this`at, deltas
    {
      && Stored() && bufPos <= BLOCK && at <= |d|
      && if bufPos == BLOCK then at % BLOCK == 0 && pos == start + at / BLOCK else Loaded(bufPos)
    }

    /** The buffer holds the block around `at`. */
    ghost predicate Loaded(i: nat)
      requires Stored() && i < BLOCK
      reads this`pos, this`at, deltas
    {
      && i <= at && (at - i) % BLOCK == 0
      && (forall k :: i <= k < BLOCK && at - i + k < |d| ==> deltas[k] == d[at - i + k])
      && (at - i + BLOCK <= |d| ==> pos == start + (at - i) / BLOCK + 1)
    }

    ghost predicate Valid()
      reads this`pos, this`bufPos, this`at, this`pend, this`upTo, this`cookiePos, this`cookiePend, deltas
    {
      && Buffered()
      && at + pend == upTo <= |d|
      && start <= cookiePos && BLOCK * (cookiePos - start) + cookiePend == upTo
    }

    /** The iterator stands at a document with these positions. */
    ghost predicate InStep(cur: seq<nat>)
      reads this, deltas, freq
    {
      && Valid()
      && freq.value == |cur| && 1 <= |cur| <= upTo && |cur| <= cookiePend
      && (forall x :: x in cur ==> 1 <= x < EOF)
      && d[upTo - |cur|..upTo] == PosDeltas(cur, if oneBased then 1 else 0)
      && Shows(cur)
    }

    ghost predicate Shows(cur: seq<nat>)
      reads this`value, this`pend
    {
      var k := Taken(|cur|, pend);
      if k == 0 then value == INVALID else value == cur[k - 1] || (pend == 0 && value == EOF)
    }

    constructor (posIn: seq<PosToken>, meta: TermMeta, oneBased: bool, freq: Frequency, ghost d: seq<int>)
      requires PosStored(posIn, meta.posStart, d) && meta.freq == |d|
      requires |d| > BLOCK ==> meta.posEnd == Some(|d| / BLOCK)
      ensures Valid() && upTo == 0 && this.d == d && this.freq == freq && this.start == meta.posStart && this.oneBased == oneBased
      ensures value == INVALID && fresh(deltas)
    {
      this.posIn, this.oneBased, this.start, this.freq, this.d := posIn, oneBased, meta.posStart, freq, d;
      tailStart, tailLength := TailStart(meta), meta.freq % BLOCK;
      deltas := new int[BLOCK];
      pos, pend, bufPos := meta.posStart, 0, BLOCK;
      cookiePend, cookiePos, value := 0, meta.posStart, INVALID;
      at, upTo := 0, 0;
    }

    /** The document iterator has skipped to a block that starts after `done` positions. */
    method Prepare(state: SkipState, ghost done: nat)
      requires Valid() && done <= |d| && AtPoint(state, start, done)
      modifies this
      ensures Valid() && upTo == done && value == old(value)
    {
      pos, pend, bufPos := state.posPtr, state.pend, BLOCK;
      cookiePos, cookiePend := state.posPtr, pend;
      at, upTo := done / BLOCK * BLOCK, done;
    }

    /** The document iterator has moved forward over n positions. */
    method Notify(n: nat)
      requires Valid() && upTo + n <= |d|
      modifies this`pend, this`cookiePend, this`upTo
      ensures Valid() && upTo == old(upTo) + n && pend == old(pend) + n && cookiePend == old(cookiePend) + n
    {
      pend, cookiePend, upTo := pend + n, cookiePend + n, upTo + n;
    }

    method Clear()
      modifies this`value
      ensures value == INVALID
    {
      value := INVALID;
    }

    /** Back to the first position of the current document. */
    method Reset(ghost cur: seq<nat>)
      requires InStep(cur)
      modifies this
      ensures InStep(cur) && pend >= |cur| && upTo == old(upTo)
    {
      value, bufPos, pend, pos := INVALID, BLOCK, cookiePend, cookiePos;
      at := BLOCK * (cookiePos - start);
    }

    method Refill()
      requires Stored() && at < |d| && at % BLOCK == 0 && pos == start + at / BLOCK
      modifies this`pos, deltas
      ensures Loaded(0)
    {
      if tailStart == Some(pos) {
        ReadTailBlock();
      } else {
        PosBlockAt(posIn, start, d, at / BLOCK);
        var block := posIn[pos].deltas;
        forall k | 0 <= k < BLOCK {
          deltas[k] := block[k];
        }
        pos := pos + 1;
      }
    }

    method ReadTailBlock()
      requires Stored() && at < |d| && at == |d| / BLOCK * BLOCK && pos == start + at / BLOCK
      modifies this`pos, deltas
      ensures Loaded(0)
    {
      var i := 0;
      while i < tailLength
        invariant 0 <= i <= tailLength && pos == start + at / BLOCK + i
        invariant forall k :: 0 <= k < i ==> deltas[k] == d[at + k]
      {
        PosTailAt(posIn, start, d, i);
        deltas[i] := posIn[pos].delta;
        pos := pos + 1;
        i := i + 1;
      }
    }

    /** Passes over `count` values, all of them before the last one of the stream. */
    method Skip(count: nat)
      requires Buffered() && at + count < |d|
      modifies this`pos, this`bufPos, this`value, this`at, deltas
      ensures Buffered() && bufPos < BLOCK && at == old(at) + count && value == INVALID
    {
      hide PosStored;
      var n := count;
      var left := BLOCK - bufPos;
      if n >= left {
        n := n - left;
        at := at + left;
        n := SkipBlocks(n);
        bufPos := 0;
        left := BLOCK;
      }
      if n < left {
        bufPos := bufPos + n;
        at := at + n;
      }
      Clear();
    }

    /** Passes over whole blocks and loads the one the rest of `count` lies in. */
    method SkipBlocks(count: nat) returns (n: nat)
      requires Stored() && at % BLOCK == 0 && at + count < |d|
      requires pos == start + at / BLOCK
      modifies this`pos, this`at, deltas
      ensures n < BLOCK && at + n == old(at) + count && at % BLOCK == 0 && Loaded(0)
    {
      hide PosStored, Stored;
      n := count;
      while n >= BLOCK
        invariant at + n == old(at) + count
        invariant at % BLOCK == 0 && pos == start + at / BLOCK
      {
        pos := pos + 1;
        n := n - BLOCK;
        at := at + BLOCK;
      }
      Refill();
    }

    /** Catches up with the current document. */
    method CatchUp(ghost cur: seq<nat>)
      requires InStep(cur)
      modifies this`pos, this`bufPos, this`value, this`at, this`pend, deltas
      ensures InStep(cur) && pend == if old(pend) > |cur| then |cur| else old(pend)
      ensures old(pend) <= |cur| ==> value == old(value)
    {
      if pend > freq.value {
        Skip(pend - freq.value);
        pend := freq.value;
      }
    }

    /** Takes one position. */
    method Take(ghost cur: seq<nat>)
      requires InStep(cur) && 0 < pend <= |cur|
      modifies this`pos, this`bufPos, this`value, this`at, this`pend, deltas
      ensures InStep(cur) && pend == old(pend) - 1 && value == cur[|cur| - old(pend)]
    {
      hide PosStored, PosDeltas, Buffered;
      NextDelta(cur);
      var delta := NextBuffered();
      if oneBased && value == INVALID {
        value := value + 1;
      }
      value := value + delta;
      pend := pend - 1;
    }

    method NextBuffered() returns (delta: int)
      requires Buffered() && at < |d|
      modifies this`pos, this`bufPos, this`at, deltas
      ensures Buffered() && at == old(at) + 1 && delta == d[old(at)]
    {
      hide PosStored;
      if bufPos == BLOCK {
        Refill();
        bufPos := 0;
      }
      delta := deltas[bufPos];
      bufPos := bufPos + 1;
      at := at + 1;
    }

    lemma NextDelta(cur: seq<nat>)
      requires InStep(cur) && 0 < pend <= |cur|
      ensures at < |d|
      ensures d[at] == cur[|cur| - pend] as int - if pend == |cur| then if oneBased then 1 else 0 else cur[|cur| - pend - 1]
      ensures value == if pend == |cur| then 0 else cur[|cur| - pend - 1]
      ensures value == 0 <==> pend == |cur|
    {
      assert d[at] == d[upTo - |cur|..upTo][|cur| - pend];
      if pend < |cur| {
        assert cur[|cur| - pend - 1] in cur;
      }
    }

    /** The next position of the current document, or its end. */
    method Next(ghost cur: seq<nat>) returns (more: bool)
      requires InStep(cur)
      modifies this`pos, this`bufPos, this`value, this`at, this`pend, deltas
      ensures InStep(cur)
      ensures var k := Taken(|cur|, old(pend));
              && more == (k < |cur|)
              && (more ==> value == cur[k] && Taken(|cur|, pend) == k + 1)
              && (!more ==> value == EOF && pend == old(pend))
    {
      if pend == 0 {
        value := EOF;
        return false;
      }
      CatchUp(cur);
      Take(cur);
      more := true;
    }

    /** The first of the current position and those after it that is not less than `target`, or the end. */
    method Seek(target: nat, ghost cur: seq<nat>) returns (found: nat)
      requires InStep(cur) && target <= EOF
      modifies this`pos, this`bufPos, this`value, this`at, this`pend, deltas
      ensures InStep(cur) && found == value
      ensures target <= old(value) ==> found == old(value) && Taken(|cur|, pend) == old(Taken(|cur|, pend))
      ensures old(value) < target ==>
                var i := FirstFrom(cur, old(Taken(|cur|, pend)), target);
                if i < |cur| then found == cur[i] && Taken(|cur|, pend) == i + 1 else found == EOF && pend == 0
    {
      hide PosStored, PosDeltas, Buffered;
      CatchUp(cur);
      ghost var k := Taken(|cur|, pend);
      while value < target && pend > 0
        invariant InStep(cur) && pend <= |cur| && k <= Taken(|cur|, pend)
        invariant if k == Taken(|cur|, pend) then value == old(value) else
                    old(value) < target && value == cur[Taken(|cur|, pend) - 1]
        invariant value < target ==> FirstFrom(cur, k, target) == FirstFrom(cur, Taken(|cur|, pend), target)
        invariant old(value) < target <= value ==> FirstFrom(cur, k, target) == Taken(|cur|, pend) - 1
        decreases pend
      {
        Take(cur);
      }
      if pend == 0 && value < target {
        value := EOF;
      }
      found := value;
    }
  }
}
