/** Iterating over a term with a single document, which is kept in the term's metadata. */
module SingleDocs {
  import opened Limits
  import opened PostingsFormat
  import opened Positions
  import opened DocBlocks

  class SingleDocIterator {
    const wantFreq: bool
    const wantPos: bool
    const freq: Frequency
    const pos: PositionIterator
    var next: nat
    var value: nat

    ghost const t: Term

    ghost predicate Valid()
      reads this, freq, pos, pos.deltas
    {
      && t.Valid() && |t.p| == 1 && (wantPos ==> wantFreq && t.f.pos) && (wantFreq ==> t.f.freq && freq.value == t.p[0].freq)
      && pos.freq == freq
      && if next == EOF then (value == t.p[0].doc || value == EOF) && (wantPos ==> Follows(pos, t, 1))
         else next == t.p[0].doc && value == INVALID && (wantPos ==> Follows(pos, t, 0))
    }

    constructor (wantFreq: bool, wantPos: bool, meta: TermMeta, posFile: seq<PosToken>, f: Format, ghost t: Term)
      requires t.Valid() && |t.p| == 1 && t.meta == meta && t.posFile == posFile && t.f == f
      requires (wantFreq ==> f.freq) && (wantPos ==> wantFreq && f.pos)
      ensures Valid() && this.t == t && value == INVALID && next != EOF && this.wantFreq == wantFreq && this.wantPos == wantPos
      ensures fresh(freq) && fresh(pos) && fresh(pos.deltas)
    {
      hide PosStored, PositionIterator.Valid, Follows, Term.PosOk;
      this.wantFreq, this.wantPos, this.t := wantFreq, wantPos, t;
      next, value := MIN + meta.singleDoc, INVALID;
      var fr := new Frequency();
      if wantFreq {
        fr.value := meta.freq;
      }
      freq := fr;
      var ps := OpenPositions(wantPos, posFile, meta, f, fr, t);
      pos := ps;
    }

    /** The document, with its frequency and its positions, none of which is taken; then the end for good. */
    method Next() returns (more: bool)
      requires Valid()
      modifies this, pos
      ensures Valid() && next == EOF && more == (old(next) != EOF) && value == old(next)
      ensures more && wantPos ==> pos.InStep(t.p[0].positions) && pos.value == INVALID
      ensures !more ==> unchanged(pos)
    {
      hide PositionIterator.InStep, Follows, Term.PosOk, Term.BlocksStored, Term.TailStored, Term.SkipStored;
      OneStream();
      value, next := next, EOF;
      more := value != EOF;
      if wantPos && more {
        Arrive(pos, freq.value, t, 0, 0);
      }
    }

    lemma OneStream()
      requires t.Valid() && |t.p| == 1
      ensures MIN <= t.p[0].doc < EOF
      ensures t.f.pos ==> |t.Stream(0)| + t.p[0].freq == |t.Stream(1)|
    {
      StreamStep(t, 0);
    }

    /** The document if it is not before the target, else the end. */
    method Seek(target: nat) returns (doc: nat)
      requires Valid() && target <= EOF
      modifies this, pos
      ensures Valid() && doc == value
      ensures target <= old(value) ==> next == old(next) && value == old(value) && unchanged(pos)
      ensures old(value) < target ==> next == EOF && value == if old(next) != EOF && target <= t.p[0].doc then t.p[0].doc else EOF
      ensures old(value) < target && value != EOF && wantPos ==> pos.InStep(t.p[0].positions) && pos.value == INVALID
    {
      hide PositionIterator.InStep, Follows, Term.Valid;
      ghost var turns := 0;
      while value < target
        invariant Valid() && 0 <= turns <= 2
        invariant turns == 0 ==> value == old(value) && next == old(next) && unchanged(pos)
        invariant turns > 0 ==> old(value) < target && next == EOF
        invariant turns == 1 ==> value == old(next) && (wantPos && value != EOF ==> pos.InStep(t.p[0].positions) && pos.value == INVALID)
        invariant turns == 2 ==> value == EOF && old(next) < target
        decreases 2 - turns
      {
        var more := Next();
        turns := turns + 1;
      }
      doc := value;
    }
  }
}
