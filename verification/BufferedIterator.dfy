/** Iterating over a column that is kept in memory. */
module BufferedIterating {
  import opened Limits
  import opened BufferedColumns

  datatype Option<T> = None | Some(value: T)

  /** The first value from the i-th on whose document is not before the target. */
  ghost function FirstFrom(values: seq<Written>, target: nat, i: nat): (r: nat)
    requires i <= |values|
    ensures i <= r <= |values| && (r < |values| ==> target <= values[r].doc) && forall k :: i <= k < r ==> values[k].doc < target
    decreases |values| - i
  {
    if i == |values| || target <= values[i].doc then i else FirstFrom(values, target, i + 1)
  }

  lemma FirstFromIs(values: seq<Written>, target: nat, r: nat)
    requires r <= |values| && (r < |values| ==> target <= values[r].doc) && forall k :: 0 <= k < r ==> values[k].doc < target
    ensures FirstFrom(values, target, 0) == r
  {}

  class BufferedColumnIterator {
    const values: seq<BufferedValue>
    const data: Bytes
    var next: nat
    var value: nat
    var payload: Bytes

    ghost predicate Fixed() {
      ByKey(values) && Fits(data, values) && forall i :: 0 <= i < |values| ==> values[i].key < EOF
    }

    ghost predicate Valid()
      reads this
    {
      Fixed() && next <= |values|
    }

    /** At the last value taken. */
    ghost predicate At()
      requires Fixed()
      reads this
    {
      0 < next <= |values| && Written(value, payload) == All()[next - 1]
    }

    ghost function All(): seq<Written>
      requires Fixed()
    {
      Values(data, values)
    }

    constructor (values: seq<BufferedValue>, data: Bytes)
      requires ByKey(values) && Fits(data, values) && forall i :: 0 <= i < |values| ==> values[i].key < EOF
      ensures Valid() && this.values == values && this.data == data && next == 0 && value == INVALID
    {
      this.values, this.data := values, data;
      next, value, payload := 0, INVALID, [];
    }

    /** The next value, or the end for good. */
    method Next() returns (more: bool)
      requires Valid()
      modifies this
      ensures Valid() && (more <==> old(next) < |values|)
      ensures more ==> next == old(next) + 1 && At()
      ensures !more ==> next == |values| && value == EOF
    {
      if next == |values| {
        value := EOF;
        return false;
      }
      var v := values[next];
      value, payload := v.key, data[v.begin..v.begin + v.size];
      next := next + 1;
      more := true;
    }

    /** The first value that is not before the target, or the end; the iterator may move back. In a run of consecutive
        documents the place is computed, and elsewhere it is searched for. */
    method Seek(target: nat) returns (doc: nat)
      requires Valid() && values != []
      modifies this
      ensures Valid() && doc == value
      ensures var i := FirstFrom(All(), target, 0);
              if i < |values| then next == i + 1 && At() && value == All()[i].doc else next == |values| && value == EOF
    {
      var from := if next == |values| then 0 else next;
      var curr := from + target - values[from].key;
      if curr < 0 || |values| <= curr || values[curr].key != target {
        curr := LowerBound(target);
      }
      Landed(curr, target);
      next := curr;
      var more := Next();
      doc := value;
    }

    lemma Landed(curr: nat, target: nat)
      requires Fixed() && curr <= |values| && (curr < |values| ==> target <= values[curr].key)
      requires (curr < |values| && values[curr].key == target) || forall i :: 0 <= i < curr ==> values[i].key < target
      ensures FirstFrom(All(), target, 0) == curr
    {
      assert forall i :: 0 <= i < |values| ==> All()[i].doc == values[i].key;
      FirstFromIs(All(), target, curr);
    }

    /** Halves the range until the first value not before the target is left. */
    method LowerBound(target: nat) returns (r: nat)
      requires Fixed()
      ensures r <= |values| && (r < |values| ==> target <= values[r].key) && forall i :: 0 <= i < r ==> values[i].key < target
    {
      r := 0;
      var n: nat := |values|;
      while n > 0
        invariant r + n <= |values| && (forall i :: 0 <= i < r ==> values[i].key < target)
        invariant forall i :: r + n <= i < |values| ==> target <= values[i].key
      {
        var half := n / 2;
        if values[r + half].key < target {
          r, n := r + half + 1, n - half - 1;
        } else {
          n := half;
        }
      }
    }
  }
}
